/**
 * Which schedules can lose words at all: those in which some call finds two windows to
 * decode. The condition is on the sizes of the pushes, known before any call.
 */
module Bursts {
  import opened Outcomes
  import opened Chunking
  import opened Finalizing
  import opened Streaming
  import opened Schedules

  /** Windows that were ready at the last poll. */
  function Polled(g: Geometry, calls: seq<Call>): nat
    requires g.Valid()
  {
    if calls == [] then 0
    else if calls[|calls| - 1].Poll? then g.ReadyCount(|AllPcm(calls)|)
    else Polled(g, calls[..|calls| - 1])
  }

  /** Windows that have become ready since. */
  function Fresh(g: Geometry, calls: seq<Call>): int
    requires g.Valid()
  {
    g.ReadyCount(|AllPcm(calls)|) - Polled(g, calls)
  }

  predicate HasTail(g: Geometry, stream: seq<Sample>)
    requires g.Valid()
  {
    g.FinalWindow(stream, g.ReadyCount(|stream|)).Some?
  }

  /** No poll finds more than one window. */
  predicate PollsOneAtATime(g: Geometry, calls: seq<Call>)
    requires g.Valid()
  {
    calls == []
    || (var before := calls[..|calls| - 1];
        PollsOneAtATime(g, before) && (calls[|calls| - 1].Poll? ==> Fresh(g, before) <= 1))
  }

  /** Nor does the end, the final window included. */
  predicate OneAtATime(g: Geometry, calls: seq<Call>)
    requires g.Valid()
  {
    PollsOneAtATime(g, calls) && Fresh(g, calls) + (if HasTail(g, AllPcm(calls)) then 1 else 0) <= 1
  }

  lemma ReadyCountGrows(g: Geometry, m: nat, n: nat)
    requires g.Valid() && m <= n
    ensures g.ReadyCount(m) <= g.ReadyCount(n)
  {
    if g.ReadyCount(m) > 0 {
      ReadyCountIsExact(g, m, g.ReadyCount(m) - 1);
      ReadyCountIsExact(g, n, g.ReadyCount(m) - 1);
    }
  }

  lemma {:induction false} FreshIsNotNegative(g: Geometry, calls: seq<Call>)
    requires g.Valid()
    ensures Fresh(g, calls) >= 0
  {
    if calls != [] {
      var before := calls[..|calls| - 1];
      FreshIsNotNegative(g, before);
      ReadyCountGrows(g, |AllPcm(before)|, |AllPcm(calls)|);
    }
  }

  // ---------------------------------------------------------------- one window at a time loses nothing

  /** A pass over at most one ready window takes it, and drained nothing if it failed. */
  lemma ShortDrain(cfg: Config, stream: seq<Sample>, taken: nat, core: Core)
    requires cfg.Valid()
    requires taken <= cfg.geometry.ReadyCount(|stream|) <= taken + 1
    ensures var d := Drain(cfg, stream, taken, core, []);
            && d.taken == cfg.geometry.ReadyCount(|stream|)
            && (d.pass.error.Some? ==> d.pass.drained == [] && d.taken == taken + 1)
            && (d.taken == taken ==> d.pass.drained == [])
  {
    var g := cfg.geometry;
    ReadyCountIsExact(g, |stream|, taken);
    ReadyCountIsExact(g, |stream|, taken + 1);
    hide Geometry.Ready, Geometry.ReadyCount, Geometry.WindowAt;
    if g.Ready(|stream|, taken) {
      FailedDecodeDrainsNothing(cfg, core, g.WindowAt(stream, taken));
    }
  }

  lemma FailedDecodeDrainsNothing(cfg: Config, core: Core, w: Window)
    requires cfg.Valid()
    ensures var p := DecodeOne(cfg, core, w); p.error.Some? ==> p.drained == []
  {
  }

  /** What polls keep while they find one window each: nothing is lost, and the cursor does not depend on failures. */
  predicate Kept(cfg: Config, calls: seq<Call>, t: Trace)
    requires cfg.Valid()
  {
    && t.lost == 0 && !t.state.done
    && t.state.received + t.state.input == AllPcm(calls)
    && t.state.taken == Polled(cfg.geometry, calls)
  }

  lemma {:induction false} SlowPollsLoseNothing(cfg: Config, calls: seq<Call>)
    requires cfg.Valid() && PollsOneAtATime(cfg.geometry, calls)
    ensures Kept(cfg, calls, Run(cfg, calls))
  {
    hide Drain, Geometry.Ready, Geometry.ReadyCount;
    if calls != [] {
      var before := calls[..|calls| - 1];
      SlowPollsLoseNothing(cfg, before);
      var t := Run(cfg, before);
      match calls[|calls| - 1] {
        case Push(pcm) =>
          assert t.state.received + (t.state.input + pcm) == AllPcm(before) + pcm;
        case Poll =>
          FreshIsNotNegative(cfg.geometry, before);
          assert AllPcm(calls) == AllPcm(before) && AllPcm(before) + [] == AllPcm(before);
          ShortDrain(cfg, AllPcm(before), t.state.taken, t.state.core);
      }
    }
  }

  lemma SlowRunsLoseNothing(cfg: Config, calls: seq<Call>)
    requires cfg.Valid() && OneAtATime(cfg.geometry, calls)
    ensures RunToEnd(cfg, calls).lost == 0
  {
    hide Drain, Geometry.Ready, Geometry.ReadyCount, Geometry.FinalWindow, Run;
    SlowPollsLoseNothing(cfg, calls);
    FreshIsNotNegative(cfg.geometry, calls);
    var s := Run(cfg, calls).state;
    var all := AllPcm(calls);
    ShortDrain(cfg, all, s.taken, s.core);
    var (s1, p) := PollStep(cfg, s);
    assert s1.received == all && s1.taken == cfg.geometry.ReadyCount(|all|);
    if p.error.None? && HasTail(cfg.geometry, all) {
      FailedDecodeDrainsNothing(cfg, s1.core, cfg.geometry.FinalWindow(all, s1.taken).value);
    }
  }

  // ---------------------------------------------------------------- a burst can lose a word

  /** Hears one word in window `n`, fails on the next, and hears nothing elsewhere. */
  function Breaking(n: nat, threshold: real): Decoder {
    (fed: seq<seq<Sample>>, samples: seq<Sample>) =>
      if |fed| == n then Ok([OneWord(threshold)])
      else if |fed| == n + 1 then Err("decode failed")
      else Ok([])
  }

  function OneWord(threshold: real): RawSegment {
    RawSegment(0, 0, ["a"], threshold, [])
  }

  function With(cfg: Config, decode: Decoder, gate: seq<Sample> -> bool): Config {
    cfg.(decode := decode, isSpeech := gate)
  }

  function Broken(cfg: Config, n: nat): Config {
    With(cfg, Breaking(n, cfg.noSpeechThreshold), s => true)
  }

  lemma BrokenGeometry(cfg: Config, n: nat)
    ensures Broken(cfg, n).geometry == cfg.geometry
    ensures cfg.Valid() ==> Broken(cfg, n).Valid()
  {
  }

  lemma SilentWindow(cfg: Config, n: nat, fed: seq<seq<Sample>>, w: Window)
    requires cfg.Valid() && |fed| < n
    ensures DecodeOne(Broken(cfg, n), Core([], fed), w) == Pass(Core([], fed + [w.samples]), [], None)
  {
    var c := Broken(cfg, n);
    assert c.decode(fed, w.samples) == Ok([]);
    assert WordsOf(c.StartMs(w), [], cfg.noSpeechThreshold) == [] && Merged([], []) == [];
  }

  lemma WordWindow(cfg: Config, n: nat, fed: seq<seq<Sample>>, w: Window)
    requires cfg.Valid() && |fed| == n
    ensures var p := DecodeOne(Broken(cfg, n), Core([], fed), w);
            |p.drained| == 1 && p.error.None? && p.core == Core([], fed + [w.samples])
  {
    var c := Broken(cfg, n);
    var start := c.StartMs(w);
    var word := Word("a", start, start, false);
    assert c.decode(fed, w.samples) == Ok([OneWord(cfg.noSpeechThreshold)]);
    OneWordIsHeard(start, cfg.noSpeechThreshold);
    assert Merged([], [word]) == [word];
    CommitCutUnique([word], c.HorizonOf(w), 1);
  }

  lemma OneWordIsHeard(start: nat, threshold: real)
    ensures WordsOf(start, [OneWord(threshold)], threshold) == [Word("a", start, start, false)]
  {
    var raw := OneWord(threshold);
    assert [raw][..0] == [] && WordsOf(start, [], threshold) == [];
    assert CoarseWords(["a"], start, start) == [Word("a", start, start, false)];
  }

  lemma FailingWindow(cfg: Config, n: nat, core: Core, w: Window)
    requires cfg.Valid() && |core.fed| == n + 1
    ensures DecodeOne(Broken(cfg, n), core, w).error.Some?
  {
  }

  /** Before its word, the decoder commits and holds nothing. */
  lemma {:induction false} SilentDrain(cfg: Config, n: nat, stream: seq<Sample>, taken: nat, fed: seq<seq<Sample>>)
    requires cfg.Valid() && |fed| == taken && taken <= cfg.geometry.ReadyCount(|stream|) <= n
    ensures var d := Drain(Broken(cfg, n), stream, taken, Core([], fed), []);
            && d.taken == cfg.geometry.ReadyCount(|stream|)
            && d.pass == Pass(Core([], d.pass.core.fed), [], None) && |d.pass.core.fed| == d.taken
    decreases cfg.geometry.ReadyCount(|stream|) - taken
  {
    ReadyCountIsExact(cfg.geometry, |stream|, taken);
    BrokenGeometry(cfg, n);
    hide Geometry.Ready, Geometry.ReadyCount, Geometry.WindowAt, DecodeOne, Broken, GeometryOf;
    if cfg.geometry.Ready(|stream|, taken) {
      var w := cfg.geometry.WindowAt(stream, taken);
      SilentWindow(cfg, n, fed, w);
      SilentDrain(cfg, n, stream, taken + 1, fed + [w.samples]);
    }
  }

  predicate Silent(cfg: Config, calls: seq<Call>, t: Trace)
    requires cfg.Valid()
  {
    && Kept(cfg, calls, t)
    && t.state.core == Core([], t.state.core.fed) && |t.state.core.fed| == t.state.taken
  }

  lemma {:induction false} SilentRun(cfg: Config, n: nat, calls: seq<Call>)
    requires cfg.Valid() && Polled(cfg.geometry, calls) <= n
    ensures Silent(Broken(cfg, n), calls, Run(Broken(cfg, n), calls))
  {
    hide Drain, Geometry.Ready, Geometry.ReadyCount;
    if calls != [] {
      var before := calls[..|calls| - 1];
      var c := Broken(cfg, n);
      FreshIsNotNegative(cfg.geometry, before);
      match calls[|calls| - 1] {
        case Push(pcm) =>
          SilentRun(cfg, n, before);
          var t := Run(c, before);
          assert t.state.received + (t.state.input + pcm) == AllPcm(before) + pcm;
        case Poll =>
          assert AllPcm(calls) == AllPcm(before) && AllPcm(before) + [] == AllPcm(before);
          SilentRun(cfg, n, before);
          var t := Run(c, before);
          SilentDrain(cfg, n, AllPcm(before), t.state.taken, t.state.core.fed);
      }
    }
  }

  /** With two windows ready at the word, the pass drains it and then fails. */
  lemma BurstDrain(cfg: Config, stream: seq<Sample>, fed: seq<seq<Sample>>)
    requires cfg.Valid() && |fed| + 2 <= cfg.geometry.ReadyCount(|stream|)
    ensures var d := Drain(Broken(cfg, |fed|), stream, |fed|, Core([], fed), []);
            d.pass.error.Some? && |d.pass.drained| == 1
  {
    var g, n := cfg.geometry, |fed|;
    ReadyCountIsExact(g, |stream|, n);
    ReadyCountIsExact(g, |stream|, n + 1);
    BrokenGeometry(cfg, n);
    hide Geometry.Ready, Geometry.ReadyCount, Geometry.WindowAt, DecodeOne, Broken, GeometryOf;
    var c := Broken(cfg, n);
    WordWindow(cfg, n, fed, g.WindowAt(stream, n));
    var p := DecodeOne(c, Core([], fed), g.WindowAt(stream, n));
    FailingWindow(cfg, n, p.core, g.WindowAt(stream, n + 1));
    FailedDecodeDrainsNothing(c, p.core, g.WindowAt(stream, n + 1));
    DrainFails(c, stream, n + 1, p.core, [] + p.drained);
    DrainGoesOn(c, stream, n, Core([], fed), []);
  }

  lemma DrainGoesOn(cfg: Config, stream: seq<Sample>, taken: nat, core: Core, out: seq<Word>)
    requires cfg.Valid() && cfg.geometry.Ready(|stream|, taken)
    requires DecodeOne(cfg, core, cfg.geometry.WindowAt(stream, taken)).error.None?
    ensures var p := DecodeOne(cfg, core, cfg.geometry.WindowAt(stream, taken));
            Drain(cfg, stream, taken, core, out) == Drain(cfg, stream, taken + 1, p.core, out + p.drained)
  {
    hide DecodeOne, Geometry.Ready, Geometry.WindowAt;
  }

  lemma DrainFails(cfg: Config, stream: seq<Sample>, taken: nat, core: Core, out: seq<Word>)
    requires cfg.Valid() && cfg.geometry.Ready(|stream|, taken)
    requires var p := DecodeOne(cfg, core, cfg.geometry.WindowAt(stream, taken)); p.error.Some? && p.drained == []
    ensures var d := Drain(cfg, stream, taken, core, out); d.pass.error.Some? && d.pass.drained == out
  {
    hide DecodeOne, Geometry.Ready, Geometry.WindowAt;
    assert out + [] == out;
  }

  /** With one ready, the pass drains the word and stops there. */
  lemma WordDrain(cfg: Config, stream: seq<Sample>, fed: seq<seq<Sample>>)
    requires cfg.Valid() && |fed| + 1 == cfg.geometry.ReadyCount(|stream|)
    ensures var d := Drain(Broken(cfg, |fed|), stream, |fed|, Core([], fed), []);
            d.taken == |fed| + 1 && d.pass.error.None? && |d.pass.drained| == 1 && |d.pass.core.fed| == |fed| + 1
  {
    var g, n := cfg.geometry, |fed|;
    ReadyCountIsExact(g, |stream|, n);
    ReadyCountIsExact(g, |stream|, n + 1);
    BrokenGeometry(cfg, n);
    hide Geometry.Ready, Geometry.ReadyCount, Geometry.WindowAt, DecodeOne, Broken, GeometryOf;
    WordWindow(cfg, n, fed, g.WindowAt(stream, n));
  }

  lemma {:induction false} LostStaysLost(cfg: Config, calls: seq<Call>, k: nat)
    requires cfg.Valid() && k <= |calls| && Run(cfg, calls[..k]).lost > 0
    ensures Run(cfg, calls).lost > 0
    decreases |calls|
  {
    hide PollStep;
    if k == |calls| {
      assert calls[..k] == calls;
    } else {
      assert calls[..|calls| - 1][..k] == calls[..k];
      LostStaysLost(cfg, calls[..|calls| - 1], k);
    }
  }

  /** The first poll that finds two windows. */
  lemma {:induction false} FirstBurst(g: Geometry, calls: seq<Call>) returns (k: nat)
    requires g.Valid() && !PollsOneAtATime(g, calls)
    ensures k < |calls| && calls[k].Poll? && Fresh(g, calls[..k]) >= 2
  {
    var last := |calls| - 1;
    if PollsOneAtATime(g, calls[..last]) {
      k := last;
    } else {
      k := FirstBurst(g, calls[..last]);
      assert calls[..last][..k] == calls[..k];
    }
  }

  lemma BurstPollLoses(cfg: Config, calls: seq<Call>)
    requires cfg.Valid() && Fresh(cfg.geometry, calls) >= 2
    ensures Run(Broken(cfg, Polled(cfg.geometry, calls)), calls + [Poll]).lost > 0
    ensures RunToEnd(Broken(cfg, Polled(cfg.geometry, calls)), calls).lost > 0
  {
    hide Drain, Geometry.Ready, Geometry.ReadyCount, Run;
    var n := Polled(cfg.geometry, calls);
    var c := Broken(cfg, n);
    SilentRun(cfg, n, calls);
    var s := Run(c, calls).state;
    BurstDrain(cfg, AllPcm(calls), s.core.fed);
    RunSnoc(c, calls, Poll);
  }

  lemma BurstEndLoses(cfg: Config, calls: seq<Call>)
    requires cfg.Valid() && Fresh(cfg.geometry, calls) == 1 && HasTail(cfg.geometry, AllPcm(calls))
    ensures RunToEnd(Broken(cfg, Polled(cfg.geometry, calls)), calls).lost > 0
  {
    hide Drain, Geometry.Ready, Geometry.ReadyCount, Geometry.FinalWindow, Run, DecodeOne;
    var n := Polled(cfg.geometry, calls);
    var c := Broken(cfg, n);
    SilentRun(cfg, n, calls);
    var s := Run(c, calls).state;
    var all := AllPcm(calls);
    WordDrain(cfg, all, s.core.fed);
    var (s1, p) := PollStep(c, s);
    assert s1.received == all && s1.taken == cfg.geometry.ReadyCount(|all|);
    FailingWindow(cfg, n, s1.core, cfg.geometry.FinalWindow(all, s1.taken).value);
  }

  /** A schedule in which some call finds two windows loses a word with some decoder. */
  lemma BurstsCanLose(cfg: Config, calls: seq<Call>) returns (n: nat)
    requires cfg.Valid() && !OneAtATime(cfg.geometry, calls)
    ensures RunToEnd(Broken(cfg, n), calls).lost > 0
  {
    hide Run, EndStep, Polled;
    if PollsOneAtATime(cfg.geometry, calls) {
      n := Polled(cfg.geometry, calls);
      if Fresh(cfg.geometry, calls) >= 2 {
        BurstPollLoses(cfg, calls);
      } else {
        BurstEndLoses(cfg, calls);
      }
    } else {
      var k := FirstBurst(cfg.geometry, calls);
      n := Polled(cfg.geometry, calls[..k]);
      BurstPollLoses(cfg, calls[..k]);
      assert calls[..k] + [Poll] == calls[..k + 1];
      LostStaysLost(Broken(cfg, n), calls, k + 1);
    }
  }

  /** The caller got every word the finalizer let go of. */
  predicate NothingLost(cfg: Config, calls: seq<Call>)
    requires cfg.Valid()
  {
    RunToEnd(cfg, calls).emitted == Emit(RunToEnd(cfg, calls).drained)
  }

  /**
   * A schedule can lose no drained word, whatever the decoder and the gate do, exactly when
   * no poll finds two windows ready and the end finds no more than one, its final window
   * included.
   */
  lemma LossNeedsABurst(cfg: Config, calls: seq<Call>)
    requires cfg.Valid()
    ensures OneAtATime(cfg.geometry, calls)
            <==> forall decode: Decoder, gate: seq<Sample> -> bool :: NothingLost(With(cfg, decode, gate), calls)
  {
    hide OneAtATime, Run, RunToEnd, EndStep, Emit;
    if OneAtATime(cfg.geometry, calls) {
      forall decode: Decoder, gate: seq<Sample> -> bool
        ensures NothingLost(With(cfg, decode, gate), calls)
      {
        SlowRunsLoseNothing(With(cfg, decode, gate), calls);
        LossIsExactlyFailingCalls(With(cfg, decode, gate), calls);
      }
    } else {
      var n := BurstsCanLose(cfg, calls);
      LossIsExactlyFailingCalls(Broken(cfg, n), calls);
      assert !NothingLost(Broken(cfg, n), calls);
    }
  }
}
