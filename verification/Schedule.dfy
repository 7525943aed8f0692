/**
 * The transcript does not depend on how audio was pushed or when it was polled.
 *
 * Every run is compared with one fold of the finalizer over the windows of the whole
 * stream, in which a window that fails to decode contributes nothing.
 */
module Schedules {
  import opened Outcomes
  import opened Chunking
  import opened Finalizing
  import opened Streaming

  // ---------------------------------------------------------------- the fold

  datatype Folded = Folded(core: Core, drained: seq<Word>, failed: bool)

  function Fold(cfg: Config, ws: seq<Window>): Folded
    requires cfg.Valid()
  {
    if ws == [] then Folded(Core([], []), [], false)
    else
      var f := Fold(cfg, ws[..|ws| - 1]);
      var p := DecodeOne(cfg, f.core, ws[|ws| - 1]);
      Folded(p.core, f.drained + p.drained, f.failed || p.error.Some?)
  }

  lemma FoldSnoc(cfg: Config, ws: seq<Window>, w: Window)
    requires cfg.Valid()
    ensures var f := Fold(cfg, ws);
            var p := DecodeOne(cfg, f.core, w);
            Fold(cfg, ws + [w]) == Folded(p.core, f.drained + p.drained, f.failed || p.error.Some?)
  {
    assert (ws + [w])[..|ws|] == ws;
  }

  lemma {:induction false} FoldFailureSticks(cfg: Config, ws: seq<Window>, k: nat)
    requires cfg.Valid() && k <= |ws|
    requires Fold(cfg, ws[..k]).failed
    ensures Fold(cfg, ws).failed
    decreases |ws|
  {
    if k == |ws| {
      assert ws[..k] == ws;
    } else {
      assert ws[..|ws| - 1][..k] == ws[..k];
      FoldFailureSticks(cfg, ws[..|ws| - 1], k);
    }
  }

  // ---------------------------------------------------------------- windows of a stream

  predicate Taken(g: Geometry, len: nat, k: nat) {
    k == 0 || g.Ready(len, k - 1)
  }

  lemma ReadyCountIsTaken(g: Geometry, len: nat)
    requires g.Valid()
    ensures Taken(g, len, g.ReadyCount(len))
  {
    if g.ReadyCount(len) > 0 {
      ReadyCountIsExact(g, len, g.ReadyCount(len) - 1);
    }
  }

  function ReadyWindows(g: Geometry, stream: seq<Sample>, k: nat): (ws: seq<Window>)
    requires Taken(g, |stream|, k)
    ensures |ws| == k
  {
    if k == 0 then []
    else
      MulMonotone(if k == 1 then 0 else k - 2, k - 1, g.step);
      ReadyWindows(g, stream, k - 1) + [g.WindowAt(stream, k - 1)]
  }

  /** Every window the whole stream is decoded as: the ready ones, then the rest. */
  function SpecWindows(g: Geometry, stream: seq<Sample>): seq<Window>
    requires g.Valid()
  {
    var n := g.ReadyCount(|stream|);
    ReadyCountIsTaken(g, |stream|);
    var tail := g.FinalWindow(stream, n);
    ReadyWindows(g, stream, n) + (if tail.Some? then [tail.value] else [])
  }

  lemma {:induction false} ReadyWindowsAreStable(g: Geometry, stream: seq<Sample>, more: seq<Sample>, k: nat)
    requires Taken(g, |stream|, k)
    ensures Taken(g, |stream + more|, k)
    ensures ReadyWindows(g, stream + more, k) == ReadyWindows(g, stream, k)
  {
    if k > 0 {
      MulMonotone(if k == 1 then 0 else k - 2, k - 1, g.step);
      ReadyWindowsAreStable(g, stream, more, k - 1);
      WindowIsStable(g, stream, more, k - 1);
    }
  }

  lemma {:induction false} ReadyWindowsPrefix(g: Geometry, stream: seq<Sample>, j: nat, k: nat)
    requires j <= k && Taken(g, |stream|, k)
    ensures Taken(g, |stream|, j)
    ensures ReadyWindows(g, stream, k)[..j] == ReadyWindows(g, stream, j)
  {
    if j < k {
      MulMonotone(if k == 1 then 0 else k - 2, k - 1, g.step);
      ReadyWindowsPrefix(g, stream, j, k - 1);
      assert ReadyWindows(g, stream, k)[..j] == ReadyWindows(g, stream, k - 1)[..j];
    }
  }

  // ---------------------------------------------------------------- schedules

  datatype Call = Push(pcm: seq<Sample>) | Poll

  function AllPcm(calls: seq<Call>): seq<Sample> {
    if calls == [] then []
    else
      var last := calls[|calls| - 1];
      AllPcm(calls[..|calls| - 1]) + (if last.Push? then last.pcm else [])
  }

  /**
   * A run so far: the state, the segments returned by successful calls, the words the
   * finalizer drained, how many of those a failing call threw away, and whether every
   * call succeeded.
   */
  datatype Trace = Trace(state: State, emitted: seq<FinalizedSegment>, drained: seq<Word>, lost: nat, ok: bool)

  function Record(t: Trace, r: (State, Pass)): Trace {
    match Returned(r.1)
    case Ok(segments) => Trace(r.0, t.emitted + segments, t.drained + r.1.drained, t.lost, t.ok)
    case Err(_) => Trace(r.0, t.emitted, t.drained + r.1.drained, t.lost + |r.1.drained|, false)
  }

  function Run(cfg: Config, calls: seq<Call>): Trace
    requires cfg.Valid()
  {
    if calls == [] then Trace(INITIAL, [], [], 0, true)
    else
      var t := Run(cfg, calls[..|calls| - 1]);
      match calls[|calls| - 1]
      case Push(pcm) => t.(state := t.state.(input := t.state.input + pcm))
      case Poll => Record(t, PollStep(cfg, t.state))
  }

  function RunToEnd(cfg: Config, calls: seq<Call>): Trace
    requires cfg.Valid()
  {
    var t := Run(cfg, calls);
    Record(t, EndStep(cfg, t.state))
  }

  // ---------------------------------------------------------------- every run is the fold

  function FoldTo(cfg: Config, stream: seq<Sample>, k: nat): Folded
    requires cfg.Valid() && Taken(cfg.geometry, |stream|, k)
  {
    Fold(cfg, ReadyWindows(cfg.geometry, stream, k))
  }

  lemma ReadyIsTaken(g: Geometry, len: nat, k: nat)
    requires g.Valid() && g.Ready(len, k)
    ensures Taken(g, len, k) && Taken(g, len, k + 1) && k <= len
  {
    ReadyIsWithin(g, len, k);
    if k > 0 {
      MulMonotone(k - 1, k, g.step);
    }
  }

  lemma FoldOneMore(cfg: Config, stream: seq<Sample>, k: nat)
    requires cfg.Valid() && cfg.geometry.Ready(|stream|, k)
    ensures Taken(cfg.geometry, |stream|, k) && Taken(cfg.geometry, |stream|, k + 1) && k <= |stream|
    ensures var f := FoldTo(cfg, stream, k);
            var p := DecodeOne(cfg, f.core, cfg.geometry.WindowAt(stream, k));
            FoldTo(cfg, stream, k + 1) == Folded(p.core, f.drained + p.drained, f.failed || p.error.Some?)
  {
    ReadyIsTaken(cfg.geometry, |stream|, k);
    hide Geometry.Ready, Geometry.WindowAt, Fold, DecodeOne;
    FoldSnoc(cfg, ReadyWindows(cfg.geometry, stream, k), cfg.geometry.WindowAt(stream, k));
  }

  lemma StopsAtReadyCount(g: Geometry, len: nat, k: nat)
    requires g.Valid() && Taken(g, len, k)
    ensures k <= g.ReadyCount(len)
    ensures !g.Ready(len, k) ==> k == g.ReadyCount(len)
  {
    ReadyCountIsExact(g, len, k);
    if k > 0 {
      ReadyCountIsExact(g, len, k - 1);
    }
  }

  lemma {:induction false} DrainFollowsFold(
    cfg: Config, stream: seq<Sample>, taken: nat, core: Core, before: seq<Word>, out: seq<Word>)
    requires cfg.Valid() && Taken(cfg.geometry, |stream|, taken)
    requires core == FoldTo(cfg, stream, taken).core
    requires before + out == FoldTo(cfg, stream, taken).drained
    ensures var d := Drain(cfg, stream, taken, core, out);
            && Taken(cfg.geometry, |stream|, d.taken)
            && (d.pass.error.None? ==> !cfg.geometry.Ready(|stream|, d.taken))
            && d.pass.core == FoldTo(cfg, stream, d.taken).core
            && before + d.pass.drained == FoldTo(cfg, stream, d.taken).drained
            && (FoldTo(cfg, stream, d.taken).failed <==> FoldTo(cfg, stream, taken).failed || d.pass.error.Some?)
    decreases |stream| + 1 - taken
  {
    hide DecodeOne, FoldTo, Geometry.Ready;
    if cfg.geometry.Ready(|stream|, taken) {
      FoldOneMore(cfg, stream, taken);
      var p := DecodeOne(cfg, core, cfg.geometry.WindowAt(stream, taken));
      assert before + (out + p.drained) == before + out + p.drained;
      if p.error.None? {
        DrainFollowsFold(cfg, stream, taken + 1, p.core, before, out + p.drained);
      }
    }
  }

  ghost predicate FollowsFold(cfg: Config, t: Trace, all: seq<Sample>)
    requires cfg.Valid()
  {
    && t.state.received + t.state.input == all
    && !t.state.done && !t.state.flushed
    && Taken(cfg.geometry, |t.state.received|, t.state.taken)
    && var f := FoldTo(cfg, t.state.received, t.state.taken);
       t.state.core == f.core && t.drained == f.drained && (t.ok <==> !f.failed)
  }

  lemma PollFollowsFold(cfg: Config, t: Trace, all: seq<Sample>)
    requires cfg.Valid() && FollowsFold(cfg, t, all)
    ensures FollowsFold(cfg, Record(t, PollStep(cfg, t.state)), all)
    ensures var s := PollStep(cfg, t.state);
            s.0.received == all && (s.1.error.None? ==> s.0.taken == cfg.geometry.ReadyCount(|all|))
  {
    var s := t.state;
    ReadyWindowsAreStable(cfg.geometry, s.received, s.input, s.taken);
    assert t.drained + [] == t.drained;
    DrainFollowsFold(cfg, all, s.taken, s.core, t.drained, []);
    StopsAtReadyCount(cfg.geometry, |all|, PollStep(cfg, s).0.taken);
    assert all + [] == all;
  }

  lemma {:induction false} RunFollowsFold(cfg: Config, calls: seq<Call>)
    requires cfg.Valid()
    ensures FollowsFold(cfg, Run(cfg, calls), AllPcm(calls))
  {
    if calls != [] {
      var prefix := calls[..|calls| - 1];
      RunFollowsFold(cfg, prefix);
      var t := Run(cfg, prefix);
      match calls[|calls| - 1] {
        case Push(pcm) =>
          assert t.state.received + (t.state.input + pcm) == AllPcm(prefix) + pcm;
        case Poll =>
          assert AllPcm(calls) == AllPcm(prefix);
          PollFollowsFold(cfg, t, AllPcm(prefix));
      }
    }
  }

  /** Everything the finalizer ever commits or still holds, over the windows of the stream. */
  function Transcript(cfg: Config, stream: seq<Sample>): seq<Word>
    requires cfg.Valid()
  {
    var f := Fold(cfg, SpecWindows(cfg.geometry, stream));
    f.drained + f.core.pending
  }

  predicate DecodesClean(cfg: Config, stream: seq<Sample>)
    requires cfg.Valid()
  {
    !Fold(cfg, SpecWindows(cfg.geometry, stream)).failed
  }

  lemma FinalWindowHoldsNothing(cfg: Config, core: Core, w: Window)
    requires cfg.Valid() && w.isFinal
    ensures var p := DecodeOne(cfg, core, w); p.error.None? ==> p.core.pending == []
  {
    var p := DecodeOne(cfg, core, w);
    if p.error.None? {
      var all := p.drained + p.core.pending;
      CommitCutUnique(all, Never, |all|);
    }
  }

  lemma FailureReachesTheEnd(cfg: Config, stream: seq<Sample>, k: nat)
    requires cfg.Valid() && Taken(cfg.geometry, |stream|, k)
    requires FoldTo(cfg, stream, k).failed
    ensures !DecodesClean(cfg, stream)
  {
    var g, n := cfg.geometry, cfg.geometry.ReadyCount(|stream|);
    ReadyCountIsTaken(g, |stream|);
    StopsAtReadyCount(g, |stream|, k);
    ReadyWindowsPrefix(g, stream, k, n);
    assert SpecWindows(g, stream)[..k] == ReadyWindows(g, stream, n)[..k];
    FoldFailureSticks(cfg, SpecWindows(g, stream), k);
  }

  /** The whole stream, once its ready windows are folded: the final window, or a flush of what is held. */
  lemma TranscriptFromReady(cfg: Config, stream: seq<Sample>)
    requires cfg.Valid()
    ensures Taken(cfg.geometry, |stream|, cfg.geometry.ReadyCount(|stream|))
    ensures var n := cfg.geometry.ReadyCount(|stream|);
            var f := FoldTo(cfg, stream, n);
            match cfg.geometry.FinalWindow(stream, n)
            case None => (DecodesClean(cfg, stream) <==> !f.failed) && Transcript(cfg, stream) == f.drained + f.core.pending
            case Some(w) =>
              var q := DecodeOne(cfg, f.core, w);
              && (DecodesClean(cfg, stream) <==> !f.failed && q.error.None?)
              && (q.error.None? ==> Transcript(cfg, stream) == f.drained + q.drained)
  {
    var g, n := cfg.geometry, cfg.geometry.ReadyCount(|stream|);
    ReadyCountIsTaken(g, |stream|);
    var ready := ReadyWindows(g, stream, n);
    match g.FinalWindow(stream, n) {
      case None =>
        assert SpecWindows(g, stream) == ready;
      case Some(w) =>
        FoldSnoc(cfg, ready, w);
        FinalWindowHoldsNothing(cfg, Fold(cfg, ready).core, w);
    }
  }

  /** Ending any such run: it succeeds throughout iff the stream decodes clean, and then it drained the transcript. */
  lemma EndFrom(cfg: Config, t0: Trace, all: seq<Sample>)
    requires cfg.Valid() && FollowsFold(cfg, t0, all)
    ensures var t := Record(t0, EndStep(cfg, t0.state));
            && (t.ok <==> DecodesClean(cfg, all))
            && (t.ok ==> t.drained == Transcript(cfg, all))
    ensures EndStep(cfg, t0.state).0.received == all && EndStep(cfg, t0.state).0.input == []
    ensures EndStep(cfg, t0.state).1.error.None? ==> EndStep(cfg, t0.state).0.done
  {
    hide DecodeOne, Drain, FoldTo, Fold;
    PollFollowsFold(cfg, t0, all);
    TranscriptFromReady(cfg, all);
    var (s1, p) := PollStep(cfg, t0.state);
    assert FollowsFold(cfg, Record(t0, (s1, p)), all);
    if !Record(t0, (s1, p)).ok {
      FailureReachesTheEnd(cfg, all, s1.taken);
    } else {
      match cfg.geometry.FinalWindow(all, s1.taken) {
        case None =>
          assert t0.drained + (p.drained + s1.core.pending) == t0.drained + p.drained + s1.core.pending;
        case Some(w) =>
          var q := DecodeOne(cfg, s1.core, w);
          assert t0.drained + (p.drained + q.drained) == t0.drained + p.drained + q.drained;
      }
    }
  }

  /** A run to the end succeeds throughout iff the stream decodes clean, and then it drained the transcript. */
  lemma EndFollowsFold(cfg: Config, calls: seq<Call>)
    requires cfg.Valid()
    ensures var t := RunToEnd(cfg, calls);
            && (t.ok <==> DecodesClean(cfg, AllPcm(calls)))
            && (t.ok ==> t.drained == Transcript(cfg, AllPcm(calls)))
  {
    hide EndStep, Run, FollowsFold;
    RunFollowsFold(cfg, calls);
    EndFrom(cfg, Run(cfg, calls), AllPcm(calls));
  }

  // ---------------------------------------------------------------- main results

  lemma EmitInjectiveOnLength(ws: seq<Word>)
    ensures |Emit(ws)| == |ws|
  {
  }

  /** Words drained are either emitted or lost, and the emitted text is complete iff no failing call drained a word. */
  ghost predicate Accounted(t: Trace) {
    && |t.emitted| + t.lost == |t.drained|
    && (t.emitted == Emit(t.drained) <==> t.lost == 0)
  }

  lemma RecordIsAccounted(t: Trace, r: (State, Pass))
    requires Accounted(t)
    ensures Accounted(Record(t, r))
  {
    EmitConcat(t.drained, r.1.drained);
    EmitInjectiveOnLength(t.drained);
    EmitInjectiveOnLength(r.1.drained);
    EmitInjectiveOnLength(t.drained + r.1.drained);
    assert t.drained + [] == t.drained;
  }

  /**
   * Whatever fails: the words drained are those of the fold over the windows taken,
   * and the caller got all of them exactly when no failing call had drained one.
   */
  lemma {:induction false} LossIsExactlyFailingCalls(cfg: Config, calls: seq<Call>)
    requires cfg.Valid()
    ensures var t := Run(cfg, calls);
            && Accounted(t)
            && Taken(cfg.geometry, |t.state.received|, t.state.taken)
            && t.drained == FoldTo(cfg, t.state.received, t.state.taken).drained
    ensures Accounted(RunToEnd(cfg, calls))
  {
    RunFollowsFold(cfg, calls);
    if calls != [] {
      LossIsExactlyFailingCalls(cfg, calls[..|calls| - 1]);
      var t := Run(cfg, calls[..|calls| - 1]);
      if calls[|calls| - 1].Poll? {
        RecordIsAccounted(t, PollStep(cfg, t.state));
      }
    }
    var t := Run(cfg, calls);
    RecordIsAccounted(t, EndStep(cfg, t.state));
  }

  lemma {:induction false} CleanRunLosesNothing(cfg: Config, calls: seq<Call>)
    requires cfg.Valid() && Run(cfg, calls).ok
    ensures Run(cfg, calls).lost == 0
  {
    if calls != [] {
      CleanRunLosesNothing(cfg, calls[..|calls| - 1]);
    }
  }

  /**
   * Two schedules of the same audio both succeed or both fail, and when they succeed
   * they emit the same segments: those of the fold over the windows of the stream. One
   * push of everything followed by `end` is one such schedule.
   */
  lemma ScheduleIndependence(cfg: Config, calls: seq<Call>, other: seq<Call>)
    requires cfg.Valid() && AllPcm(calls) == AllPcm(other)
    ensures RunToEnd(cfg, calls).ok <==> RunToEnd(cfg, other).ok
    ensures RunToEnd(cfg, calls).ok ==>
              && RunToEnd(cfg, calls).emitted == RunToEnd(cfg, other).emitted
              && RunToEnd(cfg, calls).emitted == Emit(Transcript(cfg, AllPcm(calls)))
  {
    EndFollowsFold(cfg, calls);
    EndFollowsFold(cfg, other);
    if RunToEnd(cfg, calls).ok {
      CleanRunLosesNothing(cfg, calls);
      CleanRunLosesNothing(cfg, other);
      LossIsExactlyFailingCalls(cfg, calls);
      LossIsExactlyFailingCalls(cfg, other);
    }
  }

  lemma FoldToIsStable(cfg: Config, stream: seq<Sample>, more: seq<Sample>, k: nat)
    requires cfg.Valid() && Taken(cfg.geometry, |stream|, k)
    ensures Taken(cfg.geometry, |stream + more|, k)
    ensures FoldTo(cfg, stream + more, k) == FoldTo(cfg, stream, k)
  {
    ReadyWindowsAreStable(cfg.geometry, stream, more, k);
  }

  /** A second `end` with no audio in between returns nothing and leaves the held words alone. */
  lemma EndIsIdempotent(cfg: Config, s: State)
    requires cfg.Valid() && EndStep(cfg, s).1.error.None?
    requires Taken(cfg.geometry, |s.received|, s.taken) && s.core == FoldTo(cfg, s.received, s.taken).core
    ensures var once := EndStep(cfg, s).0;
            && EndStep(cfg, once).1 == Pass(once.core, [], None)
            && EndStep(cfg, once).0.core == once.core
  {
    hide DecodeOne, FoldTo, Fold, ReadyWindows, Geometry.Ready;
    var once := EndStep(cfg, s).0;
    FoldToIsStable(cfg, s.received, s.input, s.taken);
    var f := FoldTo(cfg, s.received, s.taken);
    assert f.drained + [] == f.drained;
    DrainFollowsFold(cfg, s.received + s.input, s.taken, s.core, f.drained, []);
    assert once.received + once.input == once.received;
    var (s1, p) := PollStep(cfg, s);
    match (if s1.done then None else cfg.geometry.FinalWindow(s1.received, s1.taken)) {
      case Some(w) => FinalWindowHoldsNothing(cfg, s1.core, w);
      case None =>
    }
  }

  // ---------------------------------------------------------------- why the hypothesis is needed

  /** Hears "a" in its first window, fails on its second, hears nothing after. */
  const FLAKY: Config := Config(1, 1.0, 0.0, 0.6, s => true,
    (fed: seq<seq<Sample>>, samples: seq<Sample>) =>
      if |fed| == 0 then Ok([RawSegment(0, 0, ["a"], 0.0, [])])
      else if |fed| == 1 then Err("decode failed")
      else Ok([]))

  const PUSHED: seq<Sample> := [0.0]

  const HEARD: Word := Word("a", 0, 0, false)

  lemma RunSnoc(cfg: Config, calls: seq<Call>, c: Call)
    requires cfg.Valid()
    ensures Run(cfg, calls + [c]) == match c
              case Push(pcm) => Run(cfg, calls).(state := Run(cfg, calls).state.(input := Run(cfg, calls).state.input + pcm))
              case Poll => Record(Run(cfg, calls), PollStep(cfg, Run(cfg, calls).state))
    ensures AllPcm(calls + [c]) == AllPcm(calls) + (if c.Push? then c.pcm else [])
  {
    assert (calls + [c])[..|calls|] == calls;
  }

  lemma FlakyWords(raw: RawSegment)
    requires raw == RawSegment(0, 0, ["a"], 0.0, [])
    ensures WordsOf(0, [raw], 0.6) == [HEARD]
  {
    assert [raw][..0] == [];
    assert CoarseWords(["a"], 0, 0) == [HEARD];
  }

  /** The first window commits the word. */
  lemma FlakyFirstWindow(stream: seq<Sample>)
    requires FLAKY.geometry.Ready(|stream|, 0)
    ensures DecodeOne(FLAKY, Core([], []), FLAKY.geometry.WindowAt(stream, 0))
            == Pass(Core([], [stream[..1]]), [HEARD], None)
  {
    var raw := RawSegment(0, 0, ["a"], 0.0, []);
    FlakyWords(raw);
    assert Merged([], [HEARD]) == [HEARD];
    CommitCutUnique([HEARD], At(1000), 1);
    hide Merged, CommitCut, WordsOf;
    var w := FLAKY.geometry.WindowAt(stream, 0);
    assert w.samples == stream[..1];
    assert FLAKY.decode([], w.samples) == Ok([raw]);
    assert FLAKY.StartMs(w) == 0 && FLAKY.HorizonOf(w) == At(1000);
  }

  lemma FlakyReady(len: nat)
    ensures FLAKY.Valid()
    ensures forall k: nat :: FLAKY.geometry.Ready(len, k) <==> k < len
  {
  }

  /** Two samples polled at once: the second window fails and takes the word with it. */
  lemma FlakyOnePoll(s: State)
    requires s == INITIAL.(input := PUSHED + PUSHED)
    ensures PollStep(FLAKY, s).1.error.Some?
  {
    var both := PUSHED + PUSHED;
    FlakyReady(2);
    FlakyFirstWindow(both);
    assert s.received + s.input == both;
    hide DecodeOne, Geometry.Ready, Geometry.WindowAt;
    var held := Core([], [both[..1]]);
    assert Drain(FLAKY, both, 0, Core([], []), []) == Drain(FLAKY, both, 1, held, [] + [HEARD]);
    FlakyLaterWindow(both[..1], FLAKY.geometry.WindowAt(both, 1));
  }

  lemma FlakyLaterWindow(first: seq<Sample>, w: Window)
    ensures DecodeOne(FLAKY, Core([], [first]), w).error.Some?
  {
  }

  /** One sample polled: its word is emitted. */
  lemma FlakyFirstPoll(s: State)
    requires s == INITIAL.(input := PUSHED)
    ensures PollStep(FLAKY, s) == (State([], PUSHED, 1, Core([], [PUSHED]), false, false), Pass(Core([], [PUSHED]), [HEARD], None))
  {
    FlakyFirstDrain();
    hide Drain;
    assert s.received + s.input == PUSHED;
  }

  lemma FlakyFirstDrain()
    ensures Drain(FLAKY, PUSHED, 0, Core([], []), []) == Drained(1, Pass(Core([], [PUSHED]), [HEARD], None))
  {
    assert PUSHED[..1] == PUSHED;
    FlakyReady(|PUSHED|);
    FlakyFirstWindow(PUSHED);
    DrainOne(FLAKY, PUSHED, 0, Core([], []));
    assert [] + [HEARD] == [HEARD];
  }

  /** A poll that finds exactly one window ready, and decodes it. */
  lemma DrainOne(cfg: Config, stream: seq<Sample>, k: nat, core: Core)
    requires cfg.Valid() && cfg.geometry.Ready(|stream|, k) && !cfg.geometry.Ready(|stream|, k + 1)
    requires DecodeOne(cfg, core, cfg.geometry.WindowAt(stream, k)).error.None?
    ensures var p := DecodeOne(cfg, core, cfg.geometry.WindowAt(stream, k));
            Drain(cfg, stream, k, core, []) == Drained(k + 1, Pass(p.core, [] + p.drained, None))
  {
    hide DecodeOne, Geometry.Ready, Geometry.WindowAt;
  }

  /** The sample after it fails, with nothing else in the call to lose. */
  lemma FlakySecondPoll(s: State)
    requires s == State(PUSHED, PUSHED, 1, Core([], [PUSHED]), false, false)
    ensures PollStep(FLAKY, s).1.error.Some?
  {
    FlakyReady(2);
    assert s.received + s.input == PUSHED + PUSHED && |PUSHED + PUSHED| == 2;
    hide DecodeOne, Geometry.Ready, Geometry.WindowAt;
    FlakyLaterWindow(PUSHED, FLAKY.geometry.WindowAt(PUSHED + PUSHED, 1));
    assert Drain(FLAKY, PUSHED + PUSHED, 1, s.core, []).pass.error.Some?;
  }

  /** A failing later window makes the call drop the words earlier windows had committed. */
  lemma FailureBreaksIndependence()
    ensures FLAKY.Valid()
    ensures AllPcm([Push(PUSHED + PUSHED), Poll]) == AllPcm([Push(PUSHED), Poll, Push(PUSHED), Poll])
    ensures Run(FLAKY, [Push(PUSHED + PUSHED), Poll]).emitted == []
    ensures Run(FLAKY, [Push(PUSHED), Poll, Push(PUSHED), Poll]).emitted == [FinalizedSegment(0, 0, "a")]
  {
    hide Run, AllPcm, PollStep, Emit;
    var push, both := Push(PUSHED), Push(PUSHED + PUSHED);
    RunNothing(FLAKY);
    FlakyCalls(push, both);
    assert INITIAL.input + PUSHED == PUSHED && INITIAL.input + (PUSHED + PUSHED) == PUSHED + PUSHED;
    RunSnoc(FLAKY, [], both);
    RunSnoc(FLAKY, [both], Poll);
    FlakyOnePoll(Run(FLAKY, [both]).state);
    RunSnoc(FLAKY, [], push);
    RunSnoc(FLAKY, [push], Poll);
    FlakyFirstPoll(Run(FLAKY, [push]).state);
    RunSnoc(FLAKY, [push, Poll], push);
    RunSnoc(FLAKY, [push, Poll, push], Poll);
    FlakySecondPoll(Run(FLAKY, [push, Poll, push]).state);
    EmitOne(HEARD);
  }

  lemma RunNothing(cfg: Config)
    requires cfg.Valid()
    ensures Run(cfg, []) == Trace(INITIAL, [], [], 0, true) && AllPcm([]) == []
  {
  }

  lemma EmitOne(w: Word)
    ensures Emit([w]) == [FinalizedSegment(w.startMs, w.endMs, w.text)]
  {
    assert [w][1..] == [];
  }

  lemma FlakyCalls(push: Call, both: Call)
    ensures [] + [push] == [push] && [] + [both] == [both]
    ensures [both] + [Poll] == [both, Poll] && [push] + [Poll] == [push, Poll]
    ensures [push, Poll] + [push] == [push, Poll, push]
    ensures [push, Poll, push] + [Poll] == [push, Poll, push, Poll]
  {
  }
}
