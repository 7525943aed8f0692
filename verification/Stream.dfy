/**
 * The streaming engine (crates/stt/src/lib.rs): push, poll, end.
 *
 * The decoder is arbitrary and may keep state: its answer depends on the window and
 * on every window it was handed before. The voice gate is an arbitrary predicate.
 * A push that lands while a poll decodes is the same as a push right after it: the
 * poll has already emptied the input buffer and released its lock.
 */
module Streaming {
  import opened Outcomes
  import opened Chunking
  import opened Finalizing

  datatype FinalizedSegment = FinalizedSegment(startMs: nat, endMs: nat, text: string)

  type Decoder = (seq<seq<Sample>>, seq<Sample>) -> Result<seq<RawSegment>, string>

  datatype Config = Config(
    sampleRate: nat,
    chunkSecs: real,
    overlapSecs: real,
    noSpeechThreshold: real,
    isSpeech: seq<Sample> -> bool,
    decode: Decoder)
  {
    const geometry: Geometry := GeometryOf(sampleRate, chunkSecs, overlapSecs)

    const chunkMs: nat := Trunc(chunkSecs * 1000.0)

    const overlapMs: nat := Trunc(overlapSecs * 1000.0)

    ghost predicate Valid() {
      geometry.Valid() && sampleRate > 0
    }

    function SampleToMs(sample: nat): nat
      requires Valid()
    {
      sample * 1000 / sampleRate
    }

    /** Milliseconds between window starts, saturating as the code does. */
    function StepMs(): nat {
      if overlapMs <= chunkMs then chunkMs - overlapMs else 0
    }

    function StartMs(w: Window): nat
      requires Valid()
    {
      SampleToMs(w.startSample)
    }

    function HorizonOf(w: Window): Horizon
      requires Valid()
    {
      if w.isFinal then Never else At(StartMs(w) + StepMs())
    }
  }

  /** What decoding mutates: the held words and the windows handed to the decoder. */
  datatype Core = Core(pending: seq<Word>, fed: seq<seq<Sample>>)

  /** Effect of decoding some windows: words drained from the finalizer, and a decode error if one stopped it. */
  datatype Pass = Pass(core: Core, drained: seq<Word>, error: Option<string>)

  predicate Gated(cfg: Config, w: Window) {
    !w.isFinal && !cfg.isSpeech(w.samples)
  }

  /** The words window `w` contributes: none if it is gated or its decode fails. */
  function WordsAt(cfg: Config, core: Core, w: Window): Option<seq<Word>>
    requires cfg.Valid()
  {
    if Gated(cfg, w) then None
    else match cfg.decode(core.fed, w.samples)
      case Err(_) => None
      case Ok(raw) => Some(WordsOf(cfg.StartMs(w), raw, cfg.noSpeechThreshold))
  }

  function DecodeOne(cfg: Config, core: Core, w: Window): Pass
    requires cfg.Valid()
  {
    if Gated(cfg, w) then Pass(core, [], None)
    else
      var fed := core.fed + [w.samples];
      match cfg.decode(core.fed, w.samples)
      case Err(e) => Pass(Core(core.pending, fed), [], Some(e))
      case Ok(raw) =>
        var all := Merged(core.pending, WordsOf(cfg.StartMs(w), raw, cfg.noSpeechThreshold));
        var cut := CommitCut(all, cfg.HorizonOf(w));
        Pass(Core(all[cut..], fed), all[..cut], None)
  }

  // ---------------------------------------------------------------- calls

  datatype State = State(input: seq<Sample>, received: seq<Sample>, taken: nat, core: Core, done: bool, flushed: bool)

  const INITIAL: State := State([], [], 0, Core([], []), false, false)

  datatype Drained = Drained(taken: nat, pass: Pass)

  /** The ready-window loop of `poll` and `end`; stops at the first decode error. */
  function Drain(cfg: Config, stream: seq<Sample>, taken: nat, core: Core, out: seq<Word>): Drained
    requires cfg.Valid()
    decreases |stream| + 1 - taken
  {
    if !cfg.geometry.Ready(|stream|, taken) then Drained(taken, Pass(core, out, None))
    else
      var p := DecodeOne(cfg, core, cfg.geometry.WindowAt(stream, taken));
      if p.error.Some? then Drained(taken + 1, p.(drained := out + p.drained))
      else
        ReadyIsWithin(cfg.geometry, |stream|, taken);
        Drain(cfg, stream, taken + 1, p.core, out + p.drained)
  }

  function PollStep(cfg: Config, s: State): (State, Pass)
    requires cfg.Valid()
  {
    var received := s.received + s.input;
    var d := Drain(cfg, received, s.taken, s.core, []);
    (State([], received, d.taken, d.pass.core, s.done, s.flushed), d.pass)
  }

  function EndStep(cfg: Config, s: State): (State, Pass)
    requires cfg.Valid()
  {
    var (s1, p) := PollStep(cfg, s);
    if p.error.Some? then (s1, p)
    else
      var tail := if s1.done then None else cfg.geometry.FinalWindow(s1.received, s1.taken);
      if tail.Some? then
        var q := DecodeOne(cfg, s1.core, tail.value);
        (s1.(core := q.core, done := true), q.(drained := p.drained + q.drained))
      else if s1.flushed then (s1.(done := true), p)
      else
        var core := Core([], s1.core.fed);
        (s1.(core := core, done := true, flushed := true), Pass(core, p.drained + s1.core.pending, None))
  }

  function Emit(words: seq<Word>): seq<FinalizedSegment> {
    if words == [] then []
    else [FinalizedSegment(words[0].startMs, words[0].endMs, words[0].text)] + Emit(words[1..])
  }

  lemma EmitNothing()
    ensures Emit([]) == []
  {
  }

  /** Word by word: its span and its text. */
  lemma {:induction false} EmitIsPointwise(words: seq<Word>)
    ensures |Emit(words)| == |words|
    ensures forall i :: 0 <= i < |words| ==> Emit(words)[i] == FinalizedSegment(words[i].startMs, words[i].endMs, words[i].text)
  {
    if words != [] {
      EmitIsPointwise(words[1..]);
      assert forall i :: 0 < i < |words| ==> Emit(words)[i] == Emit(words[1..])[i - 1];
    }
  }

  lemma EmitConcat(a: seq<Word>, b: seq<Word>)
    ensures Emit(a) + Emit(b) == Emit(a + b)
  {
    if a == [] {
      assert a + b == b;
    } else {
      assert (a + b)[1..] == a[1..] + b;
      EmitConcat(a[1..], b);
    }
  }

  /** What a call hands back: a failed call returns only its error. */
  function Returned(p: Pass): Result<seq<FinalizedSegment>, string> {
    match p.error
    case None => Ok(Emit(p.drained))
    case Some(e) => Err(e)
  }

  class SttStream {
    const cfg: Config
    const chunker: Chunker
    const finalizer: Finalizer
    var input: seq<Sample>
    var fed: seq<seq<Sample>>

    ghost predicate Valid()
      reads this, chunker, finalizer
    {
      && cfg.Valid() && chunker.Valid()
      && chunker.geometry == cfg.geometry
      && finalizer.noSpeechThreshold == cfg.noSpeechThreshold
    }

    ghost function Abs(): State
      reads this, chunker, finalizer
    {
      State(input, chunker.stream, chunker.taken, Core(finalizer.pending, fed), chunker.done, finalizer.flushed)
    }

    constructor (cfg: Config)
      requires cfg.Valid()
      ensures Valid() && fresh(chunker) && fresh(finalizer)
      ensures this.cfg == cfg && Abs() == INITIAL
    {
      this.cfg := cfg;
      chunker := new Chunker(cfg.sampleRate, cfg.chunkSecs, cfg.overlapSecs);
      finalizer := new Finalizer(cfg.noSpeechThreshold);
      input, fed := [], [];
    }

    method PushPcm(pcm: seq<Sample>)
      requires Valid()
      modifies this`input
      ensures Valid()
      ensures Abs() == old(Abs()).(input := old(input) + pcm)
    {
      input := input + pcm;
    }

    method Poll() returns (result: Result<seq<FinalizedSegment>, string>)
      requires Valid()
      modifies this, chunker, finalizer
      ensures Valid()
      ensures Abs() == PollStep(cfg, old(Abs())).0
      ensures result == Returned(PollStep(cfg, old(Abs())).1)
    {
      chunker.Push(input);
      input := [];
      result := DecodeReady();
    }

    method End() returns (result: Result<seq<FinalizedSegment>, string>)
      requires Valid()
      modifies this, chunker, finalizer
      ensures Valid()
      ensures Abs() == EndStep(cfg, old(Abs())).0
      ensures result == Returned(EndStep(cfg, old(Abs())).1)
    {
      hide DecodeOne, Emit, Drain;
      chunker.Push(input);
      input := [];
      result := DecodeReady();
      if result.Err? {
        return;
      }
      ghost var s1 := PollStep(cfg, old(Abs())).0;
      ghost var p := PollStep(cfg, old(Abs())).1;
      var tail := chunker.Flush();
      match tail {
        case Some(w) =>
          var more := DecodeWindow(w);
          match more {
            case Err(e) => result := Err(e);
            case Ok(segments) =>
              EmitConcat(p.drained, DecodeOne(cfg, s1.core, w).drained);
              result := Ok(result.value + segments);
          }
        case None =>
          var words := finalizer.Flush();
          EmitConcat(p.drained, words);
          assert p.drained + [] == p.drained;
          result := Ok(result.value + Emit(words));
      }
    }

    /** Decodes every window now ready, in order; the first failure ends the call. */
    method DecodeReady() returns (result: Result<seq<FinalizedSegment>, string>)
      requires Valid() && input == []
      modifies this, chunker, finalizer
      ensures Valid() && chunker.stream == old(chunker.stream)
      ensures Abs() == PollStep(cfg, old(Abs())).0
      ensures result == Returned(PollStep(cfg, old(Abs())).1)
    {
      EmitNothing();
      hide DecodeOne, Emit, Geometry.Ready;
      var out := [];
      ghost var first := Abs();
      ghost var stream := first.received;
      ghost var drained: seq<Word> := [];
      ghost var goal := Drain(cfg, stream, first.taken, first.core, []);
      assert stream + [] == stream;
      while true
        invariant Valid() && Abs() == first.(taken := chunker.taken, core := Abs().core)
        invariant out == Emit(drained)
        invariant goal == Drain(cfg, stream, chunker.taken, Abs().core, drained)
        decreases |stream| + 1 - chunker.taken
      {
        ghost var core := Abs().core;
        var next := chunker.TakeReadyWindow();
        if next.None? {
          return Ok(out);
        }
        ReadyIsWithin(cfg.geometry, |stream|, chunker.taken - 1);
        var more := DecodeWindow(next.value);
        ghost var p := DecodeOne(cfg, core, next.value);
        if more.Err? {
          return Err(more.error);
        }
        EmitConcat(drained, p.drained);
        out := out + more.value;
        drained := drained + p.drained;
      }
    }

    method DecodeWindow(w: Window) returns (result: Result<seq<FinalizedSegment>, string>)
      requires Valid()
      modifies this`fed, finalizer`pending
      ensures Valid()
      ensures Abs().core == DecodeOne(cfg, old(Abs()).core, w).core
      ensures result == Returned(DecodeOne(cfg, old(Abs()).core, w))
    {
      if !w.isFinal && !cfg.isSpeech(w.samples) {
        return Ok([]);
      }
      var windowStartMs := cfg.SampleToMs(w.startSample);
      var horizon := if w.isFinal then Never else At(windowStartMs + cfg.StepMs());
      var decoded := cfg.decode(fed, w.samples);
      fed := fed + [w.samples];
      match decoded {
        case Err(e) => return Err(e);
        case Ok(raw) =>
          ghost var held := finalizer.pending;
          var words := finalizer.Ingest(windowStartMs, raw, horizon);
          ghost var all := words + finalizer.pending;
          assert words == all[..|words|] && finalizer.pending == all[|words|..];
          return Ok(Emit(words));
      }
    }
  }
}
