/**
 * The session and the stream together: what a finished walk stores is the transcript of
 * the audio pushed, whatever the interleaving.
 *
 * Each session step that touches the stream carries the audio or the text that goes with
 * it; every other step leaves the stream alone.
 */
module Walks {
  import opened Outcomes
  import opened Blanks
  import opened Chunking
  import opened Finalizing
  import S = Streaming
  import F = Schedules
  import opened PumpCells
  import opened Sessions
  import opened SessionProofs

  type Config = S.Config

  /** `drained` is every word the stream has committed so far. */
  datatype Walk = Walk(session: State, stream: S.State, drained: seq<Word>)

  /** A session step, with the samples of a push. */
  datatype Joint = Joint(step: Step, pcm: seq<Sample>)

  /** A new session over a new stream. */
  function NewWalk(flushOnFinish: bool): Walk {
    Walk(Initial(flushOnFinish), S.INITIAL, [])
  }

  const BEGIN: Walk := NewWalk(true)

  function Texts(segments: seq<S.FinalizedSegment>): seq<string> {
    if segments == [] then [] else [segments[0].text] + Texts(segments[1..])
  }

  /** The texts of some words, as the session receives them. */
  function Spoken(words: seq<Word>): seq<string> {
    Texts(S.Emit(words))
  }

  /** The window the pump decodes next. */
  function NextPass(cfg: Config, st: S.State): S.Pass
    requires cfg.Valid() && cfg.geometry.Ready(|st.received|, st.taken)
  {
    S.DecodeOne(cfg, st.core, cfg.geometry.WindowAt(st.received, st.taken))
  }

  /** The step is enabled, and what it carries, or that it fails, is what the stream makes of it. */
  ghost predicate Fits(cfg: Config, w: Walk, j: Joint)
    requires cfg.Valid()
  {
    var st := w.stream;
    && Enabled(w.session, j.step)
    && match j.step
       case Enqueue(n) => n == |j.pcm|
       case BeginPoll(ready) =>
         w.session.input.stranded + ready == cfg.geometry.ReadyCount(|st.received + st.input|) - st.taken
       case Decode(segs) =>
         && cfg.geometry.Ready(|st.received|, st.taken)
         && NextPass(cfg, st).error.None? && segs == Spoken(NextPass(cfg, st).drained)
       case FlushAppend(_, segs) =>
         && S.EndStep(cfg, st).1.error.None? && segs == Spoken(S.EndStep(cfg, st).1.drained)
       case DecodeFails => cfg.geometry.Ready(|st.received|, st.taken) && NextPass(cfg, st).error.Some?
       case FlushFails(_) => S.EndStep(cfg, st).1.error.Some?
       case _ => true
  }

  ghost function JointApply(cfg: Config, w: Walk, j: Joint): Walk
    requires cfg.Valid() && Fits(cfg, w, j)
  {
    var st := w.stream;
    var session := Apply(w.session, j.step);
    match j.step
    case Enqueue(_) => Walk(session, st.(input := st.input + j.pcm), w.drained)
    case BeginPoll(_) => Walk(session, st.(received := st.received + st.input, input := []), w.drained)
    case Decode(_) =>
      var p := NextPass(cfg, st);
      Walk(session, st.(taken := st.taken + 1, core := p.core), w.drained + p.drained)
    case DecodeFails => Walk(session, st.(taken := st.taken + 1, core := NextPass(cfg, st).core), w.drained)
    case FlushAppend(_, _) =>
      var (st2, p) := S.EndStep(cfg, st);
      Walk(session, st2, w.drained + p.drained)
    case FlushFails(_) =>
      var (st2, p) := S.EndStep(cfg, st);
      Walk(session, st2, w.drained + p.drained)
    case _ => Walk(session, st, w.drained)
  }

  ghost predicate Runs(cfg: Config, w: Walk, run: seq<Joint>)
    requires cfg.Valid()
    decreases |run|
  {
    run == [] || (Fits(cfg, w, run[0]) && Runs(cfg, JointApply(cfg, w, run[0]), run[1..]))
  }

  ghost function Final(cfg: Config, w: Walk, run: seq<Joint>): Walk
    requires cfg.Valid() && Runs(cfg, w, run)
    decreases |run|
  {
    if run == [] then w else Final(cfg, JointApply(cfg, w, run[0]), run[1..])
  }

  predicate Fails(step: Step) {
    step.DecodeFails? || step.FlushFails?
  }

  function Pushed(run: seq<Joint>): seq<Sample> {
    if run == [] then [] else (if run[0].step.Enqueue? then run[0].pcm else []) + Pushed(run[1..])
  }

  // ---------------------------------------------------------------- text

  lemma TextsConcat(a: seq<S.FinalizedSegment>, b: seq<S.FinalizedSegment>)
    ensures Texts(a + b) == Texts(a) + Texts(b)
  {
    if a == [] {
      assert a + b == b;
    } else {
      assert (a + b)[1..] == a[1..] + b;
      TextsConcat(a[1..], b);
    }
  }

  lemma SpokenConcat(a: seq<Word>, b: seq<Word>)
    ensures Spoken(a + b) == Spoken(a) + Spoken(b)
  {
    S.EmitConcat(a, b);
    TextsConcat(S.Emit(a), S.Emit(b));
  }

  lemma {:induction false} ChunksConcat(a: seq<string>, b: seq<string>)
    ensures Chunks(a + b) == Chunks(a) + Chunks(b)
  {
    hide Chunk;
    if a == [] {
      assert a + b == b;
    } else {
      assert (a + b)[1..] == a[1..] + b;
      ChunksConcat(a[1..], b);
    }
  }

  /** Text decoded and not yet stored. */
  function InHand(p: Pump): seq<string> {
    match p
    case Polling(_, segs) => segs
    case Feeding(todo, _) => todo
    case _ => []
  }

  /** What is stored, and in hand, is what the stream has committed. */
  ghost predicate TextAgrees(w: Walk) {
    SpeechText(w.session.record.transcript) + Chunks(InHand(w.session.pump)) == Chunks(Spoken(w.drained))
  }

  // ---------------------------------------------------------------- before the flush

  /** The stream is where one fold over the audio received has got to, and nothing failed. */
  ghost predicate OnFold(cfg: Config, w: Walk)
    requires cfg.Valid()
  {
    F.FollowsFold(cfg, F.Trace(w.stream, [], w.drained, 0, true), w.stream.received + w.stream.input)
  }

  predicate AfterFlush(pc: CallerPc) {
    pc.Flushing? || pc.Flushed? || pc.Closed? || pc.Done?
  }

  ghost predicate BeforeFlush(cfg: Config, w: Walk, heard: seq<Sample>)
    requires cfg.Valid()
  {
    Inv(w.session) && OnFold(cfg, w) && TextAgrees(w) && w.stream.received + w.stream.input == heard
  }

  lemma FoldPushes(cfg: Config, w: Walk, j: Joint)
    requires cfg.Valid() && OnFold(cfg, w) && Fits(cfg, w, j) && !Fails(j.step) && !j.step.FlushAppend? && !j.step.Decode?
    ensures OnFold(cfg, JointApply(cfg, w, j))
    ensures JointApply(cfg, w, j).stream.received + JointApply(cfg, w, j).stream.input
            == w.stream.received + w.stream.input + (if j.step.Enqueue? then j.pcm else [])
  {
    hide Apply, Enabled, F.FoldTo;
    var st := w.stream;
    var st2 := JointApply(cfg, w, j).stream;
    if j.step.Enqueue? {
      assert st.received + (st.input + j.pcm) == st.received + st.input + j.pcm;
    } else if j.step.BeginPoll? {
      F.FoldToIsStable(cfg, st.received, st.input, st.taken);
      assert st2.received + st2.input == st.received + st.input;
    }
  }

  lemma FoldDecodes(cfg: Config, w: Walk, j: Joint)
    requires cfg.Valid() && OnFold(cfg, w) && Fits(cfg, w, j) && j.step.Decode?
    ensures OnFold(cfg, JointApply(cfg, w, j))
    ensures JointApply(cfg, w, j).stream.received == w.stream.received && JointApply(cfg, w, j).stream.input == w.stream.input
  {
    hide Apply, Enabled, F.FoldTo, S.DecodeOne;
    F.FoldOneMore(cfg, w.stream.received, w.stream.taken);
  }

  lemma DecodedText(cfg: Config, w: Walk, j: Joint)
    requires cfg.Valid() && TextAgrees(w) && Fits(cfg, w, j) && j.step.Decode?
    ensures TextAgrees(JointApply(cfg, w, j))
  {
    hide S.DecodeOne, Chunks, SpeechText, Spoken, HostApply, HostEnabled, WinnerApply, WinnerEnabled;
    var p := NextPass(cfg, w.stream);
    SpokenConcat(w.drained, p.drained);
    ChunksConcat(Spoken(w.drained), Spoken(p.drained));
    ChunksConcat(w.session.pump.segs, j.step.segs);
  }

  /** A step of the pump other than a decode only moves text from hand to store. */
  lemma PumpMovesText(s: State, step: Step)
    requires Inv(s) && Enabled(s, step) && IsPumpStep(step) && !step.Decode? && !step.DecodeFails?
    ensures var t := Apply(s, step);
            SpeechText(t.record.transcript) + Chunks(InHand(t.pump)) == SpeechText(s.record.transcript) + Chunks(InHand(s.pump))
  {
    hide HostApply, HostEnabled, WinnerApply, WinnerEnabled, SpeechText, TextInv, GateInv, InputInv;
    if step.Feed? {
      FeedMovesText(s.record, s.pump.todo);
    }
  }

  lemma FeedMovesText(r: Record, todo: seq<string>)
    requires todo != [] && r.status == Recording
    ensures var chunk := Chunk(todo[0]);
            SpeechText(r.transcript) + Chunks(todo)
            == SpeechText(if Blank(todo[0]) then r.transcript else Appended(r, [Speech(chunk)]).transcript) + Chunks(todo[1..])
  {
    FirstChunk(todo);
    hide Blank, SpeechText, Chunk, Chunks;
    var chunk := Chunk(todo[0]);
    if !Blank(todo[0]) {
      SpeechTextConcat(r.transcript, [Speech(chunk)]);
      OneSpeech(chunk);
      Associates(SpeechText(r.transcript), chunk, Chunks(todo[1..]));
    }
  }

  lemma FirstChunk(todo: seq<string>)
    requires todo != []
    ensures Chunks(todo) == Chunk(todo[0]) + Chunks(todo[1..])
    ensures Blank(todo[0]) ==> Chunks(todo) == Chunks(todo[1..])
  {
    hide Blank;
  }

  lemma Associates(a: string, b: string, c: string)
    ensures a + (b + c) == a + b + c
  {
  }

  lemma OneSpeech(chunk: string)
    ensures SpeechText([Speech(chunk)]) == chunk
  {
    assert [Speech(chunk)][..0] == [] && SpeechText([]) == "";
    assert "" + chunk == chunk;
  }

  /** No other step stores speech, except the flush. */
  lemma OthersStoreNoSpeech(s: State, step: Step)
    requires Enabled(s, step) && !IsPumpStep(step) && !step.FlushAppend?
    ensures SpeechText(Apply(s, step).record.transcript) == SpeechText(s.record.transcript)
    ensures Apply(s, step).pump == s.pump
  {
    hide PumpApply, PumpEnabled, SpeechText, Chunks, SpeechEntries;
    if step.Type? {
      SpeechTextConcat(s.record.transcript, [Typed(step.text)]);
      TypedIsNoSpeech(step.text);
    }
  }

  lemma StepBeforeFlush(cfg: Config, w: Walk, j: Joint, heard: seq<Sample>)
    requires cfg.Valid() && BeforeFlush(cfg, w, heard) && Fits(cfg, w, j) && !Fails(j.step) && !j.step.FlushAppend?
    ensures BeforeFlush(cfg, JointApply(cfg, w, j), heard + (if j.step.Enqueue? then j.pcm else []))
  {
    hide Apply, Enabled, Inv, OnFold, SpeechText, Chunks, Spoken;
    StepPreserves(w.session, j.step);
    assert heard + [] == heard;
    if j.step.Decode? {
      FoldDecodes(cfg, w, j);
      DecodedText(cfg, w, j);
    } else {
      FoldPushes(cfg, w, j);
      OtherText(cfg, w, j);
    }
  }

  lemma OtherText(cfg: Config, w: Walk, j: Joint)
    requires cfg.Valid() && Inv(w.session) && TextAgrees(w) && Fits(cfg, w, j) && !Fails(j.step) && !j.step.Decode? && !j.step.FlushAppend?
    ensures TextAgrees(JointApply(cfg, w, j))
  {
    hide Apply, Enabled, Inv, SpeechText, Chunks, Spoken;
    assert JointApply(cfg, w, j).session == Apply(w.session, j.step) && JointApply(cfg, w, j).drained == w.drained;
    if IsPumpStep(j.step) {
      PumpMovesText(w.session, j.step);
    } else {
      OthersStoreNoSpeech(w.session, j.step);
    }
  }

  lemma {:induction false} RunBeforeFlush(cfg: Config, w: Walk, run: seq<Joint>, heard: seq<Sample>)
    requires cfg.Valid() && BeforeFlush(cfg, w, heard) && Runs(cfg, w, run)
    requires forall j :: j in run ==> !j.step.FlushAppend? && !Fails(j.step)
    ensures BeforeFlush(cfg, Final(cfg, w, run), heard + Pushed(run))
    decreases |run|
  {
    hide BeforeFlush, Fits, JointApply;
    if run == [] {
      assert heard + [] == heard;
    } else {
      assert run[0] in run;
      StepBeforeFlush(cfg, w, run[0], heard);
      assert forall j :: j in run[1..] ==> j in run;
      var more := if run[0].step.Enqueue? then run[0].pcm else [];
      RunBeforeFlush(cfg, JointApply(cfg, w, run[0]), run[1..], heard + more);
      assert heard + more + Pushed(run[1..]) == heard + (more + Pushed(run[1..]));
    }
  }

  // ---------------------------------------------------------------- the flush and after

  /** The stored speech is the whole transcript, and nothing can add to it. */
  ghost predicate Stored(cfg: Config, s: State, heard: seq<Sample>)
    requires cfg.Valid()
  {
    && Inv(s) && AfterFlush(WinnerPc(s.exits))
    && SpeechText(s.record.transcript) == Chunks(Spoken(F.Transcript(cfg, heard)))
  }

  lemma FlushStores(cfg: Config, w: Walk, j: Joint, heard: seq<Sample>)
    requires cfg.Valid() && BeforeFlush(cfg, w, heard) && Fits(cfg, w, j) && j.step.FlushAppend?
    ensures Stored(cfg, JointApply(cfg, w, j).session, heard)
  {
    StepPreserves(w.session, j.step);
    FlushPcs(w.session, j.step, j.step.id);
    hide Apply, Enabled, Inv, SpeechText, Chunks, Spoken, F.FollowsFold, S.EndStep, F.Transcript;
    var t := F.Trace(w.stream, [], w.drained, 0, true);
    F.EndFrom(cfg, t, heard);
    var p := S.EndStep(cfg, w.stream).1;
    assert w.drained + p.drained == F.Transcript(cfg, heard);
    FlushAppends(w.session, j.step.id, j.step.segs);
    SpokenConcat(w.drained, p.drained);
    ChunksConcat(Spoken(w.drained), Spoken(p.drained));
    NothingInHand();
  }

  lemma NothingInHand()
    ensures Chunks([]) == "" && forall s: string :: s + "" == s
  {
  }

  lemma FlushAppends(s: State, id: nat, segs: seq<string>)
    requires Inv(s) && Enabled(s, FlushAppend(id, segs))
    ensures InHand(s.pump) == []
    ensures SpeechText(Apply(s, FlushAppend(id, segs)).record.transcript) == SpeechText(s.record.transcript) + Chunks(segs)
  {
    hide PumpApply, PumpEnabled, HostApply, HostEnabled, SpeechText, Chunks, SpeechEntries, TextInv, GateInv, InputInv;
    StepIsWinners(s, FlushAppend(id, segs), id);
    SpeechTextConcat(s.record.transcript, SpeechEntries(segs));
    SpeechOfEntries(segs);
  }

  lemma FlushPcs(s: State, step: Step, id: nat)
    requires Inv(s) && Enabled(s, step) && IsWinnerStep(step) && step.id == id
    ensures step.FlushAppend? ==> AfterFlush(WinnerPc(Apply(s, step).exits))
    ensures AfterFlush(WinnerPc(s.exits)) ==> AfterFlush(WinnerPc(Apply(s, step).exits)) && !step.FlushAppend?
  {
    hide PumpApply, PumpEnabled, HostApply, HostEnabled, Chunks, SpeechEntries, Appended, Announced, TextInv, GateInv, InputInv;
    StepIsWinners(s, step, id);
  }

  lemma StepAfterFlush(cfg: Config, s: State, step: Step, heard: seq<Sample>)
    requires cfg.Valid() && Stored(cfg, s, heard) && Enabled(s, step)
    ensures Stored(cfg, Apply(s, step), heard)
  {
    StepPreserves(s, step);
    QuietStep(s, step);
    if IsWinnerStep(step) {
      FlushPcs(s, step, step.id);
      hide Inv;
      OthersStoreNoSpeech(s, step);
      hide Apply, Enabled;
    } else if step.Enter? {
      EnterPreserves(s.exits, s.flags.stop, s.pump, s.record.status, step.id, step.kind);
      OthersStoreNoSpeech(s, step);
      hide PumpApply, PumpEnabled, WinnerApply, WinnerEnabled, SpeechText, TextInv;
    } else {
      OtherStepKeepsCallers(s, step);
      hide Inv;
      OthersStoreNoSpeech(s, step);
      hide Apply, Enabled, SpeechText;
    }
  }

  lemma {:induction false} RunAfterFlush(cfg: Config, w: Walk, run: seq<Joint>, heard: seq<Sample>)
    requires cfg.Valid() && Stored(cfg, w.session, heard) && Runs(cfg, w, run)
    ensures Stored(cfg, Final(cfg, w, run).session, heard)
    decreases |run|
  {
    hide Stored, Apply, Enabled;
    if run != [] {
      StepAfterFlush(cfg, w.session, run[0].step, heard);
      assert JointApply(cfg, w, run[0]).session == Apply(w.session, run[0].step);
      RunAfterFlush(cfg, JointApply(cfg, w, run[0]), run[1..], heard);
    }
  }

  lemma {:induction false} RunConcat(cfg: Config, w: Walk, a: seq<Joint>, b: seq<Joint>)
    requires cfg.Valid() && Runs(cfg, w, a + b)
    ensures Runs(cfg, w, a) && Runs(cfg, Final(cfg, w, a), b)
    ensures Final(cfg, w, a + b) == Final(cfg, Final(cfg, w, a), b)
    decreases |a|
  {
    hide Fits, JointApply;
    if a == [] {
      assert a + b == b;
    } else {
      assert (a + b)[0] == a[0] && (a + b)[1..] == a[1..] + b;
      RunConcat(cfg, JointApply(cfg, w, a[0]), a[1..], b);
    }
  }

  lemma BeginIsBeforeFlush(cfg: Config)
    requires cfg.Valid()
    ensures BeforeFlush(cfg, BEGIN, [])
  {
    assert Inv(Initial(true));
    assert F.ReadyWindows(cfg.geometry, [], 0) == [];
    assert Spoken([]) == [];
  }

  /**
   * Over every interleaving in which no decode fails up to a finish that flushes: from the flush
   * on, the stored speech is the transcript of all the audio pushed before it, decoded in
   * one piece; and once the flush is announced, so are the texts the host was given.
   */
  lemma FlushedWalkStoresTheTranscript(cfg: Config, before: seq<Joint>, flush: Joint, after: seq<Joint>)
    requires cfg.Valid() && Runs(cfg, BEGIN, before + [flush] + after)
    requires flush.step.FlushAppend? && forall j :: j in before ==> !j.step.FlushAppend? && !Fails(j.step)
    ensures var s := Final(cfg, BEGIN, before + [flush] + after).session;
            var transcript := Chunks(Spoken(F.Transcript(cfg, Pushed(before))));
            && SpeechText(s.record.transcript) == transcript
            && (!WinnerPc(s.exits).Flushing? ==> Concat(s.record.events) == transcript)
  {
    hide BeforeFlush, Fits, JointApply, F.Transcript;
    BeginIsBeforeFlush(cfg);
    assert before + [flush] + after == before + ([flush] + after);
    RunConcat(cfg, BEGIN, before, [flush] + after);
    RunBeforeFlush(cfg, BEGIN, before, []);
    assert [] + Pushed(before) == Pushed(before);
    var w := Final(cfg, BEGIN, before);
    assert ([flush] + after)[1..] == after;
    FlushStores(cfg, w, flush, Pushed(before));
    RunAfterFlush(cfg, JointApply(cfg, w, flush), after, Pushed(before));
    var s := Final(cfg, BEGIN, before + [flush] + after).session;
    AnnouncedInFull(s);
  }

  lemma AnnouncedInFull(s: State)
    requires Inv(s) && AfterFlush(WinnerPc(s.exits))
    ensures !WinnerPc(s.exits).Flushing? ==> SpeechText(s.record.transcript) == Concat(s.record.events)
  {
    assert Concat(s.record.events) + "" == Concat(s.record.events);
  }
}
