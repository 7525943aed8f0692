/**
 * Three walks, audio included: a pause that lands past the gate, a flush during a pause, and
 * a decode that fails with windows to come.
 */
module WalkCases {
  import opened Outcomes
  import opened Blanks
  import opened Chunking
  import opened Finalizing
  import S = Streaming
  import F = Schedules
  import opened PumpCells
  import opened Sessions
  import opened SessionProofs
  import opened Walks
  import opened WalkRuns

  /** One-second windows without overlap at one sample a second: every sample is a window. */
  const HEARING: Config := S.Config(1, 1.0, 0.0, 0.6, s => true,
    (fed: seq<seq<Sample>>, samples: seq<Sample>) => Ok([]))

  /** The same, failing on the very first window. */
  const FAILING: Config := S.Config(1, 1.0, 0.0, 0.6, s => true,
    (fed: seq<seq<Sample>>, samples: seq<Sample>) => if |fed| == 0 then Err("decode failed") else Ok([]))

  ghost predicate PerSample(cfg: Config) {
    cfg.Valid() && cfg.geometry == Geometry(1, 1)
  }

  lemma SampleWindows(cfg: Config, len: nat)
    requires PerSample(cfg)
    ensures cfg.geometry.ReadyCount(len) == len
    ensures forall k: nat :: cfg.geometry.Ready(len, k) <==> k < len
  {
    forall k: nat
      ensures cfg.geometry.Ready(len, k) <==> k < len
    {
      assert k * 1 == k;
    }
  }

  lemma BothPerSample()
    ensures PerSample(HEARING) && PerSample(FAILING)
  {
  }

  // ---------------------------------------------------------------- up to the gate

  /** `n` samples pushed and announced, the wake taken, the poll not yet begun. */
  function AtGate(pcm: seq<Sample>): Walk {
    Walk(Initial(true).(pump := Admitted, input := Input(|pcm|, 0, 0, false), meter := Meter(1, 0, 0)),
         S.INITIAL.(input := pcm), [])
  }

  function Pushing(pcm: seq<Sample>): Walk {
    Walk(Initial(true).(input := Input(|pcm|, 1, 0, false)), S.INITIAL.(input := pcm), [])
  }

  function Woken(pcm: seq<Sample>): Walk {
    Walk(Initial(true).(flags := Flags(true, false, false, Away), input := Input(|pcm|, 0, 0, false)),
         S.INITIAL.(input := pcm), [])
  }

  lemma PushSteps(cfg: Config, pcm: seq<Sample>)
    requires cfg.Valid()
    ensures Fits(cfg, BEGIN, Joint(Enqueue(|pcm|), pcm))
    ensures JointApply(cfg, BEGIN, Joint(Enqueue(|pcm|), pcm)) == Pushing(pcm)
    ensures Fits(cfg, Pushing(pcm), Plain(WakePump)) && JointApply(cfg, Pushing(pcm), Plain(WakePump)) == Woken(pcm)
  {
    hide PumpApply, PumpEnabled, WinnerApply, WinnerEnabled, S.EndStep, Geometry.ReadyCount, Geometry.Ready;
    assert [] + pcm == pcm;
  }

  lemma GateStep(cfg: Config, pcm: seq<Sample>)
    requires cfg.Valid()
    ensures Fits(cfg, Woken(pcm), Plain(Check)) && JointApply(cfg, Woken(pcm), Plain(Check)) == AtGate(pcm)
  {
    hide HostApply, HostEnabled, WinnerApply, WinnerEnabled;
  }

  lemma ReachesGate(cfg: Config, pcm: seq<Sample>, run: seq<Joint>)
    requires cfg.Valid() && |run| >= 3
    requires run[0] == Joint(Enqueue(|pcm|), pcm) && run[1] == Plain(WakePump) && run[2] == Plain(Check)
    ensures Reaches(cfg, BEGIN, run[..3], AtGate(pcm))
  {
    hide Reaches, Fits, JointApply;
    PushSteps(cfg, pcm);
    GateStep(cfg, pcm);
    Setout(cfg, BEGIN, run);
    Along(cfg, BEGIN, run, 0, BEGIN);
    Along(cfg, BEGIN, run, 1, Pushing(pcm));
    Along(cfg, BEGIN, run, 2, Woken(pcm));
  }

  // ---------------------------------------------------------------- a pause past the gate

  /** The pass under way, paused, with `done` of its windows decoded. */
  ghost predicate PausedPass(w: Walk, pcm: seq<Sample>, done: nat) {
    && done <= |pcm| && w.session.flags.paused
    && w.session.pump == Polling(|pcm| - done, []) && w.session.meter == Meter(1, done, 0)
    && w.stream.received == pcm && w.stream.taken == done
    && w.stream.core.pending == [] && |w.stream.core.fed| == done
  }

  function Decodings(n: nat): (run: seq<Joint>)
    ensures |run| == n && forall i :: 0 <= i < n ==> run[i] == Plain(Decode([]))
  {
    if n == 0 then [] else Decodings(n - 1) + [Plain(Decode([]))]
  }

  /** Pushes `pcm`, wakes the pump, lets it past its gate, pauses it, and decodes every window. */
  function PausedRun(pcm: seq<Sample>, done: nat): seq<Joint> {
    [Joint(Enqueue(|pcm|), pcm), Plain(WakePump), Plain(Check), Plain(Pause), Plain(BeginPoll(|pcm|))] + Decodings(done)
  }

  lemma PauseAndPoll(pcm: seq<Sample>) returns (w: Walk)
    ensures Reaches(HEARING, BEGIN, PausedRun(pcm, 0), w) && PausedPass(w, pcm, 0)
  {
    hide Reaches, Runs, Final, Fits, JointApply, PausedPass;
    BothPerSample();
    var run := PausedRun(pcm, 0);
    ReachesGate(HEARING, pcm, run);
    var t := AtGate(pcm).(session := AtGate(pcm).session.(flags := Flags(false, false, true, Away)));
    PauseStep(pcm, t);
    w := PollStep(pcm, t);
    Along(HEARING, BEGIN, run, 3, AtGate(pcm));
    Along(HEARING, BEGIN, run, 4, t);
    assert run[..5] == run;
  }

  lemma PauseStep(pcm: seq<Sample>, t: Walk)
    requires t == AtGate(pcm).(session := AtGate(pcm).session.(flags := Flags(false, false, true, Away)))
    ensures HEARING.Valid() && Fits(HEARING, AtGate(pcm), Plain(Pause))
    ensures JointApply(HEARING, AtGate(pcm), Plain(Pause)) == t
  {
    BothPerSample();
    hide PumpApply, PumpEnabled, WinnerApply, WinnerEnabled;
  }

  lemma PollStep(pcm: seq<Sample>, t: Walk) returns (w: Walk)
    requires t == AtGate(pcm).(session := AtGate(pcm).session.(flags := Flags(false, false, true, Away)))
    ensures HEARING.Valid() && Fits(HEARING, t, Plain(BeginPoll(|pcm|)))
    ensures w == JointApply(HEARING, t, Plain(BeginPoll(|pcm|))) && PausedPass(w, pcm, 0)
  {
    BothPerSample();
    hide HostApply, HostEnabled, WinnerApply, WinnerEnabled, Geometry.ReadyCount;
    SampleWindows(HEARING, |pcm|);
    assert [] + pcm == pcm;
    w := JointApply(HEARING, t, Plain(BeginPoll(|pcm|)));
  }

  /** A silent decode: the window is handed over and nothing comes back. */
  lemma SilentDecode(core: S.Core, w: Window)
    requires core.pending == [] && HEARING.Valid()
    ensures S.DecodeOne(HEARING, core, w) == S.Pass(S.Core([], core.fed + [w.samples]), [], None)
  {
    assert HEARING.decode(core.fed, w.samples) == Ok([]);
    assert WordsOf(HEARING.StartMs(w), [], HEARING.noSpeechThreshold) == [] && Merged([], []) == [];
  }

  lemma DecodeStep(w: Walk, pcm: seq<Sample>, done: nat)
    requires PausedPass(w, pcm, done) && done < |pcm|
    ensures HEARING.Valid() && Fits(HEARING, w, Plain(Decode([])))
    ensures PausedPass(JointApply(HEARING, w, Plain(Decode([]))), pcm, done + 1)
  {
    BothPerSample();
    hide HostApply, HostEnabled, WinnerApply, WinnerEnabled, S.DecodeOne, Geometry.ReadyCount, Geometry.Ready, Geometry.WindowAt;
    SampleWindows(HEARING, |pcm|);
    SilentDecode(w.stream.core, HEARING.geometry.WindowAt(w.stream.received, w.stream.taken));
    assert Spoken([]) == [];
    assert w.session.pump.segs + [] == w.session.pump.segs;
  }

  lemma {:induction false} DecodesUpTo(pcm: seq<Sample>, done: nat) returns (w: Walk)
    requires done <= |pcm|
    ensures HEARING.Valid() && Reaches(HEARING, BEGIN, PausedRun(pcm, done), w) && PausedPass(w, pcm, done)
    decreases done
  {
    hide Reaches, Fits, JointApply, PausedPass;
    BothPerSample();
    if done == 0 {
      w := PauseAndPoll(pcm);
    } else {
      var t := DecodesUpTo(pcm, done - 1);
      DecodeStep(t, pcm, done - 1);
      w := JointApply(HEARING, t, Plain(Decode([])));
      Then(HEARING, BEGIN, PausedRun(pcm, done - 1), t, Plain(Decode([])));
      assert PausedRun(pcm, done - 1) + [Plain(Decode([]))] == PausedRun(pcm, done);
    }
  }

  /**
   * A pause that lands past the gate: the pass still hands each of its windows to the decoder,
   * as many as there is audio for.
   */
  lemma AdmittedPassDecodesPaused(pcm: seq<Sample>)
    ensures HEARING.Valid() && Runs(HEARING, BEGIN, PausedRun(pcm, |pcm|))
    ensures PausedRun(pcm, |pcm|)[3] == Plain(Pause) && StaysPaused(PausedRun(pcm, |pcm|))
    ensures var w := Final(HEARING, BEGIN, PausedRun(pcm, |pcm|));
            && w.session.flags.paused && w.session.meter.decodes == |pcm|
            && w.stream.received == pcm && |w.stream.core.fed| == |pcm|
  {
    hide Runs, Final;
    var w := DecodesUpTo(pcm, |pcm|);
  }

  // ---------------------------------------------------------------- a failed decode

  function FailedRun(pcm: seq<Sample>): seq<Joint> {
    [Joint(Enqueue(|pcm|), pcm), Plain(WakePump), Plain(Check), Plain(BeginPoll(|pcm|)), Plain(DecodeFails), Plain(Check)]
  }

  /**
   * The first of two windows or more fails to decode: the pump parks, un-notified and with no
   * wake pending, on windows of audio it has received and not decoded.
   */
  lemma FailedPassStrandsWindows(pcm: seq<Sample>)
    requires |pcm| > 1
    ensures FAILING.Valid() && Runs(FAILING, BEGIN, FailedRun(pcm))
    ensures var w := Final(FAILING, BEGIN, FailedRun(pcm));
            && w.session.pump == Waiting && w.session.flags == Flags(false, false, false, Parked(false))
            && w.session.input.stranded == |pcm| - 1
            && w.stream.received == pcm && w.stream.taken == 1 && FAILING.geometry.ReadyCount(|pcm|) == |pcm|
  {
    hide Reaches, Runs, Final, Fits, JointApply, Geometry.ReadyCount, AtGate, PerSample;
    BothPerSample();
    SampleWindows(FAILING, |pcm|);
    var run := FailedRun(pcm);
    ReachesGate(FAILING, pcm, run);
    var w4 := FailingPoll(pcm);
    var w5 := FailingDecode(pcm, w4);
    var w6 := ParksAfter(pcm, w5);
    Along(FAILING, BEGIN, run, 3, AtGate(pcm));
    Along(FAILING, BEGIN, run, 4, w4);
    Along(FAILING, BEGIN, run, 5, w5);
    assert run[..6] == run;
    ReachesIs(FAILING, BEGIN, run, w6);
  }

  lemma ReachesIs(cfg: Config, w: Walk, run: seq<Joint>, t: Walk)
    requires cfg.Valid() && Reaches(cfg, w, run, t)
    ensures Runs(cfg, w, run) && Final(cfg, w, run) == t
  {
    hide Runs, Final;
  }

  lemma FailingPoll(pcm: seq<Sample>) returns (w: Walk)
    ensures FAILING.Valid() && Fits(FAILING, AtGate(pcm), Plain(BeginPoll(|pcm|)))
    ensures w == JointApply(FAILING, AtGate(pcm), Plain(BeginPoll(|pcm|)))
    ensures w == Walk(AtGate(pcm).session.(pump := Polling(|pcm|, []), input := Input(0, 0, 0, false)),
                      S.INITIAL.(received := pcm), [])
  {
    BothPerSample();
    hide HostApply, HostEnabled, WinnerApply, WinnerEnabled, Geometry.ReadyCount;
    SampleWindows(FAILING, |pcm|);
    assert [] + pcm == pcm;
    w := JointApply(FAILING, AtGate(pcm), Plain(BeginPoll(|pcm|)));
  }

  lemma FailingDecode(pcm: seq<Sample>, w: Walk) returns (t: Walk)
    requires |pcm| > 1
    requires w == Walk(AtGate(pcm).session.(pump := Polling(|pcm|, []), input := Input(0, 0, 0, false)),
                       S.INITIAL.(received := pcm), [])
    ensures FAILING.Valid() && Fits(FAILING, w, Plain(DecodeFails)) && t == JointApply(FAILING, w, Plain(DecodeFails))
    ensures t.session.pump == Checking && t.session.flags == Flags(false, false, false, Away)
    ensures t.session.input.stranded == |pcm| - 1 && t.stream.received == pcm && t.stream.taken == 1
  {
    BothPerSample();
    hide HostApply, HostEnabled, WinnerApply, WinnerEnabled, Geometry.ReadyCount, Geometry.Ready;
    SampleWindows(FAILING, |pcm|);
    assert FAILING.decode([], FAILING.geometry.WindowAt(pcm, 0).samples) == Err("decode failed");
    t := JointApply(FAILING, w, Plain(DecodeFails));
  }

  lemma ParksAfter(pcm: seq<Sample>, w: Walk) returns (t: Walk)
    requires w.session.pump == Checking && w.session.flags == Flags(false, false, false, Away)
    ensures FAILING.Valid() && Fits(FAILING, w, Plain(Check)) && t == JointApply(FAILING, w, Plain(Check))
    ensures t.session.pump == Waiting && t.session.flags == Flags(false, false, false, Parked(false))
    ensures t.session.input == w.session.input && t.stream == w.stream
  {
    BothPerSample();
    hide HostApply, HostEnabled, WinnerApply, WinnerEnabled;
    t := JointApply(FAILING, w, Plain(Check));
  }

  // ---------------------------------------------------------------- a flush during a pause

  /** One sample pushed, then paused, finished, joined and flushed. */
  const PAUSED_FINISH: seq<Joint> :=
    [Joint(Enqueue(1), F.PUSHED), Plain(WakePump), Plain(Pause), Plain(Enter(0, Finish)), Plain(Acquire(0)),
     Plain(Signal(0)), Plain(Check), Plain(Join(0)), Plain(FlushAppend(0, ["a"]))]

  /** Paused, with the winning finish waiting for the join, the sample unread and nothing stored. */
  ghost predicate PausedFinishing(w: Walk, pc: CallerPc, pump: Pump) {
    && w.session.flags.paused && w.session.flags.stop && w.session.flushOnFinish && w.session.meter == Meter(0, 0, 0)
    && w.session.exits.callers == map[0 := Caller(Finish, pc)] && w.session.record == Record(Recording, [], [], "")
    && w.session.pump == pump && w.stream == S.INITIAL.(input := F.PUSHED) && w.drained == []
  }

  lemma PausesAndEnters(w: Walk) returns (t: Walk)
    requires w == Woken(F.PUSHED)
    ensures var s1 := w.session.(flags := w.session.flags.(paused := true));
            var s2 := s1.(exits := Entered(s1.exits, 0, Finish));
            && Enabled(w.session, Pause) && Apply(w.session, Pause) == s1
            && Enabled(s1, Enter(0, Finish)) && Apply(s1, Enter(0, Finish)) == s2
            && t == w.(session := s2)
  {
    hide PumpApply, PumpEnabled, WinnerApply, WinnerEnabled;
    var s1 := w.session.(flags := w.session.flags.(paused := true));
    t := w.(session := s1.(exits := Entered(s1.exits, 0, Finish)));
  }

  lemma AcquiresAndSignals(s: State) returns (t: State)
    requires s.exits == Entered(Exits(false, map[], None, Nobody, 0), 0, Finish)
    ensures Enabled(s, Acquire(0)) && Enabled(Apply(s, Acquire(0)), Signal(0))
    ensures t == Apply(Apply(s, Acquire(0)), Signal(0))
    ensures t == s.(exits := t.exits, flags := s.flags.Stopped()) && t.exits.callers == map[0 := Caller(Finish, Joining)]
  {
    hide PumpApply, PumpEnabled, HostApply, HostEnabled;
    t := Apply(Apply(s, Acquire(0)), Signal(0));
  }

  lemma ExitsAndJoins(s: State) returns (t: State)
    requires s.pump == Checking && s.flags.stop && s.exits.callers == map[0 := Caller(Finish, Joining)]
    ensures Enabled(s, Check) && Enabled(Apply(s, Check), Join(0)) && t == Apply(Apply(s, Check), Join(0))
    ensures t == s.(pump := Exited, exits := t.exits) && t.exits.callers == map[0 := Caller(Finish, Joined)]
  {
    hide HostApply, HostEnabled;
    t := Apply(Apply(s, Check), Join(0));
  }

  lemma ReachesJoin() returns (w: Walk)
    ensures F.FLAKY.Valid() && Reaches(F.FLAKY, BEGIN, PAUSED_FINISH[..8], w) && PausedFinishing(w, Joined, Exited)
  {
    hide Fits, JointApply, Reaches, Apply, Enabled, Runs, Final;
    FlakyIsValid();
    var cfg, run := F.FLAKY, PAUSED_FINISH;
    PushSteps(cfg, F.PUSHED);
    Setout(cfg, BEGIN, run);
    Along(cfg, BEGIN, run, 0, BEGIN);
    Along(cfg, BEGIN, run, 1, Pushing(F.PUSHED));
    var w2 := Woken(F.PUSHED);
    var w4 := PausesAndEnters(w2);
    var w3 := w2.(session := Apply(w2.session, Pause));
    PlainFits(cfg, w2, Pause);
    PlainFits(cfg, w3, Enter(0, Finish));
    Along(cfg, BEGIN, run, 2, w2);
    Along(cfg, BEGIN, run, 3, w3);
    var s6 := AcquiresAndSignals(w4.session);
    var w5 := w4.(session := Apply(w4.session, Acquire(0)));
    PlainFits(cfg, w4, Acquire(0));
    PlainFits(cfg, w5, Signal(0));
    Along(cfg, BEGIN, run, 4, w4);
    Along(cfg, BEGIN, run, 5, w5);
    var w6 := w5.(session := s6);
    var s8 := ExitsAndJoins(s6);
    var w7 := w6.(session := Apply(s6, Check));
    PlainFits(cfg, w6, Check);
    PlainFits(cfg, w7, Join(0));
    Along(cfg, BEGIN, run, 6, w6);
    Along(cfg, BEGIN, run, 7, w7);
    w := w7.(session := s8);
  }

  lemma FlakyIsValid()
    ensures F.FLAKY.Valid()
  {
    F.FlakyReady(0);
  }

  /** The end of the stream decodes the one sample, and hears its word. */
  lemma FlushHears()
    ensures F.FLAKY.Valid()
    ensures var (st, p) := S.EndStep(F.FLAKY, S.INITIAL.(input := F.PUSHED));
            && p.error == None && p.drained == [F.HEARD] && st.core.fed == [F.PUSHED] && st.received == F.PUSHED
    ensures Spoken([F.HEARD]) == ["a"]
  {
    FlakyIsValid();
    F.FlakyFirstPoll(S.INITIAL.(input := F.PUSHED));
    hide S.PollStep;
    assert F.FLAKY.geometry.FinalWindow(F.PUSHED, 1) == None;
    assert [F.HEARD] + [] == [F.HEARD];
    F.EmitOne(F.HEARD);
    assert [S.FinalizedSegment(0, 0, "a")][1..] == [];
  }

  /**
   * A finish during a pause: the flush hands the sample to the decoder, and stores and
   * flushes its text, while the session is still paused.
   */
  lemma FlushDecodesPaused()
    ensures F.FLAKY.Valid() && Runs(F.FLAKY, BEGIN, PAUSED_FINISH) && StaysPaused(PAUSED_FINISH)
    ensures var w := Final(F.FLAKY, BEGIN, PAUSED_FINISH);
            && w.session.flags.paused && w.session.meter == Meter(0, 0, 1)
            && w.stream.core.fed == [F.PUSHED]
            && SpeechText(w.session.record.transcript) == "a "
  {
    hide Reaches, Fits, JointApply, SpeechText, Runs, Final, PausedFinishing;
    var w := ReachesJoin();
    var t := FlushStep(w);
    Along(F.FLAKY, BEGIN, PAUSED_FINISH, 8, w);
    assert PAUSED_FINISH[..9] == PAUSED_FINISH;
    ReachesIs(F.FLAKY, BEGIN, PAUSED_FINISH, t);
  }

  lemma FlushStep(w: Walk) returns (t: Walk)
    requires PausedFinishing(w, Joined, Exited)
    ensures F.FLAKY.Valid() && Fits(F.FLAKY, w, Plain(FlushAppend(0, ["a"])))
    ensures t == JointApply(F.FLAKY, w, Plain(FlushAppend(0, ["a"])))
    ensures t.session.flags.paused && t.session.meter == Meter(0, 0, 1) && t.stream.core.fed == [F.PUSHED]
    ensures SpeechText(t.session.record.transcript) == "a "
  {
    FlushHears();
    hide PumpApply, PumpEnabled, HostApply, HostEnabled, S.EndStep, SpeechText, Spoken, Chunks, SpeechEntries;
    t := JointApply(F.FLAKY, w, Plain(FlushAppend(0, ["a"])));
    SpeechOfEntries(["a"]);
    OneChunk();
    assert [] + SpeechEntries(["a"]) == SpeechEntries(["a"]);
  }

  lemma OneChunk()
    ensures Chunks(["a"]) == "a "
  {
    assert !IsSpace("a"[0]) && !Blank("a");
    assert ["a"][1..] == [] && Chunks([]) == "" && Chunk("a") == "a ";
    assert "a " + "" == "a ";
  }
}
