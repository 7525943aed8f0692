/**
 * What the pump decodes while paused, and what a failed decode strands, with the windows and
 * the text tied to the audio pushed. Every run here starts from a new session.
 */
module WalkRuns {
  import opened Outcomes
  import opened Blanks
  import opened Chunking
  import opened Finalizing
  import S = Streaming
  import F = Schedules
  import opened PumpCells
  import opened Sessions
  import opened SessionProofs
  import opened PumpRuns
  import opened Walks

  // ---------------------------------------------------------------- runs, built step by step

  ghost predicate Reaches(cfg: Config, w: Walk, run: seq<Joint>, t: Walk)
    requires cfg.Valid()
  {
    Runs(cfg, w, run) && Final(cfg, w, run) == t
  }

  lemma Setout(cfg: Config, w: Walk, run: seq<Joint>)
    requires cfg.Valid()
    ensures Reaches(cfg, w, run[..0], w)
    ensures run[..|run|] == run
  {
    assert run[..0] == [];
  }

  lemma {:induction false} Then(cfg: Config, w: Walk, run: seq<Joint>, t: Walk, j: Joint)
    requires cfg.Valid() && Reaches(cfg, w, run, t) && Fits(cfg, t, j)
    ensures Reaches(cfg, w, run + [j], JointApply(cfg, t, j))
    decreases |run|
  {
    hide Fits, JointApply;
    var more := run + [j];
    if run == [] {
      assert more == [j] && more[1..] == [];
      assert Reaches(cfg, JointApply(cfg, t, j), [], JointApply(cfg, t, j));
    } else {
      Then(cfg, JointApply(cfg, w, run[0]), run[1..], t, j);
      assert more[1..] == run[1..] + [j];
    }
  }

  /** One more step along a given run. */
  lemma Along(cfg: Config, w: Walk, run: seq<Joint>, k: nat, t: Walk)
    requires cfg.Valid() && k < |run| && Reaches(cfg, w, run[..k], t) && Fits(cfg, t, run[k])
    ensures Reaches(cfg, w, run[..k + 1], JointApply(cfg, t, run[k]))
  {
    hide Reaches, Fits, JointApply;
    Then(cfg, w, run[..k], t, run[k]);
    assert run[..k] + [run[k]] == run[..k + 1];
  }

  /** A step that does not touch the stream. */
  predicate IsPlain(step: Step) {
    && !step.Enqueue? && !step.BeginPoll? && !step.Decode? && !step.DecodeFails?
    && !step.FlushAppend? && !step.FlushFails?
  }

  function Plain(step: Step): Joint {
    Joint(step, [])
  }

  lemma PlainFits(cfg: Config, w: Walk, step: Step)
    requires cfg.Valid() && IsPlain(step) && Enabled(w.session, step)
    ensures Fits(cfg, w, Plain(step))
    ensures JointApply(cfg, w, Plain(step)) == w.(session := Apply(w.session, step))
  {
    hide Enabled, Apply;
  }

  // ---------------------------------------------------------------- every run keeps the pass in step with the stream

  /** What is left of a pass, or was left behind by a failed one, is among the ready windows. */
  ghost predicate InStep(cfg: Config, w: Walk)
    requires cfg.Valid()
  {
    var st := w.stream;
    && Inv(w.session)
    && (w.session.pump.Polling? ==>
          w.session.input.stranded == 0 && w.session.pump.left + st.taken == cfg.geometry.ReadyCount(|st.received|))
    && (w.session.pump != Exited && !w.session.pump.Polling? ==>
          w.session.input.stranded + st.taken <= cfg.geometry.ReadyCount(|st.received|))
  }

  lemma ReadyGrows(g: Geometry, m: nat, n: nat)
    requires g.Valid() && m <= n
    ensures g.ReadyCount(m) <= g.ReadyCount(n)
  {
    if g.ReadyCount(m) > 0 {
      ReadyCountIsExact(g, m, g.ReadyCount(m) - 1);
      ReadyCountIsExact(g, n, g.ReadyCount(m) - 1);
    }
  }

  lemma PumpStepInStep(cfg: Config, w: Walk, j: Joint)
    requires cfg.Valid() && InStep(cfg, w) && Fits(cfg, w, j) && IsPumpStep(j.step)
    ensures InStep(cfg, JointApply(cfg, w, j))
  {
    hide Inv, Apply, Enabled, Geometry.ReadyCount, Geometry.Ready, S.DecodeOne;
    StepPreserves(w.session, j.step);
    PumpProgress(w.session, j.step);
    var st := w.stream;
    ReadyGrows(cfg.geometry, |st.received|, |st.received + st.input|);
  }

  /** What each pump step does to the windows of the pass. */
  lemma PumpProgress(s: State, step: Step)
    requires Enabled(s, step) && IsPumpStep(step)
    ensures var t := Apply(s, step);
            match step
            case BeginPoll(ready) =>
              s.pump == Admitted && t.pump == Polling(s.input.stranded + ready, []) && t.input.stranded == 0
            case Decode(_) =>
              s.pump.Polling? && t.pump.Polling? && t.pump.left == s.pump.left - 1 && t.input.stranded == s.input.stranded
            case DecodeFails =>
              s.pump.Polling? && t.pump == Checking && t.input.stranded == s.pump.left - 1
            case _ =>
              && s.pump != Exited && (s.pump.Polling? ==> s.pump.left == 0)
              && !t.pump.Polling? && t.input.stranded == s.input.stranded
  {
    hide HostApply, HostEnabled, WinnerApply, WinnerEnabled, Chunk, Blank, Appended, Announced;
  }

  lemma OtherStepInStep(cfg: Config, w: Walk, j: Joint)
    requires cfg.Valid() && InStep(cfg, w) && Fits(cfg, w, j) && !IsPumpStep(j.step)
    ensures InStep(cfg, JointApply(cfg, w, j))
  {
    StepPreserves(w.session, j.step);
    PumpStands(w.session, j.step);
    hide Enabled, Apply, Inv, Geometry.ReadyCount, S.EndStep;
  }

  /** Only its own steps move the pump; the flush comes after its exit, and nothing else strands. */
  lemma PumpStands(s: State, step: Step)
    requires Inv(s) && Enabled(s, step) && !IsPumpStep(step)
    ensures Apply(s, step).pump == s.pump && Apply(s, step).meter.decodes == s.meter.decodes
    ensures step.FlushAppend? || step.FlushFails? ==> s.pump == Exited
    ensures !step.FlushAppend? ==> Apply(s, step).input.stranded == s.input.stranded
  {
    hide PumpApply, PumpEnabled, Chunks, SpeechEntries, Appended, Announced, TextInv, GateInv, InputInv;
    if IsWinnerStep(step) {
      StepIsWinners(s, step, step.id);
    }
  }

  lemma {:induction false} RunsInStep(cfg: Config, w: Walk, run: seq<Joint>)
    requires cfg.Valid() && InStep(cfg, w) && Runs(cfg, w, run)
    ensures InStep(cfg, Final(cfg, w, run))
    decreases |run|
  {
    hide InStep, Fits, JointApply;
    if run != [] {
      if IsPumpStep(run[0].step) {
        PumpStepInStep(cfg, w, run[0]);
      } else {
        OtherStepInStep(cfg, w, run[0]);
      }
      RunsInStep(cfg, JointApply(cfg, w, run[0]), run[1..]);
    }
  }

  lemma BeginsInStep(cfg: Config, flushOnFinish: bool)
    requires cfg.Valid()
    ensures InStep(cfg, NewWalk(flushOnFinish))
  {
    assert Inv(Initial(flushOnFinish));
  }

  // ---------------------------------------------------------------- when the pump can decode during a pause

  /** Ready windows in what is buffered. */
  function Buffered(cfg: Config, st: S.State): int
    requires cfg.Valid()
  {
    cfg.geometry.ReadyCount(|st.received + st.input|) - st.taken
  }

  /**
   * A pass is in the middle of its windows; or past its gate, and a window is ready in what
   * is buffered or the host can still push one.
   */
  predicate PassUnderWay(cfg: Config, w: Walk)
    requires cfg.Valid()
  {
    || Left(w.session.pump) > 0
    || (w.session.pump == Admitted && w.session.host != Gone && (w.session.host == Held || Buffered(cfg, w.stream) > 0))
  }

  predicate StaysPaused(run: seq<Joint>) {
    forall j :: j in run ==> !j.step.Resume?
  }

  /** The pump takes up a window. */
  ghost predicate PumpDecodes(cfg: Config, w: Walk, run: seq<Joint>)
    requires cfg.Valid()
  {
    Runs(cfg, w, run) && Final(cfg, w, run).session.meter.decodes > w.session.meter.decodes
  }

  lemma IdlePumpStep(cfg: Config, w: Walk, j: Joint)
    requires cfg.Valid() && InStep(cfg, w) && Fits(cfg, w, j) && IsPumpStep(j.step)
    requires w.session.flags.paused && !PassUnderWay(cfg, w)
    ensures var t := JointApply(cfg, w, j);
            t.session.flags.paused && !PassUnderWay(cfg, t) && t.session.meter.decodes == w.session.meter.decodes
  {
    hide HostApply, HostEnabled, WinnerApply, WinnerEnabled, Inv, Chunk, Blank, Appended, Announced;
    hide Geometry.ReadyCount, Geometry.Ready, S.DecodeOne;
  }

  lemma IdleOtherStep(cfg: Config, w: Walk, j: Joint)
    requires cfg.Valid() && InStep(cfg, w) && Fits(cfg, w, j) && !IsPumpStep(j.step) && !j.step.Resume?
    requires w.session.flags.paused && !PassUnderWay(cfg, w)
    ensures var t := JointApply(cfg, w, j);
            t.session.flags.paused && !PassUnderWay(cfg, t) && t.session.meter.decodes == w.session.meter.decodes
  {
    PumpStands(w.session, j.step);
    HostOnlyLetsGo(w.session, j.step);
    hide Enabled, Apply, Inv, Geometry.ReadyCount, S.EndStep;
  }

  lemma HostOnlyLetsGo(s: State, step: Step)
    requires Enabled(s, step) && !IsPumpStep(step)
    ensures Apply(s, step).host == Held ==> s.host == Held
    ensures Apply(s, step).host != Gone ==> s.host != Gone
    ensures step.Enqueue? ==> s.host == Held
    ensures s.flags.paused && !step.Resume? ==> Apply(s, step).flags.paused
  {
    hide PumpApply, PumpEnabled, Chunks, SpeechEntries, Appended, Announced;
  }

  lemma {:induction false} IdleRun(cfg: Config, w: Walk, run: seq<Joint>)
    requires cfg.Valid() && InStep(cfg, w) && Runs(cfg, w, run) && StaysPaused(run)
    requires w.session.flags.paused && !PassUnderWay(cfg, w)
    ensures Final(cfg, w, run).session.meter.decodes == w.session.meter.decodes
    decreases |run|
  {
    hide InStep, Fits, JointApply, PassUnderWay;
    if run != [] {
      assert run[0] in run;
      if IsPumpStep(run[0].step) {
        PumpStepInStep(cfg, w, run[0]);
        IdlePumpStep(cfg, w, run[0]);
      } else {
        OtherStepInStep(cfg, w, run[0]);
        IdleOtherStep(cfg, w, run[0]);
      }
      assert forall j :: j in run[1..] ==> j in run;
      IdleRun(cfg, JointApply(cfg, w, run[0]), run[1..]);
    }
  }

  /** A pass with windows left takes up the next one, whether its decode fails or not. */
  lemma TakesUpWindow(cfg: Config, w: Walk) returns (j: Joint)
    requires cfg.Valid() && InStep(cfg, w) && Left(w.session.pump) > 0
    ensures Fits(cfg, w, j) && !j.step.Resume?
    ensures JointApply(cfg, w, j).session.meter.decodes == w.session.meter.decodes + 1
  {
    var st := w.stream;
    ReadyCountIsExact(cfg.geometry, |st.received|, st.taken);
    var p := NextPass(cfg, st);
    j := Plain(if p.error.Some? then DecodeFails else Decode(Spoken(p.drained)));
    hide HostApply, HostEnabled, WinnerApply, WinnerEnabled, Inv, Chunk, Blank, S.DecodeOne, Spoken, Geometry.ReadyCount;
  }

  /** A pass past its gate starts on all that is buffered. */
  lemma StartsPass(cfg: Config, w: Walk) returns (j: Joint)
    requires cfg.Valid() && InStep(cfg, w) && w.session.pump == Admitted && w.session.host != Gone
    ensures Fits(cfg, w, j) && !j.step.Resume? && j.step.BeginPoll?
    ensures var t := JointApply(cfg, w, j).session;
            Left(t.pump) == Buffered(cfg, w.stream) && t.meter.decodes == w.session.meter.decodes
  {
    var st := w.stream;
    ReadyGrows(cfg.geometry, |st.received|, |st.received + st.input|);
    j := Plain(BeginPoll(Buffered(cfg, st) - w.session.input.stranded));
    hide HostApply, HostEnabled, WinnerApply, WinnerEnabled, Inv, Geometry.ReadyCount;
  }

  /** Audio that makes one more window ready. */
  lemma PushesWindow(cfg: Config, w: Walk) returns (j: Joint)
    requires cfg.Valid() && w.session.host == Held
    ensures Fits(cfg, w, j) && !j.step.Resume?
    ensures var t := JointApply(cfg, w, j);
            && t.session == Apply(w.session, j.step) && t.session.pump == w.session.pump && t.session.host == Held
            && t.session.meter == w.session.meter && Buffered(cfg, t.stream) > 0
  {
    var g := cfg.geometry;
    var st := w.stream;
    var pcm := Silence(st.taken * g.step + g.chunkLen);
    j := Joint(Enqueue(|pcm|), pcm);
    var t := JointApply(cfg, w, j);
    ReadyCountIsExact(g, |t.stream.received + t.stream.input|, st.taken);
    hide PumpApply, PumpEnabled, WinnerApply, WinnerEnabled, Geometry.ReadyCount;
  }

  function Silence(n: nat): (pcm: seq<Sample>)
    ensures |pcm| == n
  {
    if n == 0 then [] else Silence(n - 1) + [0.0]
  }

  lemma UnderWayDecodes(cfg: Config, w: Walk) returns (run: seq<Joint>)
    requires cfg.Valid() && InStep(cfg, w) && PassUnderWay(cfg, w)
    ensures PumpDecodes(cfg, w, run) && StaysPaused(run)
  {
    hide InStep, Fits, JointApply;
    if Left(w.session.pump) > 0 {
      var j := TakesUpWindow(cfg, w);
      run := [j];
      Setout(cfg, w, run);
      Along(cfg, w, run, 0, w);
    } else if Buffered(cfg, w.stream) > 0 {
      run := BufferedDecodes(cfg, w);
    } else {
      var j := PushesWindow(cfg, w);
      var t := JointApply(cfg, w, j);
      OtherStepInStep(cfg, w, j);
      var rest := BufferedDecodes(cfg, t);
      run := [j] + rest;
      assert run[1..] == rest;
    }
  }

  lemma BufferedDecodes(cfg: Config, w: Walk) returns (run: seq<Joint>)
    requires cfg.Valid() && InStep(cfg, w) && w.session.pump == Admitted && w.session.host != Gone
    requires Buffered(cfg, w.stream) > 0
    ensures PumpDecodes(cfg, w, run) && StaysPaused(run)
  {
    hide InStep, Fits, JointApply;
    var j := StartsPass(cfg, w);
    var t := JointApply(cfg, w, j);
    PumpStepInStep(cfg, w, j);
    var k := TakesUpWindow(cfg, t);
    run := [j, k];
    Setout(cfg, w, run);
    Along(cfg, w, run, 0, w);
    Along(cfg, w, run, 1, t);
  }

  /**
   * In every paused state that any run reaches, decodes failing or not: the pump can take up a
   * window before the next resume exactly when a pass is under way.
   */
  lemma PausedPumpDecodesIff(cfg: Config, flushOnFinish: bool, before: seq<Joint>)
    requires cfg.Valid() && Runs(cfg, NewWalk(flushOnFinish), before)
    requires Final(cfg, NewWalk(flushOnFinish), before).session.flags.paused
    ensures var w := Final(cfg, NewWalk(flushOnFinish), before);
            (exists run :: PumpDecodes(cfg, w, run) && StaysPaused(run)) <==> PassUnderWay(cfg, w)
  {
    hide InStep, Fits, JointApply, PassUnderWay;
    BeginsInStep(cfg, flushOnFinish);
    RunsInStep(cfg, NewWalk(flushOnFinish), before);
    var w := Final(cfg, NewWalk(flushOnFinish), before);
    if PassUnderWay(cfg, w) {
      var run := UnderWayDecodes(cfg, w);
    }
    if run :| PumpDecodes(cfg, w, run) && StaysPaused(run) {
      if !PassUnderWay(cfg, w) {
        IdleRun(cfg, w, run);
      }
    }
  }
}
