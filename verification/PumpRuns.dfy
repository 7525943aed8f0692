/**
 * What the pump does between its gate and its next park: under a pause, under a stop, and
 * when a decode fails.
 */
module PumpRuns {
  import opened Outcomes
  import opened Blanks
  import opened PumpCells
  import opened Sessions
  import opened SessionProofs

  // ---------------------------------------------------------------- the background gate

  predicate NoResume(steps: seq<Step>) {
    forall step :: step in steps ==> !step.Resume?
  }

  function Polls(steps: seq<Step>): nat {
    if steps == [] then 0 else (if steps[0].BeginPoll? then 1 else 0) + Polls(steps[1..])
  }

  /** Windows the pass under way may still decode. */
  function Left(p: Pump): nat {
    if p.Polling? then p.left else 0
  }

  /**
   * From a pause to the next resume the pump passes its gate zero times. At most one poll
   * starts, and only if the pump was already past the gate; without one, what is decoded is
   * what was left of the pass under way.
   */
  lemma {:induction false} PauseHolds(s: State, steps: seq<Step>)
    requires s.flags.paused && Legal(s, steps) && NoResume(steps)
    ensures var t := Exec(s, steps);
            && t.flags.paused && t.meter.gates == s.meter.gates
            && Polls(steps) <= (if s.pump == Admitted && s.host != Gone then 1 else 0)
            && (Polls(steps) == 0 ==> t.meter.decodes + Left(t.pump) <= s.meter.decodes + Left(s.pump))
    decreases steps
  {
    if steps != [] {
      PauseStep(s, steps[0]);
      assert forall step :: step in steps[1..] ==> step in steps;
      PauseHolds(Apply(s, steps[0]), steps[1..]);
    }
  }

  lemma PauseStep(s: State, step: Step)
    requires s.flags.paused && Enabled(s, step) && !step.Resume?
    ensures var t := Apply(s, step);
            && t.flags.paused && t.meter.gates == s.meter.gates
            && (step.BeginPoll? ==> s.pump == Admitted && s.host != Gone)
            && (t.pump == Admitted ==> s.pump == Admitted && !step.BeginPoll?)
            && (s.host == Gone ==> t.host == Gone)
            && (!step.BeginPoll? ==> t.meter.decodes + Left(t.pump) <= s.meter.decodes + Left(s.pump))
  {
    if IsPumpStep(step) {
      PausePumpStep(s, step);
    } else {
      PauseOtherStep(s, step);
    }
    hide Apply, Enabled;
  }

  lemma PausePumpStep(s: State, step: Step)
    requires s.flags.paused && Enabled(s, step) && !step.Resume? && IsPumpStep(step)
    ensures var t := Apply(s, step);
            && t.flags.paused && t.meter.gates == s.meter.gates
            && (step.BeginPoll? ==> s.pump == Admitted && s.host != Gone)
            && (t.pump == Admitted ==> s.pump == Admitted && !step.BeginPoll?)
            && (s.host == Gone ==> t.host == Gone)
            && (!step.BeginPoll? ==> t.meter.decodes + Left(t.pump) <= s.meter.decodes + Left(s.pump))
  {
    hide HostApply, HostEnabled, WinnerApply, WinnerEnabled, Chunk, Blank, Appended, Announced;
  }

  lemma PauseOtherStep(s: State, step: Step)
    requires s.flags.paused && Enabled(s, step) && !step.Resume? && !IsPumpStep(step)
    ensures var t := Apply(s, step);
            && t.flags.paused && t.meter.gates == s.meter.gates
            && (step.BeginPoll? ==> s.pump == Admitted && s.host != Gone)
            && (t.pump == Admitted ==> s.pump == Admitted && !step.BeginPoll?)
            && (s.host == Gone ==> t.host == Gone)
            && (!step.BeginPoll? ==> t.meter.decodes + Left(t.pump) <= s.meter.decodes + Left(s.pump))
  {
    hide PumpApply, PumpEnabled, Chunks, SpeechEntries, Appended, Announced;
  }

  /** A parked pump that is resumed with a wake pending, or woken while not paused, is let through the gate. */
  lemma WakeAndResumeLetThrough(s: State, step: Step)
    requires Inv(s) && s.pump == Waiting && !s.flags.stop && Enabled(s, step)
    requires (step.Resume? && s.flags.wake) || (step.WakePump? && !s.flags.paused)
    ensures Legal(s, [step, Awaken, Check])
    ensures var t := Exec(s, [step, Awaken, Check]);
            t.pump == Admitted && t.meter.gates == s.meter.gates + 1 && !t.flags.wake
    ensures Apply(s, step).flags.waiter == Parked(true)
  {
    LetThrough(s, step);
    hide Apply, Enabled;
    var t := Apply(s, step);
    OneStep(Apply(t, Awaken), Check);
    OneStep(t, Awaken);
    Concat(t, [Awaken], [Check]);
    OneStep(s, step);
    Concat(s, [step], [Awaken] + [Check]);
    assert [step] + ([Awaken] + [Check]) == [step, Awaken, Check];
  }

  lemma LetThrough(s: State, step: Step)
    requires Inv(s) && s.pump == Waiting && !s.flags.stop && Enabled(s, step)
    requires (step.Resume? && s.flags.wake) || (step.WakePump? && !s.flags.paused)
    ensures var t := Apply(s, step);
            && t.flags.waiter == Parked(true) && Enabled(t, Awaken)
            && var u := Apply(t, Awaken);
               && Enabled(u, Check)
               && var v := Apply(u, Check);
                  v.pump == Admitted && v.meter.gates == s.meter.gates + 1 && !v.flags.wake
  {
    hide WinnerApply, WinnerEnabled, ExitInv, TextInv, InputInv, Chunk, Blank, Appended, Announced;
  }

  // ---------------------------------------------------------------- a stop overrides the pause

  function Repaused(s: State, paused: bool): State {
    s.(flags := s.flags.(paused := paused))
  }

  predicate GateUntouched(steps: seq<Step>) {
    forall step :: step in steps ==> !step.Pause? && !step.Resume?
  }

  lemma StepIgnoresPause(s: State, step: Step, paused: bool)
    requires s.flags.stop && Enabled(s, step) && !step.Pause? && !step.Resume?
    ensures Enabled(Repaused(s, paused), step)
    ensures Apply(Repaused(s, paused), step) == Repaused(Apply(s, step), paused) && Apply(s, step).flags.stop
  {
    hide PumpApply, PumpEnabled, WinnerApply, WinnerEnabled, HostApply, HostEnabled;
    if IsPumpStep(step) {
      PumpIgnoresPause(s, step, paused);
    } else if IsWinnerStep(step) {
      WinnerIgnoresPause(s, step, paused);
    } else {
      HostIgnoresPause(s, step, paused);
    }
  }

  lemma PumpIgnoresPause(s: State, step: Step, paused: bool)
    requires s.flags.stop && PumpEnabled(s, step)
    ensures PumpEnabled(Repaused(s, paused), step)
    ensures PumpApply(Repaused(s, paused), step) == Repaused(PumpApply(s, step), paused) && PumpApply(s, step).flags.stop
  {
    hide Chunk, Blank, Appended, Announced;
  }

  lemma WinnerIgnoresPause(s: State, step: Step, paused: bool)
    requires s.flags.stop && WinnerEnabled(s, step)
    ensures WinnerEnabled(Repaused(s, paused), step)
    ensures WinnerApply(Repaused(s, paused), step) == Repaused(WinnerApply(s, step), paused) && WinnerApply(s, step).flags.stop
  {
    hide Chunks, SpeechEntries, Appended, Announced;
  }

  lemma HostIgnoresPause(s: State, step: Step, paused: bool)
    requires s.flags.stop && HostEnabled(s, step) && !step.Pause? && !step.Resume?
    ensures HostEnabled(Repaused(s, paused), step)
    ensures HostApply(Repaused(s, paused), step) == Repaused(HostApply(s, step), paused) && HostApply(s, step).flags.stop
  {
    hide Appended;
  }

  /**
   * Once a finish or cancel has signalled the stop, the pause flag makes no difference to
   * any step of any thread: every run is a run of the paused and of the unpaused session
   * alike, with the same outcome.
   */
  lemma {:induction false} StopIgnoresPause(s: State, steps: seq<Step>, paused: bool)
    requires s.flags.stop && Legal(s, steps) && GateUntouched(steps)
    ensures Legal(Repaused(s, paused), steps)
    ensures Exec(Repaused(s, paused), steps) == Repaused(Exec(s, steps), paused)
    decreases |steps|
  {
    hide Enabled, Apply, Repaused;
    if steps != [] {
      assert steps[0] in steps;
      StepIgnoresPause(s, steps[0], paused);
      assert forall step :: step in steps[1..] ==> step in steps;
      StopIgnoresPause(Apply(s, steps[0]), steps[1..], paused);
    }
  }

  // ---------------------------------------------------------------- what a failed decode strands

  /** No wake and no stop reaches the pump. */
  predicate NoNews(steps: seq<Step>) {
    forall step :: step in steps ==> !step.WakePump? && !step.Signal? && !step.DropSession?
  }

  /** The step fails a decode with windows still to come. */
  predicate StrandsNow(s: State, step: Step) {
    step.DecodeFails? && Left(s.pump) > 1
  }

  ghost predicate Strands(s: State, steps: seq<Step>)
    requires Legal(s, steps)
    decreases |steps|
  {
    steps != [] && (StrandsNow(s, steps[0]) || Strands(Apply(s, steps[0]), steps[1..]))
  }

  /** A pump with no news, at work on a pass or parked after it. */
  ghost predicate Uninformed(s: State) {
    && Inv(s) && !s.flags.stop && !s.flags.wake && s.pump != Admitted
    && (s.pump.Polling? ==> s.input.stranded == 0)
  }

  lemma UninformedStep(s: State, step: Step)
    requires Uninformed(s) && Enabled(s, step) && !step.WakePump? && !step.Signal? && !step.DropSession?
    ensures Uninformed(Apply(s, step))
    ensures Apply(s, step).input.stranded > 0 <==> s.input.stranded > 0 || StrandsNow(s, step)
  {
    if IsPumpStep(step) {
      UninformedPumpStep(s, step);
    } else if IsWinnerStep(step) {
      UninformedWinnerStep(s, step, step.id);
    } else {
      UninformedHostStep(s, step);
    }
    hide Apply, Enabled, Uninformed;
  }

  lemma UninformedPumpStep(s: State, step: Step)
    requires Uninformed(s) && Enabled(s, step) && !step.WakePump? && !step.Signal? && !step.DropSession? && IsPumpStep(step)
    ensures Uninformed(Apply(s, step))
    ensures Apply(s, step).input.stranded > 0 <==> s.input.stranded > 0 || StrandsNow(s, step)
  {
    StepPreserves(s, step);
    hide HostApply, HostEnabled, WinnerApply, WinnerEnabled, Chunk, Blank, Appended, Announced, Inv;
  }

  lemma UninformedWinnerStep(s: State, step: Step, id: nat)
    requires Uninformed(s) && Enabled(s, step) && !step.WakePump? && !step.Signal? && !step.DropSession? && IsWinnerStep(step) && step.id == id
    ensures Uninformed(Apply(s, step))
    ensures Apply(s, step).input.stranded > 0 <==> s.input.stranded > 0 || StrandsNow(s, step)
  {
    hide HostApply, HostEnabled, PumpApply, PumpEnabled, Chunks, SpeechEntries, Appended, Announced, TextInv;
    StepPreserves(s, step);
    StepIsWinners(s, step, id);
    hide Inv;
  }

  lemma UninformedHostStep(s: State, step: Step)
    requires Uninformed(s) && Enabled(s, step) && !step.WakePump? && !step.Signal? && !step.DropSession? && !IsPumpStep(step) && !IsWinnerStep(step)
    ensures Uninformed(Apply(s, step))
    ensures Apply(s, step).input.stranded > 0 <==> s.input.stranded > 0 || StrandsNow(s, step)
  {
    StepPreserves(s, step);
    hide PumpApply, PumpEnabled, WinnerApply, WinnerEnabled, Appended, Announced, Inv;
  }

  lemma {:induction false} UninformedRun(s: State, steps: seq<Step>)
    requires Uninformed(s) && Legal(s, steps) && NoNews(steps)
    ensures Uninformed(Exec(s, steps))
    ensures Exec(s, steps).input.stranded > 0 <==> s.input.stranded > 0 || Strands(s, steps)
    decreases |steps|
  {
    hide Enabled, Apply, Uninformed, StrandsNow;
    if steps != [] {
      assert steps[0] in steps;
      UninformedStep(s, steps[0]);
      assert forall step :: step in steps[1..] ==> step in steps;
      UninformedRun(Apply(s, steps[0]), steps[1..]);
    }
  }

  /**
   * From a poll to any later park, with no wake and no stop in between: the pump parks with
   * no window left behind exactly when no decode failed before the pass's last window. It
   * parks with no wake pending, so what is left behind stays there.
   */
  lemma ParksCleanIff(flush: bool, before: seq<Step>, ready: nat, steps: seq<Step>)
    requires Legal(Initial(flush), before)
    requires var s := Exec(Initial(flush), before);
             && s.pump == Admitted && s.host != Gone && !s.flags.stop && !s.flags.wake
             && Legal(Apply(s, BeginPoll(ready)), steps) && NoNews(steps)
             && Exec(Apply(s, BeginPoll(ready)), steps).pump == Waiting
    ensures var s := Apply(Exec(Initial(flush), before), BeginPoll(ready));
            && (Exec(s, steps).input.stranded == 0 <==> !Strands(s, steps))
            && !Exec(s, steps).flags.wake
  {
    hide Legal, Exec, Strands, NoNews;
    EveryRunKeepsInvariants(flush, before);
    var s := Exec(Initial(flush), before);
    StepPreserves(s, BeginPoll(ready));
    hide Inv, Chunk, Chunks, SpeechEntries, Blank;
    UninformedRun(Apply(s, BeginPoll(ready)), steps);
  }
  // ---------------------------------------------------------------- an exit can always complete

  lemma {:induction false} Concat(s: State, a: seq<Step>, b: seq<Step>)
    requires Legal(s, a) && Legal(Exec(s, a), b)
    ensures Legal(s, a + b) && Exec(s, a + b) == Exec(Exec(s, a), b)
    decreases |a|
  {
    hide Enabled, Apply;
    if a == [] {
      assert a + b == b;
    } else {
      assert (a + b)[1..] == a[1..] + b;
      Concat(Apply(s, a[0]), a[1..], b);
    }
  }

  lemma OneStep(s: State, step: Step)
    requires Enabled(s, step)
    ensures Legal(s, [step]) && Exec(s, [step]) == Apply(s, step)
  {
    hide Enabled, Apply;
    assert [step][1..] == [];
  }

  /** How far the winner is from done. */
  function StepsLeft(pc: CallerPc): nat {
    match pc
    case WantsGuard => 7
    case Guarded => 6
    case Joining => 5
    case Joined => 4
    case Flushing(_) => 3
    case Flushed => 2
    case Closed => 1
    case _ => 0
  }

  /** The winner's own next step. */
  function NextStep(s: State, w: nat): Step
    requires w in s.exits.callers
  {
    match s.exits.callers[w].pc
    case WantsGuard => Acquire(w)
    case Guarded => Signal(w)
    case Joining => Join(w)
    case Joined => if MustFlush(s, w) then FlushAppend(w, []) else Close(w)
    case Flushing(_) => FlushEmit(w)
    case Flushed => Close(w)
    case _ => Release(w)
  }

  lemma WinnerProgress(s: State, w: nat)
    requires Inv(s) && s.exits.winner == Some(w) && StepsLeft(WinnerPc(s.exits)) > 0
    requires WinnerPc(s.exits) == WantsGuard ==> s.exits.extractor == Nobody
    requires WinnerPc(s.exits) == Joining ==> s.pump == Exited
    ensures w in s.exits.callers && s.exits.callers[w].pc == WinnerPc(s.exits)
    ensures Enabled(s, NextStep(s, w))
    ensures var t := Apply(s, NextStep(s, w));
            t.exits.winner == Some(w) && StepsLeft(WinnerPc(t.exits)) < StepsLeft(WinnerPc(s.exits))
  {
    hide PumpApply, PumpEnabled, HostApply, HostEnabled, Chunks, SpeechEntries, Appended, Announced, TextInv, GateInv, InputInv;
  }

  lemma TickCanEnd(s: State)
    requires Inv(s) && s.exits.extractor == Tick
    ensures Enabled(s, TickEnds) && Apply(s, TickEnds).exits == s.exits.(extractor := Nobody, ticks := s.exits.ticks - 1)
  {
    hide PumpApply, PumpEnabled, WinnerApply, WinnerEnabled, TextInv, GateInv, InputInv;
  }

  lemma {:induction false} PumpStepsKeepExit(s: State, steps: seq<Step>)
    requires Legal(s, steps) && forall step :: step in steps ==> IsPumpStep(step)
    ensures Exec(s, steps).exits.winner == s.exits.winner && Exec(s, steps).exits.callers == s.exits.callers
    decreases |steps|
  {
    hide Enabled, Apply;
    if steps != [] {
      assert steps[0] in steps;
      PumpLeavesCallers(s, steps[0]);
      assert forall step :: step in steps[1..] ==> step in steps;
      PumpStepsKeepExit(Apply(s, steps[0]), steps[1..]);
    }
  }

  lemma PumpLeavesCallers(s: State, step: Step)
    requires Enabled(s, step) && IsPumpStep(step)
    ensures Apply(s, step).exits.winner == s.exits.winner && Apply(s, step).exits.callers == s.exits.callers
  {
    hide HostApply, HostEnabled, WinnerApply, WinnerEnabled, Chunk, Blank, Appended, Announced;
  }

  /** The winner's next step, after whatever it waits for: a tick that ends, a pump that exits. */
  lemma ReachesNextStep(s: State, w: nat) returns (wait: seq<Step>)
    requires Inv(s) && s.exits.winner == Some(w) && StepsLeft(WinnerPc(s.exits)) > 0
    ensures Legal(s, wait)
    ensures var t := Exec(s, wait);
            && t.exits.winner == Some(w) && WinnerPc(t.exits) == WinnerPc(s.exits)
            && (WinnerPc(t.exits) == WantsGuard ==> t.exits.extractor == Nobody)
            && (WinnerPc(t.exits) == Joining ==> t.pump == Exited)
  {
    hide Legal, Exec, Apply, Enabled, GateInv, InputInv, TextInv;
    if WinnerPc(s.exits) == WantsGuard && s.exits.extractor != Nobody {
      TickCanEnd(s);
      wait := [TickEnds];
      OneStep(s, TickEnds);
    } else if WinnerPc(s.exits) == Joining {
      wait := PumpCanExit(s);
      PumpStepsKeepExit(s, wait);
    } else {
      wait := [];
      Waits(s);
    }
  }

  lemma Waits(s: State)
    ensures Legal(s, []) && Exec(s, []) == s
  {
  }

  /**
   * From every reachable state a finish or cancel that has won can run to completion: ticks
   * end, the pump exits, and it then flushes if it must, closes the session and lets go.
   */
  lemma {:induction false} ExitCanComplete(s: State, w: nat) returns (steps: seq<Step>)
    requires Inv(s) && s.exits.winner == Some(w)
    ensures Legal(s, steps) && WinnerPc(Exec(s, steps).exits) == Done
    ensures Exec(s, steps).exits.winner == Some(w)
    decreases StepsLeft(WinnerPc(s.exits))
  {
    hide Legal, Exec, Apply, Enabled;
    if StepsLeft(WinnerPc(s.exits)) == 0 {
      steps := [];
      Waits(s);
      WinnerIsNotLost(s);
    } else {
      var wait := ReachesNextStep(s, w);
      var t := Exec(s, wait);
      RunPreserves(s, wait);
      WinnerProgress(t, w);
      var step := NextStep(t, w);
      OneStep(t, step);
      StepPreserves(t, step);
      Concat(s, wait, [step]);
      var rest := ExitCanComplete(Apply(t, step), w);
      steps := wait + [step] + rest;
      Concat(s, wait + [step], rest);
    }
  }

  lemma WinnerIsNotLost(s: State)
    requires Inv(s) && s.exits.winner.Some? && StepsLeft(WinnerPc(s.exits)) == 0
    ensures WinnerPc(s.exits) == Done
  {
  }
}
