/**
 * The live extraction ticks of a walk (crates/ffi/src/session.rs, `append_transcript`): one for
 * each stored entry, run one at a time, and never beside the end of the session.
 */
module LiveTicks {
  import opened Outcomes
  import opened Blanks
  import opened PumpCells
  import opened Sessions
  import opened SessionProofs

  function Started(steps: seq<Step>): nat {
    if steps == [] then 0 else (if steps[0].TickStarts? then 1 else 0) + Started(steps[1..])
  }

  function Finished(steps: seq<Step>): nat {
    if steps == [] then 0 else (if steps[0].TickEnds? then 1 else 0) + Finished(steps[1..])
  }

  /** Ticks that hold the extractor. */
  function Running(x: Exits): nat {
    if x.extractor == Tick then 1 else 0
  }

  /** No flush has written yet, and the store still accepts. */
  predicate LiveOnly(s: State) {
    s.record.status == Recording && s.meter.flushes == 0
  }

  // ---------------------------------------------------------------- one step

  lemma StepRuns(s: State, step: Step)
    requires Inv(s) && Enabled(s, step)
    ensures Running(s.exits) + Started([step]) == Running(Apply(s, step).exits) + Finished([step])
  {
    hide Chunk, Chunks, SpeechEntries, Blank, TextInv, GateInv, InputInv, Appended, Announced;
    if step.Acquire? || step.Release? {
      StepIsWinners(s, step, step.id);
    }
  }

  lemma StepSpawns(s: State, step: Step)
    requires Enabled(s, step) && LiveOnly(Apply(s, step))
    ensures LiveOnly(s)
    ensures var t := Apply(s, step);
            |t.record.transcript| + s.exits.ticks == |s.record.transcript| + t.exits.ticks + Finished([step])
  {
    hide Chunk, Chunks, SpeechEntries, Blank;
  }

  // ---------------------------------------------------------------- whole runs

  lemma {:induction false} RunTicks(s: State, steps: seq<Step>)
    requires Inv(s) && Legal(s, steps)
    ensures var t := Exec(s, steps);
            && Running(s.exits) + Started(steps) == Running(t.exits) + Finished(steps)
            && (LiveOnly(t) ==>
                  && LiveOnly(s)
                  && |t.record.transcript| + s.exits.ticks == |s.record.transcript| + t.exits.ticks + Finished(steps))
    decreases |steps|
  {
    hide Inv, Enabled, Apply, Running, LiveOnly;
    if steps != [] {
      var next := Apply(s, steps[0]);
      StepPreserves(s, steps[0]);
      StepRuns(s, steps[0]);
      RunTicks(next, steps[1..]);
      if LiveOnly(next) {
        StepSpawns(s, steps[0]);
      }
      assert [steps[0]][1..] == [];
    }
  }

  /**
   * Over every run: ticks run one at a time, and from the moment the winner of the exits has the
   * extractor until it lets go, every tick that started has finished.
   */
  lemma TicksRunAlone(flush: bool, steps: seq<Step>)
    requires Legal(Initial(flush), steps)
    ensures var s := Exec(Initial(flush), steps);
            && Finished(steps) <= Started(steps) <= Finished(steps) + 1
            && (HoldsGuard(WinnerPc(s.exits)) ==> Started(steps) == Finished(steps))
  {
    hide Legal, Exec, TextInv, GateInv, InputInv, LiveOnly;
    NewSessionIsGood(flush);
    RunPreserves(Initial(flush), steps);
    RunTicks(Initial(flush), steps);
  }

  /** Over every run, until the flush: each stored entry has a tick, finished or still to finish. */
  lemma OneTickPerEntry(flush: bool, steps: seq<Step>)
    requires Legal(Initial(flush), steps)
    ensures var s := Exec(Initial(flush), steps);
            LiveOnly(s) ==> |s.record.transcript| == Finished(steps) + s.exits.ticks
  {
    hide Legal, Exec, Inv;
    NewSessionIsGood(flush);
    RunTicks(Initial(flush), steps);
  }
}
