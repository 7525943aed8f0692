/**
 * Invariants of the walk session over every interleaving, and what they give: no lost
 * wake-up, one terminal winner, a pump that never appends after its join, a transcript
 * equal to the delivered text, and a join that always completes.
 */
module SessionProofs {
  import opened Outcomes
  import opened Blanks
  import opened PumpCells
  import opened Sessions

  // ---------------------------------------------------------------- invariants

  /** Where the winner is; `Lost` while there is none. */
  function WinnerPc(x: Exits): CallerPc {
    if x.winner.Some? && x.winner.value in x.callers then x.callers[x.winner.value].pc else Lost
  }

  /** The status the winner's own close leaves. */
  predicate ClosedBy(x: Exits, kind: Kind) {
    && AfterClose(WinnerPc(x)) && x.winner.Some? && x.winner.value in x.callers
    && x.callers[x.winner.value].kind == kind
  }

  predicate HoldsGuard(pc: CallerPc) {
    pc.Guarded? || pc.Joining? || pc.Joined? || pc.Flushing? || pc.Flushed? || pc.Closed?
  }

  predicate AfterJoin(pc: CallerPc) {
    pc.Joined? || pc.Flushing? || pc.Flushed? || pc.Closed? || pc.Done?
  }

  predicate AfterClose(pc: CallerPc) {
    pc.Closed? || pc.Done?
  }

  /** No lost wake-up: a parked pump that nobody notified has nothing to do, or is paused. */
  ghost predicate GateInv(f: Flags, pump: Pump) {
    && (pump == Waiting <==> f.waiter.Parked?)
    && (f.waiter == Parked(false) ==> !f.stop && (!f.wake || f.paused))
  }

  /** Unread input is announced, about to be, about to be drained, or the pump is stopping. */
  ghost predicate InputInv(f: Flags, pump: Pump, i: Input, host: Host) {
    && (i.unread > 0 ==> f.wake || i.pushing > 0 || pump == Admitted || f.stop)
    && (i.stranded > 0 ==> i.passFailed)
    && (host == Gone || pump == Exited ==> f.stop)
  }

  /** One winner; what it holds and what it may rely on at each point. */
  ghost predicate ExitInv(x: Exits, stop: bool, pump: Pump, status: Status) {
    && (x.terminated <==> x.winner.Some?)
    && (forall i :: i in x.callers ==> x.terminated)
    && (x.winner.Some? <==> !WinnerPc(x).Lost?)
    && (forall i :: i in x.callers && x.winner != Some(i) ==> x.callers[i].pc == Lost)
    && (forall i: nat :: x.extractor == Winner(i) <==> x.winner == Some(i) && HoldsGuard(WinnerPc(x)))
    && (AfterJoin(WinnerPc(x)) || WinnerPc(x) == Joining ==> stop)
    && (AfterJoin(WinnerPc(x)) ==> pump == Exited)
    && (status != Recording <==> AfterClose(WinnerPc(x)))
    && (status == Ended <==> ClosedBy(x, Finish))
    && (status == Deleted <==> ClosedBy(x, Cancel))
    && (x.extractor == Tick ==> x.ticks > 0)
  }

  /** The stored speech is the announced text plus what is stored and still owed an event. */
  ghost predicate TextInv(r: Record, pump: Pump, x: Exits) {
    && SpeechText(r.transcript) == Concat(r.events) + r.owed
    && (pump.Feeding? ==> r.owed == pump.committed)
    && (WinnerPc(x).Flushing? ==> r.owed == WinnerPc(x).text)
    && (!pump.Feeding? && !WinnerPc(x).Flushing? ==> r.owed == "")
  }

  ghost predicate Inv(s: State) {
    && GateInv(s.flags, s.pump)
    && InputInv(s.flags, s.pump, s.input, s.host)
    && ExitInv(s.exits, s.flags.stop, s.pump, s.record.status)
    && TextInv(s.record, s.pump, s.exits)
  }

  // ---------------------------------------------------------------- each step keeps them

  lemma GatePreserved(s: State, step: Step)
    requires GateInv(s.flags, s.pump) && Enabled(s, step)
    ensures var t := Apply(s, step); GateInv(t.flags, t.pump)
  {
    hide Chunk, Chunks, SpeechEntries, Blank, Appended, Announced;
  }

  lemma InputPreserved(s: State, step: Step)
    requires InputInv(s.flags, s.pump, s.input, s.host) && Enabled(s, step)
    ensures var t := Apply(s, step); InputInv(t.flags, t.pump, t.input, t.host)
  {
    hide Chunk, Chunks, SpeechEntries, Blank, Appended, Announced;
  }

  lemma EnterPreserves(x: Exits, stop: bool, pump: Pump, status: Status, id: nat, kind: Kind)
    requires ExitInv(x, stop, pump, status) && id !in x.callers
    ensures ExitInv(Entered(x, id, kind), stop, pump, status)
    ensures x.terminated ==> WinnerPc(Entered(x, id, kind)) == WinnerPc(x)
  {
    var y := Entered(x, id, kind);
    assert forall i :: i in x.callers ==> i in y.callers && y.callers[i] == x.callers[i];
  }

  ghost predicate ExitsHold(s: State) {
    ExitInv(s.exits, s.flags.stop, s.pump, s.record.status)
  }

  lemma ExitsPreserved(s: State, step: Step)
    requires ExitsHold(s) && Enabled(s, step)
    ensures ExitsHold(Apply(s, step))
  {
    if step.Enter? {
      EnterPreserves(s.exits, s.flags.stop, s.pump, s.record.status, step.id, step.kind);
    } else if IsWinnerStep(step) {
      WinnerStepPreserves(s, step, step.id);
    } else {
      OtherStepPreserves(s, step);
    }
  }

  /** Only the winner takes the steps that follow the swap, and it alone moves. */
  lemma WinnerMoves(x: Exits, stop: bool, pump: Pump, status: Status, id: nat, pc: CallerPc)
    requires ExitInv(x, stop, pump, status) && id in x.callers && !x.callers[id].pc.Lost?
    ensures x.winner == Some(id) && WinnerPc(x) == x.callers[id].pc
    ensures WinnerPc(Moved(x, id, pc)) == pc
    ensures forall i :: i in x.callers && i != id ==> Moved(x, id, pc).callers[i].pc == Lost
  {
  }

  lemma WinnerStepPreserves(s: State, step: Step, id: nat)
    requires ExitsHold(s) && Enabled(s, step) && IsWinnerStep(step) && step.id == id
    ensures ExitsHold(Apply(s, step))
  {
    hide PumpApply, PumpEnabled, HostApply, HostEnabled, Chunks, SpeechEntries, Appended, Announced;
    StepIsWinners(s, step, id);
  }

  lemma StepIsWinners(s: State, step: Step, id: nat)
    requires ExitsHold(s) && Enabled(s, step) && IsWinnerStep(step) && step.id == id
    ensures id in s.exits.callers && WinnerPc(s.exits) == s.exits.callers[id].pc && s.exits.winner == Some(id)
    ensures var y := Apply(s, step).exits;
            && id in y.callers && WinnerPc(y) == y.callers[id].pc
            && y.winner == s.exits.winner && y.terminated == s.exits.terminated
            && y.callers.Keys == s.exits.callers.Keys
            && forall i :: i in y.callers && i != id ==> y.callers[i].pc == Lost
  {
    hide PumpApply, PumpEnabled, HostApply, HostEnabled;
    hide Chunks, SpeechEntries, Appended, Announced;
    WinnerMoves(s.exits, s.flags.stop, s.pump, s.record.status, id, Apply(s, step).exits.callers[id].pc);
  }

  lemma OtherStepPreserves(s: State, step: Step)
    requires ExitsHold(s) && Enabled(s, step) && !IsWinnerStep(step) && !step.Enter?
    ensures ExitsHold(Apply(s, step))
  {
    hide PumpApply, PumpEnabled, WinnerApply, WinnerEnabled, HostApply, HostEnabled, ExitInv;
    if IsPumpStep(step) {
      PumpStepKeepsExits(s, step);
    } else {
      HostStepKeepsExits(s, step);
    }
  }

  lemma PumpStepKeepsExits(s: State, step: Step)
    requires ExitsHold(s) && Enabled(s, step) && IsPumpStep(step)
    ensures ExitsHold(Apply(s, step))
  {
    hide HostApply, HostEnabled, WinnerApply, WinnerEnabled, Chunk, Blank, Appended, Announced;
  }

  lemma HostStepKeepsExits(s: State, step: Step)
    requires ExitsHold(s) && Enabled(s, step) && !IsPumpStep(step) && !IsWinnerStep(step) && !step.Enter?
    ensures ExitsHold(Apply(s, step))
  {
    hide PumpApply, PumpEnabled, WinnerApply, WinnerEnabled, Appended;
  }

  // ---------------------------------------------------------------- text bookkeeping

  lemma {:induction false} SpeechTextConcat(a: seq<Entry>, b: seq<Entry>)
    ensures SpeechText(a + b) == SpeechText(a) + SpeechText(b)
  {
    if b == [] {
      assert a + b == a;
    } else {
      assert (a + b)[..|a + b| - 1] == a + b[..|b| - 1];
      SpeechTextConcat(a, b[..|b| - 1]);
    }
  }

  lemma {:induction false} SpeechOfEntries(segs: seq<string>)
    ensures SpeechText(SpeechEntries(segs)) == Chunks(segs)
  {
    if segs != [] {
      var first := if Blank(segs[0]) then [] else [Speech(Chunk(segs[0]))];
      SpeechTextConcat(first, SpeechEntries(segs[1..]));
      SpeechOfEntries(segs[1..]);
      assert SpeechText(first) == Chunk(segs[0]) by {
        assert first != [] ==> first[..0] == [];
      }
    }
  }

  lemma AnnounceBalances(r: Record)
    requires SpeechText(r.transcript) == Concat(r.events) + r.owed
    ensures var t := Announced(r, r.owed); SpeechText(t.transcript) == Concat(t.events) + t.owed
  {
    if r.owed != "" {
      assert (r.events + [r.owed])[..|r.events|] == r.events;
    }
  }

  lemma TextPreserved(s: State, step: Step)
    requires Inv(s) && Enabled(s, step)
    ensures var t := Apply(s, step); TextInv(t.record, t.pump, t.exits)
  {
    hide Inv, TextInv, PumpApply, PumpEnabled, WinnerApply, WinnerEnabled, HostApply, HostEnabled;
    if step.Feed? || step.EndPass? {
      FeedPreservesText(s, step);
    } else if IsPumpStep(step) {
      PumpPreservesText(s, step);
    } else if IsWinnerStep(step) {
      WinnerPreservesText(s, step, step.id);
    } else {
      HostPreservesText(s, step);
    }
  }

  lemma PumpPreservesText(s: State, step: Step)
    requires Inv(s) && Enabled(s, step) && IsPumpStep(step) && !step.Feed? && !step.EndPass?
    ensures var t := Apply(s, step); TextInv(t.record, t.pump, t.exits)
  {
    hide HostApply, HostEnabled, WinnerApply, WinnerEnabled, SpeechText, Concat, GateInv, InputInv;
  }

  lemma HostPreservesText(s: State, step: Step)
    requires Inv(s) && Enabled(s, step) && !IsPumpStep(step) && !IsWinnerStep(step)
    ensures var t := Apply(s, step); TextInv(t.record, t.pump, t.exits)
  {
    hide PumpApply, PumpEnabled, WinnerApply, WinnerEnabled, SpeechText, Concat, GateInv, InputInv;
    if step.Type? {
      SpeechTextConcat(s.record.transcript, [Typed(step.text)]);
      TypedIsNoSpeech(step.text);
    } else if step.Enter? {
      EnterPreserves(s.exits, s.flags.stop, s.pump, s.record.status, step.id, step.kind);
    }
  }

  lemma TypedIsNoSpeech(text: string)
    ensures SpeechText([Typed(text)]) == ""
  {
    assert [Typed(text)][..0] == [];
  }

  lemma AppendOwed(r: Record, chunk: string)
    requires SpeechText(r.transcript) == Concat(r.events) + r.owed && r.status == Recording
    ensures var t := Appended(r, [Speech(chunk)]).(owed := r.owed + chunk);
            SpeechText(t.transcript) == Concat(t.events) + t.owed
  {
    SpeechTextConcat(r.transcript, [Speech(chunk)]);
    assert [Speech(chunk)][..0] == [];
    assert Concat(r.events) + r.owed + chunk == Concat(r.events) + (r.owed + chunk);
  }

  lemma FeedPreservesText(s: State, step: Step)
    requires Inv(s) && Enabled(s, step) && (step.Feed? || step.EndPass?)
    ensures var t := Apply(s, step); TextInv(t.record, t.pump, t.exits)
  {
    hide WinnerApply, WinnerEnabled, HostApply, HostEnabled;
    assert s.record.status == Recording && !WinnerPc(s.exits).Flushing?;
    if step.Feed? {
      AppendOwed(s.record, Chunk(s.pump.todo[0]));
    } else {
      AnnounceBalances(s.record);
    }
    hide SpeechText, Concat, ExitInv, GateInv, InputInv;
  }

  lemma FlushOwes(r: Record, segs: seq<string>)
    requires SpeechText(r.transcript) == Concat(r.events) + r.owed && r.owed == "" && r.status == Recording
    ensures var t := Appended(r, SpeechEntries(segs)).(owed := Chunks(segs));
            SpeechText(t.transcript) == Concat(t.events) + t.owed
  {
    SpeechTextConcat(r.transcript, SpeechEntries(segs));
    SpeechOfEntries(segs);
    assert Concat(r.events) + "" == Concat(r.events);
  }

  lemma FlushAppendPreservesText(s: State, id: nat, segs: seq<string>)
    requires Inv(s) && Enabled(s, FlushAppend(id, segs))
    ensures var t := Apply(s, FlushAppend(id, segs)); TextInv(t.record, t.pump, t.exits)
  {
    hide PumpApply, PumpEnabled, HostApply, HostEnabled;
    StepIsWinners(s, FlushAppend(id, segs), id);
    assert s.record.owed == "" && s.record.status == Recording && s.pump == Exited;
    FlushOwes(s.record, segs);
    hide SpeechText, Concat, ExitInv, GateInv, InputInv, Chunks, SpeechEntries;
  }

  lemma FlushEmitPreservesText(s: State, id: nat)
    requires Inv(s) && Enabled(s, FlushEmit(id))
    ensures var t := Apply(s, FlushEmit(id)); TextInv(t.record, t.pump, t.exits)
  {
    hide PumpApply, PumpEnabled, HostApply, HostEnabled;
    StepIsWinners(s, FlushEmit(id), id);
    assert s.pump == Exited;
    AnnounceBalances(s.record);
    hide SpeechText, Concat, ExitInv, GateInv, InputInv;
  }

  lemma WinnerPreservesText(s: State, step: Step, id: nat)
    requires Inv(s) && Enabled(s, step) && IsWinnerStep(step) && step.id == id
    ensures var t := Apply(s, step); TextInv(t.record, t.pump, t.exits)
  {
    hide PumpApply, PumpEnabled, HostApply, HostEnabled;
    if step.FlushAppend? {
      FlushAppendPreservesText(s, id, step.segs);
    } else if step.FlushEmit? {
      FlushEmitPreservesText(s, id);
    } else {
      StepIsWinners(s, step, id);
      hide SpeechText, Concat, ExitInv, GateInv, InputInv, Chunks, SpeechEntries, Appended, Announced;
    }
  }

  lemma StepPreserves(s: State, step: Step)
    requires Inv(s) && Enabled(s, step)
    ensures Inv(Apply(s, step))
  {
    GatePreserved(s, step);
    InputPreserved(s, step);
    ExitsPreserved(s, step);
    TextPreserved(s, step);
  }

  /** Every state of every interleaving satisfies the invariants. */
  lemma {:induction false} RunPreserves(s: State, steps: seq<Step>)
    requires Inv(s) && Legal(s, steps)
    ensures Inv(Exec(s, steps))
    decreases steps
  {
    hide Enabled, Apply, Inv;
    if steps != [] {
      StepPreserves(s, steps[0]);
      RunPreserves(Apply(s, steps[0]), steps[1..]);
    }
  }

  lemma EveryRunKeepsInvariants(flush: bool, steps: seq<Step>)
    requires Legal(Initial(flush), steps)
    ensures Inv(Exec(Initial(flush), steps))
  {
    assert Inv(Initial(flush));
    RunPreserves(Initial(flush), steps);
  }

  // ---------------------------------------------------------------- liveness of the gate

  /** In every reachable state: no lost wake-up, and unread audio is never forgotten. */
  lemma NoLostWakeup(flush: bool, steps: seq<Step>)
    requires Legal(Initial(flush), steps)
    ensures var s := Exec(Initial(flush), steps);
            && (s.pump == Waiting && s.flags.waiter == Parked(false) ==> !s.flags.stop && (!s.flags.wake || s.flags.paused))
            && (s.input.unread > 0 ==> s.flags.wake || s.input.pushing > 0 || s.pump == Admitted || s.flags.stop)
            && (s.pump == Waiting && s.flags.waiter == Parked(false) && s.input.unread > 0
                ==> s.flags.paused || s.input.pushing > 0)
            && (s.input.stranded > 0 ==> s.input.passFailed)
  {
    EveryRunKeepsInvariants(flush, steps);
  }

  /** How far the pump is from exiting once `stop` is set: a phase, then the work left in it. */
  function Phase(p: Pump): nat {
    match p
    case Exited => 0
    case Checking => 1
    case Waiting => 2
    case Feeding(_, _) => 3
    case Polling(_, _) => 4
    case Admitted => 5
  }

  function Work(p: Pump): nat {
    match p
    case Feeding(todo, _) => |todo|
    case Polling(left, _) => left
    case _ => 0
  }

  predicate Nearer(p: Pump, q: Pump) {
    Phase(p) < Phase(q) || (Phase(p) == Phase(q) && Work(p) < Work(q))
  }

  /** The step the pump can always take: it asks for no mutex but its own, and `paused` does not matter. */
  function PumpMove(s: State): Step
    requires s.pump != Exited
  {
    match s.pump
    case Checking => Check
    case Waiting => Awaken
    case Admitted => if s.host == Gone then UpgradeFails else BeginPoll(0)
    case Polling(left, _) => if left > 0 then Decode([]) else EndPoll
    case Feeding(todo, _) => if todo != [] then Feed else EndPass
  }

  /**
   * A caller waiting on the join never blocks the pump: whoever owns the extractor mutex
   * and whether or not it is paused, the pump has a move, and if parked it was notified.
   */
  lemma JoinNeverBlocks(s: State, owner: Owner, paused: bool)
    requires Inv(s) && s.flags.stop && s.pump != Exited
    ensures IsPumpStep(PumpMove(s))
    ensures Enabled(s.(exits := s.exits.(extractor := owner), flags := s.flags.(paused := paused)), PumpMove(s))
    ensures s.pump == Waiting ==> s.flags.waiter == Parked(true)
  {
    hide ExitInv, TextInv, InputInv;
  }

  /** Once `stop` is set every pump step brings the pump nearer to its exit, and no other step moves it. */
  lemma StopDrivesPump(s: State, step: Step)
    requires s.flags.stop && Enabled(s, step)
    ensures IsPumpStep(step) ==> Nearer(Apply(s, step).pump, s.pump)
    ensures !IsPumpStep(step) ==> Apply(s, step).pump == s.pump
    ensures Apply(s, step).flags.stop
  {
    hide Chunk, Chunks, SpeechEntries, Blank, Appended, Announced;
  }

  /** So with the pump scheduled it exits, and a waiting caller can join. */
  lemma {:induction false} PumpCanExit(s: State) returns (steps: seq<Step>)
    requires Inv(s) && s.flags.stop
    ensures Legal(s, steps) && Exec(s, steps).pump == Exited
    ensures forall step :: step in steps ==> IsPumpStep(step)
    decreases Phase(s.pump), Work(s.pump)
  {
    if s.pump == Exited {
      return [];
    }
    var step := PumpMove(s);
    JoinNeverBlocks(s, s.exits.extractor, s.flags.paused);
    StopDrivesPump(s, step);
    StepPreserves(s, step);
    var rest := PumpCanExit(Apply(s, step));
    steps := [step] + rest;
    assert steps[1..] == rest;
  }

  // ---------------------------------------------------------------- terminal exclusivity and quiescence

  /**
   * Over every interleaving of `finish` and `cancel` calls: as soon as one has entered,
   * exactly one has won; every other one has lost, and can take no further step; the session
   * is ended exactly by a finish that closed and deleted exactly by a cancel that closed; and
   * no live tick starts while the winner holds the guard.
   */
  lemma ExactlyOneWinner(flush: bool, steps: seq<Step>)
    requires Legal(Initial(flush), steps)
    ensures var x := Exec(Initial(flush), steps).exits;
            x.callers != map[] ==> exists w :: w in x.callers && !x.callers[w].pc.Lost?
                                               && forall i :: i in x.callers && i != w ==> x.callers[i].pc == Lost
    ensures var s := Exec(Initial(flush), steps);
            forall step :: IsWinnerStep(step) && At(s, step.id, Lost) ==> !Enabled(s, step)
    ensures var s := Exec(Initial(flush), steps);
            && (s.record.status == Ended
                <==> exists w :: w in s.exits.callers && s.exits.callers[w].kind == Finish && AfterClose(s.exits.callers[w].pc))
            && (s.record.status == Deleted
                <==> exists w :: w in s.exits.callers && s.exits.callers[w].kind == Cancel && AfterClose(s.exits.callers[w].pc))
    ensures var s := Exec(Initial(flush), steps);
            HoldsGuard(WinnerPc(s.exits)) ==> !Enabled(s, TickStarts)
  {
    EveryRunKeepsInvariants(flush, steps);
    var x := Exec(Initial(flush), steps).exits;
    hide TextInv, GateInv, InputInv, Exec, Legal, Apply, Enabled;
    forall step | IsWinnerStep(step) && At(Exec(Initial(flush), steps), step.id, Lost)
      ensures !Enabled(Exec(Initial(flush), steps), step)
    {
      LostIsStuck(Exec(Initial(flush), steps), step);
    }
    if x.callers != map[] {
      var i :| i in x.callers;
      assert x.winner.value in x.callers;
    }
  }

  lemma LostIsStuck(s: State, step: Step)
    ensures IsWinnerStep(step) && At(s, step.id, Lost) ==> !Enabled(s, step)
  {
  }

  /** A loser writes nothing: entering late leaves the record alone, and it stays lost for good. */
  lemma {:induction false} LosersWriteNothing(s: State, steps: seq<Step>, id: nat)
    requires Inv(s) && Legal(s, steps) && At(s, id, Lost)
    ensures At(Exec(s, steps), id, Lost)
    ensures forall step :: step in steps && IsWinnerStep(step) ==> step.id != id
    decreases steps
  {
    if steps != [] {
      StepPreserves(s, steps[0]);
      LoserStep(s, steps[0], id);
      LosersWriteNothing(Apply(s, steps[0]), steps[1..], id);
    }
  }

  /** A step that is neither an entry nor the winner's leaves every caller where it was. */
  lemma OtherStepKeepsCallers(s: State, step: Step)
    requires Enabled(s, step) && !IsWinnerStep(step) && !step.Enter?
    ensures Apply(s, step).exits.callers == s.exits.callers && Apply(s, step).exits.winner == s.exits.winner
    ensures s.pump == Exited ==> !IsPumpStep(step) && Apply(s, step).pump == Exited
    ensures s.pump == Exited && !step.Type? ==> Apply(s, step).record == s.record
  {
    hide WinnerApply, WinnerEnabled;
    hide Chunk, Chunks, SpeechEntries, Blank, Appended, Announced;
  }

  lemma LoserStep(s: State, step: Step, id: nat)
    requires Inv(s) && Enabled(s, step) && At(s, id, Lost)
    ensures At(Apply(s, step), id, Lost)
    ensures IsWinnerStep(step) ==> step.id != id
    ensures step.Enter? ==> Apply(s, step).record == s.record
  {
    if IsWinnerStep(step) {
      LostIsStuck(s, step);
      StepIsWinners(s, step, step.id);
      hide Apply, Inv;
    } else if !step.Enter? {
      OtherStepKeepsCallers(s, step);
      hide Apply, Inv;
    }
  }

  /** The flush is still to come: the winner has joined and has to flush, or is in the middle of it. */
  predicate FlushPending(s: State) {
    WinnerPc(s.exits) == Joined || WinnerPc(s.exits).Flushing?
  }

  /**
   * Once the winner has joined, the pump never runs again; and once its flush is over
   * (or it has none) no speech is stored and no text announced, whatever else happens.
   */
  lemma {:induction false} QuietAfterJoin(s: State, steps: seq<Step>)
    requires Inv(s) && Legal(s, steps) && AfterJoin(WinnerPc(s.exits))
    ensures var t := Exec(s, steps);
            && AfterJoin(WinnerPc(t.exits)) && t.pump == Exited
            && (!FlushPending(s) ==>
                  && !FlushPending(t)
                  && SpeechText(t.record.transcript) == SpeechText(s.record.transcript)
                  && t.record.events == s.record.events)
    ensures forall step :: step in steps ==> !IsPumpStep(step)
    decreases steps
  {
    if steps != [] {
      StepPreserves(s, steps[0]);
      QuietStep(s, steps[0]);
      QuietAfterJoin(Apply(s, steps[0]), steps[1..]);
    }
  }

  lemma QuietStep(s: State, step: Step)
    requires Inv(s) && Enabled(s, step) && AfterJoin(WinnerPc(s.exits))
    ensures var t := Apply(s, step);
            && AfterJoin(WinnerPc(t.exits)) && t.pump == Exited
            && (!FlushPending(s) ==>
                  && !FlushPending(t)
                  && SpeechText(t.record.transcript) == SpeechText(s.record.transcript)
                  && t.record.events == s.record.events)
    ensures !IsPumpStep(step)
  {
    if IsWinnerStep(step) {
      QuietWinnerStep(s, step, step.id);
    } else if step.Enter? {
      QuietEnter(s, step);
    } else {
      QuietOtherStep(s, step);
    }
    hide Apply, Enabled, Inv, SpeechText;
  }

  lemma QuietEnter(s: State, step: Step)
    requires Inv(s) && Enabled(s, step) && AfterJoin(WinnerPc(s.exits)) && step.Enter?
    ensures var t := Apply(s, step);
            WinnerPc(t.exits) == WinnerPc(s.exits) && t.pump == Exited && t.record == s.record
  {
    hide PumpApply, PumpEnabled, WinnerApply, WinnerEnabled, TextInv, GateInv, InputInv;
    EnterPreserves(s.exits, s.flags.stop, s.pump, s.record.status, step.id, step.kind);
  }

  lemma QuietOtherStep(s: State, step: Step)
    requires Inv(s) && Enabled(s, step) && AfterJoin(WinnerPc(s.exits)) && !IsWinnerStep(step) && !step.Enter?
    ensures !IsPumpStep(step)
    ensures var t := Apply(s, step);
            && WinnerPc(t.exits) == WinnerPc(s.exits) && t.pump == Exited && t.record.events == s.record.events
            && SpeechText(t.record.transcript) == SpeechText(s.record.transcript)
  {
    hide PumpApply, PumpEnabled, WinnerApply, WinnerEnabled, SpeechText, TextInv, GateInv, InputInv;
    OtherStepKeepsCallers(s, step);
    if step.Type? {
      SpeechTextConcat(s.record.transcript, [Typed(step.text)]);
      TypedIsNoSpeech(step.text);
    }
  }

  lemma QuietWinnerStep(s: State, step: Step, id: nat)
    requires Inv(s) && Enabled(s, step) && AfterJoin(WinnerPc(s.exits)) && IsWinnerStep(step) && step.id == id
    ensures var t := Apply(s, step);
            && AfterJoin(WinnerPc(t.exits)) && t.pump == Exited
            && (!FlushPending(s) ==>
                  && !FlushPending(t)
                  && t.record.transcript == s.record.transcript && t.record.events == s.record.events)
  {
    hide PumpApply, PumpEnabled, HostApply, HostEnabled;
    StepIsWinners(s, step, id);
    hide Chunks, SpeechEntries, SpeechText, Concat, ExitInv, TextInv, GateInv, InputInv;
    assert s.exits.callers[id].pc == WinnerPc(s.exits);
  }

  /**
   * Whenever no pass is half fed and no flush half announced, the stored speech is the
   * concatenation of the announced texts; and every append of the pump lands, because
   * the session is still recording while the pump lives.
   */
  lemma StoredSpeechIsAnnouncedText(flush: bool, steps: seq<Step>)
    requires Legal(Initial(flush), steps)
    ensures var s := Exec(Initial(flush), steps);
            && (!s.pump.Feeding? && !WinnerPc(s.exits).Flushing? ==> SpeechText(s.record.transcript) == Concat(s.record.events))
            && (s.pump != Exited ==> s.record.status == Recording)
  {
    EveryRunKeepsInvariants(flush, steps);
    var s := Exec(Initial(flush), steps);
    assert Concat(s.record.events) + "" == Concat(s.record.events);
  }
  // ---------------------------------------------------------------- the stored transcript only grows

  function TypedTexts(entries: seq<Entry>): seq<string> {
    if entries == [] then []
    else
      var last := entries[|entries| - 1];
      TypedTexts(entries[..|entries| - 1]) + (if last.Typed? then [last.text] else [])
  }

  lemma {:induction false} TypedTextsConcat(a: seq<Entry>, b: seq<Entry>)
    ensures TypedTexts(a + b) == TypedTexts(a) + TypedTexts(b)
  {
    if b == [] {
      assert a + b == a;
    } else {
      assert (a + b)[..|a + b| - 1] == a + b[..|b| - 1];
      TypedTextsConcat(a, b[..|b| - 1]);
    }
  }

  lemma {:induction false} SpeechIsNotTyped(entries: seq<Entry>)
    requires forall e :: e in entries ==> e.Speech?
    ensures TypedTexts(entries) == []
  {
    if entries != [] {
      assert entries[|entries| - 1] in entries;
      SpeechIsNotTyped(entries[..|entries| - 1]);
    }
  }

  lemma {:induction false} FlushedIsSpeech(segs: seq<string>)
    ensures forall e :: e in SpeechEntries(segs) ==> e.Speech?
  {
    if segs != [] {
      FlushedIsSpeech(segs[1..]);
    }
  }

  /** What a step adds to the transcript. */
  function Addition(s: State, step: Step): seq<Entry> {
    if s.record.status != Recording then []
    else match step
      case Type(text) => [Typed(text)]
      case Feed => if s.pump.Feeding? && s.pump.todo != [] && !Blank(s.pump.todo[0]) then [Speech(Chunk(s.pump.todo[0]))] else []
      case FlushAppend(_, segs) => SpeechEntries(segs)
      case _ => []
  }

  lemma StepAdds(s: State, step: Step)
    requires Enabled(s, step)
    ensures Apply(s, step).record.transcript == s.record.transcript + Addition(s, step)
    ensures TypedTexts(Addition(s, step)) == if step.Type? && s.record.status == Recording then [step.text] else []
  {
    AddsInPlace(s, step);
    hide Chunk, Chunks, SpeechEntries, Blank, TypedTexts, Apply, Enabled;
    match step {
      case Type(text) => OneTyped(text);
      case FlushAppend(_, segs) => FlushedIsSpeech(segs);
      case _ =>
    }
    if !step.Type? {
      SpeechIsNotTyped(Addition(s, step));
    }
    OneTyped("");
  }

  lemma AddsInPlace(s: State, step: Step)
    requires Enabled(s, step)
    ensures Apply(s, step).record.transcript == s.record.transcript + Addition(s, step)
  {
    hide Chunk, Chunks, SpeechEntries, Blank;
  }

  lemma OneTyped(text: string)
    ensures TypedTexts([Typed(text)]) == [text] && TypedTexts([]) == []
  {
    assert [Typed(text)][..0] == [];
  }

  /** The texts typed while the session records. */
  ghost function TypedWhileRecording(s: State, steps: seq<Step>): seq<string>
    requires Legal(s, steps)
    decreases |steps|
  {
    if steps == [] then []
    else (if steps[0].Type? && s.record.status == Recording then [steps[0].text] else [])
         + TypedWhileRecording(Apply(s, steps[0]), steps[1..])
  }

  /** Over every run nothing stored is lost or revised, and every text typed while recording is stored, in order. */
  lemma {:induction false} TypedTextIsKept(s: State, steps: seq<Step>)
    requires Legal(s, steps)
    ensures s.record.transcript <= Exec(s, steps).record.transcript
    ensures TypedTexts(Exec(s, steps).record.transcript) == TypedTexts(s.record.transcript) + TypedWhileRecording(s, steps)
    decreases |steps|
  {
    hide Enabled, Apply, Addition, TypedTexts;
    var before := TypedTexts(s.record.transcript);
    if steps == [] {
      assert before + [] == before;
    } else {
      StepAdds(s, steps[0]);
      TypedTextsConcat(s.record.transcript, Addition(s, steps[0]));
      TypedTextIsKept(Apply(s, steps[0]), steps[1..]);
      var now, later := TypedTexts(Addition(s, steps[0])), TypedWhileRecording(Apply(s, steps[0]), steps[1..]);
      assert before + now + later == before + (now + later);
    }
  }

  // ---------------------------------------------------------------- what is stored and announced is not empty

  /** A finalized text that is not blank, and a space. */
  predicate IsSpoken(e: Entry) {
    e.Speech? ==> e.text != "" && e.text[|e.text| - 1] == ' ' && !Blank(e.text[..|e.text| - 1])
  }

  predicate OnlySpoken(r: Record) {
    && (forall i :: 0 <= i < |r.transcript| ==> IsSpoken(r.transcript[i]))
    && (forall i :: 0 <= i < |r.events| ==> r.events[i] != "")
  }

  lemma ChunkIsSpoken(seg: string)
    requires !Blank(seg)
    ensures IsSpoken(Speech(Chunk(seg)))
  {
    assert (seg + " ")[..|seg|] == seg;
  }

  lemma {:induction false} FlushedIsSpoken(segs: seq<string>)
    ensures forall i :: 0 <= i < |SpeechEntries(segs)| ==> IsSpoken(SpeechEntries(segs)[i])
  {
    hide IsSpoken, Blank, Chunk;
    if segs != [] {
      FlushedIsSpoken(segs[1..]);
      if !Blank(segs[0]) {
        ChunkIsSpoken(segs[0]);
      }
    }
  }

  lemma StepStoresSpoken(s: State, step: Step)
    requires Enabled(s, step) && OnlySpoken(s.record)
    ensures OnlySpoken(Apply(s, step).record)
  {
    StepAdds(s, step);
    EventsGrow(s, step);
    hide Apply, Enabled, IsSpoken, Blank, Chunk;
    match step {
      case Feed =>
        if s.pump.Feeding? && s.pump.todo != [] && !Blank(s.pump.todo[0]) {
          ChunkIsSpoken(s.pump.todo[0]);
        }
      case FlushAppend(_, segs) => FlushedIsSpoken(segs);
      case Type(text) => TypedIsSpoken(text);
      case _ =>
    }
  }

  lemma TypedIsSpoken(text: string)
    ensures IsSpoken(Typed(text))
  {
  }

  lemma EventsGrow(s: State, step: Step)
    requires Enabled(s, step)
    ensures var events := Apply(s, step).record.events;
            s.record.events <= events && forall i :: |s.record.events| <= i < |events| ==> events[i] != ""
  {
    hide Chunk, Chunks, SpeechEntries, Blank;
  }

  /** Over every run only texts that are not blank are stored as speech, and no empty text is announced. */
  lemma {:induction false} OnlySpokenIsStored(s: State, steps: seq<Step>)
    requires Legal(s, steps) && OnlySpoken(s.record)
    ensures OnlySpoken(Exec(s, steps).record)
    decreases |steps|
  {
    hide Enabled, Apply, OnlySpoken;
    if steps != [] {
      StepStoresSpoken(s, steps[0]);
      OnlySpokenIsStored(Apply(s, steps[0]), steps[1..]);
    }
  }

  // ---------------------------------------------------------------- who flushes, and when

  /** The winner flushes once if it is a finish and the flush is on, and otherwise not. */
  ghost predicate FlushInv(s: State) {
    var pc := WinnerPc(s.exits);
    && s.meter.flushes == (if pc.Flushing? || pc.Flushed? || (AfterClose(pc) && Flushes(s)) then 1 else 0)
    && (pc.Flushing? || pc.Flushed? ==> Flushes(s))
  }

  predicate Flushes(s: State) {
    && s.flushOnFinish && s.exits.winner.Some? && s.exits.winner.value in s.exits.callers
    && s.exits.callers[s.exits.winner.value].kind == Finish
  }

  lemma WinnerStepFlushes(s: State, step: Step, id: nat)
    requires Inv(s) && FlushInv(s) && Enabled(s, step) && IsWinnerStep(step) && step.id == id
    ensures FlushInv(Apply(s, step))
  {
    hide PumpApply, PumpEnabled, HostApply, HostEnabled, Chunks, SpeechEntries, Appended, Announced, TextInv, GateInv, InputInv;
    StepIsWinners(s, step, id);
  }

  lemma EnterFlushes(s: State, step: Step)
    requires Inv(s) && FlushInv(s) && Enabled(s, step) && step.Enter?
    ensures FlushInv(Apply(s, step))
  {
    hide PumpApply, PumpEnabled, WinnerApply, WinnerEnabled, TextInv, GateInv, InputInv;
    EnterPreserves(s.exits, s.flags.stop, s.pump, s.record.status, step.id, step.kind);
  }

  lemma OtherStepFlushes(s: State, step: Step)
    requires FlushInv(s) && Enabled(s, step) && !IsWinnerStep(step) && !step.Enter?
    ensures FlushInv(Apply(s, step))
  {
    OtherStepKeepsCallers(s, step);
    NoFlushElsewhere(s, step);
    hide Apply, Enabled;
  }

  lemma NoFlushElsewhere(s: State, step: Step)
    requires Enabled(s, step) && !IsWinnerStep(step)
    ensures Apply(s, step).meter.flushes == s.meter.flushes && Apply(s, step).flushOnFinish == s.flushOnFinish
  {
    hide Chunk, Blank, Appended, Announced, WinnerApply, WinnerEnabled;
  }

  lemma {:induction false} RunFlushes(s: State, steps: seq<Step>)
    requires Inv(s) && FlushInv(s) && Legal(s, steps)
    ensures FlushInv(Exec(s, steps))
    decreases |steps|
  {
    hide Enabled, Apply, FlushInv, Inv;
    if steps != [] {
      StepPreserves(s, steps[0]);
      if IsWinnerStep(steps[0]) {
        WinnerStepFlushes(s, steps[0], steps[0].id);
      } else if steps[0].Enter? {
        EnterFlushes(s, steps[0]);
      } else {
        OtherStepFlushes(s, steps[0]);
      }
      RunFlushes(Apply(s, steps[0]), steps[1..]);
    }
  }

  /**
   * Over every run: at most one flush; an ended session has been flushed exactly once if the
   * flush is on and not at all if it is off; a deleted one never.
   */
  lemma FlushesOnceOnFinish(flush: bool, steps: seq<Step>)
    requires Legal(Initial(flush), steps)
    ensures var s := Exec(Initial(flush), steps);
            && s.meter.flushes <= 1
            && (s.record.status == Ended ==> s.meter.flushes == if s.flushOnFinish then 1 else 0)
            && (s.record.status == Deleted ==> s.meter.flushes == 0)
  {
    hide Legal, Exec, GateInv, InputInv, TextInv;
    NewSessionIsGood(flush);
    RunPreserves(Initial(flush), steps);
    RunFlushes(Initial(flush), steps);
  }

  lemma NewSessionIsGood(flush: bool)
    ensures Inv(Initial(flush)) && FlushInv(Initial(flush)) && OnlySpoken(Initial(flush).record)
  {
  }
}
