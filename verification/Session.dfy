/**
 * An audio walk session as a transition system (crates/ffi/src/session.rs): the pump
 * thread, the host calls that race it, the live ticks, and the two lifecycle exits.
 * A step is one lock-protected block, one window decode, or one blocking point.
 */
module Sessions {
  import opened Outcomes
  import opened PumpCells
  import opened Blanks

  datatype Status = Recording | Ended | Deleted

  datatype Entry = Speech(text: string) | Typed(text: string)

  datatype Pump =
    | Checking                                      // about to take the lock
    | Waiting                                       // inside `Condvar::wait`
    | Admitted                                      // past the gate, input not yet drained
    | Polling(left: nat, segs: seq<string>)         // windows still to decode, text so far
    | Feeding(todo: seq<string>, committed: string) // appending the pass's segments
    | Exited

  datatype Kind = Finish | Cancel

  datatype CallerPc =
    | Lost                    // found the session already terminated
    | WantsGuard              // won the swap, waits for the extractor mutex
    | Guarded                 // holds the mutex across the rest of the call
    | Joining                 // stop signalled, waiting for the pump thread
    | Joined
    | Flushing(text: string)  // flush appended, its event not yet delivered
    | Flushed
    | Closed                  // session ended or deleted
    | Done                    // guard released

  datatype Caller = Caller(kind: Kind, pc: CallerPc)

  datatype Owner = Nobody | Tick | Winner(id: nat)

  /** Audio on its way to the decoder. */
  datatype Input = Input(
    unread: nat,              // samples pushed and not yet drained by a poll
    pushing: nat,             // `push_audio` calls between enqueue and wake
    stranded: nat,            // ready windows left behind by a failed pass
    passFailed: bool)

  /** How often the pump passed the gate, windows it started to decode, DONE flushes that ran. */
  datatype Meter = Meter(gates: nat, decodes: nat, flushes: nat)

  /** The stored session, the `TranscriptCommitted` texts in order, and text stored but not yet announced. */
  datatype Record = Record(status: Status, transcript: seq<Entry>, events: seq<string>, owed: string)

  /**
   * The lifecycle exits, which of them won the `terminated` swap, the extractor mutex,
   * and live ticks spawned and not finished.
   */
  datatype Exits = Exits(terminated: bool, callers: map<nat, Caller>, winner: Option<nat>, extractor: Owner, ticks: nat)

  datatype Host = Held | Released | Gone

  datatype State = State(
    flags: Flags,
    pump: Pump,
    input: Input,
    meter: Meter,
    record: Record,
    exits: Exits,
    host: Host,
    flushOnFinish: bool)

  function Initial(flushOnFinish: bool): State {
    State(Flags(false, false, false, Away), Checking, Input(0, 0, 0, false), Meter(0, 0, 0),
          Record(Recording, [], [], ""), Exits(false, map[], None, Nobody, 0), Held, flushOnFinish)
  }

  datatype Step =
    | Enqueue(samples: nat) | WakePump | Pause | Resume | Type(text: string) | ReleaseHost
    | Check | Awaken | UpgradeFails | BeginPoll(ready: nat) | Decode(segs: seq<string>) | DecodeFails | EndPoll | Feed | EndPass
    | TickStarts | TickEnds
    | Enter(id: nat, kind: Kind) | Acquire(id: nat) | Signal(id: nat) | Join(id: nat)
    | FlushAppend(id: nat, segs: seq<string>) | FlushFails(id: nat) | FlushEmit(id: nat) | Close(id: nat) | Release(id: nat)
    | DropSession

  predicate IsPumpStep(step: Step) {
    step.Check? || step.Awaken? || step.UpgradeFails? || step.BeginPoll? || step.Decode? || step.DecodeFails?
    || step.EndPoll? || step.Feed? || step.EndPass?
  }

  /** The steps that follow a `finish` or `cancel` into the session. */
  predicate IsWinnerStep(step: Step) {
    step.Acquire? || step.Signal? || step.Join? || step.FlushAppend? || step.FlushFails? || step.FlushEmit?
    || step.Close? || step.Release?
  }

  // ---------------------------------------------------------------- text

  function Chunk(seg: string): string {
    if Blank(seg) then "" else seg + " "
  }

  function Chunks(segs: seq<string>): string {
    if segs == [] then "" else Chunk(segs[0]) + Chunks(segs[1..])
  }

  function Concat(texts: seq<string>): string {
    if texts == [] then "" else Concat(texts[..|texts| - 1]) + texts[|texts| - 1]
  }

  /** The speech part of a stored transcript. */
  function SpeechText(entries: seq<Entry>): string {
    if entries == [] then ""
    else
      var last := entries[|entries| - 1];
      SpeechText(entries[..|entries| - 1]) + (if last.Speech? then last.text else "")
  }

  /** The store accepts appends only while the session is recording. */
  function Appended(r: Record, entries: seq<Entry>): (t: Record)
    ensures t.status == r.status && t.events == r.events && t.owed == r.owed
  {
    if r.status == Recording then r.(transcript := r.transcript + entries) else r
  }

  /** One append per non-blank segment. */
  function SpeechEntries(segs: seq<string>): seq<Entry> {
    if segs == [] then []
    else (if Blank(segs[0]) then [] else [Speech(Chunk(segs[0]))]) + SpeechEntries(segs[1..])
  }

  function Announced(r: Record, text: string): (t: Record)
    ensures t.status == r.status && t.transcript == r.transcript && t.owed == ""
  {
    if text == "" then r.(owed := "") else r.(events := r.events + [text], owed := "")
  }

  // ---------------------------------------------------------------- transitions

  predicate At(s: State, id: nat, pc: CallerPc) {
    id in s.exits.callers && s.exits.callers[id].pc == pc
  }

  function Moved(x: Exits, id: nat, pc: CallerPc): Exits
    requires id in x.callers
  {
    x.(callers := x.callers[id := x.callers[id].(pc := pc)])
  }

  /** `terminated.swap(true)`: the first caller in wins, every later one has lost. */
  function Entered(x: Exits, id: nat, kind: Kind): Exits {
    if x.terminated then x.(callers := x.callers[id := Caller(kind, Lost)])
    else x.(callers := x.callers[id := Caller(kind, WantsGuard)], terminated := true, winner := Some(id))
  }

  /** The caller must still flush before closing: only a finish with the flush turned on. */
  predicate MustFlush(s: State, id: nat)
    requires id in s.exits.callers
  {
    s.exits.callers[id].kind == Finish && s.flushOnFinish
  }

  predicate PumpEnabled(s: State, step: Step) {
    match step
    case Check => s.pump == Checking
    case Awaken => s.pump == Waiting
    case UpgradeFails => s.pump == Admitted && s.host == Gone
    case BeginPoll(_) => s.pump == Admitted && s.host != Gone
    case Decode(_) => s.pump.Polling? && s.pump.left > 0
    case DecodeFails => s.pump.Polling? && s.pump.left > 0
    case EndPoll => s.pump.Polling? && s.pump.left == 0
    case Feed => s.pump.Feeding? && s.pump.todo != []
    case EndPass => s.pump.Feeding? && s.pump.todo == []
    case _ => false
  }

  predicate WinnerEnabled(s: State, step: Step) {
    match step
    case Acquire(id) => At(s, id, WantsGuard) && s.exits.extractor == Nobody
    case Signal(id) => At(s, id, Guarded)
    case Join(id) => At(s, id, Joining) && s.pump == Exited
    case FlushAppend(id, _) => At(s, id, Joined) && MustFlush(s, id)
    case FlushFails(id) => At(s, id, Joined) && MustFlush(s, id)
    case FlushEmit(id) => id in s.exits.callers && s.exits.callers[id].pc.Flushing?
    case Close(id) => At(s, id, Flushed) || (At(s, id, Joined) && !MustFlush(s, id))
    case Release(id) => At(s, id, Closed)
    case _ => false
  }

  /** The host's calls, and the live ticks they spawn. */
  ghost predicate HostEnabled(s: State, step: Step) {
    match step
    case Enqueue(_) => s.host == Held
    case WakePump => s.input.pushing > 0
    case Pause => s.host == Held
    case Resume => s.host == Held
    case Type(_) => s.host == Held
    case ReleaseHost => s.host == Held
    case TickStarts => s.exits.ticks > 0 && s.exits.extractor == Nobody
    case TickEnds => s.exits.ticks > 0 && s.exits.extractor == Tick
    case Enter(id, _) => s.host == Held && id !in s.exits.callers
    case DropSession =>
      && s.host == Released && s.input.pushing == 0 && s.exits.ticks == 0
      && !s.pump.Polling? && !s.pump.Feeding?
      && forall id :: id in s.exits.callers ==> s.exits.callers[id].pc == Lost || s.exits.callers[id].pc == Done
    case _ => false
  }

  ghost predicate Enabled(s: State, step: Step) {
    if IsPumpStep(step) then PumpEnabled(s, step)
    else if IsWinnerStep(step) then WinnerEnabled(s, step)
    else HostEnabled(s, step)
  }

  function CheckedPump(f: Flags): Pump {
    match Decide(f)
    case Park => Waiting
    case Exit => Exited
    case Pass => Admitted
  }

  function PumpApply(s: State, step: Step): State
    requires PumpEnabled(s, step)
  {
    match step
    case Check =>
      s.(flags := s.flags.Checked(), pump := CheckedPump(s.flags),
         meter := s.meter.(gates := s.meter.gates + (if Decide(s.flags) == Pass then 1 else 0)))
    case Awaken => s.(flags := s.flags.(waiter := Away), pump := Checking)
    case UpgradeFails => s.(pump := Exited)
    case BeginPoll(ready) => s.(pump := Polling(s.input.stranded + ready, []), input := Input(0, s.input.pushing, 0, false))
    case Decode(segs) =>
      s.(pump := Polling(s.pump.left - 1, s.pump.segs + segs), meter := s.meter.(decodes := s.meter.decodes + 1))
    case DecodeFails =>
      s.(pump := Checking, input := s.input.(stranded := s.pump.left - 1, passFailed := true),
         meter := s.meter.(decodes := s.meter.decodes + 1))
    case EndPoll => s.(pump := Feeding(s.pump.segs, ""))
    case Feed =>
      var chunk := Chunk(s.pump.todo[0]);
      var s1 := s.(pump := Feeding(s.pump.todo[1..], s.pump.committed + chunk));
      if Blank(s.pump.todo[0]) then s1
      else s1.(record := Appended(s.record, [Speech(chunk)]).(owed := s.record.owed + chunk),
               exits := s.exits.(ticks := s.exits.ticks + 1))
    case EndPass => s.(pump := Checking, record := Announced(s.record, s.pump.committed))
  }

  function WinnerApply(s: State, step: Step): State
    requires WinnerEnabled(s, step)
  {
    match step
    case Acquire(id) => s.(exits := Moved(s.exits, id, Guarded).(extractor := Winner(id)))
    case Signal(id) => s.(exits := Moved(s.exits, id, Joining), flags := s.flags.Stopped())
    case Join(id) => s.(exits := Moved(s.exits, id, Joined))
    case FlushAppend(id, segs) =>
      s.(exits := Moved(s.exits, id, Flushing(Chunks(segs))),
         record := Appended(s.record, SpeechEntries(segs)).(owed := Chunks(segs)),
         input := s.input.(unread := 0, stranded := 0), meter := s.meter.(flushes := s.meter.flushes + 1))
    case FlushFails(id) =>
      s.(exits := Moved(s.exits, id, Flushed),
         input := s.input.(unread := 0), meter := s.meter.(flushes := s.meter.flushes + 1))
    case FlushEmit(id) =>
      s.(exits := Moved(s.exits, id, Flushed), record := Announced(s.record, s.exits.callers[id].pc.text))
    case Close(id) =>
      s.(exits := Moved(s.exits, id, Closed),
         record := s.record.(status := if s.exits.callers[id].kind == Finish then Ended else Deleted))
    case Release(id) => s.(exits := Moved(s.exits, id, Done).(extractor := Nobody))
  }

  ghost function HostApply(s: State, step: Step): State
    requires HostEnabled(s, step)
  {
    match step
    case Enqueue(n) => s.(input := s.input.(unread := s.input.unread + n, pushing := s.input.pushing + 1))
    case WakePump => s.(flags := s.flags.Woken(), input := s.input.(pushing := s.input.pushing - 1))
    case Pause => s.(flags := s.flags.Paused())
    case Resume => s.(flags := s.flags.Resumed())
    case Type(text) => s.(record := Appended(s.record, [Typed(text)]), exits := s.exits.(ticks := s.exits.ticks + 1))
    case ReleaseHost => s.(host := Released)
    case TickStarts => s.(exits := s.exits.(extractor := Tick))
    case TickEnds => s.(exits := s.exits.(extractor := Nobody, ticks := s.exits.ticks - 1))
    case Enter(id, kind) => s.(exits := Entered(s.exits, id, kind))
    case DropSession => s.(flags := s.flags.Stopped(), host := Gone)
  }

  ghost function Apply(s: State, step: Step): State
    requires Enabled(s, step)
  {
    if IsPumpStep(step) then PumpApply(s, step)
    else if IsWinnerStep(step) then WinnerApply(s, step)
    else HostApply(s, step)
  }

  ghost predicate Legal(s: State, steps: seq<Step>)
    decreases steps
  {
    steps == [] || (Enabled(s, steps[0]) && Legal(Apply(s, steps[0]), steps[1..]))
  }

  ghost function Exec(s: State, steps: seq<Step>): State
    requires Legal(s, steps)
    decreases steps
  {
    if steps == [] then s else Exec(Apply(s, steps[0]), steps[1..])
  }
}
