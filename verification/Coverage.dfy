/** Which ended sessions ever reach a completed reflection, over every run. */
module Coverage {
  import opened Outcomes
  import opened Blanks
  import opened Reflecting

  datatype Config = Config(policy: Policy, limit: nat)

  const DEFAULTS: Config := Config(DEFAULT_POLICY, DEFAULT_FEED)

  /**
   * The store and the clock; `flights` holds what each unfinished pass was fed. The rest is
   * history: sessions a completed pass was fed, and sessions that were blank when a pass looked.
   */
  datatype World = World(db: Db, clock: nat, flights: seq<set<Id>>, covered: set<Id>, blanked: set<Id>)

  const EMPTY: World := World(Db([], NO_SIGNALS, 0), 0, [], {}, {})

  datatype Step =
    | Start(id: Id, job: Option<string>)
    | Append(row: nat, text: string)
    | End(row: nat)
    | Process(row: nat, summary: Option<string>)
    | Sweep
    | Delete(row: nat)
    | Correct
    | Tick(to: nat)
    | Begin
    | Fail(pass: nat)
    | Complete(pass: nat, churn: real)

  function Known(table: seq<Session>): set<Id> {
    set i | 0 <= i < |table| :: table[i].id
  }

  /** Ids are fresh, time does not run backwards, and only a pass under way ends. */
  predicate Enabled(w: World, step: Step) {
    && (step.Start? ==> step.id !in Known(w.db.table))
    && (step.Tick? ==> step.to >= w.clock)
    && (step.Fail? || step.Complete? ==> step.pass < |w.flights|)
  }

  function Swept(s: Session): Session {
    if s.status.Recording? && !s.deleted then s.(status := Failed) else s
  }

  function Settled(s: Session, summary: Option<string>): Session {
    if s.deleted || (!s.status.AwaitingProcessing? && !s.status.Failed?) then s
    else if summary.Some? then s.(status := Processed, summary := summary)
    else s.(status := Failed)
  }

  function Appended(s: Session, text: string): Session {
    if s.deleted || !s.status.Recording? then s else s.(transcript := s.transcript + text)
  }

  function OnRow(table: seq<Session>, row: nat, f: Session -> Session): seq<Session> {
    if row < |table| then table[row := f(table[row])] else table
  }

  /** The table after a step; a step a session's status forbids changes nothing. */
  function TableAfter(w: World, step: Step): seq<Session> {
    var t := w.db.table;
    match step
    case Start(id, job) => t + [Session(id, job, Recording, "", None, None, false)]
    case Append(row, text) => OnRow(t, row, s => Appended(s, text))
    case End(row) => if CanEnd(w.db, row) then Ended(w.db, row, w.clock).table else t
    case Process(row, summary) => OnRow(t, row, s => Settled(s, summary))
    case Sweep => seq(|t|, i requires 0 <= i < |t| => Swept(t[i]))
    case Delete(row) => OnRow(t, row, (s: Session) => s.(deleted := true))
    case _ => t
  }

  function Ids(rows: seq<Session>): set<Id> {
    set s | s in rows :: s.id
  }

  function BlankRows(db: Db): set<Id> {
    set s | s in db.table && Eligible(s, db.lastReflected) && Blank(Body(s)) :: s.id
  }

  function Without(flights: seq<set<Id>>, pass: nat): seq<set<Id>>
    requires pass < |flights|
  {
    flights[..pass] + flights[pass + 1..]
  }

  function Apply(cfg: Config, w: World, step: Step): World
    requires Enabled(w, step)
  {
    match step
    case Begin =>
      (match Due(cfg.policy, cfg.limit, w.db)
       case None => w
       case Some(feed) => w.(flights := w.flights + [Ids(feed)], blanked := w.blanked + BlankRows(w.db)))
    case Fail(pass) => w.(flights := Without(w.flights, pass))
    case Complete(pass, churn) =>
      w.(db := Stamped(w.db, churn, w.clock), flights := Without(w.flights, pass),
         covered := w.covered + w.flights[pass])
    case Tick(to) => w.(clock := to)
    case Correct => w.(db := w.db.(signals := Corrected(w.db.signals)))
    case End(row) => if CanEnd(w.db, row) then w.(db := Ended(w.db, row, w.clock)) else w
    case _ => w.(db := w.db.(table := TableAfter(w, step)))
  }

  predicate Legal(cfg: Config, w: World, steps: seq<Step>)
    decreases |steps|
  {
    steps == [] || (Enabled(w, steps[0]) && Legal(cfg, Apply(cfg, w, steps[0]), steps[1..]))
  }

  function Exec(cfg: Config, w: World, steps: seq<Step>): World
    requires Legal(cfg, w, steps)
    decreases |steps|
  {
    if steps == [] then w else Exec(cfg, Apply(cfg, w, steps[0]), steps[1..])
  }

  // ---------------------------------------------------------------- invariants of every run

  predicate InSomeFlight(w: World, id: Id) {
    exists p :: p in w.flights && id in p
  }

  predicate RowOk(w: World, s: Session) {
    && (s.endedAt.Some? ==> !s.status.Recording? && s.End() <= w.clock)
    && (s.summary.Some? ==> s.status.Processed?)
    && (s.id in w.covered ==> s.endedAt.Some? && s.End() <= w.db.lastReflected)
    && (s.id in w.blanked ==> s.endedAt.Some? && Blank(Excerpt(s.transcript)))
    && (InSomeFlight(w, s.id) ==> s.endedAt.Some?)
  }

  predicate Inv(w: World) {
    && DistinctIds(w.db.table)
    && w.db.lastReflected <= w.clock
    && (forall i :: 0 <= i < |w.db.table| ==> RowOk(w, w.db.table[i]))
    && w.covered <= Known(w.db.table) && w.blanked <= Known(w.db.table)
    && (forall p :: p in w.flights ==> p <= Known(w.db.table))
  }

  /** How one step, or many, may change a row. */
  predicate Evolves(a: Session, b: Session) {
    && b.id == a.id
    && (a.deleted ==> b.deleted)
    && (a.endedAt.Some? ==> b.endedAt == a.endedAt && b.transcript == a.transcript)
  }

  predicate TableEvolves(a: seq<Session>, b: seq<Session>) {
    |a| <= |b| && forall i :: 0 <= i < |a| ==> Evolves(a[i], b[i])
  }

  lemma TableStepEvolves(cfg: Config, w: World, step: Step)
    requires Inv(w) && Enabled(w, step)
    ensures TableEvolves(w.db.table, Apply(cfg, w, step).db.table)
  {
    hide DistinctIds, Known, InSomeFlight, Blank, Due, BlankRows;
  }

  lemma TableKeeps(w: World, table: seq<Session>)
    requires Inv(w) && |table| == |w.db.table|
    requires forall i :: 0 <= i < |table| ==> table[i].id == w.db.table[i].id && RowOk(w, table[i])
    ensures Inv(w.(db := w.db.(table := table)))
  {
    var w2 := w.(db := w.db.(table := table));
    assert Known(table) == Known(w.db.table);
    assert forall s :: RowOk(w, s) == RowOk(w2, s) by {
      assert forall id :: InSomeFlight(w, id) == InSomeFlight(w2, id);
    }
  }

  /** A row with a fed id is a fed row. */
  lemma FedRows(db: Db, limit: nat, i: nat)
    requires DistinctIds(db.table) && i < |db.table|
    ensures db.table[i].id in Ids(Feed(db.table, db.lastReflected, limit))
            <==> db.table[i] in Feed(db.table, db.lastReflected, limit)
    ensures Ids(Feed(db.table, db.lastReflected, limit)) <= Known(db.table)
  {
    hide Feed, NewerRows, Eligible, Blank, Body;
    var feed := Feed(db.table, db.lastReflected, limit);
    forall s | s in feed
      ensures s.id in Known(db.table) && (s.id == db.table[i].id ==> s == db.table[i])
    {
      FedIff(db.table, db.lastReflected, limit, s);
      var j :| 0 <= j < |db.table| && db.table[j] == s;
    }
  }

  lemma StartKeeps(w: World, id: Id, job: Option<string>)
    requires Inv(w) && id !in Known(w.db.table)
    ensures Inv(w.(db := w.db.(table := w.db.table + [Session(id, job, Recording, "", None, None, false)])))
  {
    hide Blank, Excerpt;
    var s := Session(id, job, Recording, "", None, None, false);
    var w2 := w.(db := w.db.(table := w.db.table + [s]));
    assert forall i :: 0 <= i < |w.db.table| ==> w.db.table[i].id in Known(w.db.table);
    assert forall i :: 0 <= i < |w2.db.table| ==> w2.db.table[i] == if i < |w.db.table| then w.db.table[i] else s;
    assert forall t :: RowOk(w, t) == RowOk(w2, t) by {
      assert forall id :: InSomeFlight(w, id) == InSomeFlight(w2, id);
    }
    assert forall x :: x in Known(w.db.table) ==> x in Known(w2.db.table) by {
      forall x | x in Known(w.db.table)
        ensures x in Known(w2.db.table)
      {
        var i :| 0 <= i < |w.db.table| && w.db.table[i].id == x;
        assert w2.db.table[i].id == x;
      }
    }
  }

  lemma BeginKeeps(cfg: Config, w: World)
    requires Inv(w)
    ensures Inv(Apply(cfg, w, Begin))
  {
    hide Feed, Excerpt, Blank, Due;
    var due := Due(cfg.policy, cfg.limit, w.db);
    if due.Some? {
      assert due.value == Feed(w.db.table, w.db.lastReflected, cfg.limit) by { DueIsFeed(cfg, w.db); }
      var w2 := Apply(cfg, w, Begin);
      var t := w.db.table;
      FeedIds(w.db, cfg.limit);
      BlankIds(w.db);
      forall i | 0 <= i < |t|
        ensures RowOk(w2, t[i])
      {
        FedRows(w.db, cfg.limit, i);
        FedIff(t, w.db.lastReflected, cfg.limit, t[i]);
        BlankedRows(w.db, i);
        assert InSomeFlight(w2, t[i].id) ==> InSomeFlight(w, t[i].id) || t[i].id in Ids(due.value);
        assert RowOk(w, t[i]);
      }
    }
  }

  lemma DueIsFeed(cfg: Config, db: Db)
    requires Due(cfg.policy, cfg.limit, db).Some?
    ensures Due(cfg.policy, cfg.limit, db).value == Feed(db.table, db.lastReflected, cfg.limit)
  {
  }

  lemma FeedIds(db: Db, limit: nat)
    requires DistinctIds(db.table)
    ensures Ids(Feed(db.table, db.lastReflected, limit)) <= Known(db.table)
  {
    if |db.table| > 0 {
      FedRows(db, limit, 0);
    } else {
      forall s | s in Feed(db.table, db.lastReflected, limit)
        ensures false
      {
        FedIff(db.table, db.lastReflected, limit, s);
      }
    }
  }

  lemma BlankIds(db: Db)
    ensures BlankRows(db) <= Known(db.table)
  {
    forall s | s in db.table
      ensures s.id in Known(db.table)
    {
      var j :| 0 <= j < |db.table| && db.table[j] == s;
    }
  }

  lemma BlankedRows(db: Db, i: nat)
    requires DistinctIds(db.table) && i < |db.table|
    ensures db.table[i].id in BlankRows(db) <==> Eligible(db.table[i], db.lastReflected) && Blank(Body(db.table[i]))
    ensures Blank(Body(db.table[i])) ==> Blank(Excerpt(db.table[i].transcript))
  {
    hide Eligible;
    forall s | s in db.table && s.id == db.table[i].id
      ensures s == db.table[i]
    {
      var j :| 0 <= j < |db.table| && db.table[j] == s;
    }
  }

  lemma FlightEnds(cfg: Config, w: World, step: Step)
    requires Inv(w) && Enabled(w, step) && (step.Fail? || step.Complete?)
    ensures Inv(Apply(cfg, w, step))
  {
    hide Excerpt, Blank, Reflected;
    var w2 := Apply(cfg, w, step);
    assert w.flights[step.pass] in w.flights;
    assert forall p :: p in w2.flights ==> p in w.flights;
    forall i | 0 <= i < |w.db.table|
      ensures RowOk(w2, w.db.table[i])
    {
      var s := w.db.table[i];
      assert RowOk(w, s);
      assert InSomeFlight(w2, s.id) ==> InSomeFlight(w, s.id);
      assert s.id in w.flights[step.pass] ==> InSomeFlight(w, s.id);
    }
  }

  lemma OtherKeeps(cfg: Config, w: World, step: Step)
    requires Inv(w) && (step.Tick? || step.Correct?) && Enabled(w, step)
    ensures Inv(Apply(cfg, w, step))
  {
    hide Excerpt, Blank;
    var w2 := Apply(cfg, w, step);
    forall i | 0 <= i < |w.db.table|
      ensures RowOk(w2, w.db.table[i])
    {
      assert RowOk(w, w.db.table[i]);
      assert InSomeFlight(w2, w.db.table[i].id) == InSomeFlight(w, w.db.table[i].id);
    }
  }

  lemma StepKeeps(cfg: Config, w: World, step: Step)
    requires Inv(w) && Enabled(w, step)
    ensures Inv(Apply(cfg, w, step))
  {
    if step.Begin? {
      BeginKeeps(cfg, w);
    } else if step.Fail? || step.Complete? {
      FlightEnds(cfg, w, step);
    } else if step.Tick? || step.Correct? {
      OtherKeeps(cfg, w, step);
    } else if step.Start? {
      StartKeeps(w, step.id, step.job);
    } else {
      RowsKeep(cfg, w, step);
    }
  }

  lemma RowsKeep(cfg: Config, w: World, step: Step)
    requires Inv(w) && (step.Append? || step.End? || step.Process? || step.Sweep? || step.Delete?)
    ensures Inv(Apply(cfg, w, step))
  {
    hide DistinctIds, Known, InSomeFlight, Excerpt, Blank;
    var table := TableAfter(w, step);
    forall i | 0 <= i < |table|
      ensures table[i].id == w.db.table[i].id && RowOk(w, table[i])
    {
      assert RowOk(w, w.db.table[i]);
    }
    TableKeeps(w, table);
    if step.End? {
      SignalsDoNotMatter(w.(db := w.db.(table := table)), Apply(cfg, w, step).db.signals);
    }
  }

  lemma SignalsDoNotMatter(w: World, signals: Signals)
    requires Inv(w)
    ensures Inv(w.(db := w.db.(signals := signals)))
  {
    hide Excerpt, Blank;
    var w2 := w.(db := w.db.(signals := signals));
    forall i | 0 <= i < |w.db.table|
      ensures RowOk(w2, w.db.table[i])
    {
      assert RowOk(w, w.db.table[i]);
      assert InSomeFlight(w2, w.db.table[i].id) == InSomeFlight(w, w.db.table[i].id);
    }
  }

  lemma {:induction false} RunKeeps(cfg: Config, w: World, steps: seq<Step>)
    requires Inv(w) && Legal(cfg, w, steps)
    ensures Inv(Exec(cfg, w, steps))
    decreases |steps|
  {
    hide Inv, Apply, Enabled;
    if steps != [] {
      StepKeeps(cfg, w, steps[0]);
      RunKeeps(cfg, Apply(cfg, w, steps[0]), steps[1..]);
    }
  }

  /** Over every run: a pass feeds an already covered session only if it ended in the second of the last stamp. */
  lemma RepeatsSitOnTheStamp(cfg: Config, steps: seq<Step>, row: nat)
    requires Legal(cfg, EMPTY, steps)
    requires row < |Exec(cfg, EMPTY, steps).db.table|
    ensures var w := Exec(cfg, EMPTY, steps);
            var s := w.db.table[row];
            s.id in w.covered && s in Feed(w.db.table, w.db.lastReflected, cfg.limit) ==>
              s.endedAt == Some(w.db.lastReflected)
  {
    hide Feed, Known, Excerpt, Blank;
    RunKeeps(cfg, EMPTY, steps);
    var w := Exec(cfg, EMPTY, steps);
    assert RowOk(w, w.db.table[row]);
    FedIff(w.db.table, w.db.lastReflected, cfg.limit, w.db.table[row]);
  }

  // ---------------------------------------------------------------- nothing is lost by careful runs

  /** No session ends while a pass is under way, and a pass is never offered more than it takes. */
  predicate CarefulStep(cfg: Config, w: World, step: Step) {
    && (step.End? && CanEnd(w.db, step.row) ==> w.flights == [])
    && (step.Begin? ==> |Ordered(w.db.table, w.db.lastReflected)| <= cfg.limit)
  }

  predicate Careful(cfg: Config, w: World, steps: seq<Step>)
    requires Legal(cfg, w, steps)
    decreases |steps|
  {
    steps == [] || (CarefulStep(cfg, w, steps[0]) && Careful(cfg, Apply(cfg, w, steps[0]), steps[1..]))
  }

  predicate Accounted(w: World, s: Session) {
    s.Listed() ==>
      && (s.id in w.covered || s.id in w.blanked || s.End() >= w.db.lastReflected)
      && (forall p :: p in w.flights ==> s.id in w.covered || s.id in w.blanked || s.id in p)
  }

  predicate AllAccounted(w: World) {
    forall i :: 0 <= i < |w.db.table| ==> Accounted(w, w.db.table[i])
  }

  lemma BeginAccounts(cfg: Config, w: World)
    requires Inv(w) && AllAccounted(w) && CarefulStep(cfg, w, Begin)
    ensures AllAccounted(Apply(cfg, w, Begin))
  {
    hide Body, Blank, RowOk, Known, Due;
    var due := Due(cfg.policy, cfg.limit, w.db);
    if due.Some? {
      DueIsFeed(cfg, w.db);
      var w2 := Apply(cfg, w, Begin);
      forall i | 0 <= i < |w.db.table|
        ensures Accounted(w2, w.db.table[i])
      {
        var s := w.db.table[i];
        assert Accounted(w, s);
        FedWhole(w.db, cfg.limit, s);
        FedRows(w.db, cfg.limit, i);
        BlankedRows(w.db, i);
      }
    }
  }

  /** Within the limit, every eligible row that is not blank is fed. */
  lemma FedWhole(db: Db, limit: nat, s: Session)
    requires DistinctIds(db.table) && s in db.table
    requires |Ordered(db.table, db.lastReflected)| <= limit
    ensures Eligible(s, db.lastReflected) && !Blank(Body(s)) ==> s in Feed(db.table, db.lastReflected, limit)
  {
    OrderedIsSorted(db.table, db.lastReflected);
    FeedableRows(Rows(db.table, db.lastReflected, limit));
  }

  lemma StepAccounts(cfg: Config, w: World, step: Step)
    requires Inv(w) && AllAccounted(w) && Enabled(w, step) && CarefulStep(cfg, w, step)
    ensures AllAccounted(Apply(cfg, w, step))
  {
    hide Inv, AllAccounted, Apply, CarefulStep;
    if step.Begin? {
      BeginAccounts(cfg, w);
    } else if step.Fail? || step.Complete? {
      FlightEndAccounts(cfg, w, step);
    } else {
      MeanwhileAccounts(cfg, w, step);
    }
  }

  lemma FlightEndAccounts(cfg: Config, w: World, step: Step)
    requires Inv(w) && AllAccounted(w) && Enabled(w, step) && (step.Fail? || step.Complete?)
    ensures AllAccounted(Apply(cfg, w, step))
  {
    hide Known, DistinctIds, RowOk, Reflected, TableAfter, Due;
    var w2 := Apply(cfg, w, step);
    assert forall p :: p in w2.flights ==> p in w.flights;
    assert w.flights[step.pass] in w.flights;
    forall i | 0 <= i < |w2.db.table|
      ensures Accounted(w2, w2.db.table[i])
    {
      assert Accounted(w, w.db.table[i]);
    }
  }

  /** Between passes a row is listed as before, or has just ended. */
  lemma OnlyEndEnds(cfg: Config, w: World, step: Step, i: nat)
    requires Inv(w) && Enabled(w, step) && !step.Begin? && !step.Fail? && !step.Complete?
    requires i < |Apply(cfg, w, step).db.table| && Apply(cfg, w, step).db.table[i].Listed()
    ensures var s := Apply(cfg, w, step).db.table[i];
            || (i < |w.db.table| && w.db.table[i].Listed() && w.db.table[i].id == s.id && w.db.table[i].End() == s.End())
            || (step.End? && CanEnd(w.db, step.row) && s.End() == w.clock)
    ensures var w2 := Apply(cfg, w, step);
            w2.flights == w.flights && w2.covered == w.covered && w2.blanked == w.blanked
            && w2.db.lastReflected == w.db.lastReflected
  {
    hide Known, DistinctIds, InSomeFlight, Blank, Excerpt, Due;
  }

  lemma MeanwhileAccounts(cfg: Config, w: World, step: Step)
    requires Inv(w) && AllAccounted(w) && Enabled(w, step) && CarefulStep(cfg, w, step)
    requires !step.Begin? && !step.Fail? && !step.Complete?
    ensures AllAccounted(Apply(cfg, w, step))
  {
    hide Known, DistinctIds, RowOk, Ordered, Apply;
    var w2 := Apply(cfg, w, step);
    forall i | 0 <= i < |w2.db.table| && w2.db.table[i].Listed()
      ensures Accounted(w2, w2.db.table[i])
    {
      OnlyEndEnds(cfg, w, step, i);
      assert i < |w.db.table| ==> Accounted(w, w.db.table[i]);
    }
  }

  lemma {:induction false} CarefulRunAccounts(cfg: Config, w: World, steps: seq<Step>)
    requires Inv(w) && AllAccounted(w) && Legal(cfg, w, steps) && Careful(cfg, w, steps)
    ensures AllAccounted(Exec(cfg, w, steps))
    decreases |steps|
  {
    hide Inv, Apply, Enabled, AllAccounted, CarefulStep;
    if steps != [] {
      StepKeeps(cfg, w, steps[0]);
      StepAccounts(cfg, w, steps[0]);
      CarefulRunAccounts(cfg, Apply(cfg, w, steps[0]), steps[1..]);
    }
  }

  /**
   * Over every careful run, failed passes included: a session that ended, was not deleted
   * and did not have a blank excerpt has been covered or is still eligible.
   */
  lemma CarefulRunsLoseNothing(cfg: Config, steps: seq<Step>, row: nat)
    requires Legal(cfg, EMPTY, steps) && Careful(cfg, EMPTY, steps)
    requires row < |Exec(cfg, EMPTY, steps).db.table|
    ensures var w := Exec(cfg, EMPTY, steps);
            var s := w.db.table[row];
            s.Listed() && !Blank(Excerpt(s.transcript)) ==> s.id in w.covered || Eligible(s, w.db.lastReflected)
  {
    hide Known, Excerpt, Blank, Legal, Careful, Exec;
    assert Inv(EMPTY) && AllAccounted(EMPTY);
    RunKeeps(cfg, EMPTY, steps);
    CarefulRunAccounts(cfg, EMPTY, steps);
    var w := Exec(cfg, EMPTY, steps);
    assert Accounted(w, w.db.table[row]) && RowOk(w, w.db.table[row]);
  }

  /** Over every careful run: a reflection that completes leaves no such session uncovered. */
  lemma CompletionCoversEverySession(cfg: Config, steps: seq<Step>, pass: nat, churn: real, row: nat)
    requires Legal(cfg, EMPTY, steps) && Careful(cfg, EMPTY, steps)
    requires var w := Exec(cfg, EMPTY, steps); pass < |w.flights| && row < |w.db.table|
    ensures var w := Apply(cfg, Exec(cfg, EMPTY, steps), Complete(pass, churn));
            var s := w.db.table[row];
            s.Listed() && !Blank(Excerpt(s.transcript)) ==> s.id in w.covered
  {
    hide Known, Excerpt, Blank, Legal, Careful, Exec;
    assert Inv(EMPTY) && AllAccounted(EMPTY);
    RunKeeps(cfg, EMPTY, steps);
    CarefulRunAccounts(cfg, EMPTY, steps);
    var w := Exec(cfg, EMPTY, steps);
    assert w.flights[pass] in w.flights;
    assert Accounted(w, w.db.table[row]) && RowOk(w, w.db.table[row]);
  }
}
