/** How a session is lost to reflection: exactly when, for good, and by default. */
module CoverageLoss {
  import opened Outcomes
  import opened Blanks
  import opened Reflecting
  import opened Coverage

  /** Ended before the stamp, never covered, and in no pass under way. */
  predicate Lost(w: World, s: Session) {
    s.endedAt.Some? && s.End() < w.db.lastReflected && s.id !in w.covered && !InSomeFlight(w, s.id)
  }

  // ---------------------------------------------------------------- losing is final

  lemma LostStays(cfg: Config, w: World, step: Step, row: nat)
    requires Inv(w) && Enabled(w, step)
    requires row < |w.db.table| && Lost(w, w.db.table[row])
    ensures var w2 := Apply(cfg, w, step);
            row < |w2.db.table| && w2.db.table[row].id == w.db.table[row].id && Lost(w2, w2.db.table[row])
  {
    TableStepEvolves(cfg, w, step);
    hide TableAfter, Feed, Known, DistinctIds, BlankRows, Blank, Excerpt, Reflected;
    var w2 := Apply(cfg, w, step);
    var s := w.db.table[row];
    assert Evolves(s, w2.db.table[row]);
    if step.Begin? && Due(cfg.policy, cfg.limit, w.db).Some? {
      DueIsFeed(cfg, w.db);
      FedRows(w.db, cfg.limit, row);
      FedIff(w.db.table, w.db.lastReflected, cfg.limit, s);
    }
    if step.Complete? {
      assert w.flights[step.pass] in w.flights;
    }
  }

  /** Over every continuation of every run: a lost session is never covered. */
  lemma {:induction false} LostForever(cfg: Config, w: World, steps: seq<Step>, row: nat)
    requires Inv(w) && Legal(cfg, w, steps)
    requires row < |w.db.table| && Lost(w, w.db.table[row])
    ensures var w2 := Exec(cfg, w, steps);
            && row < |w2.db.table| && w2.db.table[row].id == w.db.table[row].id
            && Lost(w2, w2.db.table[row])
    decreases |steps|
  {
    hide Inv, Apply, Enabled, Lost;
    if steps != [] {
      StepKeeps(cfg, w, steps[0]);
      LostStays(cfg, w, steps[0], row);
      LostForever(cfg, Apply(cfg, w, steps[0]), steps[1..], row);
    }
  }

  // ---------------------------------------------------------------- one pass, exactly

  predicate NoReflection(steps: seq<Step>) {
    forall i :: 0 <= i < |steps| ==> !steps[i].Begin? && !steps[i].Fail? && !steps[i].Complete?
  }

  /** Between query and stamp the rows evolve and the reflection state stands still. */
  lemma {:induction false} MeanwhileEvolves(cfg: Config, w: World, steps: seq<Step>)
    requires Inv(w) && Legal(cfg, w, steps) && NoReflection(steps)
    ensures var w2 := Exec(cfg, w, steps);
            && TableEvolves(w.db.table, w2.db.table)
            && w2.flights == w.flights && w2.covered == w.covered && w2.db.lastReflected == w.db.lastReflected
            && Inv(w2)
    decreases |steps|
  {
    hide Inv, Enabled, TableAfter, Feed;
    if steps != [] {
      StepKeeps(cfg, w, steps[0]);
      TableStepEvolves(cfg, w, steps[0]);
      var w1 := Apply(cfg, w, steps[0]);
      assert w1.flights == w.flights && w1.covered == w.covered && w1.db.lastReflected == w.db.lastReflected;
      MeanwhileEvolves(cfg, w1, steps[1..]);
      var w2 := Exec(cfg, w1, steps[1..]);
      forall i | 0 <= i < |w.db.table|
        ensures Evolves(w.db.table[i], w2.db.table[i])
      {
        assert Evolves(w.db.table[i], w1.db.table[i]) && Evolves(w1.db.table[i], w2.db.table[i]);
      }
    }
  }

  predicate EndedIn(table: seq<Session>, row: nat) {
    row < |table| && table[row].endedAt.Some?
  }

  /** Offered to the pass that looks at this table. */
  predicate Taken(db: Db, limit: nat, row: nat) {
    && row < |db.table| && Eligible(db.table[row], db.lastReflected) && !Blank(Body(db.table[row]))
    && |NewerRows(db.table, db.lastReflected, db.table[row])| < limit
  }

  lemma TakenIff(db: Db, limit: nat, later: seq<Session>, row: nat)
    requires DistinctIds(db.table) && DistinctIds(later) && TableEvolves(db.table, later) && row < |later|
    ensures later[row].id in Ids(Feed(db.table, db.lastReflected, limit)) <==> Taken(db, limit, row)
  {
    hide Feed, NewerRows, Blank, Body;
    if row < |db.table| {
      assert Evolves(db.table[row], later[row]);
      FedRows(db, limit, row);
      FedIff(db.table, db.lastReflected, limit, db.table[row]);
    } else {
      FeedIds(db, limit);
      forall j | 0 <= j < |db.table|
        ensures db.table[j].id != later[row].id
      {
        assert Evolves(db.table[j], later[j]);
      }
    }
  }

  /** What a stamp does to one session. */
  lemma StampLoses(cfg: Config, w: World, churn: real, s: Session)
    requires |w.flights| == 1
    ensures Enabled(w, Complete(0, churn))
    ensures Lost(Apply(cfg, w, Complete(0, churn)), s)
            <==> s.endedAt.Some? && s.End() < w.clock && s.id !in w.covered && s.id !in w.flights[0]
  {
    hide Reflected, TableAfter, Due;
    var w3 := Apply(cfg, w, Complete(0, churn));
    assert w3.flights == [] && !InSomeFlight(w3, s.id);
  }

  /**
   * A pass alone, from query to stamp, in any reachable state. A session that was not lost
   * before it is lost by it iff it ended before the second of the stamp, is uncovered, and
   * had not ended at the query, or was blank then, or was outranked by the limit's worth of
   * newer sessions.
   */
  lemma PassLosesIff(cfg: Config, before: seq<Step>, mid: seq<Step>, churn: real, row: nat)
    requires Legal(cfg, EMPTY, before)
    requires var w := Exec(cfg, EMPTY, before); w.flights == [] && Due(cfg.policy, cfg.limit, w.db).Some?
    requires NoReflection(mid) && Legal(cfg, Apply(cfg, Exec(cfg, EMPTY, before), Begin), mid)
    requires var w := Exec(cfg, EMPTY, before);
             var w2 := Exec(cfg, Apply(cfg, w, Begin), mid);
             && row < |w2.db.table| && w2.db.table[row].Listed() && w2.db.table[row].id !in w2.covered
             && (EndedIn(w.db.table, row) ==> w.db.table[row].End() >= w.db.lastReflected)
    ensures var w := Exec(cfg, EMPTY, before);
            var w2 := Exec(cfg, Apply(cfg, w, Begin), mid);
            Enabled(w2, Complete(0, churn))
            && (Lost(Apply(cfg, w2, Complete(0, churn)), w2.db.table[row])
                <==> && w2.db.table[row].End() < w2.clock
                     && (|| !EndedIn(w.db.table, row)
                         || Blank(Body(w.db.table[row]))
                         || |NewerRows(w.db.table, w.db.lastReflected, w.db.table[row])| >= cfg.limit))
  {
    hide Known, Feed, Ordered, NewerRows, Blank, Body, Excerpt, Legal, Exec, Due, NoReflection, BlankRows, RowOk, Reflected;
    RunKeeps(cfg, EMPTY, before);
    var w := Exec(cfg, EMPTY, before);
    DueIsFeed(cfg, w.db);
    StepKeeps(cfg, w, Begin);
    var w1 := Apply(cfg, w, Begin);
    MeanwhileEvolves(cfg, w1, mid);
    var w2 := Exec(cfg, w1, mid);
    assert w2.flights == [Ids(Feed(w.db.table, w.db.lastReflected, cfg.limit))];
    TakenIff(w.db, cfg.limit, w2.db.table, row);
    StampLoses(cfg, w2, churn, w2.db.table[row]);
    hide Lost, Apply, Enabled, DistinctIds;
    if row < |w.db.table| {
      assert Evolves(w.db.table[row], w2.db.table[row]);
    }
  }

  // ---------------------------------------------------------------- the hypothesis is needed

  const OVERLAP: seq<Step> :=
    [Start(1, None), Append(0, "a"), End(0), Start(2, None), Append(1, "b"), Begin, End(1), Tick(1), Complete(0, 1.0)]

  const FIRST: Session := Session(1, None, AwaitingProcessing, "a", None, Some(0), false)

  const SECOND: Session := Session(2, None, Recording, "b", None, None, false)

  const AT_QUERY: Db := Db([FIRST, SECOND], Signals(1, 0, 0, []), 0)

  lemma Along(w: World, run: seq<Step>, k: nat)
    requires k < |run| && Enabled(w, run[k]) && Legal(DEFAULTS, Apply(DEFAULTS, w, run[k]), run[k + 1..])
    ensures Legal(DEFAULTS, w, run[k..])
    ensures Exec(DEFAULTS, w, run[k..]) == Exec(DEFAULTS, Apply(DEFAULTS, w, run[k]), run[k + 1..])
  {
    assert run[k..][1..] == run[k + 1..];
  }

  lemma NoMore(w: World)
    ensures Legal(DEFAULTS, w, []) && Exec(DEFAULTS, w, []) == w
  {
  }

  lemma FirstIsDue()
    ensures Due(DEFAULT_POLICY, DEFAULT_FEED, AT_QUERY) == Some([FIRST])
  {
    var t := AT_QUERY.table;
    assert t[1..] == [SECOND] && t[1..][1..] == [];
    assert Ordered(t[1..], 0) == [] && Ordered(t, 0) == [FIRST];
    var rows := Rows(t, 0, DEFAULT_FEED);
    assert rows == [FIRST];
    assert "a"[..1] == "a" && !IsSpace("a"[0]) && Body(FIRST) == "a";
    assert Feedable(rows) == [FIRST] by { assert rows[1..] == []; }
  }

  function Plain(table: seq<Session>, sessions: nat): World {
    World(Db(table, Signals(sessions, 0, 0, []), 0), 0, [], {}, {})
  }

  const FIRST_RECORDING: Session := FIRST.(status := Recording, endedAt := None)

  lemma FirstSteps()
    ensures EMPTY == Plain([], 0)
    ensures Enabled(EMPTY, OVERLAP[0]) && Apply(DEFAULTS, EMPTY, OVERLAP[0]) == Plain([FIRST_RECORDING.(transcript := "")], 0)
    ensures Apply(DEFAULTS, Plain([FIRST_RECORDING.(transcript := "")], 0), OVERLAP[1]) == Plain([FIRST_RECORDING], 0)
    ensures Apply(DEFAULTS, Plain([FIRST_RECORDING], 0), OVERLAP[2]) == Plain([FIRST], 1)
  {
    hide Due;
    assert "" + "a" == "a";
  }

  lemma NextSteps()
    ensures Enabled(Plain([FIRST], 1), OVERLAP[3])
    ensures Apply(DEFAULTS, Plain([FIRST], 1), OVERLAP[3]) == Plain([FIRST, SECOND.(transcript := "")], 1)
    ensures Apply(DEFAULTS, Plain([FIRST, SECOND.(transcript := "")], 1), OVERLAP[4]) == Plain([FIRST, SECOND], 1)
  {
    hide Due;
    assert "" + "b" == "b";
  }

  /** The run up to the query. */
  lemma UntilQuery()
    requires Legal(DEFAULTS, Plain([FIRST, SECOND], 1), OVERLAP[5..])
    ensures Legal(DEFAULTS, EMPTY, OVERLAP)
    ensures Exec(DEFAULTS, EMPTY, OVERLAP) == Exec(DEFAULTS, Plain([FIRST, SECOND], 1), OVERLAP[5..])
  {
    hide Legal, Exec, Apply, Plain;
    FirstSteps();
    NextSteps();
    Along(Plain([FIRST, SECOND.(transcript := "")], 1), OVERLAP, 4);
    Along(Plain([FIRST], 1), OVERLAP, 3);
    Along(Plain([FIRST_RECORDING], 0), OVERLAP, 2);
    Along(Plain([FIRST_RECORDING.(transcript := "")], 0), OVERLAP, 1);
    Along(EMPTY, OVERLAP, 0);
    assert OVERLAP[0..] == OVERLAP;
  }

  const SECOND_ENDED: Session := SECOND.(status := AwaitingProcessing, endedAt := Some(0))

  const AT_STAMP: Db := Db([FIRST, SECOND_ENDED], Signals(2, 0, 0, []), 0)

  lemma QueryStep(w5: World) returns (blanked: set<Id>)
    requires w5 == World(AT_QUERY, 0, [], {}, {})
    ensures Enabled(w5, Begin) && Apply(DEFAULTS, w5, Begin) == World(AT_QUERY, 0, [{1}], {}, blanked)
  {
    hide Due, BlankRows, Known;
    FirstIsDue();
    assert Ids([FIRST]) == {1};
    blanked := BlankRows(AT_QUERY);
  }

  lemma SecondEnds(blanked: set<Id>)
    ensures var w6, w7 := World(AT_QUERY, 0, [{1}], {}, blanked), World(AT_STAMP, 0, [{1}], {}, blanked);
            && Enabled(w6, End(1)) && Apply(DEFAULTS, w6, End(1)) == w7
            && Enabled(w7, Tick(1)) && Apply(DEFAULTS, w7, Tick(1)) == w7.(clock := 1)
  {
    hide Due, Known;
  }

  lemma StampStep(blanked: set<Id>)
    ensures var w8 := World(AT_STAMP, 1, [{1}], {}, blanked);
            && Enabled(w8, Complete(0, 1.0))
            && Apply(DEFAULTS, w8, Complete(0, 1.0)) == World(Stamped(AT_STAMP, 1.0, 1), 1, [], {1}, blanked)
  {
    hide Due, Known, Reflected;
    assert Without([{1}], 0) == [];
  }

  /** From the query to the stamp, with the second session ending in between. */
  lemma FromQuery(w5: World)
    requires w5 == World(AT_QUERY, 0, [], {}, {})
    ensures Legal(DEFAULTS, w5, OVERLAP[5..])
    ensures var w := Exec(DEFAULTS, w5, OVERLAP[5..]);
            && w.db.table == [FIRST, SECOND_ENDED]
            && w.db.lastReflected == 1 && w.covered == {1} && w.flights == []
  {
    hide Apply, Enabled, Legal, Exec, Reflected;
    var blanked := QueryStep(w5);
    SecondEnds(blanked);
    StampStep(blanked);
    var w9 := World(Stamped(AT_STAMP, 1.0, 1), 1, [], {1}, blanked);
    NoMore(w9);
    assert OVERLAP[9..] == [];
    Along(World(AT_STAMP, 1, [{1}], {}, blanked), OVERLAP, 8);
    Along(World(AT_STAMP, 0, [{1}], {}, blanked), OVERLAP, 7);
    Along(World(AT_QUERY, 0, [{1}], {}, blanked), OVERLAP, 6);
    Along(w5, OVERLAP, 5);
  }

  /**
   * A session ends after the query and a second before the stamp; no run afterwards ever
   * covers it.
   */
  lemma OverlapLosesASession(more: seq<Step>)
    ensures Legal(DEFAULTS, EMPTY, OVERLAP)
    ensures var w := Exec(DEFAULTS, EMPTY, OVERLAP);
            && |w.db.table| == 2 && w.db.table[1].Listed() && w.db.table[1].transcript == "b"
            && (Legal(DEFAULTS, w, more) ==>
                  var end := Exec(DEFAULTS, w, more);
                  1 < |end.db.table| && end.db.table[1].id == 2 && 2 !in end.covered)
  {
    hide Legal, Exec, Apply, Enabled, RowOk, Known;
    var w5 := World(AT_QUERY, 0, [], {}, {});
    FromQuery(w5);
    UntilQuery();
    var w := Exec(DEFAULTS, EMPTY, OVERLAP);
    assert Inv(EMPTY) by { assert forall id :: !InSomeFlight(EMPTY, id); }
    RunKeeps(DEFAULTS, EMPTY, OVERLAP);
    if Legal(DEFAULTS, w, more) {
      LostForever(DEFAULTS, w, more, 1);
    }
  }

  // ---------------------------------------------------------------- backing off past the limit

  /** More rows are eligible: the query has more to choose from. */
  lemma {:induction false} MoreEligible(a: seq<Session>, b: seq<Session>, since: nat)
    requires |a| <= |b| && forall i :: 0 <= i < |a| ==> (Eligible(a[i], since) ==> Eligible(b[i], since))
    ensures |Ordered(a, since)| <= |Ordered(b, since)|
    ensures (exists i :: 0 <= i < |a| && !Eligible(a[i], since) && Eligible(b[i], since))
            ==> |Ordered(a, since)| < |Ordered(b, since)|
  {
    hide Eligible;
    if a != [] {
      MoreEligible(a[1..], b[1..], since);
      InsertAdds(a[0], Ordered(a[1..], since));
      InsertAdds(b[0], Ordered(b[1..], since));
      if i :| 0 <= i < |a| && !Eligible(a[i], since) && Eligible(b[i], since) {
        assert i > 0 ==> a[1..][i - 1] == a[i] && b[1..][i - 1] == b[i];
      }
    }
  }

  lemma {:induction false} InsertAdds(s: Session, rows: seq<Session>)
    ensures |InsertRow(s, rows)| == |rows| + 1
  {
    if rows != [] {
      InsertAdds(s, rows[1..]);
    }
  }

  predicate NoDeletion(steps: seq<Step>) {
    forall i :: 0 <= i < |steps| ==> !steps[i].Delete?
  }

  predicate SignalsBelowFeed(w: World) {
    w.db.signals.sessions <= |Ordered(w.db.table, w.db.lastReflected)|
  }

  lemma StepKeepsCount(cfg: Config, w: World, step: Step)
    requires Inv(w) && Enabled(w, step) && SignalsBelowFeed(w) && !step.Delete?
    ensures SignalsBelowFeed(Apply(cfg, w, step))
  {
    hide Ordered, Feed, Known, DistinctIds, InSomeFlight, Blank, Excerpt, BlankRows, ShouldReflect;
    var w2 := Apply(cfg, w, step);
    if !step.Complete? {
      var since := w.db.lastReflected;
      assert w2.db.lastReflected == since;
      forall i | 0 <= i < |w.db.table|
        ensures Eligible(w.db.table[i], since) ==> Eligible(w2.db.table[i], since)
      {
        assert RowOk(w, w.db.table[i]);
      }
      MoreEligible(w.db.table, w2.db.table, since);
      if step.End? && CanEnd(w.db, step.row) {
        var row := step.row;
        assert RowOk(w, w.db.table[row]);
        assert !Eligible(w.db.table[row], since) && Eligible(w2.db.table[row], since);
      }
    }
  }

  lemma {:induction false} RunKeepsCount(cfg: Config, w: World, steps: seq<Step>)
    requires Inv(w) && SignalsBelowFeed(w) && Legal(cfg, w, steps) && NoDeletion(steps)
    ensures SignalsBelowFeed(Exec(cfg, w, steps))
    decreases |steps|
  {
    hide Inv, Apply, Enabled, SignalsBelowFeed;
    if steps != [] {
      StepKeeps(cfg, w, steps[0]);
      StepKeepsCount(cfg, w, steps[0]);
      RunKeepsCount(cfg, Apply(cfg, w, steps[0]), steps[1..]);
    }
  }

  /** Past warm-up, four low churns in a row. */
  predicate BackedOff(s: Signals) {
    && s.completed >= DEFAULT_POLICY.warmup && s.corrections == 0 && |s.churn| >= 4
    && forall i :: |s.churn| - 4 <= i < |s.churn| ==> s.churn[i] < DEFAULT_POLICY.threshold
  }

  lemma LowTailIsCounted(churn: seq<real>, n: nat, k: nat)
    requires k <= |churn| && k <= n
    requires forall i :: |churn| - k <= i < |churn| ==> churn[i] < DEFAULT_POLICY.threshold
    ensures TrailingLow(churn, DEFAULT_POLICY.threshold, n) >= k
  {
    if k > 0 {
      LowTailIsCounted(churn[..|churn| - 1], n - 1, k - 1);
    }
  }

  lemma {:induction false} DoubledGrows(m: nat, n: nat)
    requires m <= n
    ensures Doubled(m) <= Doubled(n)
    decreases n
  {
    if m < n {
      DoubledGrows(m, n - 1);
    }
  }

  lemma BackedOffWaitsForSixteen(s: Signals)
    requires BackedOff(s)
    ensures ShouldReflect(DEFAULT_POLICY, s) <==> s.sessions >= 16
  {
    LowTailIsCounted(s.churn, CHURN_READ, 4);
    var low := TrailingLow(s.churn, DEFAULT_POLICY.threshold, CHURN_READ);
    DoubledGrows(4, Min(low, 6));
    assert Doubled(4) == 16;
  }

  /**
   * The other hypothesis fails by default: over every run without deletions, a backed-off
   * cadence lets a pass start only when at least sixteen sessions are eligible, and the pass
   * takes at most eight of them.
   */
  lemma BackingOffOutrunsTheFeed(steps: seq<Step>)
    requires Legal(DEFAULTS, EMPTY, steps) && NoDeletion(steps)
    requires var w := Exec(DEFAULTS, EMPTY, steps);
             BackedOff(w.db.signals) && Due(DEFAULT_POLICY, DEFAULT_FEED, w.db).Some?
    ensures var w := Exec(DEFAULTS, EMPTY, steps);
            && |Ordered(w.db.table, w.db.lastReflected)| >= 16
            && |Due(DEFAULT_POLICY, DEFAULT_FEED, w.db).value| <= 8
            && (forall k :: 8 <= k < |Ordered(w.db.table, w.db.lastReflected)| ==>
                  Ordered(w.db.table, w.db.lastReflected)[k] !in Due(DEFAULT_POLICY, DEFAULT_FEED, w.db).value)
  {
    hide RowOk, Known, Legal, Exec, Ordered, Feedable, ShouldReflect, BackedOff, Newer;
    assert Inv(EMPTY) by { assert forall id :: !InSomeFlight(EMPTY, id); }
    RunKeeps(DEFAULTS, EMPTY, steps);
    RunKeepsCount(DEFAULTS, EMPTY, steps);
    var w := Exec(DEFAULTS, EMPTY, steps);
    BackedOffWaitsForSixteen(w.db.signals);
    PastTheLimit(w.db, DEFAULT_FEED);
  }

  /** Rows past the limit are not fed. */
  lemma PastTheLimit(db: Db, limit: nat)
    requires DistinctIds(db.table)
    ensures |Feed(db.table, db.lastReflected, limit)| <= limit
    ensures forall k :: limit <= k < |Ordered(db.table, db.lastReflected)| ==>
              Ordered(db.table, db.lastReflected)[k] !in Feed(db.table, db.lastReflected, limit)
  {
    hide Ordered, Eligible;
    var all := Ordered(db.table, db.lastReflected);
    OrderedIsSorted(db.table, db.lastReflected);
    FeedableRows(Rows(db.table, db.lastReflected, limit));
    forall k | limit <= k < |all|
      ensures all[k] !in all[..limit]
    {
      assert forall j :: 0 <= j < limit ==> Newer(all[j], all[k]);
    }
  }
}
