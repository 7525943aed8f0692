/**
 * A run of the default settings that backs off past the feed: five low-churn reflections,
 * then sixteen sessions before the next one, which takes eight of them.
 */
module BackOff {
  import opened Outcomes
  import opened Blanks
  import opened Reflecting
  import opened Coverage
  import opened CoverageLoss

  // ---------------------------------------------------------------- runs, put together

  lemma {:induction false} ExecConcat(w: World, a: seq<Step>, b: seq<Step>)
    requires Legal(DEFAULTS, w, a) && Legal(DEFAULTS, Exec(DEFAULTS, w, a), b)
    ensures Legal(DEFAULTS, w, a + b) && Exec(DEFAULTS, w, a + b) == Exec(DEFAULTS, Exec(DEFAULTS, w, a), b)
    decreases |a|
  {
    hide Apply, Enabled;
    if a == [] {
      assert a + b == b;
    } else {
      assert (a + b)[1..] == a[1..] + b;
      ExecConcat(Apply(DEFAULTS, w, a[0]), a[1..], b);
    }
  }

  lemma OneStep(w: World, step: Step)
    requires Enabled(w, step)
    ensures Legal(DEFAULTS, w, [step]) && Exec(DEFAULTS, w, [step]) == Apply(DEFAULTS, w, step)
  {
    hide Apply, Enabled;
    assert [step][1..] == [];
  }

  // ---------------------------------------------------------------- walks

  /** Session `i` ended in second `i`. */
  function Row(i: nat): Session {
    Session(i, None, AwaitingProcessing, "a", None, Some(i), false)
  }

  function Walked(n: nat): (rows: seq<Session>)
    ensures |rows| == n && forall i :: 0 <= i < n ==> rows[i] == Row(i)
  {
    if n == 0 then [] else Walked(n - 1) + [Row(n - 1)]
  }

  function Span(lo: nat, hi: nat): (s: set<Id>)
    ensures forall i :: i in s <==> lo <= i < hi
    decreases hi - lo
  {
    if lo >= hi then {} else {lo} + Span(lo + 1, hi)
  }

  function Below(n: nat): set<Id> {
    Span(0, n)
  }

  function Calm(n: nat): (churn: seq<real>)
    ensures |churn| == n && forall i :: 0 <= i < n ==> churn[i] == 0.0
  {
    if n == 0 then [] else Calm(n - 1) + [0.0]
  }

  /** After `n` walks and `done` reflections, `sessions` of the walks since the last. */
  function After(n: nat, sessions: nat, done: nat, last: nat, covered: set<Id>): World {
    World(Db(Walked(n), Signals(sessions, 0, done, Calm(done)), last), n, [], covered, {})
  }

  /** One session, a second long. */
  function Walk(i: nat): seq<Step> {
    [Start(i, None), Append(i, "a"), End(i), Tick(i + 1)]
  }

  lemma WalkRuns(n: nat, sessions: nat, done: nat, last: nat, covered: set<Id>)
    ensures Legal(DEFAULTS, After(n, sessions, done, last, covered), Walk(n))
    ensures Exec(DEFAULTS, After(n, sessions, done, last, covered), Walk(n)) == After(n + 1, sessions + 1, done, last, covered)
  {
    var w := After(n, sessions, done, last, covered);
    var begun := Session(n, None, Recording, "", None, None, false);
    var spoken := begun.(transcript := "a");
    StartsAndSpeaks(w, n, begun, spoken);
    EndsAndTicks(w, n, spoken);
    hide Apply, Enabled, Legal, Exec, Walked, Calm;
    var w1 := w.(db := w.db.(table := Walked(n) + [begun]));
    var w2 := w.(db := w.db.(table := Walked(n) + [spoken]));
    var w3 := w.(db := w.db.(table := Walked(n + 1), signals := Counted(w.db.signals)));
    OneStep(w, Start(n, None));
    OneStep(w1, Append(n, "a"));
    OneStep(w2, End(n));
    OneStep(w3, Tick(n + 1));
    ExecConcat(w2, [End(n)], [Tick(n + 1)]);
    ExecConcat(w1, [Append(n, "a")], [End(n)] + [Tick(n + 1)]);
    ExecConcat(w, [Start(n, None)], [Append(n, "a")] + ([End(n)] + [Tick(n + 1)]));
    assert [Start(n, None)] + ([Append(n, "a")] + ([End(n)] + [Tick(n + 1)])) == Walk(n);
  }

  lemma StartsAndSpeaks(w: World, n: nat, begun: Session, spoken: Session)
    requires w.db.table == Walked(n)
    requires begun == Session(n, None, Recording, "", None, None, false) && spoken == begun.(transcript := "a")
    ensures Enabled(w, Start(n, None)) && Apply(DEFAULTS, w, Start(n, None)) == w.(db := w.db.(table := Walked(n) + [begun]))
    ensures var w1 := w.(db := w.db.(table := Walked(n) + [begun]));
            Enabled(w1, Append(n, "a")) && Apply(DEFAULTS, w1, Append(n, "a")) == w.(db := w.db.(table := Walked(n) + [spoken]))
  {
    hide Due, Walked;
    assert "" + "a" == "a";
    assert (Walked(n) + [begun])[n := spoken] == Walked(n) + [spoken];
  }

  lemma EndsAndTicks(w: World, n: nat, spoken: Session)
    requires w.db.table == Walked(n) && w.clock == n && spoken == Session(n, None, Recording, "a", None, None, false)
    ensures var w2 := w.(db := w.db.(table := Walked(n) + [spoken]));
            var w3 := w.(db := w.db.(table := Walked(n + 1), signals := Counted(w.db.signals)));
            && Enabled(w2, End(n)) && Apply(DEFAULTS, w2, End(n)) == w3
            && Enabled(w3, Tick(n + 1)) && Apply(DEFAULTS, w3, Tick(n + 1)) == w3.(clock := n + 1)
  {
    hide Due;
    assert (Walked(n) + [spoken])[n := Row(n)] == Walked(n) + [Row(n)] == Walked(n + 1);
  }

  // ---------------------------------------------------------------- what a pass is fed

  lemma RowsAreDistinct(n: nat)
    ensures DistinctIds(Walked(n))
  {
  }

  function RowSpan(lo: nat, hi: nat): (s: set<Session>)
    requires lo <= hi
    ensures forall t :: t in s <==> lo <= t.id < hi && t == Row(t.id)
    ensures |s| == hi - lo
    decreases hi - lo
  {
    if lo == hi then {} else {Row(lo)} + RowSpan(lo + 1, hi)
  }

  lemma RowOfWalk(n: nat, t: Session)
    ensures t in Walked(n) <==> t.id < n && t == Row(t.id)
  {
    if t.id < n && t == Row(t.id) {
      assert Walked(n)[t.id] == t;
    }
  }

  /** Sessions `i + 1` to `n - 1` are the newer ones. */
  lemma NewerThan(n: nat, since: nat, i: nat)
    requires since <= i < n
    ensures |NewerRows(Walked(n), since, Row(i))| == n - 1 - i
  {
    var newer := NewerRows(Walked(n), since, Row(i));
    forall t
      ensures t in newer <==> t in RowSpan(i + 1, n)
    {
      RowOfWalk(n, t);
    }
    assert newer == RowSpan(i + 1, n);
  }

  lemma RowIsSpoken(i: nat)
    ensures !Blank(Body(Row(i)))
  {
    assert "a"[..1] == "a" && !IsSpace("a"[0]);
  }

  lemma FedRow(n: nat, since: nat, i: nat)
    requires i < n
    ensures i in Ids(Feed(Walked(n), since, DEFAULT_FEED)) <==> since <= i && n - 1 - i < DEFAULT_FEED
  {
    hide Feed, NewerRows, Body;
    RowsAreDistinct(n);
    FedRows(Db(Walked(n), NO_SIGNALS, since), DEFAULT_FEED, i);
    FedIff(Walked(n), since, DEFAULT_FEED, Row(i));
    RowIsSpoken(i);
    assert Walked(n)[i] == Row(i);
    if since <= i {
      NewerThan(n, since, i);
    }
  }

  function FedIds(n: nat, since: nat): set<Id> {
    Span(if n < since + DEFAULT_FEED then since else n - DEFAULT_FEED, n)
  }

  lemma FedIdsAre(n: nat, since: nat)
    ensures Ids(Feed(Walked(n), since, DEFAULT_FEED)) == FedIds(n, since)
  {
    hide Feed;
    RowsAreDistinct(n);
    FeedIds(Db(Walked(n), NO_SIGNALS, since), DEFAULT_FEED);
    forall id | id in Ids(Feed(Walked(n), since, DEFAULT_FEED))
      ensures id in FedIds(n, since)
    {
      var i :| 0 <= i < n && Walked(n)[i].id == id;
      FedRow(n, since, id);
    }
    forall id | id in FedIds(n, since)
      ensures id in Ids(Feed(Walked(n), since, DEFAULT_FEED))
    {
      FedRow(n, since, id);
    }
  }

  lemma NothingIsBlank(n: nat, last: nat, signals: Signals)
    ensures BlankRows(Db(Walked(n), signals, last)) == {}
  {
    forall s | s in Walked(n)
      ensures !Blank(Body(s))
    {
      var i :| 0 <= i < n && Walked(n)[i] == s;
      RowIsSpoken(i);
    }
  }

  const PASS: seq<Step> := [Begin, Complete(0, 0.0)]

  /** A pass that is due, from query to stamp with nothing in between. */
  lemma PassRuns(n: nat, sessions: nat, done: nat, last: nat, covered: set<Id>)
    requires last < n && done < CHURN_KEPT && ShouldReflect(DEFAULT_POLICY, Signals(sessions, 0, done, Calm(done)))
    ensures var w := After(n, sessions, done, last, covered);
            && Due(DEFAULT_POLICY, DEFAULT_FEED, w.db).Some?
            && Legal(DEFAULTS, w, PASS)
            && Exec(DEFAULTS, w, PASS) == After(n, 0, done + 1, n, covered + FedIds(n, last))
  {
    var w := After(n, sessions, done, last, covered);
    QueryRuns(n, sessions, done, last, covered);
    hide Due, Legal, Exec, Apply, Enabled, FedIds;
    var w1 := w.(flights := [FedIds(n, last)]);
    StampRuns(n, sessions, done, last, covered, FedIds(n, last));
    BeginIsEnabled(w);
    OneStep(w, Begin);
    OneStep(w1, Complete(0, 0.0));
    ExecConcat(w, [Begin], [Complete(0, 0.0)]);
    assert [Begin] + [Complete(0, 0.0)] == PASS;
  }

  lemma BeginIsEnabled(w: World)
    ensures Enabled(w, Begin)
  {
  }

  lemma StampRuns(n: nat, sessions: nat, done: nat, last: nat, covered: set<Id>, fed: set<Id>)
    requires done < CHURN_KEPT
    ensures var w1 := After(n, sessions, done, last, covered).(flights := [fed]);
            && Enabled(w1, Complete(0, 0.0))
            && Apply(DEFAULTS, w1, Complete(0, 0.0)) == After(n, 0, done + 1, n, covered + fed)
  {
    hide Walked, Due, Known, TableAfter;
    assert Calm(done) + [0.0] == Calm(done + 1);
    assert Without([fed], 0) == [];
  }

  lemma QueryRuns(n: nat, sessions: nat, done: nat, last: nat, covered: set<Id>)
    requires last < n && ShouldReflect(DEFAULT_POLICY, Signals(sessions, 0, done, Calm(done)))
    ensures var w := After(n, sessions, done, last, covered);
            && Due(DEFAULT_POLICY, DEFAULT_FEED, w.db).Some?
            && Apply(DEFAULTS, w, Begin) == w.(flights := [FedIds(n, last)])
  {
    hide ShouldReflect, Feed, BlankRows;
    var w := After(n, sessions, done, last, covered);
    FedIdsAre(n, last);
    assert n - 1 in FedIds(n, last);
    NothingIsBlank(n, last, w.db.signals);
    DueIsFeed(DEFAULTS, w.db);
  }

  // ---------------------------------------------------------------- the run

  /** Five reflections, one after each walk. */
  function WarmUp(k: nat): seq<Step> {
    if k == 0 then [] else WarmUp(k - 1) + Walk(k - 1) + PASS
  }

  lemma {:induction false} WarmUpRuns(k: nat)
    requires k <= 5
    ensures Legal(DEFAULTS, EMPTY, WarmUp(k))
    ensures Exec(DEFAULTS, EMPTY, WarmUp(k)) == After(k, 0, k, k, Below(k))
  {
    hide Legal, Exec, Walk, After, FedIds, Below, ShouldReflect, Calm;
    if k == 0 {
      Setout();
    } else {
      WarmUpRuns(k - 1);
      WalkRuns(k - 1, 0, k - 1, k - 1, Below(k - 1));
      ExecConcat(EMPTY, WarmUp(k - 1), Walk(k - 1));
      WarmIsDue(k - 1);
      PassRuns(k, 1, k - 1, k - 1, Below(k - 1));
      ExecConcat(EMPTY, WarmUp(k - 1) + Walk(k - 1), PASS);
      CoverGrows(k);
    }
  }

  lemma WarmIsDue(done: nat)
    ensures done < 5 ==> ShouldReflect(DEFAULT_POLICY, Signals(1, 0, done, Calm(done)))
  {
  }

  lemma CoverGrows(k: nat)
    requires k > 0
    ensures Below(k - 1) + FedIds(k, k - 1) == Below(k)
  {
  }

  lemma Setout()
    ensures EMPTY == After(0, 0, 0, 0, Below(0)) && Legal(DEFAULTS, EMPTY, []) && Exec(DEFAULTS, EMPTY, []) == EMPTY
  {
  }

  /** Then `m` walks. */
  function BackedOffRun(m: nat): seq<Step> {
    if m == 0 then WarmUp(5) else BackedOffRun(m - 1) + Walk(5 + m - 1)
  }

  lemma {:induction false} BackedOffRuns(m: nat)
    ensures Legal(DEFAULTS, EMPTY, BackedOffRun(m))
    ensures Exec(DEFAULTS, EMPTY, BackedOffRun(m)) == After(5 + m, m, 5, 5, Below(5))
  {
    hide Legal, Exec, Walk, WarmUp;
    if m == 0 {
      WarmUpRuns(5);
    } else {
      BackedOffRuns(m - 1);
      WalkRuns(5 + m - 1, m - 1, 5, 5, Below(5));
      ExecConcat(EMPTY, BackedOffRun(m - 1), Walk(5 + m - 1));
    }
  }

  lemma FiveCalmBacksOff(sessions: nat)
    ensures BackedOff(Signals(sessions, 0, 5, Calm(5)))
    ensures ShouldReflect(DEFAULT_POLICY, Signals(sessions, 0, 5, Calm(5))) <==> sessions >= 16
  {
    BackedOffWaitsForSixteen(Signals(sessions, 0, 5, Calm(5)));
  }

  /**
   * The state the cadence lemma speaks of is reached: after sixteen more sessions a pass is
   * due, and before the sixteenth none is. The pass covers the last eight of the sixteen, and the
   * first eight are lost to every later run.
   */
  lemma BackingOffLosesEight(i: nat, more: seq<Step>)
    requires 5 <= i < 13
    ensures var run := BackedOffRun(16);
            && Legal(DEFAULTS, EMPTY, run)
            && BackedOff(Exec(DEFAULTS, EMPTY, run).db.signals)
            && Due(DEFAULT_POLICY, DEFAULT_FEED, Exec(DEFAULTS, EMPTY, run).db).Some?
    ensures forall m :: 0 < m < 16 ==>
              && Legal(DEFAULTS, EMPTY, BackedOffRun(m))
              && Due(DEFAULT_POLICY, DEFAULT_FEED, Exec(DEFAULTS, EMPTY, BackedOffRun(m)).db) == None
    ensures var run := BackedOffRun(16) + PASS;
            && Legal(DEFAULTS, EMPTY, run)
            && var w := Exec(DEFAULTS, EMPTY, run);
               && w.covered == Below(5) + FedIds(21, 5)
               && i < |w.db.table| && w.db.table[i] == Row(i) && Lost(w, w.db.table[i])
               && (Legal(DEFAULTS, w, more) ==> i !in Exec(DEFAULTS, w, more).covered)
  {
    hide Legal, Exec, BackedOffRun, BackedOff, ShouldReflect, Feed, RowOk, Known, DistinctIds;
    BackedOffRuns(16);
    FiveCalmBacksOff(16);
    PassRuns(21, 16, 5, 5, Below(5));
    ExecConcat(EMPTY, BackedOffRun(16), PASS);
    forall m | 0 < m < 16
      ensures Legal(DEFAULTS, EMPTY, BackedOffRun(m))
      ensures Due(DEFAULT_POLICY, DEFAULT_FEED, Exec(DEFAULTS, EMPTY, BackedOffRun(m)).db) == None
    {
      BackedOffRuns(m);
      FiveCalmBacksOff(m);
    }
    var run := BackedOffRun(16) + PASS;
    var w := Exec(DEFAULTS, EMPTY, run);
    assert w.db.table[i] == Row(i) && i !in FedIds(21, 5);
    assert Inv(EMPTY) by { EmptyInv(); }
    RunKeeps(DEFAULTS, EMPTY, run);
    if Legal(DEFAULTS, w, more) {
      LostForever(DEFAULTS, w, more, i);
    }
  }

  lemma EmptyInv()
    ensures Inv(EMPTY)
  {
    assert forall id :: !InSomeFlight(EMPTY, id);
  }

  /** The same loss from the exact condition: each of the first eight is outranked by eight newer sessions. */
  lemma OutrankedByEight(i: nat)
    requires 5 <= i < 13
    ensures Legal(DEFAULTS, EMPTY, BackedOffRun(16))
    ensures var w := Exec(DEFAULTS, EMPTY, BackedOffRun(16));
            var w1 := Apply(DEFAULTS, w, Begin);
            && i < |w.db.table| && |NewerRows(w.db.table, w.db.lastReflected, w.db.table[i])| >= DEFAULTS.limit
            && Enabled(w1, Complete(0, 0.0)) && i < |w1.db.table|
            && Lost(Apply(DEFAULTS, w1, Complete(0, 0.0)), w1.db.table[i])
  {
    hide Legal, Exec, BackedOffRun, ShouldReflect, FedIds, Feed, NewerRows, Lost, Body, Blank;
    BackedOffRuns(16);
    FiveCalmBacksOff(16);
    QueryRuns(21, 16, 5, 5, Below(5));
    var w := Exec(DEFAULTS, EMPTY, BackedOffRun(16));
    NewerThan(21, 5, i);
    var w1 := Apply(DEFAULTS, w, Begin);
    NoStepsRun(w1);
    PassLosesIff(DEFAULTS, BackedOffRun(16), [], 0.0, i);
  }

  lemma NoStepsRun(w: World)
    ensures Legal(DEFAULTS, w, []) && Exec(DEFAULTS, w, []) == w && NoReflection([])
  {
  }
}
