/**
 * What a reflection is fed and when (crates/murmur-core/src/reflection.rs,
 * crates/murmur-core/src/coordinator.rs, crates/harness/src/reflection/policy.rs):
 * the session table, the cadence signals, and the two halves of `maybe_reflect`.
 */
module Reflecting {
  import opened Outcomes
  import opened Blanks

  type Id = nat

  datatype Status = Recording | AwaitingProcessing | Processed | Failed

  datatype Session = Session(
    id: Id, job: Option<string>, status: Status, transcript: string, summary: Option<string>,
    endedAt: Option<nat>, deleted: bool)
  {
    /** Ended, not deleted. */
    predicate Listed() {
      !deleted && endedAt.Some?
    }

    function End(): nat {
      if endedAt.Some? then endedAt.value else 0
    }
  }

  // ---------------------------------------------------------------- cadence

  datatype Signals = Signals(sessions: nat, corrections: nat, completed: nat, churn: seq<real>)

  const NO_SIGNALS: Signals := Signals(0, 0, 0, [])

  const CHURN_KEPT: nat := 8

  const CHURN_READ: nat := 7

  function LastOf(churn: seq<real>, n: nat): seq<real> {
    if |churn| > n then churn[|churn| - n..] else churn
  }

  function Reflected(s: Signals, churn: real): Signals {
    Signals(0, 0, s.completed + 1, LastOf(s.churn + [churn], CHURN_KEPT))
  }

  /** A completed reflection clears both counters, counts itself, and keeps the latest eight churns, its own last. */
  lemma ReflectedIs(s: Signals, churn: real)
    ensures var r := Reflected(s, churn);
            && r.sessions == 0 && r.corrections == 0 && r.completed == s.completed + 1
            && |r.churn| == (if |s.churn| < 8 then |s.churn| + 1 else 8)
            && r.churn[|r.churn| - 1] == churn
            && forall i :: 0 <= i < |r.churn| - 1 ==> r.churn[i] == s.churn[|s.churn| + 1 - |r.churn| + i]
  {
  }

  datatype Policy = Policy(warmup: nat, threshold: real, maxInterval: nat)

  const DEFAULT_POLICY: Policy := Policy(5, 0.1, 16)

  const DEFAULT_FEED: nat := 8

  /** How many of the latest `n` churns run below the threshold, counted back from the last. */
  function TrailingLow(churn: seq<real>, threshold: real, n: nat): nat
    decreases n
  {
    if n == 0 || churn == [] || churn[|churn| - 1] >= threshold then 0
    else 1 + TrailingLow(churn[..|churn| - 1], threshold, n - 1)
  }

  function Doubled(n: nat): nat {
    if n == 0 then 1 else 2 * Doubled(n - 1)
  }

  function Min(a: nat, b: nat): nat {
    if a <= b then a else b
  }

  function RequiredInterval(p: Policy, completed: nat, churn: seq<real>): nat {
    if completed < p.warmup then 1
    else Min(Doubled(Min(TrailingLow(churn, p.threshold, CHURN_READ), 6)), p.maxInterval)
  }

  predicate ShouldReflect(p: Policy, s: Signals) {
    s.sessions != 0 && (s.corrections > 0 || s.sessions >= RequiredInterval(p, s.completed, s.churn))
  }

  /** Counting back `n` only reads the last `n`. */
  lemma {:induction false} TrailingReadsTheEnd(churn: seq<real>, kept: seq<real>, threshold: real, n: nat)
    requires |kept| <= |churn| && kept == churn[|churn| - |kept|..]
    requires |kept| >= n || kept == churn
    ensures TrailingLow(kept, threshold, n) == TrailingLow(churn, threshold, n)
    decreases n
  {
    if n != 0 && kept != [] && churn[|churn| - 1] < threshold {
      assert kept[..|kept| - 1] == churn[..|churn| - 1][|churn| - |kept|..];
      TrailingReadsTheEnd(churn[..|churn| - 1], kept[..|kept| - 1], threshold, n - 1);
    }
  }

  /** Trimming the churn history to eight never changes the cadence. */
  lemma TrimKeepsTheInterval(p: Policy, completed: nat, churn: seq<real>)
    ensures RequiredInterval(p, completed, LastOf(churn, CHURN_KEPT)) == RequiredInterval(p, completed, churn)
  {
    TrailingReadsTheEnd(churn, LastOf(churn, CHURN_KEPT), p.threshold, CHURN_READ);
  }

  /** The last `k` churns are low and the one before them, if it is read at all, is not. */
  predicate LowRun(churn: seq<real>, threshold: real, k: nat, n: nat) {
    && k <= n && k <= |churn|
    && (forall i :: |churn| - k <= i < |churn| ==> churn[i] < threshold)
    && (k < n && k < |churn| ==> churn[|churn| - k - 1] >= threshold)
  }

  lemma {:induction false} TrailingLowIs(churn: seq<real>, threshold: real, k: nat, n: nat)
    requires LowRun(churn, threshold, k, n)
    ensures TrailingLow(churn, threshold, n) == k
    decreases n
  {
    if k > 0 {
      var init := churn[..|churn| - 1];
      assert forall i :: 0 <= i < |init| ==> init[i] == churn[i];
      TrailingLowIs(init, threshold, k - 1, n - 1);
    }
  }

  /** Past warm-up the interval doubles with each trailing low churn, to 64 and to the policy's own ceiling. */
  lemma IntervalDoubles(p: Policy, completed: nat, churn: seq<real>, k: nat)
    requires completed >= p.warmup && LowRun(churn, p.threshold, k, CHURN_READ)
    ensures RequiredInterval(p, completed, churn) == Min(DOUBLINGS[Min(k, 6)], p.maxInterval)
  {
    TrailingLowIs(churn, p.threshold, k, CHURN_READ);
    assert Doubled(0) == 1 && Doubled(1) == 2 && Doubled(2) == 4 && Doubled(3) == 8;
    assert Doubled(4) == 16 && Doubled(5) == 32 && Doubled(6) == 64;
  }

  const DOUBLINGS: seq<nat> := [1, 2, 4, 8, 16, 32, 64]

  /** A pass is due once the interval is reached; during warm-up, or after a correction, at the next session; never without one. */
  lemma ReflectsIff(p: Policy, s: Signals)
    ensures s.sessions == 0 ==> !ShouldReflect(p, s)
    ensures s.sessions > 0 && s.corrections > 0 ==> ShouldReflect(p, s)
    ensures s.sessions > 0 && s.completed < p.warmup ==> ShouldReflect(p, s)
    ensures s.corrections == 0 && s.completed >= p.warmup && s.sessions > 0 ==>
              (ShouldReflect(p, s) <==> s.sessions >= RequiredInterval(p, s.completed, s.churn))
  {
  }

  // ---------------------------------------------------------------- the feed

  const EXCERPT_CHARS: nat := 500

  function Excerpt(s: string): string {
    s[..Min(EXCERPT_CHARS, |s|)]
  }

  function Body(s: Session): string {
    if s.summary.Some? && !Blank(s.summary.value) then s.summary.value else Excerpt(s.transcript)
  }

  function Entry(s: Session): string {
    if s.job.Some? then "[" + s.job.value + "] " + Body(s) else Body(s)
  }

  /** A summary with something in it stands for the session; failing that, up to 500 characters of its transcript do. */
  lemma BodyIs(s: Session)
    ensures s.summary.Some? && !Blank(s.summary.value) ==> Body(s) == s.summary.value
    ensures s.summary.None? || Blank(s.summary.value) ==>
              Body(s) <= s.transcript && |Body(s)| == if |s.transcript| < 500 then |s.transcript| else 500
    ensures Entry(s) == (match s.job case Some(name) => "[" + name + "] " case None => "") + Body(s)
  {
    assert "" + Body(s) == Body(s);
  }

  predicate Eligible(s: Session, since: nat) {
    s.Listed() && s.End() >= since
  }

  predicate Newer(a: Session, b: Session) {
    a.End() > b.End() || (a.End() == b.End() && a.id > b.id)
  }

  function InsertRow(s: Session, rows: seq<Session>): seq<Session> {
    if rows == [] || Newer(s, rows[0]) then [s] + rows else [rows[0]] + InsertRow(s, rows[1..])
  }

  /** The eligible rows, newest first. */
  function Ordered(table: seq<Session>, since: nat): seq<Session> {
    if table == [] then []
    else
      var rest := Ordered(table[1..], since);
      if Eligible(table[0], since) then InsertRow(table[0], rest) else rest
  }

  /** What the query returns: the limit counts blank rows too. */
  function Rows(table: seq<Session>, since: nat, limit: nat): seq<Session> {
    var all := Ordered(table, since);
    all[..Min(limit, |all|)]
  }

  /** The rows worth feeding, oldest first. */
  function Feedable(rows: seq<Session>): seq<Session> {
    if rows == [] then []
    else Feedable(rows[1..]) + (if Blank(Body(rows[0])) then [] else [rows[0]])
  }

  function Texts(rows: seq<Session>): seq<string> {
    if rows == [] then [] else [Entry(rows[0])] + Texts(rows[1..])
  }

  function Feed(table: seq<Session>, since: nat, limit: nat): seq<Session> {
    Feedable(Rows(table, since, limit))
  }

  predicate DistinctIds(table: seq<Session>) {
    forall i, j :: 0 <= i < j < |table| ==> table[i].id != table[j].id
  }

  /** Strictly newest first. */
  predicate NewestFirst(rows: seq<Session>) {
    forall i, j :: 0 <= i < j < |rows| ==> Newer(rows[i], rows[j])
  }

  lemma {:induction false} InsertKeepsOrder(s: Session, rows: seq<Session>)
    requires NewestFirst(rows) && forall t :: t in rows ==> t.id != s.id
    ensures NewestFirst(InsertRow(s, rows))
    ensures forall t :: t in InsertRow(s, rows) <==> t == s || t in rows
    ensures |InsertRow(s, rows)| == |rows| + 1
  {
    if rows != [] && !Newer(s, rows[0]) {
      InsertKeepsOrder(s, rows[1..]);
      assert rows == [rows[0]] + rows[1..];
      assert forall t :: t in InsertRow(s, rows[1..]) ==> Newer(rows[0], t);
    }
  }

  lemma {:induction false} OrderedIsSorted(table: seq<Session>, since: nat)
    requires DistinctIds(table)
    ensures NewestFirst(Ordered(table, since))
    ensures forall t :: t in Ordered(table, since) <==> t in table && Eligible(t, since)
  {
    if table != [] {
      OrderedIsSorted(table[1..], since);
      assert table == [table[0]] + table[1..];
      if Eligible(table[0], since) {
        InsertKeepsOrder(table[0], Ordered(table[1..], since));
      }
    }
  }

  /** The eligible rows newer than `s`. */
  function NewerRows(table: seq<Session>, since: nat, s: Session): set<Session> {
    set t | t in table && !t.deleted && t.endedAt.Some? && t.End() >= since && (t.End() > s.End() || (t.End() == s.End() && t.id > s.id))
  }

  lemma {:induction false} DistinctCount(rows: seq<Session>)
    requires NewestFirst(rows)
    ensures |set t | t in rows| == |rows|
  {
    if rows != [] {
      var init := rows[..|rows| - 1];
      DistinctCount(init);
      assert rows == init + [rows[|rows| - 1]];
      assert (set t | t in rows) == (set t | t in init) + {rows[|rows| - 1]};
    }
  }

  /** The query returns exactly the eligible rows with fewer than `limit` newer ones. */
  lemma RowsAreTheNewest(table: seq<Session>, since: nat, limit: nat, s: Session)
    requires DistinctIds(table)
    ensures s in Rows(table, since, limit)
            <==> && s in table && !s.deleted && s.endedAt.Some? && s.endedAt.value >= since
                 && |NewerRows(table, since, s)| < limit
  {
    OrderedIsSorted(table, since);
    var all := Ordered(table, since);
    if s in all {
      var k :| 0 <= k < |all| && all[k] == s;
      assert forall t :: t in all[..k] <==> t in all && Newer(t, s);
      DistinctCount(all[..k]);
      assert NewerRows(table, since, s) == (set t | t in all[..k]);
      if s in all[..Min(limit, |all|)] {
        var j :| 0 <= j < Min(limit, |all|) && all[j] == s;
      }
    }
  }

  lemma {:induction false} FeedableRows(rows: seq<Session>)
    ensures forall s :: s in Feedable(rows) <==> s in rows && !Blank(Body(s))
    ensures |Feedable(rows)| <= |rows|
  {
    if rows != [] {
      FeedableRows(rows[1..]);
      assert rows == [rows[0]] + rows[1..];
    }
  }

  /** A session is fed iff it is eligible, not blank, and outranked by fewer than `limit` eligible ones. */
  lemma FedIff(table: seq<Session>, since: nat, limit: nat, s: Session)
    requires DistinctIds(table)
    ensures s in Feed(table, since, limit)
            <==> && s in table && !s.deleted && s.endedAt.Some? && s.endedAt.value >= since
                 && !Blank(Body(s)) && |NewerRows(table, since, s)| < limit
    ensures |Feed(table, since, limit)| <= limit
  {
    RowsAreTheNewest(table, since, limit, s);
    FeedableRows(Rows(table, since, limit));
  }

  predicate OldestFirst(rows: seq<Session>) {
    forall i, j :: 0 <= i < j < |rows| ==> Newer(rows[j], rows[i])
  }

  lemma {:induction false} FeedableIsOldestFirst(rows: seq<Session>)
    requires NewestFirst(rows)
    ensures OldestFirst(Feedable(rows))
  {
    hide Newer, Body, Blank;
    if rows != [] {
      var rest := Feedable(rows[1..]);
      FeedableIsOldestFirst(rows[1..]);
      FeedableRows(rows[1..]);
      forall i | 0 <= i < |rest|
        ensures Newer(rows[0], rest[i])
      {
        assert rest[i] in rest;
        var k :| 0 <= k < |rows[1..]| && rows[1..][k] == rest[i];
      }
    }
  }

  /** The feed runs from the oldest session to the newest. */
  lemma FeedIsOldestFirst(table: seq<Session>, since: nat, limit: nat)
    requires DistinctIds(table)
    ensures OldestFirst(Feed(table, since, limit))
  {
    OrderedIsSorted(table, since);
    assert NewestFirst(Rows(table, since, limit));
    FeedableIsOldestFirst(Rows(table, since, limit));
  }

  // ---------------------------------------------------------------- the store

  datatype Db = Db(table: seq<Session>, signals: Signals, lastReflected: nat)

  function Stamped(db: Db, churn: real, now: nat): Db {
    db.(signals := Reflected(db.signals, churn), lastReflected := now)
  }

  function Counted(s: Signals): Signals {
    s.(sessions := s.sessions + 1)
  }

  function Corrected(s: Signals): Signals {
    s.(corrections := s.corrections + 1)
  }

  predicate CanEnd(db: Db, row: nat) {
    row < |db.table| && !db.table[row].deleted && db.table[row].status.Recording?
  }

  function Ended(db: Db, row: nat, now: nat): Db
    requires row < |db.table|
  {
    var s := db.table[row].(status := AwaitingProcessing, endedAt := Some(now));
    db.(table := db.table[row := s], signals := Counted(db.signals))
  }

  /** The gates of `maybe_reflect`: what a pass would be fed, if one is due. */
  function Due(p: Policy, limit: nat, db: Db): Option<seq<Session>> {
    var feed := Feed(db.table, db.lastReflected, limit);
    if !ShouldReflect(p, db.signals) || feed == [] then None else Some(feed)
  }

  lemma {:induction false} TextsOfAppended(a: seq<Session>, b: seq<Session>)
    ensures Texts(a + b) == Texts(a) + Texts(b)
    ensures |Texts(a)| == |a|
  {
    hide Entry;
    if a == [] {
      assert a + b == b;
    } else {
      TextsOfAppended(a[1..], b);
      assert (a + b)[1..] == a[1..] + b;
    }
  }

  /** One entry for each session fed, in the same order. */
  lemma {:induction false} TextsAreEntries(rows: seq<Session>)
    ensures |Texts(rows)| == |rows| && forall i :: 0 <= i < |rows| ==> Texts(rows)[i] == Entry(rows[i])
  {
    hide Entry;
    if rows != [] {
      TextsAreEntries(rows[1..]);
      assert forall i :: 0 < i < |rows| ==> Texts(rows)[i] == Texts(rows[1..])[i - 1];
    }
  }

  /** One row of the loop: its entry goes before the newer ones. */
  lemma FeedStep(rows: seq<Session>, n: nat)
    requires n < |rows|
    ensures Texts(Feedable(rows[n..]))
            == Texts(Feedable(rows[n + 1..])) + (if Blank(Body(rows[n])) then [] else [Entry(rows[n])])
  {
    hide Blank, Body, Entry;
    assert rows[n..][1..] == rows[n + 1..];
    TextsOfAppended(Feedable(rows[n + 1..]), [rows[n]]);
    if Blank(Body(rows[n])) {
      assert Feedable(rows[n..]) == Feedable(rows[n + 1..]);
    } else {
      assert Texts([rows[n]]) == [Entry(rows[n])];
    }
  }

  function Reversed(s: seq<string>): seq<string> {
    if s == [] then [] else Reversed(s[1..]) + [s[0]]
  }

  lemma {:induction false} ReversedOfAppended(s: seq<string>, t: string)
    ensures Reversed(s + [t]) == [t] + Reversed(s)
  {
    if s == [] {
      assert s + [t] == [t];
    } else {
      ReversedOfAppended(s[1..], t);
      assert (s + [t])[1..] == s[1..] + [t];
    }
  }

  lemma NothingFed()
    ensures Texts(Feedable([])) == Reversed([]) == []
  {
  }

  datatype CoreError = NotFound | InvalidState | SaveFailed | EngineFailed | StoreFailed

  class Store {
    var table: seq<Session>
    var signals: Signals
    var lastReflected: nat

    function Abs(): Db
      reads this
    {
      Db(table, signals, lastReflected)
    }

    constructor ()
      ensures Abs() == Db([], NO_SIGNALS, 0)
    {
      table, signals, lastReflected := [], NO_SIGNALS, 0;
    }

    method RecordSessionCompleted()
      modifies this`signals
      ensures signals == Counted(old(signals))
    {
      signals := signals.(sessions := signals.sessions + 1);
    }

    method RecordCorrection()
      modifies this`signals
      ensures signals == Corrected(old(signals))
    {
      signals := signals.(corrections := signals.corrections + 1);
    }

    method EndAndRecordSession(row: nat, now: nat) returns (r: Result<(), CoreError>)
      modifies this
      ensures r.Ok? <==> CanEnd(old(Abs()), row)
      ensures Abs() == if CanEnd(old(Abs()), row) then Ended(old(Abs()), row, now) else old(Abs())
    {
      if row >= |table| || table[row].deleted {
        return Err(NotFound);
      }
      if table[row].status != Recording {
        return Err(InvalidState);
      }
      table := table[row := table[row].(status := AwaitingProcessing, endedAt := Some(now))];
      RecordSessionCompleted();
      r := Ok(());
    }

    /** The rows arrive newest first; the entries are reversed at the end. */
    method ActivityForReflection(limit: nat) returns (entries: seq<string>)
      ensures entries == Texts(Feed(table, lastReflected, limit))
    {
      hide Rows, Blank, Excerpt, Feedable, Texts, Reversed;
      NothingFed();
      var rows := Rows(table, lastReflected, limit);
      entries := [];
      var n := 0;
      assert rows[n..] == rows;
      while n < |rows|
        invariant n <= |rows|
        invariant rows == Rows(table, lastReflected, limit)
        invariant Texts(Feedable(rows)) == Texts(Feedable(rows[n..])) + Reversed(entries)
      {
        var s := rows[n];
        var body := if s.summary.Some? && !Blank(s.summary.value) then s.summary.value else Excerpt(s.transcript);
        FeedStep(rows, n);
        if !Blank(body) {
          var entry := match s.job case Some(name) => "[" + name + "] " + body case None => body;
          ReversedOfAppended(entries, entry);
          entries := entries + [entry];
        }
        n := n + 1;
      }
      assert rows[n..] == [];
      entries := Reversed(entries);
    }

    method RecordReflection(churn: real, now: nat)
      modifies this`signals, this`lastReflected
      ensures Abs() == Stamped(old(Abs()), churn, now)
    {
      var kept := signals.churn + [churn];
      if |kept| > CHURN_KEPT {
        var excess := |kept| - CHURN_KEPT;
        kept := kept[excess..];
      }
      signals := Signals(0, 0, signals.completed + 1, kept);
      lastReflected := now;
    }
  }

  type Memory = string

  /** `maybe_reflect`, split where it awaits the model: `Begin` before, `Conclude` after. */
  class Coordinator {
    const store: Store
    const policy: Policy
    const limit: nat
    var memory: Memory
    var disk: Memory

    constructor (store: Store, policy: Policy, limit: nat, memory: Memory)
      ensures this.store == store && this.policy == policy && this.limit == limit
      ensures this.memory == memory && this.disk == memory
    {
      this.store, this.policy, this.limit, this.memory, this.disk := store, policy, limit, memory, memory;
    }

    /** The gates, then the save of the current memory as a rollback point. */
    method Begin(snapshotSaves: bool) returns (r: Result<Option<seq<string>>, CoreError>)
      modifies this`disk
      ensures var due := Due(policy, limit, store.Abs());
              && (due.None? ==> r == Ok(None) && disk == old(disk))
              && (due.Some? && snapshotSaves ==> r == Ok(Some(Texts(due.value))) && disk == memory)
              && (due.Some? && !snapshotSaves ==> r == Err(SaveFailed) && disk == old(disk))
    {
      if !ShouldReflect(policy, store.signals) {
        return Ok(None);
      }
      var activity := store.ActivityForReflection(limit);
      TextsOfAppended(Feed(store.table, store.lastReflected, limit), []);
      if activity == [] {
        return Ok(None);
      }
      if !snapshotSaves {
        return Err(SaveFailed);
      }
      disk := memory;
      r := Ok(Some(activity));
    }

    /** Only a pass that ends with everything saved is stamped; a stamp that fails is rolled back. */
    method Conclude(outcome: Option<(Memory, real)>, memorySaves: bool, stampSaves: bool, now: nat)
      returns (r: Result<real, CoreError>)
      modifies this, store
      ensures r == if outcome.None? then Err(EngineFailed)
                   else if !memorySaves then Err(SaveFailed)
                   else if !stampSaves then Err(StoreFailed)
                   else Ok(outcome.value.1)
      ensures store.Abs() == if r.Ok? then Stamped(old(store.Abs()), r.value, now) else old(store.Abs())
      ensures memory == if outcome.Some? then outcome.value.0 else old(memory)
      ensures disk == if outcome.Some? && memorySaves then memory else old(disk)
    {
      if outcome.None? {
        return Err(EngineFailed);
      }
      memory := outcome.value.0;
      if !memorySaves {
        return Err(SaveFailed);
      }
      disk := memory;
      if !stampSaves {
        return Err(StoreFailed);
      }
      store.RecordReflection(outcome.value.1, now);
      r := Ok(outcome.value.1);
    }
  }
}
