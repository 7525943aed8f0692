/** What holds over every run of the attestation handlers. */
module AttestHistory {
  import opened Outcomes
  import opened Attestation

  datatype Event =
    | Issued(c: Challenge, install: Install)
    | Spent(c: Challenge, install: Install)
    | Enrolled(k: KeyId, install: Install, c: Challenge, attestation: string, spki: string, curve: string)
    | Asserted(k: KeyId, install: Install, c: Challenge, assertion: string, counter: nat, token: Token)

  /** The store, and what has happened so far. */
  datatype World = World(store: Store, events: seq<Event>)

  const EMPTY: World := World(Store(map[], map[]), [])

  datatype Step =
    | Issue(install: Install, c: Challenge)
    | Attest(install: Install, k: KeyId, c: Challenge, attestation: string)
    | Assert(install: Install, k: KeyId, c: Challenge, assertion: string, now: nat)
    | ExpireChallenge(c: Challenge)
    | ExpireKey(k: KeyId)

  /** Thirty-two random bytes never repeat. */
  predicate Enabled(w: World, step: Step) {
    step.Issue? ==> forall i :: 0 <= i < |w.events| && w.events[i].Issued? ==> w.events[i].c != step.c
  }

  /** What a handler did to a challenge it was given: spent it or left it. */
  function SpentEvents(s: Store, k: KeyId, c: Challenge, install: Install): seq<Event> {
    if Inadmissible(k, c).None? && s.Owns(c, install) then [Spent(c, install)] else []
  }

  function Apply(crypto: Crypto, w: World, step: Step): World {
    match step
    case Issue(install, c) =>
      World(w.store.(challenges := w.store.challenges[c := install]), w.events + [Issued(c, install)])
    case Attest(install, k, c, attestation) =>
      var (s, r) := AttestStep(crypto, w.store, install, k, c, attestation);
      World(s, w.events + SpentEvents(w.store, k, c, install)
               + (if r.Ok? then [Enrolled(k, install, c, attestation, s.keys[k].spki, s.keys[k].curve)] else []))
    case Assert(install, k, c, assertion, now) =>
      var (s, r) := AssertStep(crypto, w.store, install, k, c, assertion, now);
      World(s, w.events + SpentEvents(w.store, k, c, install)
               + (if r.Ok? then [Asserted(k, install, c, assertion, s.keys[k].counter, r.value)] else []))
    case ExpireChallenge(c) => w.(store := w.store.Claimed(c))
    case ExpireKey(k) => w.(store := w.store.(keys := w.store.keys - {k}))
  }

  predicate Legal(crypto: Crypto, w: World, steps: seq<Step>)
    decreases steps
  {
    steps == [] || (Enabled(w, steps[0]) && Legal(crypto, Apply(crypto, w, steps[0]), steps[1..]))
  }

  function Exec(crypto: Crypto, w: World, steps: seq<Step>): World
    decreases steps
  {
    if steps == [] then w else Exec(crypto, Apply(crypto, w, steps[0]), steps[1..])
  }

  // ---------------------------------------------------------------- invariants

  /** How a key stands: whose latest enrolment it has, with what public key, and the last counter. */
  datatype Standing = Standing(install: Install, spki: string, curve: string, counter: nat)

  function Latest(events: seq<Event>, k: KeyId): Option<Standing> {
    if events == [] then None
    else After(events[|events| - 1], k, Latest(events[..|events| - 1], k))
  }

  function After(e: Event, k: KeyId, was: Option<Standing>): Option<Standing> {
    match e
    case Enrolled(k1, install, _, _, spki, curve) => if k1 == k then Some(Standing(install, spki, curve, 0)) else was
    case Asserted(k1, _, _, _, n, _) => if k1 == k && was.Some? then Some(was.value.(counter := n)) else was
    case _ => was
  }

  /** The assertion opens, is signed under this public key over the challenge, is for this app, and carries `n`. */
  predicate Verified(crypto: Crypto, spki: string, curve: string, assertion: string, c: Challenge, n: nat) {
    && crypto.opens(assertion).Ok?
    && crypto.signs(spki, curve, crypto.opens(assertion).value, c)
    && crypto.parses(crypto.opens(assertion).value.authData) == Ok(AuthData(true, n))
  }

  predicate EndsWithSpent(events: seq<Event>, c: Challenge, install: Install) {
    events != [] && events[|events| - 1] == Spent(c, install)
  }

  /** A challenge was spent. */
  predicate IsSpent(events: seq<Event>, c: Challenge) {
    exists i :: 0 <= i < |events| && events[i].Spent? && events[i].c == c
  }

  predicate WasIssued(events: seq<Event>, c: Challenge, install: Install) {
    Issued(c, install) in events
  }

  /**
   * Event by event: challenges are spent once, by their install; a key is enrolled by an
   * attestation accepted on the challenge just spent; an assertion verifies under the
   * enrolled public key over the challenge just spent, its counter rises, its token names it.
   */
  ghost predicate GoodHistory(crypto: Crypto, events: seq<Event>) {
    events == []
    || (var before, last := events[..|events| - 1], events[|events| - 1];
        GoodHistory(crypto, before) && GoodEvent(crypto, before, last))
  }

  ghost predicate GoodEvent(crypto: Crypto, before: seq<Event>, last: Event) {
    match last
    case Issued(c, _) => forall i :: 0 <= i < |before| && before[i].Issued? ==> before[i].c != c
    case Spent(c, install) => !IsSpent(before, c) && WasIssued(before, c, install)
    case Enrolled(k, install, c, attestation, spki, curve) =>
      EndsWithSpent(before, c, install) && crypto.attests(attestation, k, c) == Ok((spki, curve))
    case Asserted(k, install, c, assertion, n, token) =>
      && EndsWithSpent(before, c, install) && Latest(before, k).Some?
      && var key := Latest(before, k).value;
         && key.install == install && key.counter < n && Verified(crypto, key.spki, key.curve, assertion, c, n)
         && token.i == install && token.k == k
  }

  ghost predicate Inv(crypto: Crypto, w: World) {
    && GoodHistory(crypto, w.events)
    && (forall c :: c in w.store.challenges ==> WasIssued(w.events, c, w.store.challenges[c]) && !IsSpent(w.events, c))
    && (forall k :: k in w.store.keys ==> Latest(w.events, k) == Some(StandingOf(w.store.keys[k])))
  }

  function StandingOf(key: AttestedKey): Standing {
    Standing(key.installId, key.spki, key.curve, key.counter)
  }

  lemma IssuedOnce(events: seq<Event>, e: Event)
    requires e.Spent? || e.Enrolled? || e.Asserted?
    ensures forall c, install :: WasIssued(events, c, install) ==> WasIssued(events + [e], c, install)
    ensures forall c :: IsSpent(events + [e], c) <==> IsSpent(events, c) || (e.Spent? && e.c == c)
  {
    var more := events + [e];
    forall c | IsSpent(events, c) || (e.Spent? && e.c == c)
      ensures IsSpent(more, c)
    {
      if IsSpent(events, c) {
        var i :| 0 <= i < |events| && events[i].Spent? && events[i].c == c;
        assert more[i] == events[i];
      } else {
        assert more[|events|] == e;
      }
    }
  }

  lemma LatestAfter(events: seq<Event>, e: Event, k: KeyId)
    ensures Latest(events + [e], k) == After(e, k, Latest(events, k))
  {
    assert (events + [e])[..|events|] == events;
  }

  /** A spent challenge leaves the store. */
  lemma SpendKeeps(crypto: Crypto, w: World, c: Challenge, install: Install)
    requires Inv(crypto, w) && w.store.Owns(c, install)
    ensures Inv(crypto, World(w.store.Claimed(c), w.events + [Spent(c, install)]))
    ensures EndsWithSpent(w.events + [Spent(c, install)], c, install)
  {
    var e := Spent(c, install);
    IssuedOnce(w.events, e);
    assert (w.events + [e])[..|w.events|] == w.events;
    forall k { LatestAfter(w.events, e, k); }
  }

  lemma EnrolKeeps(crypto: Crypto, w: World, k: KeyId, key: AttestedKey, c: Challenge, attestation: string)
    requires Inv(crypto, w) && key.counter == 0 && EndsWithSpent(w.events, c, key.installId)
    requires crypto.attests(attestation, k, c) == Ok((key.spki, key.curve))
    ensures Inv(crypto, World(w.store.(keys := w.store.keys[k := key]),
                              w.events + [Enrolled(k, key.installId, c, attestation, key.spki, key.curve)]))
  {
    var e := Enrolled(k, key.installId, c, attestation, key.spki, key.curve);
    IssuedOnce(w.events, e);
    assert (w.events + [e])[..|w.events|] == w.events;
    forall k1 { LatestAfter(w.events, e, k1); }
  }

  lemma AssertKeeps(crypto: Crypto, w: World, k: KeyId, c: Challenge, assertion: string, counter: nat, token: Token)
    requires Inv(crypto, w) && k in w.store.keys && w.store.keys[k].counter < counter
    requires EndsWithSpent(w.events, c, w.store.keys[k].installId)
    requires Verified(crypto, w.store.keys[k].spki, w.store.keys[k].curve, assertion, c, counter)
    requires token.i == w.store.keys[k].installId && token.k == k
    ensures Inv(crypto, World(w.store.(keys := w.store.keys[k := w.store.keys[k].(counter := counter)]),
                              w.events + [Asserted(k, token.i, c, assertion, counter, token)]))
  {
    var e := Asserted(k, token.i, c, assertion, counter, token);
    IssuedOnce(w.events, e);
    assert (w.events + [e])[..|w.events|] == w.events;
    forall k1 { LatestAfter(w.events, e, k1); }
    hide Verified, EndsWithSpent;
  }

  lemma IssueKeeps(crypto: Crypto, w: World, install: Install, c: Challenge)
    requires Inv(crypto, w) && Enabled(w, Issue(install, c))
    ensures Inv(crypto, Apply(crypto, w, Issue(install, c)))
  {
    var e := Issued(c, install);
    var more := w.events + [e];
    assert more[..|w.events|] == w.events;
    assert forall c1, i1 :: WasIssued(w.events, c1, i1) ==> WasIssued(more, c1, i1);
    assert e in more;
    SpentWereIssued(crypto, w.events);
    forall k { LatestAfter(w.events, e, k); }
    forall c1 | IsSpent(more, c1)
      ensures IsSpent(w.events, c1) && c1 != c
    {
      var i :| 0 <= i < |more| && more[i].Spent? && more[i].c == c1;
      assert w.events[i] == more[i];
      var j :| 0 <= j < |w.events| && w.events[j].Issued? && w.events[j].c == c1;
    }
  }

  lemma {:induction false} SpentWereIssued(crypto: Crypto, events: seq<Event>)
    requires GoodHistory(crypto, events)
    ensures forall i :: 0 <= i < |events| && events[i].Spent? ==>
              exists j :: 0 <= j < i && events[j] == Issued(events[i].c, events[i].install)
  {
    if events != [] {
      var before, last := events[..|events| - 1], events[|events| - 1];
      SpentWereIssued(crypto, before);
      forall i | 0 <= i < |events| && events[i].Spent?
        ensures exists j :: 0 <= j < i && events[j] == Issued(events[i].c, events[i].install)
      {
        if i < |before| {
          assert before[i] == events[i];
          var j :| 0 <= j < i && before[j] == Issued(before[i].c, before[i].install);
          assert events[j] == before[j];
        } else {
          var j :| 0 <= j < |before| && before[j] == Issued(last.c, last.install);
          assert events[j] == before[j];
        }
      }
    }
  }

  lemma StepKeeps(crypto: Crypto, w: World, step: Step)
    requires Inv(crypto, w) && Enabled(w, step)
    ensures Inv(crypto, Apply(crypto, w, step))
  {
    hide GoodHistory, Latest, IsSpent, WasIssued, IsPlausibleKeyId, Inadmissible;
    match step {
      case Issue(install, c) => IssueKeeps(crypto, w, install, c);
      case Attest(install, k, c, attestation) => AttestKeeps(crypto, w, install, k, c, attestation);
      case Assert(install, k, c, assertion, now) => AssertionKeeps(crypto, w, install, k, c, assertion, now);
      case ExpireChallenge(c) =>
      case ExpireKey(k) =>
    }
  }

  lemma AttestKeeps(crypto: Crypto, w: World, install: Install, k: KeyId, c: Challenge, attestation: string)
    requires Inv(crypto, w)
    ensures Inv(crypto, Apply(crypto, w, Attest(install, k, c, attestation)))
  {
    hide Inv, EndsWithSpent, Inadmissible;
    if Inadmissible(k, c).None? && w.store.Owns(c, install) {
      SpendKeeps(crypto, w, c, install);
      var w1 := World(w.store.Claimed(c), w.events + [Spent(c, install)]);
      var (s, r) := AttestStep(crypto, w.store, install, k, c, attestation);
      if r.Ok? {
        EnrolKeeps(crypto, w1, k, s.keys[k], c, attestation);
      } else {
        assert w1.events + [] == w1.events;
      }
    } else {
      assert w.events + [] + [] == w.events;
    }
  }

  lemma AssertionKeeps(crypto: Crypto, w: World, install: Install, k: KeyId, c: Challenge, assertion: string, now: nat)
    requires Inv(crypto, w)
    ensures Inv(crypto, Apply(crypto, w, Assert(install, k, c, assertion, now)))
  {
    hide Inv, EndsWithSpent, Inadmissible;
    if Inadmissible(k, c).None? && w.store.Owns(c, install) {
      SpendKeeps(crypto, w, c, install);
      var w1 := World(w.store.Claimed(c), w.events + [Spent(c, install)]);
      var (s, r) := AssertStep(crypto, w.store, install, k, c, assertion, now);
      if r.Ok? {
        AssertKeeps(crypto, w1, k, c, assertion, s.keys[k].counter, r.value);
      } else {
        assert w1.events + [] == w1.events;
      }
    } else {
      assert w.events + [] + [] == w.events;
    }
  }

  lemma {:induction false} RunKeeps(crypto: Crypto, w: World, steps: seq<Step>)
    requires Inv(crypto, w) && Legal(crypto, w, steps)
    ensures Inv(crypto, Exec(crypto, w, steps))
    decreases steps
  {
    hide Inv, Apply, Enabled;
    if steps != [] {
      StepKeeps(crypto, w, steps[0]);
      RunKeeps(crypto, Apply(crypto, w, steps[0]), steps[1..]);
    }
  }

  // ---------------------------------------------------------------- main results

  lemma {:induction false} PrefixIsGood(crypto: Crypto, events: seq<Event>, i: nat)
    requires GoodHistory(crypto, events) && i <= |events|
    ensures GoodHistory(crypto, events[..i])
    decreases |events|
  {
    if i < |events| {
      PrefixIsGood(crypto, events[..|events| - 1], i);
      assert events[..|events| - 1][..i] == events[..i];
    } else {
      assert events[..i] == events;
    }
  }

  /** Over every run: a challenge is spent at most once, and only by the install it was issued to. */
  lemma ChallengesAreSpentOnce(crypto: Crypto, steps: seq<Step>)
    requires Legal(crypto, EMPTY, steps)
    ensures var events := Exec(crypto, EMPTY, steps).events;
            && (forall i, j :: 0 <= i < j < |events| && events[i].Spent? && events[j].Spent? ==> events[i].c != events[j].c)
            && (forall i :: 0 <= i < |events| && events[i].Spent? ==>
                  exists j :: 0 <= j < i && events[j] == Issued(events[i].c, events[i].install))
  {
    hide Legal, Exec, IsSpent;
    RunKeeps(crypto, EMPTY, steps);
    SpentWereIssued(crypto, Exec(crypto, EMPTY, steps).events);
    SpentOnce(crypto, Exec(crypto, EMPTY, steps).events);
  }

  lemma {:induction false} SpentOnce(crypto: Crypto, events: seq<Event>)
    requires GoodHistory(crypto, events)
    ensures forall i, j :: 0 <= i < j < |events| && events[i].Spent? && events[j].Spent? ==> events[i].c != events[j].c
  {
    if events != [] {
      var before, last := events[..|events| - 1], events[|events| - 1];
      SpentOnce(crypto, before);
      assert events == before + [last];
    }
  }

  predicate NoEnrolment(events: seq<Event>, k: KeyId, i: nat, j: nat) {
    forall m :: i < m < j && m < |events| && events[m].Enrolled? ==> events[m].k != k
  }

  /** Between enrolments the counter after event `i` only grows. */
  lemma {:induction false} CounterGrows(crypto: Crypto, events: seq<Event>, k: KeyId, i: nat, j: nat)
    requires GoodHistory(crypto, events) && i < j <= |events|
    requires events[i].Asserted? && events[i].k == k && NoEnrolment(events, k, i, j)
    ensures Latest(events[..j], k).Some? && Latest(events[..j], k).value.counter >= events[i].counter
    decreases j
  {
    assert events[..j] == events[..j - 1] + [events[j - 1]];
    LatestAfter(events[..j - 1], events[j - 1], k);
    PrefixIsGood(crypto, events, j);
    assert events[..j][..j - 1] == events[..j - 1] && events[..j][j - 1] == events[j - 1];
    if i < j - 1 {
      CounterGrows(crypto, events, k, i, j - 1);
    }
  }

  /** Over every run: between two enrolments of a key, its accepted counters strictly increase. */
  lemma CountersIncrease(crypto: Crypto, steps: seq<Step>, k: KeyId, i: nat, j: nat)
    requires Legal(crypto, EMPTY, steps)
    requires var events := Exec(crypto, EMPTY, steps).events;
             && i < j < |events| && events[i].Asserted? && events[j].Asserted?
             && events[i].k == k && events[j].k == k && NoEnrolment(events, k, i, j)
    ensures var events := Exec(crypto, EMPTY, steps).events; events[i].counter < events[j].counter
  {
    RunKeeps(crypto, EMPTY, steps);
    var events := Exec(crypto, EMPTY, steps).events;
    CounterGrows(crypto, events, k, i, j);
    PrefixIsGood(crypto, events, j + 1);
    assert events[..j + 1][..j] == events[..j] && events[..j + 1][j] == events[j];
  }

  lemma NothingYet(crypto: Crypto)
    ensures Inv(crypto, EMPTY)
  {
  }

  /** The MAC check: the server minted this token in some assertion. */
  predicate Genuine(events: seq<Event>, token: Token) {
    exists i :: 0 <= i < |events| && events[i].Asserted? && events[i].token == token
  }

  /**
   * Over every run: an accepted token was minted by an assertion of the presenting
   * install, for the key it names; and the latest enrolment of that key is that install's,
   * so once another install enrols the key the old tokens of the first are refused.
   */
  lemma AcceptedTokensAreBound(crypto: Crypto, steps: seq<Step>, token: Token, install: Install, now: nat)
    requires Legal(crypto, EMPTY, steps)
    ensures var w := Exec(crypto, EMPTY, steps);
            var verdict := TokenVerdict(w.store, token, Genuine(w.events, token), install, now);
            verdict.Ok? ==>
              && verdict.value == token.k && now < token.e
              && Latest(w.events, token.k).Some? && Latest(w.events, token.k).value.install == install
              && exists i :: 0 <= i < |w.events| && w.events[i].Asserted? && w.events[i].token == token
                             && w.events[i].install == install && w.events[i].k == token.k
  {
    hide Legal, Exec, IsPlausibleKeyId, GoodHistory, Verified;
    assert Inv(crypto, EMPTY) by { NothingYet(crypto); }
    RunKeeps(crypto, EMPTY, steps);
    var w := Exec(crypto, EMPTY, steps);
    if Genuine(w.events, token) {
      var i :| 0 <= i < |w.events| && w.events[i].Asserted? && w.events[i].token == token;
      GoodAt(crypto, w.events, i);
    }
  }
  // ---------------------------------------------------------------- what was verified

  /** The enrolment a key stands by: its latest. */
  lemma {:induction false} StandsByEnrolment(events: seq<Event>, k: KeyId) returns (j: nat)
    requires Latest(events, k).Some?
    ensures j < |events| && events[j].Enrolled? && events[j].k == k
    ensures forall m :: j < m < |events| && events[m].Enrolled? ==> events[m].k != k
    ensures var key := Latest(events, k).value;
            key.install == events[j].install && key.spki == events[j].spki && key.curve == events[j].curve
  {
    var before, last := events[..|events| - 1], events[|events| - 1];
    if last.Enrolled? && last.k == k {
      j := |before|;
    } else {
      j := StandsByEnrolment(before, k);
      assert forall m :: 0 <= m < |before| ==> events[m] == before[m];
    }
  }

  /**
   * Over every run, whatever was accepted was verified. An accepted assertion opens; it is
   * signed, over the challenge its install had just spent, under the public key of the key's
   * latest enrolment; it is for this app and carries the counter stored. That enrolment's
   * attestation was accepted for the key on the challenge spent there, by the same install.
   */
  lemma AcceptedAssertionsWereVerified(crypto: Crypto, steps: seq<Step>, i: nat) returns (j: nat)
    requires Legal(crypto, EMPTY, steps)
    requires i < |Exec(crypto, EMPTY, steps).events| && Exec(crypto, EMPTY, steps).events[i].Asserted?
    ensures var events := Exec(crypto, EMPTY, steps).events;
            var e := events[i];
            && 0 < i && events[i - 1] == Spent(e.c, e.install)
            && 0 < j < i && events[j].Enrolled? && events[j].k == e.k && events[j].install == e.install
            && (forall m :: j < m < i && events[m].Enrolled? ==> events[m].k != e.k)
            && events[j - 1] == Spent(events[j].c, e.install)
            && crypto.attests(events[j].attestation, e.k, events[j].c) == Ok((events[j].spki, events[j].curve))
            && Verified(crypto, events[j].spki, events[j].curve, e.assertion, e.c, e.counter)
  {
    hide Legal, Exec, Verified;
    RunKeeps(crypto, EMPTY, steps);
    var events := Exec(crypto, EMPTY, steps).events;
    GoodAt(crypto, events, i);
    j := StandsByEnrolment(events[..i], events[i].k);
    GoodAt(crypto, events, j);
    assert events[..i][i - 1] == events[i - 1] && events[..j][j - 1] == events[j - 1];
    assert forall m :: 0 <= m < i ==> events[..i][m] == events[m];
  }

  lemma GoodAt(crypto: Crypto, events: seq<Event>, i: nat)
    requires GoodHistory(crypto, events) && i < |events|
    ensures GoodEvent(crypto, events[..i], events[i])
  {
    PrefixIsGood(crypto, events, i + 1);
    assert events[..i + 1][..i] == events[..i] && events[..i + 1][i] == events[i];
  }

  // ---------------------------------------------------------------- exactly what is accepted

  /** An assertion is accepted exactly when its challenge is the install's, its key is too, and it verifies with a higher counter. */
  lemma AssertionAcceptedIff(
    crypto: Crypto, s: Store, install: Install, k: KeyId, c: Challenge, assertion: string, now: nat, n: nat)
    ensures var (s2, r) := AssertStep(crypto, s, install, k, c, assertion, now);
            (r.Ok? && s2.keys[k].counter == n)
            <==> && k != "" && c != "" && assertion != "" && IsPlausibleKeyId(k)
                 && c in s.challenges && s.challenges[c] == install
                 && k in s.keys && s.keys[k].installId == install && s.keys[k].counter < n
                 && Verified(crypto, s.keys[k].spki, s.keys[k].curve, assertion, c, n)
    ensures var (s2, r) := AssertStep(crypto, s, install, k, c, assertion, now);
            r.Ok? ==> && r.value == Token(install, k, now + TOKEN_TTL_SECONDS)
                      && s2.challenges == s.challenges - {c}
                      && s2.keys == s.keys[k := s.keys[k].(counter := s2.keys[k].counter)]
    ensures var (s2, r) := AssertStep(crypto, s, install, k, c, assertion, now);
            r.Err? ==> s2.keys == s.keys
  {
    hide IsPlausibleKeyId;
  }

  /** An attestation is accepted exactly when its challenge is the install's and it verifies; nothing else enrols a key. */
  lemma AttestationAcceptedIff(crypto: Crypto, s: Store, install: Install, k: KeyId, c: Challenge, attestation: string)
    ensures var (s2, r) := AttestStep(crypto, s, install, k, c, attestation);
            r.Ok? <==> && k != "" && c != "" && attestation != "" && IsPlausibleKeyId(k)
                       && c in s.challenges && s.challenges[c] == install
                       && crypto.attests(attestation, k, c).Ok?
    ensures var (s2, r) := AttestStep(crypto, s, install, k, c, attestation);
            if r.Ok? then
              var (spki, curve) := crypto.attests(attestation, k, c).value;
              s2 == Store(s.challenges - {c}, s.keys[k := AttestedKey(spki, curve, 0, install)])
            else s2.keys == s.keys
  {
    hide IsPlausibleKeyId;
  }

  /** A token is accepted exactly when it is genuine, unexpired, this install's, and its key is enrolled by this install. */
  lemma TokenAcceptedIff(s: Store, token: Token, genuine: bool, install: Install, now: nat)
    ensures TokenVerdict(s, token, genuine, install, now).Ok?
            <==> && genuine && now < token.e && token.i == install && IsPlausibleKeyId(token.k)
                 && token.k in s.keys && s.keys[token.k].installId == install
  {
    hide IsPlausibleKeyId;
  }
}
