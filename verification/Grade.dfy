/**
 * Grading a scenario (crates/evals/src/grade.rs): same-kind greedy matching, counts
 * overall and per kind, F-scores, and first-fit contact matching. Ratios are exact.
 */
module Grading {
  import opened Outcomes
  import opened Matching

  datatype Item = Item(kind: string, tokens: set<string>)

  datatype Contact = Contact(name: set<string>, trade: Option<set<string>>)

  const MATCH_THRESHOLD: real := 0.5

  const BETA_SQ: real := 0.25

  /** Dice coefficient of two token sets; empty against empty is zero. */
  function Dice(a: set<string>, b: set<string>): (d: real)
    ensures 0.0 <= d <= 1.0
  {
    var total := |a| + |b|;
    if total == 0 then 0.0
    else
      IntersectionIsSmall(a, b);
      FractionBounds(2 * |a * b|, total);
      (2 * |a * b|) as real / total as real
  }

  lemma FractionBounds(num: nat, den: nat)
    requires num <= den && den > 0
    ensures 0.0 <= num as real / den as real <= 1.0
    ensures num as real / den as real == 1.0 <==> num == den
  {
    QuotientBounds(num as real, den as real);
  }

  lemma QuotientBounds(n: real, d: real)
    requires 0.0 <= n <= d && d > 0.0
    ensures 0.0 <= n / d <= 1.0
    ensures n / d == 1.0 <==> n == d
  {
    var q := n / d;
    assert q * d == n;
    LessOne(q, d);
    SignOfProduct(q, d);
    SignOfProduct(q - 1.0, d);
  }

  lemma LessOne(q: real, d: real)
    ensures (q - 1.0) * d == q * d - d
  {
  }

  lemma SignOfProduct(x: real, d: real)
    requires d > 0.0
    ensures x < 0.0 ==> x * d < 0.0
    ensures x > 0.0 ==> x * d > 0.0
  {
  }

  /** At least half of the combined tokens shared: twice the common ones, counted against both sets together. */
  predicate SharesHalf(a: set<string>, b: set<string>) {
    0 < |a| + |b| <= 4 * |a * b|
  }

  /** What the coefficient is: twice the common tokens over all of both. */
  lemma DiceIs(a: set<string>, b: set<string>)
    ensures Dice(a, b) * ((|a| + |b|) as real) == if |a| + |b| == 0 then 0.0 else (2 * |a * b|) as real
  {
    if |a| + |b| > 0 {
      QuotientTimes((2 * |a * b|) as real, (|a| + |b|) as real);
    }
  }

  lemma QuotientTimes(n: real, d: real)
    requires d > 0.0
    ensures n / d * d == n
  {
  }

  /** The threshold in whole tokens. */
  lemma DiceHitsIff(a: set<string>, b: set<string>)
    ensures Dice(a, b) >= MATCH_THRESHOLD <==> SharesHalf(a, b)
  {
    DiceIs(a, b);
    if |a| + |b| > 0 {
      HalfOf(Dice(a, b), |a| + |b|, 2 * |a * b|);
    }
  }

  lemma HalfOf(q: real, d: nat, n: nat)
    requires d > 0 && q * d as real == n as real
    ensures q >= 0.5 <==> d <= 2 * n
  {
    var r := d as real;
    SignOfProduct(q - 0.5, r);
    assert (q - 0.5) * r == q * r - 0.5 * r;
    assert (2 * n) as real == 2.0 * n as real;
  }

  /** It is one exactly on equal sets with something in them. */
  lemma DiceIsOneIff(a: set<string>, b: set<string>)
    ensures Dice(a, b) == 1.0 <==> a == b && a != {}
  {
    if |a| + |b| > 0 {
      hide Dice;
      DiceIs(a, b);
      var d := (|a| + |b|) as real;
      SignOfProduct(Dice(a, b) - 1.0, d);
      LessOne(Dice(a, b), d);
      SameSizeAsCommon(a, b);
    }
  }

  lemma SameSizeAsCommon(a: set<string>, b: set<string>)
    ensures 2 * |a * b| == |a| + |b| <==> a == b
  {
    assert a == a * b + (a - b) && b == a * b + (b - a);
    if a == b {
      assert a * b == a;
    }
  }

  lemma DiceSymmetric(a: set<string>, b: set<string>)
    ensures Dice(a, b) == Dice(b, a)
  {
    assert a * b == b * a;
  }

  lemma IntersectionIsSmall(a: set<string>, b: set<string>)
    ensures 2 * |a * b| <= |a| + |b|
  {
    assert a == a * b + (a - b) && b == a * b + (b - a);
  }

  // ---------------------------------------------------------------- candidates

  /** Same kind, and at least half the combined tokens shared. */
  predicate Admissible(exp: seq<Item>, obs: seq<Item>, p: Pair) {
    && p.e < |exp| && p.o < |obs|
    && exp[p.e].kind == obs[p.o].kind
    && p.d == Dice(exp[p.e].tokens, obs[p.o].tokens)
    && p.d >= MATCH_THRESHOLD
  }

  /** A contact's trade matters only when one is expected. */
  predicate TradeOk(ec: Contact, oc: Contact) {
    match ec.trade
    case None => true
    case Some(et) => oc.trade.Some? && Dice(et, oc.trade.value) >= MATCH_THRESHOLD
  }

  predicate ContactOk(ec: Contact, oc: Contact) {
    Dice(ec.name, oc.name) >= MATCH_THRESHOLD && TradeOk(ec, oc)
  }

  /** Names that share half, and, when a trade is expected, a trade that does too. */
  lemma ContactOkIff(ec: Contact, oc: Contact)
    ensures ContactOk(ec, oc)
            <==> && SharesHalf(ec.name, oc.name)
                 && (ec.trade.Some? ==> oc.trade.Some? && SharesHalf(ec.trade.value, oc.trade.value))
  {
    hide Dice, SharesHalf;
    DiceHitsIff(ec.name, oc.name);
    if ec.trade.Some? && oc.trade.Some? {
      DiceHitsIff(ec.trade.value, oc.trade.value);
    }
  }

  method Candidates(exp: seq<Item>, obs: seq<Item>) returns (pairs: seq<Pair>)
    ensures forall p :: p in pairs <==> Admissible(exp, obs, p)
    ensures forall e: nat, o: nat :: e < |exp| && o < |obs| ==>
              (Pair(e, o, Dice(exp[e].tokens, obs[o].tokens)) in pairs
               <==> exp[e].kind == obs[o].kind && SharesHalf(exp[e].tokens, obs[o].tokens))
  {
    hide Dice, SharesHalf;
    forall a, b { DiceHitsIff(a, b); }
    pairs := [];
    for ei := 0 to |exp|
      invariant forall p :: p in pairs <==> Admissible(exp, obs, p) && p.e < ei
    {
      for oi := 0 to |obs|
        invariant forall p :: p in pairs <==> Admissible(exp, obs, p) && (p.e < ei || (p.e == ei && p.o < oi))
      {
        if exp[ei].kind == obs[oi].kind {
          var d := Dice(exp[ei].tokens, obs[oi].tokens);
          if d >= MATCH_THRESHOLD {
            pairs := pairs + [Pair(ei, oi, d)];
          }
        }
      }
    }
  }

  // ---------------------------------------------------------------- the marking pass

  ghost function Ends(m: seq<Pair>, left: bool): set<nat> {
    set p | p in m :: Key(left, p)
  }

  lemma EndsSnoc(m: seq<Pair>, p: Pair, left: bool)
    ensures Ends(m + [p], left) == Ends(m, left) + {Key(left, p)}
  {
  }

  /** Taking pair `i` of the list, in terms of what the rest of the pass will pick. */
  lemma TakePair(ps: seq<Pair>, i: nat, picks: seq<Pair>, usedE: set<nat>, usedO: set<nat>)
    requires i < |ps| && ps[i].e !in usedE && ps[i].o !in usedO
    requires usedE == Ends(picks, true) && usedO == Ends(picks, false)
    ensures picks + Greedy(ps[i..], usedE, usedO)
            == (picks + [ps[i]]) + Greedy(ps[i + 1..], usedE + {ps[i].e}, usedO + {ps[i].o})
    ensures usedE + {ps[i].e} == Ends(picks + [ps[i]], true) && usedO + {ps[i].o} == Ends(picks + [ps[i]], false)
  {
    EndsSnoc(picks, ps[i], true);
    EndsSnoc(picks, ps[i], false);
    assert ps[i..][1..] == ps[i + 1..];
  }

  lemma SkipPair(ps: seq<Pair>, i: nat, usedE: set<nat>, usedO: set<nat>)
    requires i < |ps| && (ps[i].e in usedE || ps[i].o in usedO)
    ensures Greedy(ps[i..], usedE, usedO) == Greedy(ps[i + 1..], usedE, usedO)
  {
    assert ps[i..][1..] == ps[i + 1..];
  }

  lemma GreedyNothing()
    ensures forall usedE, usedO :: Greedy([], usedE, usedO) == []
  {
  }

  /** Marks both ends of each pair taken; what is marked is what the greedy pass picks. */
  method MarkGreedy(pairs: seq<Pair>, nE: nat, nO: nat) returns (expUsed: array<bool>, obsUsed: array<bool>)
    requires forall p :: p in pairs ==> p.e < nE && p.o < nO
    ensures fresh(expUsed) && fresh(obsUsed) && expUsed.Length == nE && obsUsed.Length == nO
    ensures forall e: nat :: e < nE ==> (expUsed[e] <==> e in Ends(Greedy(pairs, {}, {}), true))
    ensures forall o: nat :: o < nO ==> (obsUsed[o] <==> o in Ends(Greedy(pairs, {}, {}), false))
  {
    expUsed := new bool[nE](i => false);
    obsUsed := new bool[nO](i => false);
    ghost var picks: seq<Pair> := [];
    ghost var usedE: set<nat>, usedO: set<nat> := {}, {};
    assert Ends(picks, true) == {} && Ends(picks, false) == {};
    GreedyNothing();
    hide Greedy, Ends;
    for i := 0 to |pairs|
      invariant expUsed != obsUsed && expUsed.Length == nE && obsUsed.Length == nO
      invariant forall e: nat :: e < nE ==> (expUsed[e] <==> e in usedE)
      invariant forall o: nat :: o < nO ==> (obsUsed[o] <==> o in usedO)
      invariant usedE == Ends(picks, true) && usedO == Ends(picks, false)
      invariant Greedy(pairs, {}, {}) == picks + Greedy(pairs[i..], usedE, usedO)
    {
      var p := pairs[i];
      assert p in pairs;
      if !expUsed[p.e] && !obsUsed[p.o] {
        TakePair(pairs, i, picks, usedE, usedO);
        expUsed[p.e] := true;
        obsUsed[p.o] := true;
        usedE, usedO, picks := usedE + {p.e}, usedO + {p.o}, picks + [p];
      } else {
        SkipPair(pairs, i, usedE, usedO);
      }
    }
    assert pairs[|pairs|..] == [] && picks + [] == picks;
  }

  // ---------------------------------------------------------------- counts

  /** Items `i` with this mark, of this kind (any kind when `None`). */
  ghost function Marked(items: seq<Item>, used: seq<bool>, mark: bool, kind: Option<string>): set<nat>
    requires |used| == |items|
  {
    set i: nat | i < |items| && used[i] == mark && (kind.None? || items[i].kind == kind.value)
  }

  method CountMarked(items: seq<Item>, used: array<bool>, mark: bool, kind: Option<string>) returns (n: nat)
    requires used.Length == |items|
    ensures n == |Marked(items, used[..], mark, kind)|
  {
    n := 0;
    ghost var seen: set<nat> := {};
    for i := 0 to |items|
      invariant n == |seen|
      invariant forall j: nat :: j in seen <==> j < i && j in Marked(items, used[..], mark, kind)
    {
      if used[i] == mark && (kind.None? || items[i].kind == kind.value) {
        n := n + 1;
        seen := seen + {i};
      }
    }
    assert seen == Marked(items, used[..], mark, kind);
  }

  lemma {:induction false} EndsCount(m: seq<Pair>, left: bool)
    requires DistinctKeys(m, left)
    ensures |Ends(m, left)| == |m|
  {
    if m != [] {
      var front, last := m[..|m| - 1], m[|m| - 1];
      EndsCount(front, left);
      assert m == front + [last];
      EndsSnoc(front, last, left);
    }
  }

  /** The picks whose pairs are of one kind. */
  function OfKind(m: seq<Pair>, exp: seq<Item>, kind: string): (r: seq<Pair>)
    requires forall p :: p in m ==> p.e < |exp|
    ensures forall p :: p in r <==> p in m && exp[p.e].kind == kind
  {
    if m == [] then []
    else
      var rest := OfKind(m[..|m| - 1], exp, kind);
      if exp[m[|m| - 1].e].kind == kind then rest + [m[|m| - 1]] else rest
  }

  lemma {:induction false} OfKindDistinct(m: seq<Pair>, exp: seq<Item>, kind: string, left: bool)
    requires forall p :: p in m ==> p.e < |exp|
    requires DistinctKeys(m, left)
    ensures DistinctKeys(OfKind(m, exp, kind), left)
  {
    if m != [] {
      OfKindDistinct(m[..|m| - 1], exp, kind, left);
      var rest := OfKind(m[..|m| - 1], exp, kind);
      forall i | 0 <= i < |rest|
        ensures Key(left, rest[i]) != Key(left, m[|m| - 1])
      {
        assert rest[i] in rest;
      }
    }
  }

  datatype Counts = Counts(tp: nat, fp: nat, fn_: nat)

  /** The pairs that get matched. */
  function Picks(sorted: seq<Pair>): seq<Pair> {
    Greedy(sorted, {}, {})
  }

  /** What the used marks mean, on either side. */
  ghost predicate MarksPicks(exp: seq<Item>, obs: seq<Item>, expUsed: seq<bool>, obsUsed: seq<bool>, m: seq<Pair>) {
    && |expUsed| == |exp| && |obsUsed| == |obs|
    && IsMatching(m) && (forall p :: p in m ==> Admissible(exp, obs, p))
    && (forall e: nat :: e < |exp| ==> (expUsed[e] <==> e in Ends(m, true)))
    && (forall o: nat :: o < |obs| ==> (obsUsed[o] <==> o in Ends(m, false)))
  }

  lemma OfKindComplement(items: seq<Item>, used: seq<bool>, kind: string)
    requires |used| == |items|
    ensures |Marked(items, used, true, Some(kind))| + |Marked(items, used, false, Some(kind))|
            == |set i: nat | i < |items| && items[i].kind == kind|
  {
    var all := set i: nat | i < |items| && items[i].kind == kind;
    var yes, no := Marked(items, used, true, Some(kind)), Marked(items, used, false, Some(kind));
    assert all == yes + no && yes * no == {};
  }

  lemma Complement(items: seq<Item>, used: seq<bool>)
    requires |used| == |items|
    ensures |Marked(items, used, true, None)| + |Marked(items, used, false, None)| == |items|
  {
    var yes, no := Marked(items, used, true, None), Marked(items, used, false, None);
    assert Indices(|items|) == yes + no && yes * no == {};
  }

  ghost function Indices(n: nat): (s: set<nat>)
    ensures |s| == n && forall i: nat :: i in s <==> i < n
  {
    if n == 0 then {} else Indices(n - 1) + {n - 1}
  }

  /** Both sides of the match mark as many items as there are picks. */
  lemma MarkedIsPicks(exp: seq<Item>, obs: seq<Item>, expUsed: seq<bool>, obsUsed: seq<bool>, m: seq<Pair>)
    requires MarksPicks(exp, obs, expUsed, obsUsed, m)
    ensures |Marked(exp, expUsed, true, None)| == |m| == |Marked(obs, obsUsed, true, None)|
  {
    EndsCount(m, true);
    EndsCount(m, false);
    assert Marked(exp, expUsed, true, None) == Ends(m, true);
    assert Marked(obs, obsUsed, true, None) == Ends(m, false);
  }

  /**
   * Within one kind, the matched expected items are as many as the matched observed
   * ones: so counting hits on the expected side and misses on the observed side still
   * adds up to the observed items of that kind.
   */
  lemma KindsBalance(exp: seq<Item>, obs: seq<Item>, expUsed: seq<bool>, obsUsed: seq<bool>, m: seq<Pair>, kind: string)
    requires MarksPicks(exp, obs, expUsed, obsUsed, m)
    ensures |Marked(exp, expUsed, true, Some(kind))| == |Marked(obs, obsUsed, true, Some(kind))|
    ensures |Marked(exp, expUsed, true, Some(kind))| + |Marked(obs, obsUsed, false, Some(kind))|
            == |set o: nat | o < |obs| && obs[o].kind == kind|
  {
    var k := OfKind(m, exp, kind);
    OfKindDistinct(m, exp, kind, true);
    OfKindDistinct(m, exp, kind, false);
    EndsCount(k, true);
    EndsCount(k, false);
    KindMarksAreEnds(exp, obs, expUsed, obsUsed, m, kind);
    OfKindComplement(obs, obsUsed, kind);
  }

  lemma KindMarksAreEnds(exp: seq<Item>, obs: seq<Item>, expUsed: seq<bool>, obsUsed: seq<bool>, m: seq<Pair>, kind: string)
    requires MarksPicks(exp, obs, expUsed, obsUsed, m)
    ensures Marked(exp, expUsed, true, Some(kind)) == Ends(OfKind(m, exp, kind), true)
    ensures Marked(obs, obsUsed, true, Some(kind)) == Ends(OfKind(m, exp, kind), false)
  {
    var k := OfKind(m, exp, kind);
    forall e | e in Marked(exp, expUsed, true, Some(kind))
      ensures e in Ends(k, true)
    {
      var p :| p in m && Key(true, p) == e;
      assert p in k;
    }
    forall o | o in Marked(obs, obsUsed, true, Some(kind))
      ensures o in Ends(k, false)
    {
      var p :| p in m && Key(false, p) == o;
      assert p in k;
    }
    forall p | p in k
      ensures Key(true, p) in Marked(exp, expUsed, true, Some(kind))
      ensures Key(false, p) in Marked(obs, obsUsed, true, Some(kind))
    {
      assert Key(true, p) in Ends(m, true) && Key(false, p) in Ends(m, false);
    }
  }

  /** Any one-to-one choice of admissible pairs. */
  ghost predicate IsAlternative(exp: seq<Item>, obs: seq<Item>, m: seq<Pair>) {
    IsMatching(m) && forall p :: p in m ==> Admissible(exp, obs, p)
  }

  /** More alike; or just as alike, and earlier among the expected items, then among the observed. */
  predicate NoLater(q: Pair, p: Pair) {
    q.d > p.d || (q.d == p.d && (q.e < p.e || (q.e == p.e && q.o <= p.o)))
  }

  lemma RankIsNoLater()
    ensures forall p, q :: RankedBefore(q, p) ==> NoLater(q, p)
    ensures forall p :: NoLater(p, p)
  {
  }

  /** Every admissible pair shares an end with a pick ranked at least as high, and no alternative beats the picks twofold. */
  ghost predicate GoodPicks(exp: seq<Item>, obs: seq<Item>, picks: seq<Pair>) {
    && IsAlternative(exp, obs, picks)
    && (forall p :: Admissible(exp, obs, p) ==>
          exists q :: q in picks && (q.e == p.e || q.o == p.o) && NoLater(q, p))
    && (forall m :: IsAlternative(exp, obs, m) ==>
          |m| <= 2 * |picks| && Total(Similarity, m) <= 2.0 * Total(Similarity, picks))
  }

  lemma SortedAreIndices(exp: seq<Item>, obs: seq<Item>, pairs: seq<Pair>)
    requires forall p :: p in pairs <==> Admissible(exp, obs, p)
    ensures forall p :: p in SortRanked(pairs) ==> p.e < |exp| && p.o < |obs|
  {
    hide SortRanked;
    SortRanks(pairs);
  }

  lemma MarksArePicks(exp: seq<Item>, obs: seq<Item>, pairs: seq<Pair>, expUsed: seq<bool>, obsUsed: seq<bool>)
    requires forall p :: p in pairs <==> Admissible(exp, obs, p)
    requires |expUsed| == |exp| && |obsUsed| == |obs|
    requires forall e: nat :: e < |exp| ==> (expUsed[e] <==> e in Ends(Greedy(SortRanked(pairs), {}, {}), true))
    requires forall o: nat :: o < |obs| ==> (obsUsed[o] <==> o in Ends(Greedy(SortRanked(pairs), {}, {}), false))
    ensures MarksPicks(exp, obs, expUsed, obsUsed, Picks(SortRanked(pairs)))
  {
    hide Admissible, SortRanked, Greedy, Ends, IsMatching;
    SortRanks(pairs);
    GreedyPicksAreFree(SortRanked(pairs), {}, {});
  }

  /** The matching step of `grade`: the marks on both sides record a good choice of pairs. */
  method MatchItems(exp: seq<Item>, obs: seq<Item>)
    returns (expUsed: array<bool>, obsUsed: array<bool>, ghost picks: seq<Pair>)
    ensures fresh(expUsed) && fresh(obsUsed)
    ensures GoodPicks(exp, obs, picks)
    ensures MarksPicks(exp, obs, expUsed[..], obsUsed[..], picks)
  {
    hide GoodPicks, MarksPicks, Admissible, SortRanked, Greedy, Ends;
    var pairs := Candidates(exp, obs);
    var sorted := SortRanked(pairs);
    SortedAreIndices(exp, obs, pairs);
    picks := Picks(sorted);
    expUsed, obsUsed := MarkGreedy(sorted, |exp|, |obs|);
    PicksAreGood(exp, obs, pairs);
    MarksArePicks(exp, obs, pairs, expUsed[..], obsUsed[..]);
  }

  /** The overall counts: hits are the picks, and hits, misses and extras add up on both sides. */
  method GradeItems(exp: seq<Item>, obs: seq<Item>) returns (counts: Counts, ghost picks: seq<Pair>)
    ensures GoodPicks(exp, obs, picks)
    ensures counts.tp == |picks|
    ensures counts.tp + counts.fn_ == |exp| && counts.tp + counts.fp == |obs|
  {
    hide GoodPicks, Marked, Ends, IsMatching, Admissible;
    var expUsed, obsUsed, ps := MatchItems(exp, obs);
    picks := ps;
    MarkedIsPicks(exp, obs, expUsed[..], obsUsed[..], picks);
    Complement(exp, expUsed[..]);
    Complement(obs, obsUsed[..]);
    var tp := CountMarked(exp, expUsed, true, None);
    var obsHits := CountMarked(obs, obsUsed, true, None);
    counts := Counts(tp, |obs| - obsHits, |exp| - tp);
  }

  /** One kind's row of the breakdown: it adds up to the items of that kind on both sides. */
  method GradeKind(exp: seq<Item>, obs: seq<Item>, expUsed: array<bool>, obsUsed: array<bool>, kind: string,
                   ghost picks: seq<Pair>) returns (counts: Counts)
    requires expUsed.Length == |exp| && obsUsed.Length == |obs|
    requires MarksPicks(exp, obs, expUsed[..], obsUsed[..], picks)
    ensures counts.tp == |Marked(exp, expUsed[..], true, Some(kind))|
    ensures counts.tp + counts.fn_ == |set e: nat | e < |exp| && exp[e].kind == kind|
    ensures counts.tp + counts.fp == |set o: nat | o < |obs| && obs[o].kind == kind|
  {
    hide Marked, MarksPicks;
    var ktp := CountMarked(exp, expUsed, true, Some(kind));
    var kfn := CountMarked(exp, expUsed, false, Some(kind));
    var kfp := CountMarked(obs, obsUsed, false, Some(kind));
    OfKindComplement(exp, expUsed[..], kind);
    KindsBalance(exp, obs, expUsed[..], obsUsed[..], picks, kind);
    counts := Counts(ktp, kfp, kfn);
  }

  /** Items with this mark whose kind is listed. */
  ghost function MarkedAmong(items: seq<Item>, used: seq<bool>, mark: bool, kinds: seq<string>): set<nat>
    requires |used| == |items|
  {
    set i: nat | i < |items| && used[i] == mark && items[i].kind in kinds
  }

  ghost function SumOverKinds(items: seq<Item>, used: seq<bool>, mark: bool, kinds: seq<string>): nat
    requires |used| == |items|
  {
    if kinds == [] then 0
    else |Marked(items, used, mark, Some(kinds[0]))| + SumOverKinds(items, used, mark, kinds[1..])
  }

  ghost predicate Distinct(kinds: seq<string>) {
    forall i, j :: 0 <= i < j < |kinds| ==> kinds[i] != kinds[j]
  }

  /** Over the deduplicated list of all kinds, the rows of the breakdown add up to the overall count. */
  lemma KindsAddUp(items: seq<Item>, used: seq<bool>, mark: bool, kinds: seq<string>)
    requires |used| == |items| && Distinct(kinds)
    requires forall i :: 0 <= i < |items| ==> items[i].kind in kinds
    ensures SumOverKinds(items, used, mark, kinds) == |Marked(items, used, mark, None)|
  {
    KindsPartition(items, used, mark, kinds);
    assert MarkedAmong(items, used, mark, kinds) == Marked(items, used, mark, None);
  }

  lemma FirstKind(items: seq<Item>, used: seq<bool>, mark: bool, kinds: seq<string>)
    requires |used| == |items| && Distinct(kinds) && kinds != []
    ensures var first, rest := Marked(items, used, mark, Some(kinds[0])), MarkedAmong(items, used, mark, kinds[1..]);
            MarkedAmong(items, used, mark, kinds) == first + rest && first !! rest
  {
    assert forall k :: k in kinds <==> k == kinds[0] || k in kinds[1..];
    assert kinds[0] !in kinds[1..];
  }

  lemma DisjointCount(a: set<nat>, b: set<nat>)
    requires a !! b
    ensures |a + b| == |a| + |b|
  {
  }

  lemma {:induction false} KindsPartition(items: seq<Item>, used: seq<bool>, mark: bool, kinds: seq<string>)
    requires |used| == |items| && Distinct(kinds)
    ensures SumOverKinds(items, used, mark, kinds) == |MarkedAmong(items, used, mark, kinds)|
  {
    if kinds == [] {
      assert MarkedAmong(items, used, mark, kinds) == {};
    } else {
      KindsPartition(items, used, mark, kinds[1..]);
      FirstKind(items, used, mark, kinds);
      hide Marked, MarkedAmong;
      DisjointCount(Marked(items, used, mark, Some(kinds[0])), MarkedAmong(items, used, mark, kinds[1..]));
    }
  }

  lemma PicksAreGood(exp: seq<Item>, obs: seq<Item>, pairs: seq<Pair>)
    requires forall p :: p in pairs <==> Admissible(exp, obs, p)
    ensures GoodPicks(exp, obs, Picks(SortRanked(pairs)))
  {
    assert forall p :: p in pairs ==> p.d >= 0.0;
    hide Admissible, SortRanked, Greedy, Total, IsMatching, NoLater, RankedBefore;
    EmptyIsMatching();
    RankedGreedyQuality(pairs, []);
    forall p | p in pairs
      ensures exists q :: q in Picks(SortRanked(pairs)) && (q.e == p.e || q.o == p.o) && NoLater(q, p)
    {
      NoLaterPick(pairs, p);
    }
    forall m | IsAlternative(exp, obs, m)
      ensures var picks := Picks(SortRanked(pairs));
              |m| <= 2 * |picks| && Total(Similarity, m) <= 2.0 * Total(Similarity, picks)
    {
      RankedGreedyQuality(pairs, m);
    }
    hide Picks;
  }

  lemma NoLaterPick(pairs: seq<Pair>, p: Pair)
    requires p in pairs && forall q :: q in pairs ==> q.d >= 0.0
    ensures exists q :: q in Picks(SortRanked(pairs)) && (q.e == p.e || q.o == p.o) && NoLater(q, p)
  {
    RankIsNoLater();
    hide SortRanked, Greedy, NoLater, RankedBefore;
    SortRanks(pairs);
    RankedBlocker(SortRanked(pairs), p);
  }

  lemma EmptyIsMatching()
    ensures IsMatching([])
  {
  }

  // ---------------------------------------------------------------- scores

  /** Zero out of zero is vacuously perfect. */
  function RatioOrOne(num: nat, den: nat): real {
    if den == 0 then 1.0 else num as real / den as real
  }

  function Harmonic(p: real, r: real, betaSq: real): real {
    var den := betaSq * p + r;
    if den == 0.0 then 0.0 else (1.0 + betaSq) * p * r / den
  }

  function Precision(c: Counts): real {
    RatioOrOne(c.tp, c.tp + c.fp)
  }

  function Recall(c: Counts): real {
    RatioOrOne(c.tp, c.tp + c.fn_)
  }

  function FHalf(c: Counts): real {
    Harmonic(Precision(c), Recall(c), BETA_SQ)
  }

  lemma RatioBounds(num: nat, den: nat)
    requires num <= den
    ensures 0.0 <= RatioOrOne(num, den) <= 1.0
    ensures RatioOrOne(num, den) == 1.0 <==> num == den
  {
    if den > 0 {
      FractionBounds(num, den);
    }
  }

  /** The two scores in counts: F0.5 charges an invention four times what it charges a miss, F1 the same. */
  lemma ScoresInCounts(c: Counts)
    requires c.tp > 0
    ensures FHalf(c) == (5 * c.tp) as real / (5 * c.tp + c.fn_ + 4 * c.fp) as real
    ensures Harmonic(Precision(c), Recall(c), 1.0) == (2 * c.tp) as real / (2 * c.tp + c.fn_ + c.fp) as real
  {
    var t, x, y := c.tp as real, (c.tp + c.fp) as real, (c.tp + c.fn_) as real;
    HarmonicOfQuotients(t, x, y, BETA_SQ);
    HarmonicOfQuotients(t, x, y, 1.0);
    Rescale(1.25 * t, 0.25 * y + x, 4.0);
  }

  lemma Rescale(n: real, d: real, k: real)
    requires d > 0.0 && k > 0.0
    ensures d * k > 0.0 && n / d == (n * k) / (d * k)
  {
    var q := n / d;
    assert q * d == n;
    assert q * (d * k) == n * k;
    QuotientIs(n * k, d * k, q);
  }

  lemma QuotientIs(n: real, d: real, q: real)
    requires d > 0.0 && q * d == n
    ensures n / d == q
  {
    var r := n / d;
    assert r * d == n;
    SignOfProduct(r - q, d);
    assert (r - q) * d == r * d - q * d;
  }

  lemma HarmonicOfQuotients(t: real, x: real, y: real, b: real)
    requires t > 0.0 && x > 0.0 && y > 0.0 && b > 0.0
    ensures b * y + x > 0.0
    ensures Harmonic(t / x, t / y, b) == (1.0 + b) * t / (b * y + x)
  {
    var p, r := t / x, t / y;
    assert p * x == t && r * y == t;
    var den, goal := b * p + r, (1.0 + b) * t / (b * y + x);
    Positive(b, y);
    Positive(b, p);
    // den * x * y == t * (b * y + x), so both sides are the same quotient
    assert den * (x * y) == b * (p * x) * y + (r * y) * x;
    assert den * (x * y) == t * (b * y + x);
    QuotientIs((1.0 + b) * p * r, den, goal);
  }

  lemma Positive(a: real, b: real)
    requires a > 0.0 && b > 0.0
    ensures a * b > 0.0
  {
  }

  /** The headline score is perfect exactly when nothing was missed and nothing invented. */
  lemma PerfectIffNoErrors(c: Counts)
    ensures 0.0 <= FHalf(c)
    ensures FHalf(c) == 1.0 <==> c.fp == 0 && c.fn_ == 0
  {
    RatioBounds(c.tp, c.tp + c.fp);
    RatioBounds(c.tp, c.tp + c.fn_);
    HarmonicIsOneIff(Precision(c), Recall(c));
  }

  lemma HarmonicIsOneIff(p: real, r: real)
    requires 0.0 <= p <= 1.0 && 0.0 <= r <= 1.0
    ensures 0.0 <= Harmonic(p, r, BETA_SQ)
    ensures Harmonic(p, r, BETA_SQ) == 1.0 <==> p == 1.0 && r == 1.0
  {
    var den := 0.25 * p + r;
    var pr := p * r;
    ProductBounds(p, r);
    if den != 0.0 {
      var f := 1.25 * p * r / den;
      assert 1.25 * p * r == 1.25 * pr;
      assert f * den == 1.25 * pr;
      SignOfProduct(f, den);
      if f == 1.0 {
        assert p == pr && r == pr && p > 0.0;
        assert p * (1.0 - r) == 0.0 && r * (1.0 - p) == 0.0;
      }
    }
  }

  lemma ProductBounds(p: real, r: real)
    requires 0.0 <= p <= 1.0 && 0.0 <= r <= 1.0
    ensures 0.0 <= p * r <= p && p * r <= r
  {
    assert p * (1.0 - r) == p - p * r && r * (1.0 - p) == r - p * r;
  }

  // ---------------------------------------------------------------- contacts

  /** Every acceptable (expected, observed) contact pair, in the order the loops visit them. */
  function ContactRow(ec: Contact, obs: seq<Contact>, e: nat, from: nat): (ps: seq<Pair>)
    requires from <= |obs|
    ensures forall p :: p in ps <==> p.e == e && from <= p.o < |obs| && ContactOk(ec, obs[p.o]) && p.d == 1.0
    decreases |obs| - from
  {
    if from == |obs| then []
    else if ContactOk(ec, obs[from]) then [Pair(e, from, 1.0)] + ContactRow(ec, obs, e, from + 1)
    else ContactRow(ec, obs, e, from + 1)
  }

  function ContactPairs(exp: seq<Contact>, obs: seq<Contact>, from: nat): (ps: seq<Pair>)
    requires from <= |exp|
    ensures forall p :: p in ps <==>
              from <= p.e < |exp| && p.o < |obs| && ContactOk(exp[p.e], obs[p.o]) && p.d == 1.0
    decreases |exp| - from
  {
    if from == |exp| then [] else ContactRow(exp[from], obs, from, 0) + ContactPairs(exp, obs, from + 1)
  }

  /** Once a row's contact is taken, the rest of its row is skipped. */
  lemma {:induction false} RowSkipped(row: seq<Pair>, rest: seq<Pair>, usedE: set<nat>, usedO: set<nat>)
    requires forall p :: p in row ==> p.e in usedE
    ensures Greedy(row + rest, usedE, usedO) == Greedy(rest, usedE, usedO)
  {
    if row == [] {
      assert row + rest == rest;
    } else {
      assert row[0] in row && (row + rest)[1..] == row[1..] + rest;
      RowSkipped(row[1..], rest, usedE, usedO);
    }
  }

  /** First fit: the number of contacts matched is that of the greedy pass over the visited pairs. */
  method GradeContacts(exp: seq<Contact>, obs: seq<Contact>) returns (matched: nat)
    ensures matched == |Greedy(ContactPairs(exp, obs, 0), {}, {})|
  {
    GreedyNothing();
    hide ContactOk, ContactRow, Greedy;
    var used := new bool[|obs|](i => false);
    matched := 0;
    ghost var usedE: set<nat>, usedO: set<nat> := {}, {};
    for e := 0 to |exp|
      invariant fresh(used)
      invariant forall o: nat :: o < |obs| ==> (used[o] <==> o in usedO)
      invariant forall i :: i in usedE ==> i < e
      invariant |Greedy(ContactPairs(exp, obs, 0), {}, {})| == matched + |Greedy(ContactPairs(exp, obs, e), usedE, usedO)|
    {
      var o := 0;
      ghost var rest := ContactPairs(exp, obs, e + 1);
      ghost var goal := |Greedy(ContactPairs(exp, obs, 0), {}, {})|;
      var found := false;
      while o < |obs| && !found
        invariant o <= |obs|
        invariant forall o: nat :: o < |obs| ==> (used[o] <==> o in usedO)
        invariant forall i :: i in usedE ==> i <= e
        invariant found <==> e in usedE
        invariant goal == matched + |Greedy(ContactRow(exp[e], obs, e, o) + rest, usedE, usedO)|
      {
        ContactStep(exp[e], obs, e, o, rest, usedE, usedO);
        if !used[o] && ContactOk(exp[e], obs[o]) {
          used[o] := true;
          matched := matched + 1;
          found := true;
          usedE, usedO := usedE + {e}, usedO + {o};
        }
        o := o + 1;
      }
      RowSkippedOrEmpty(exp[e], obs, e, o, rest, usedE, usedO);
    }
  }

  /** One visit of the inner loop: take the pair, or leave both ends as they are. */
  lemma ContactStep(ec: Contact, obs: seq<Contact>, e: nat, o: nat, rest: seq<Pair>, usedE: set<nat>, usedO: set<nat>)
    requires o < |obs| && e !in usedE
    ensures var row, next := ContactRow(ec, obs, e, o), ContactRow(ec, obs, e, o + 1);
            if o !in usedO && ContactOk(ec, obs[o])
            then |Greedy(row + rest, usedE, usedO)| == 1 + |Greedy(next + rest, usedE + {e}, usedO + {o})|
            else Greedy(row + rest, usedE, usedO) == Greedy(next + rest, usedE, usedO)
  {
    hide ContactOk;
    var row, next := ContactRow(ec, obs, e, o), ContactRow(ec, obs, e, o + 1);
    if ContactOk(ec, obs[o]) {
      assert row == [Pair(e, o, 1.0)] + next && (row + rest)[1..] == next + rest;
    }
  }

  lemma RowSkippedOrEmpty(ec: Contact, obs: seq<Contact>, e: nat, o: nat, rest: seq<Pair>, usedE: set<nat>, usedO: set<nat>)
    requires o <= |obs| && (o == |obs| || e in usedE)
    ensures Greedy(ContactRow(ec, obs, e, o) + rest, usedE, usedO) == Greedy(rest, usedE, usedO)
  {
    hide ContactOk;
    var row := ContactRow(ec, obs, e, o);
    SomeMember(row);
    RowSkipped(row, rest, usedE, usedO);
  }

  /** First fit finds at least half as many contacts as the best one-to-one assignment. */
  lemma ContactsAtLeastHalf(exp: seq<Contact>, obs: seq<Contact>, m: seq<Pair>)
    requires IsMatching(m)
    requires forall p :: p in m ==> p.e < |exp| && p.o < |obs| && ContactOk(exp[p.e], obs[p.o])
    ensures |m| <= 2 * |Greedy(ContactPairs(exp, obs, 0), {}, {})|
  {
    var unit := Units(m);
    GreedyIsHalfTheSize(ContactPairs(exp, obs, 0), unit);
  }

  function Units(m: seq<Pair>): (r: seq<Pair>)
    ensures |r| == |m| && forall i :: 0 <= i < |m| ==> r[i] == m[i].(d := 1.0)
  {
    if m == [] then [] else Units(m[..|m| - 1]) + [m[|m| - 1].(d := 1.0)]
  }
}
