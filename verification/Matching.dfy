/**
 * Greedy bipartite matching (crates/evals/src/grade.rs): what any greedy pass over a
 * list of candidate pairs picks, and how it compares with every other matching.
 */
module Matching {

  /** Expected item `e` against observed item `o`, with their similarity. */
  datatype Pair = Pair(e: nat, o: nat, d: real)

  function Key(left: bool, p: Pair): nat {
    if left then p.e else p.o
  }

  ghost predicate DistinctKeys(m: seq<Pair>, left: bool) {
    forall i, j :: 0 <= i < j < |m| ==> Key(left, m[i]) != Key(left, m[j])
  }

  /** No expected and no observed item is used twice. */
  ghost predicate IsMatching(m: seq<Pair>) {
    DistinctKeys(m, true) && DistinctKeys(m, false)
  }

  function Total(w: Pair -> real, m: seq<Pair>): real {
    if m == [] then 0.0 else Total(w, m[..|m| - 1]) + w(m[|m| - 1])
  }

  /** The pass: take a pair when neither end is taken. */
  function Greedy(ps: seq<Pair>, usedE: set<nat>, usedO: set<nat>): seq<Pair> {
    if ps == [] then []
    else if ps[0].e in usedE || ps[0].o in usedO then Greedy(ps[1..], usedE, usedO)
    else [ps[0]] + Greedy(ps[1..], usedE + {ps[0].e}, usedO + {ps[0].o})
  }

  // ---------------------------------------------------------------- what the pass picks

  lemma {:induction false} GreedyPicksAreFree(ps: seq<Pair>, usedE: set<nat>, usedO: set<nat>)
    ensures var m := Greedy(ps, usedE, usedO);
            IsMatching(m) && forall p :: p in m ==> p in ps && p.e !in usedE && p.o !in usedO
  {
    if ps != [] {
      if ps[0].e in usedE || ps[0].o in usedO {
        GreedyPicksAreFree(ps[1..], usedE, usedO);
      } else {
        GreedyPicksAreFree(ps[1..], usedE + {ps[0].e}, usedO + {ps[0].o});
        var rest := Greedy(ps[1..], usedE + {ps[0].e}, usedO + {ps[0].o});
        assert forall i :: 0 <= i < |rest| ==> rest[i] in rest;
      }
    }
  }

  /** Every candidate has an end taken before the pass, or by a pick that stands no later in the list. */
  ghost predicate Blocked(ps: seq<Pair>, m: seq<Pair>, usedE: set<nat>, usedO: set<nat>, i: nat)
    requires i < |ps|
  {
    || ps[i].e in usedE || ps[i].o in usedO
    || exists j :: 0 <= j <= i && ps[j] in m && (ps[j].e == ps[i].e || ps[j].o == ps[i].o)
  }

  lemma {:induction false} GreedyBlocksEverything(ps: seq<Pair>, usedE: set<nat>, usedO: set<nat>, i: nat)
    requires i < |ps|
    ensures Blocked(ps, Greedy(ps, usedE, usedO), usedE, usedO, i)
  {
    var m := Greedy(ps, usedE, usedO);
    if i > 0 {
      var taken := ps[0].e in usedE || ps[0].o in usedO;
      var e, o := if taken then usedE else usedE + {ps[0].e}, if taken then usedO else usedO + {ps[0].o};
      GreedyBlocksEverything(ps[1..], e, o, i - 1);
      var rest := Greedy(ps[1..], e, o);
      assert forall p :: p in rest ==> p in m;
      if !(ps[i].e in e || ps[i].o in o) {
        var j :| 0 <= j <= i - 1 && ps[1..][j] in rest && (ps[1..][j].e == ps[i].e || ps[1..][j].o == ps[i].o);
        assert ps[j + 1] in m;
      } else if !taken {
        assert ps[0] in m;
      }
    } else {
      if !(ps[0].e in usedE || ps[0].o in usedO) {
        assert m[0] == ps[0];
      }
    }
  }

  // ---------------------------------------------------------------- half of the best

  function Dropping(m: seq<Pair>, left: bool, k: nat): (r: seq<Pair>)
    ensures forall p :: p in r ==> p in m && Key(left, p) != k
    ensures (forall p :: p in m ==> Key(left, p) != k) ==> r == m
  {
    if m == [] then []
    else
      var rest := Dropping(m[..|m| - 1], left, k);
      if Key(left, m[|m| - 1]) == k then rest else rest + [m[|m| - 1]]
  }

  lemma {:induction false} DroppingKeepsDistinct(m: seq<Pair>, left: bool, k: nat, side: bool)
    requires DistinctKeys(m, side)
    ensures DistinctKeys(Dropping(m, left, k), side)
  {
    if m != [] {
      DroppingKeepsDistinct(m[..|m| - 1], left, k, side);
      var rest := Dropping(m[..|m| - 1], left, k);
      forall i | 0 <= i < |rest|
        ensures Key(side, rest[i]) != Key(side, m[|m| - 1])
      {
        assert rest[i] in rest;
      }
    }
  }

  /** A matching loses at most one pair when one end is withdrawn. */
  lemma {:induction false} DroppingCostsOne(w: Pair -> real, m: seq<Pair>, left: bool, k: nat, bound: real)
    requires DistinctKeys(m, left) && 0.0 <= bound
    requires forall p :: p in m ==> 0.0 <= w(p) <= bound
    ensures Total(w, m) <= Total(w, Dropping(m, left, k)) + bound
  {
    if m != [] {
      var front, last := m[..|m| - 1], m[|m| - 1];
      assert forall p :: p in front ==> p in m;
      if Key(left, last) == k {
        assert forall p :: p in front ==> Key(left, p) != k;
        assert Dropping(m, left, k) == front;
        assert last in m;
      } else {
        DroppingCostsOne(w, front, left, k, bound);
        var rest := Dropping(front, left, k);
        assert (rest + [last])[..|rest|] == rest;
      }
    }
  }

  /** Earlier candidates weigh no less than later ones. */
  ghost predicate Descending(w: Pair -> real, ps: seq<Pair>) {
    && (forall i, j :: 0 <= i < j < |ps| ==> w(ps[j]) <= w(ps[i]))
    && (forall p :: p in ps ==> 0.0 <= w(p))
  }

  lemma TotalCons(w: Pair -> real, p: Pair, m: seq<Pair>)
    ensures Total(w, [p] + m) == w(p) + Total(w, m)
  {
    if m == [] {
      assert [p] + m == [p] && [p][..0] == [];
    } else {
      assert ([p] + m)[..|m|] == [p] + m[..|m| - 1];
      TotalCons(w, p, m[..|m| - 1]);
    }
  }

  lemma SomeMember(m: seq<Pair>)
    ensures m != [] ==> exists p :: p in m
  {
    if m != [] {
      assert m[0] in m;
    }
  }

  /** No matching of the candidates weighs more than twice what the pass picks. */
  lemma {:induction false} GreedyIsHalf(w: Pair -> real, ps: seq<Pair>, usedE: set<nat>, usedO: set<nat>, m: seq<Pair>)
    requires Descending(w, ps) && IsMatching(m)
    requires forall p :: p in m ==> p in ps && p.e !in usedE && p.o !in usedO
    ensures Total(w, m) <= 2.0 * Total(w, Greedy(ps, usedE, usedO))
    decreases |ps|
  {
    if ps == [] {
      SomeMember(m);
    } else {
      var p, rest := ps[0], ps[1..];
      assert forall q :: q in rest ==> q in ps;
      assert forall q :: q in ps ==> q == p || q in rest;
      if p.e in usedE || p.o in usedO {
        GreedyIsHalf(w, rest, usedE, usedO, m);
      } else {
        HeadWeighsMost(w, ps);
        var m2 := Dropping(Dropping(m, true, p.e), false, p.o);
        DroppingBothEnds(w, m, p, w(p));
        GreedyIsHalf(w, rest, usedE + {p.e}, usedO + {p.o}, m2);
        TotalCons(w, p, Greedy(rest, usedE + {p.e}, usedO + {p.o}));
      }
    }
  }

  /** Withdrawing both ends of a pair leaves a matching, and costs at most two pairs. */
  lemma DroppingBothEnds(w: Pair -> real, m: seq<Pair>, p: Pair, bound: real)
    requires IsMatching(m) && 0.0 <= bound && forall q :: q in m ==> 0.0 <= w(q) <= bound
    ensures var m2 := Dropping(Dropping(m, true, p.e), false, p.o);
            && IsMatching(m2) && Total(w, m) <= Total(w, m2) + 2.0 * bound
            && forall q :: q in m2 ==> q in m && q.e != p.e && q.o != p.o
  {
    hide DistinctKeys, Total;
    var m1 := Dropping(m, true, p.e);
    DroppingCostsOne(w, m, true, p.e, bound);
    DroppingKeepsDistinct(m, true, p.e, true);
    DroppingKeepsDistinct(m, true, p.e, false);
    DroppingCostsOne(w, m1, false, p.o, bound);
    DroppingKeepsDistinct(m1, false, p.o, true);
    DroppingKeepsDistinct(m1, false, p.o, false);
  }

  lemma HeadWeighsMost(w: Pair -> real, ps: seq<Pair>)
    requires Descending(w, ps) && ps != []
    ensures forall q :: q in ps ==> 0.0 <= w(q) <= w(ps[0])
    ensures Descending(w, ps[1..])
  {
    assert forall q :: q in ps[1..] ==> q in ps;
  }

  function One(p: Pair): real {
    1.0
  }

  function Similarity(p: Pair): real {
    p.d
  }

  lemma {:induction false} TotalOfOnes(m: seq<Pair>)
    ensures Total(One, m) == |m| as real
  {
    if m != [] {
      TotalOfOnes(m[..|m| - 1]);
    }
  }

  /** Whatever the order of the list, the pass picks at least half as many pairs as any matching. */
  lemma GreedyIsHalfTheSize(ps: seq<Pair>, m: seq<Pair>)
    requires IsMatching(m) && forall p :: p in m ==> p in ps
    ensures |m| <= 2 * |Greedy(ps, {}, {})|
  {
    GreedyIsHalf(One, ps, {}, {}, m);
    TotalOfOnes(m);
    TotalOfOnes(Greedy(ps, {}, {}));
  }

  // ---------------------------------------------------------------- rank order

  /** `sort_by`: highest similarity first, then lower indices. */
  predicate RankedBefore(p: Pair, q: Pair) {
    p.d > q.d || (p.d == q.d && (p.e < q.e || (p.e == q.e && p.o <= q.o)))
  }

  ghost predicate Ranked(ps: seq<Pair>) {
    forall i, j :: 0 <= i < j < |ps| ==> RankedBefore(ps[i], ps[j])
  }

  function InsertRanked(p: Pair, ps: seq<Pair>): seq<Pair> {
    if ps == [] || RankedBefore(p, ps[0]) then [p] + ps else [ps[0]] + InsertRanked(p, ps[1..])
  }

  function SortRanked(ps: seq<Pair>): seq<Pair> {
    if ps == [] then [] else InsertRanked(ps[0], SortRanked(ps[1..]))
  }

  lemma RankIsTotalOrder()
    ensures forall p, q :: RankedBefore(p, q) || RankedBefore(q, p)
    ensures forall p, q, r :: RankedBefore(p, q) && RankedBefore(q, r) ==> RankedBefore(p, r)
  {
  }

  lemma {:induction false} InsertKeepsRanked(p: Pair, ps: seq<Pair>)
    requires Ranked(ps)
    ensures Ranked(InsertRanked(p, ps)) && multiset(InsertRanked(p, ps)) == multiset(ps) + multiset{p}
    ensures forall q :: q in InsertRanked(p, ps) <==> q == p || q in ps
  {
    RankIsTotalOrder();
    hide RankedBefore;
    if ps != [] && !RankedBefore(p, ps[0]) {
      InsertKeepsRanked(p, ps[1..]);
      assert ps == [ps[0]] + ps[1..];
      RankedCons(ps[0], InsertRanked(p, ps[1..]));
    }
  }

  lemma RankedCons(p: Pair, rest: seq<Pair>)
    requires Ranked(rest) && forall q :: q in rest ==> RankedBefore(p, q)
    ensures Ranked([p] + rest)
  {
    hide RankedBefore;
    assert forall i :: 0 <= i < |rest| ==> rest[i] in rest;
  }

  lemma {:induction false} SortRanks(ps: seq<Pair>)
    ensures Ranked(SortRanked(ps)) && multiset(SortRanked(ps)) == multiset(ps)
    ensures forall q :: q in SortRanked(ps) <==> q in ps
  {
    if ps != [] {
      SortRanks(ps[1..]);
      InsertKeepsRanked(ps[0], SortRanked(ps[1..]));
      assert ps == [ps[0]] + ps[1..];
    }
  }

  /**
   * Greedy in rank order: a one-to-one selection of the candidates in which every
   * candidate shares an end with a pick ranked at least as high, so no matching of the
   * candidates has more than twice its pairs or twice its total similarity.
   */
  lemma RankedGreedyQuality(ps: seq<Pair>, m: seq<Pair>)
    requires forall p :: p in ps ==> p.d >= 0.0
    requires IsMatching(m) && forall p :: p in m ==> p in ps
    ensures var picks := Greedy(SortRanked(ps), {}, {});
            && IsMatching(picks) && (forall p :: p in picks ==> p in ps)
            && (forall p :: p in ps ==> exists q :: q in picks && (q.e == p.e || q.o == p.o) && (q == p || RankedBefore(q, p)))
            && |m| <= 2 * |picks|
            && Total(Similarity, m) <= 2.0 * Total(Similarity, picks)
  {
    hide SortRanked, Greedy, Total, Ranked, RankedBefore, IsMatching;
    var sorted := SortRanked(ps);
    SortRanks(ps);
    GreedyPicksAreFree(sorted, {}, {});
    forall p | p in ps
      ensures exists q :: q in Greedy(sorted, {}, {}) && (q.e == p.e || q.o == p.o) && (q == p || RankedBefore(q, p))
    {
      RankedBlocker(sorted, p);
    }
    GreedyIsHalfTheSize(sorted, m);
    RankedDescends(sorted);
    GreedyIsHalf(Similarity, sorted, {}, {}, m);
  }

  lemma RankedDescends(sorted: seq<Pair>)
    requires Ranked(sorted) && forall p :: p in sorted ==> p.d >= 0.0
    ensures Descending(Similarity, sorted)
  {
  }

  lemma RankedBlocker(sorted: seq<Pair>, p: Pair)
    requires Ranked(sorted) && p in sorted
    ensures exists q :: q in Greedy(sorted, {}, {}) && (q.e == p.e || q.o == p.o) && (q == p || RankedBefore(q, p))
  {
    hide RankedBefore, Greedy;
    var i :| 0 <= i < |sorted| && sorted[i] == p;
    GreedyBlocksEverything(sorted, {}, {}, i);
    var j :| 0 <= j <= i && sorted[j] in Greedy(sorted, {}, {}) && (sorted[j].e == p.e || sorted[j].o == p.o);
    assert j == i || RankedBefore(sorted[j], sorted[i]);
  }
}
