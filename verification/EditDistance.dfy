/**
 * Word edit distance, two rows at a time (crates/evals/src/asr.rs `edit_distance`,
 * spikes/stt-whisper/src/wer.rs `token_edit_distance`): both compute the cost of a
 * cheapest edit script.
 */
module EditDistance {

  type Tokens = seq<string>

  function Min(a: nat, b: nat): nat {
    if a < b then a else b
  }

  function Last(s: Tokens): string
    requires s != []
  {
    s[|s| - 1]
  }

  function Init(s: Tokens): Tokens
    requires s != []
  {
    s[..|s| - 1]
  }

  // ---------------------------------------------------------------- edit scripts

  /** One column of an alignment. */
  datatype Op = Keep(x: string) | Change(x: string, y: string) | Insert(y: string) | Delete(x: string)

  type Script = seq<Op>

  function Source(script: Script): Tokens {
    if script == [] then []
    else match script[|script| - 1]
      case Insert(_) => Source(script[..|script| - 1])
      case op => Source(script[..|script| - 1]) + [op.x]
  }

  function Target(script: Script): Tokens {
    if script == [] then []
    else match script[|script| - 1]
      case Delete(_) => Target(script[..|script| - 1])
      case Keep(x) => Target(script[..|script| - 1]) + [x]
      case op => Target(script[..|script| - 1]) + [op.y]
  }

  function Cost(script: Script): nat {
    if script == [] then 0
    else Cost(script[..|script| - 1]) + (if script[|script| - 1].Keep? then 0 else 1)
  }

  /** `script` turns `a` into `b`. */
  predicate Edits(script: Script, a: Tokens, b: Tokens) {
    Source(script) == a && Target(script) == b
  }

  // ---------------------------------------------------------------- the distance

  function Distance(a: Tokens, b: Tokens): nat
    decreases |a| + |b|
  {
    if a == [] then |b|
    else if b == [] then |a|
    else
      var sub := Distance(Init(a), Init(b)) + (if Last(a) == Last(b) then 0 else 1);
      Min(sub, Min(Distance(Init(a), b), Distance(a, Init(b))) + 1)
  }

  /** No script is cheaper than the distance. */
  lemma {:induction false} NoScriptIsCheaper(script: Script)
    ensures Distance(Source(script), Target(script)) <= Cost(script)
  {
    if script != [] {
      var rest := script[..|script| - 1];
      NoScriptIsCheaper(rest);
      var a, b := Source(rest), Target(rest);
      match script[|script| - 1] {
        case Keep(x) => GrowBoth(a, b, x, x);
        case Change(x, y) => GrowBoth(a, b, x, y);
        case Insert(y) => GrowTarget(a, b, y);
        case Delete(x) => GrowSource(a, b, x);
      }
    }
  }

  lemma GrowBoth(a: Tokens, b: Tokens, x: string, y: string)
    ensures Distance(a + [x], b + [y]) <= Distance(a, b) + (if x == y then 0 else 1)
  {
    assert Init(a + [x]) == a && Init(b + [y]) == b;
  }

  lemma GrowTarget(a: Tokens, b: Tokens, y: string)
    ensures Distance(a, b + [y]) <= Distance(a, b) + 1
  {
    assert Init(b + [y]) == b;
  }

  lemma GrowSource(a: Tokens, b: Tokens, x: string)
    ensures Distance(a + [x], b) <= Distance(a, b) + 1
  {
    assert Init(a + [x]) == a;
  }

  lemma ScriptSnoc(script: Script, op: Op)
    ensures Source(script + [op]) == Source(script) + (if op.Insert? then [] else [op.x])
    ensures Target(script + [op]) == Target(script) + (if op.Delete? then [] else if op.Keep? then [op.x] else [op.y])
    ensures Cost(script + [op]) == Cost(script) + (if op.Keep? then 0 else 1)
  {
    assert (script + [op])[..|script|] == script;
  }

  /** The last column of a cheapest script. */
  function LastColumn(a: Tokens, b: Tokens): (op: Op)
    requires a != [] || b != []
    ensures op.Delete? ==> a != [] && op.x == Last(a) && Distance(a, b) == Distance(Init(a), b) + 1
    ensures op.Insert? ==> b != [] && op.y == Last(b) && Distance(a, b) == Distance(a, Init(b)) + 1
    ensures op.Keep? || op.Change? ==> a != [] && b != [] && op.x == Last(a)
    ensures op.Keep? ==> op.x == Last(b) && Distance(a, b) == Distance(Init(a), Init(b))
    ensures op.Change? ==> op.y == Last(b) && Distance(a, b) == Distance(Init(a), Init(b)) + 1
  {
    if b == [] || (a != [] && Distance(a, b) == Distance(Init(a), b) + 1) then Delete(Last(a))
    else if a == [] || Distance(a, b) == Distance(a, Init(b)) + 1 then Insert(Last(b))
    else if Last(a) == Last(b) then Keep(Last(a))
    else Change(Last(a), Last(b))
  }

  /** Some script has exactly the distance as its cost. */
  lemma {:induction false} CheapestScript(a: Tokens, b: Tokens) returns (script: Script)
    ensures Edits(script, a, b) && Cost(script) == Distance(a, b)
    decreases |a| + |b|
  {
    if a == [] && b == [] {
      script := [];
    } else {
      hide Distance, LastColumn, Source, Target, Cost;
      assert a != [] ==> Init(a) + [Last(a)] == a;
      assert b != [] ==> Init(b) + [Last(b)] == b;
      hide Init;
      match LastColumn(a, b) {
        case Delete(x) =>
          InitIsShorter(a);
          var rest := CheapestScript(Init(a), b);
          script := Extended(rest, Init(a), b, Delete(x));
        case Insert(y) =>
          InitIsShorter(b);
          var rest := CheapestScript(a, Init(b));
          script := Extended(rest, a, Init(b), Insert(y));
        case op =>
          InitIsShorter(a);
          InitIsShorter(b);
          var rest := CheapestScript(Init(a), Init(b));
          script := Extended(rest, Init(a), Init(b), op);
      }
    }
  }

  lemma InitIsShorter(s: Tokens)
    requires s != []
    ensures |Init(s)| < |s|
  {
  }

  lemma Extended(rest: Script, a: Tokens, b: Tokens, op: Op) returns (script: Script)
    requires Edits(rest, a, b)
    ensures Edits(script, a + (if op.Insert? then [] else [op.x]),
                          b + (if op.Delete? then [] else if op.Keep? then [op.x] else [op.y]))
    ensures Cost(script) == Cost(rest) + (if op.Keep? then 0 else 1)
  {
    script := rest + [op];
    ScriptSnoc(rest, op);
  }

  // ---------------------------------------------------------------- it is a metric

  function Reversed(op: Op): Op {
    match op
    case Keep(x) => Keep(x)
    case Change(x, y) => Change(y, x)
    case Insert(y) => Delete(y)
    case Delete(x) => Insert(x)
  }

  lemma {:induction false} ReverseScript(script: Script) returns (back: Script)
    ensures Edits(back, Target(script), Source(script)) && Cost(back) == Cost(script)
  {
    if script == [] {
      back := [];
    } else {
      var rest := ReverseScript(script[..|script| - 1]);
      var last := script[|script| - 1];
      back := rest + [Reversed(last)];
      ScriptSnoc(rest, Reversed(last));
    }
  }

  lemma {:induction false} Symmetric(a: Tokens, b: Tokens)
    ensures Distance(a, b) == Distance(b, a)
  {
    DistanceUnder(a, b);
    DistanceUnder(b, a);
  }

  lemma {:induction false} DistanceUnder(a: Tokens, b: Tokens)
    ensures Distance(b, a) <= Distance(a, b)
  {
    var script := CheapestScript(a, b);
    var back := ReverseScript(script);
    NoScriptIsCheaper(back);
  }

  lemma {:induction false} FreeScriptKeeps(script: Script)
    requires Cost(script) == 0
    ensures Source(script) == Target(script)
  {
    if script != [] {
      FreeScriptKeeps(script[..|script| - 1]);
    }
  }

  lemma {:induction false} SelfDistance(a: Tokens)
    ensures Distance(a, a) == 0
  {
    if a != [] {
      SelfDistance(Init(a));
    }
  }

  lemma {:induction false} ZeroIffEqual(a: Tokens, b: Tokens)
    ensures Distance(a, b) == 0 <==> a == b
  {
    SelfDistance(a);
    var script := CheapestScript(a, b);
    if Cost(script) == 0 {
      FreeScriptKeeps(script);
    }
  }

  /** Two scripts that meet in the middle compose into one that costs no more than both. */
  lemma {:induction false} ComposeScripts(s: Script, t: Script) returns (u: Script)
    requires Target(s) == Source(t)
    ensures Edits(u, Source(s), Target(t)) && Cost(u) <= Cost(s) + Cost(t)
    decreases |s| + |t|
  {
    if s != [] && s[|s| - 1].Delete? {
      var rest := ComposeScripts(s[..|s| - 1], t);
      u := rest + [s[|s| - 1]];
      ScriptSnoc(rest, s[|s| - 1]);
    } else if t != [] && t[|t| - 1].Insert? {
      var rest := ComposeScripts(s, t[..|t| - 1]);
      u := rest + [t[|t| - 1]];
      ScriptSnoc(rest, t[|t| - 1]);
    } else if s == [] || t == [] {
      assert s == [] ==> Source(t) == [];
      assert t == [] ==> Target(s) == [];
      u := [];
    } else {
      u := ComposeLast(s, t);
    }
  }

  /** The last columns both touch the same middle word, and fuse into at most one. */
  lemma {:induction false} ComposeLast(s: Script, t: Script) returns (u: Script)
    requires s != [] && t != [] && Target(s) == Source(t)
    requires !s[|s| - 1].Delete? && !t[|t| - 1].Insert?
    ensures Edits(u, Source(s), Target(t)) && Cost(u) <= Cost(s) + Cost(t)
    decreases |s| + |t|, 0
  {
    hide Source, Target, Cost, Fused;
    MiddleWordsMeet(s, t);
    LastColumnTaken(s);
    LastColumnTaken(t);
    var s1, t1 := s[..|s| - 1], t[..|t| - 1];
    var p, q := s[|s| - 1], t[|t| - 1];
    var rest := ComposeScripts(s1, t1);
    if p.Insert? && q.Delete? {
      u := rest;
      NothingAdded(Source(s1));
      NothingAdded(Target(t1));
    } else {
      var op := Fused(p, q);
      u := rest + [op];
      ScriptSnoc(rest, op);
    }
  }

  lemma NothingAdded(a: Tokens)
    ensures a + [] == a
  {
  }

  /** A script is its other columns and its last. */
  lemma LastColumnTaken(s: Script)
    requires s != []
    ensures var rest, op := s[..|s| - 1], s[|s| - 1];
            && Source(s) == Source(rest) + (if op.Insert? then [] else [op.x])
            && Target(s) == Target(rest) + (if op.Delete? then [] else if op.Keep? then [op.x] else [op.y])
            && Cost(s) == Cost(rest) + (if op.Keep? then 0 else 1)
  {
    assert s[..|s| - 1] + [s[|s| - 1]] == s;
    ScriptSnoc(s[..|s| - 1], s[|s| - 1]);
  }

  /** One column that does the work of two about the same middle word. */
  function Fused(p: Op, q: Op): (op: Op)
    requires !p.Delete? && !q.Insert? && !(p.Insert? && q.Delete?)
    requires (if p.Keep? then p.x else p.y) == q.x
    ensures op.Insert? <==> p.Insert?
    ensures op.Delete? <==> q.Delete?
    ensures !op.Insert? ==> op.x == p.x
    ensures !op.Delete? ==> (if op.Keep? then op.x else op.y) == (if q.Keep? then q.x else q.y)
    ensures op.Keep? <== p.Keep? && q.Keep?
  {
    if p.Insert? then Insert(if q.Keep? then q.x else q.y)
    else if q.Delete? then Delete(p.x)
    else Fuse(p.x, if q.Keep? then q.x else q.y)
  }

  function Fuse(x: string, y: string): Op {
    if x == y then Keep(x) else Change(x, y)
  }

  lemma MiddleWordsMeet(s: Script, t: Script)
    requires s != [] && t != [] && Target(s) == Source(t)
    requires !s[|s| - 1].Delete? && !t[|t| - 1].Insert?
    ensures Target(s[..|s| - 1]) == Source(t[..|t| - 1])
    ensures (if s[|s| - 1].Keep? then s[|s| - 1].x else s[|s| - 1].y) == t[|t| - 1].x
  {
    var m := Target(s);
    assert Target(s[..|s| - 1]) == m[..|m| - 1];
    assert Source(t[..|t| - 1]) == m[..|m| - 1];
    assert m[|m| - 1] == t[|t| - 1].x;
  }

  lemma {:induction false} Triangle(a: Tokens, b: Tokens, c: Tokens)
    ensures Distance(a, c) <= Distance(a, b) + Distance(b, c)
  {
    var s := CheapestScript(a, b);
    var t := CheapestScript(b, c);
    var u := ComposeScripts(s, t);
    NoScriptIsCheaper(u);
  }

  lemma {:induction false} WithinLengths(a: Tokens, b: Tokens)
    ensures Distance(a, b) <= if |a| < |b| then |b| else |a|
    ensures |a| <= |b| + Distance(a, b) && |b| <= |a| + Distance(a, b)
    decreases |a| + |b|
  {
    if a != [] && b != [] {
      WithinLengths(Init(a), Init(b));
      WithinLengths(Init(a), b);
      WithinLengths(a, Init(b));
    }
  }

  // ---------------------------------------------------------------- the two loops

  /** Row `i` of the table, up to column `n`. */
  ghost predicate IsRow(row: seq<nat>, a: Tokens, b: Tokens, i: nat, n: nat)
    requires i <= |a| && n <= |b| + 1 && |row| == |b| + 1
  {
    forall j :: 0 <= j < n ==> row[j] == Distance(a[..i], b[..j])
  }

  lemma Cell(a: Tokens, b: Tokens, i: nat, j: nat)
    requires i < |a| && j < |b|
    ensures Distance(a[..i + 1], b[..j + 1])
            == Min(Distance(a[..i], b[..j]) + (if a[i] == b[j] then 0 else 1),
                   Min(Distance(a[..i], b[..j + 1]), Distance(a[..i + 1], b[..j])) + 1)
  {
    assert Init(a[..i + 1]) == a[..i] && Init(b[..j + 1]) == b[..j];
  }

  /** The edges of the table. */
  lemma Edges(a: Tokens, b: Tokens)
    ensures forall i :: 0 <= i <= |a| ==> Distance(a[..i], b[..0]) == i
    ensures forall j :: 0 <= j <= |b| ==> Distance(a[..0], b[..j]) == j
    ensures a == [] ==> Distance(a, b) == |b|
    ensures b == [] ==> Distance(a, b) == |a|
  {
  }

  method ComputeDistance(a: Tokens, b: Tokens) returns (d: nat)
    ensures d == Distance(a, b)
  {
    Edges(a, b);
    hide Distance;
    var prev := new nat[|b| + 1](j => j);
    var cur := new nat[|b| + 1];
    for i := 0 to |a|
      invariant fresh(prev) && fresh(cur) && prev != cur
      invariant prev.Length == cur.Length == |b| + 1
      invariant IsRow(prev[..], a, b, i, |b| + 1)
    {
      cur[0] := i + 1;
      for j := 0 to |b|
        invariant IsRow(prev[..], a, b, i, |b| + 1)
        invariant IsRow(cur[..], a, b, i + 1, j + 1)
      {
        Cell(a, b, i, j);
        var sub := prev[j] + (if a[i] != b[j] then 1 else 0);
        cur[j + 1] := Min(Min(sub, prev[j + 1] + 1), cur[j] + 1);
      }
      prev, cur := cur, prev;
    }
    assert a[..|a|] == a && b[..|b|] == b;
    d := prev[|b|];
  }

  /** The spike's version: early exits, one-based indices, the minimum taken in another order. */
  method TokenEditDistance(a: Tokens, b: Tokens) returns (d: nat)
    ensures d == Distance(a, b)
  {
    Edges(a, b);
    hide Distance;
    var n, m := |a|, |b|;
    if n == 0 {
      return m;
    }
    if m == 0 {
      return n;
    }
    var prev := new nat[m + 1](j => j);
    var cur := new nat[m + 1];
    for i := 1 to n + 1
      invariant fresh(prev) && fresh(cur) && prev != cur
      invariant prev.Length == cur.Length == m + 1
      invariant IsRow(prev[..], a, b, i - 1, m + 1)
    {
      cur[0] := i;
      for j := 1 to m + 1
        invariant IsRow(prev[..], a, b, i - 1, m + 1)
        invariant IsRow(cur[..], a, b, i, j)
      {
        Cell(a, b, i - 1, j - 1);
        var cost := if a[i - 1] == b[j - 1] then 0 else 1;
        cur[j] := Min(Min(prev[j] + 1, cur[j - 1] + 1), prev[j - 1] + cost);
      }
      prev, cur := cur, prev;
    }
    assert a[..n] == a && b[..m] == b;
    d := prev[m];
  }

  /** What either loop returns: a script of that cost exists, and none is cheaper. */
  lemma DistanceIsOptimal(a: Tokens, b: Tokens)
    ensures exists script :: Edits(script, a, b) && Cost(script) == Distance(a, b)
    ensures forall script :: Edits(script, a, b) ==> Distance(a, b) <= Cost(script)
  {
    var best := CheapestScript(a, b);
    forall script | Edits(script, a, b)
      ensures Distance(a, b) <= Cost(script)
    {
      NoScriptIsCheaper(script);
    }
  }
}
