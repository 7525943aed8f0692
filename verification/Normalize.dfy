/**
 * Token canonicalisation for the graders (crates/evals/src/normalize.rs), on ASCII text.
 */
module Normalizing {
  import opened Outcomes
  import opened Decimals

  type Ascii = s: string | forall c :: c in s ==> c as int < 128

  // ---------------------------------------------------------------- characters

  predicate IsLower(c: char) {
    'a' <= c <= 'z'
  }

  predicate IsUpper(c: char) {
    'A' <= c <= 'Z'
  }

  predicate IsAlnum(c: char) {
    IsDigit(c) || IsLower(c) || IsUpper(c)
  }

  function LowerChar(c: char): char {
    if IsUpper(c) then (c as int + 32) as char else c
  }

  function Lower(s: string): (r: string)
    ensures |r| == |s| && forall i :: 0 <= i < |s| ==> r[i] == LowerChar(s[i])
  {
    if s == "" then "" else [LowerChar(s[0])] + Lower(s[1..])
  }

  // ---------------------------------------------------------------- numeric punctuation

  predicate DigitAt(s: string, i: int) {
    0 <= i < |s| && IsDigit(s[i])
  }

  predicate Flanked(s: string, i: int) {
    DigitAt(s, i - 1) && DigitAt(s, i + 1)
  }

  /** What character `i` becomes: a separator comma vanishes, a dimension `x` is set apart. */
  function Piece(s: string, i: nat): string
    requires i < |s|
  {
    if s[i] == ',' && Flanked(s, i) then ""
    else if s[i] == 'x' && Flanked(s, i) then " x "
    else [s[i]]
  }

  function RewriteFrom(s: string, i: nat): string
    requires i <= |s|
    decreases |s| - i
  {
    if i == |s| then "" else Piece(s, i) + RewriteFrom(s, i + 1)
  }

  function Rewrite(s: string): string {
    RewriteFrom(s, 0)
  }

  method RewriteNumericPunctuation(s: string) returns (out: string)
    ensures out == Rewrite(s)
  {
    out := "";
    for i := 0 to |s|
      invariant out + RewriteFrom(s, i) == Rewrite(s)
    {
      RewriteStep(s, i, out);
      hide RewriteFrom;
      var c := s[i];
      var prevDigit := i > 0 && IsDigit(s[i - 1]);
      var nextDigit := i + 1 < |s| && IsDigit(s[i + 1]);
      if c == ',' && prevDigit && nextDigit {
        assert out + "" == out;
        continue;
      }
      if c == 'x' && prevDigit && nextDigit {
        out := out + " x ";
        continue;
      }
      out := out + [c];
    }
  }

  lemma RewriteStep(s: string, i: nat, out: string)
    requires i < |s|
    ensures out + RewriteFrom(s, i) == (out + Piece(s, i)) + RewriteFrom(s, i + 1)
  {
  }

  /** No `x` directly between two digits. */
  ghost predicate NoDimension(r: string) {
    forall j :: 0 < j < |r| - 1 && r[j] == 'x' ==> !(IsDigit(r[j - 1]) && IsDigit(r[j + 1]))
  }

  lemma NoDimensionSub(r: string, i: nat, j: nat)
    requires NoDimension(r) && i <= j <= |r|
    ensures NoDimension(r[i..j])
  {
    var t := r[i..j];
    forall k | 0 < k < |t| - 1 && t[k] == 'x'
      ensures !(IsDigit(t[k - 1]) && IsDigit(t[k + 1]))
    {
      assert r[i + k] == 'x';
    }
  }

  /** The first character of a rewritten suffix: a vanishing comma gives way to the digit after it. */
  lemma RewriteHead(s: string, i: nat)
    requires i < |s|
    ensures var r := RewriteFrom(s, i);
            if Piece(s, i) == "" then i + 1 < |s| && IsDigit(s[i + 1]) && r != "" && r[0] == s[i + 1]
            else r != "" && r[0] == Piece(s, i)[0]
    ensures Piece(s, i) != "" ==> RewriteFrom(s, i)[|Piece(s, i)|..] == RewriteFrom(s, i + 1)
  {
    if Piece(s, i) == "" {
      assert Piece(s, i + 1) == [s[i + 1]];
    }
  }

  /** After a digit, a surviving `x` is not followed by a digit. */
  lemma SurvivingX(s: string, i: nat)
    requires i < |s| && IsDigit(s[i])
    requires var rest := RewriteFrom(s, i + 1); |rest| > 1 && rest[0] == 'x'
    ensures !IsDigit(RewriteFrom(s, i + 1)[1])
  {
    RewriteHead(s, i + 1);
    assert s[i + 1] == 'x' && Piece(s, i + 1) == "x";
    RewriteHead(s, i + 2);
  }

  lemma {:induction false} RewriteSeparates(s: string, i: nat)
    requires i <= |s|
    ensures NoDimension(RewriteFrom(s, i))
    decreases |s| - i
  {
    if i < |s| {
      RewriteSeparates(s, i + 1);
      var rest := RewriteFrom(s, i + 1);
      if Piece(s, i) == " x " {
        PrependSeparated(rest);
      } else if Piece(s, i) == "" {
        assert "" + rest == rest;
      } else {
        if IsDigit(s[i]) && |rest| > 1 && rest[0] == 'x' {
          SurvivingX(s, i);
        }
        PrependChar(s[i], rest);
      }
    }
  }

  lemma PrependSeparated(rest: string)
    requires NoDimension(rest)
    ensures NoDimension(" x " + rest)
  {
    PrependChar(' ', rest);
    PrependChar('x', " " + rest);
    PrependChar(' ', "x" + (" " + rest));
    assert " x " + rest == " " + ("x" + (" " + rest));
  }

  lemma PrependChar(c: char, rest: string)
    requires NoDimension(rest)
    requires IsDigit(c) && |rest| > 1 && rest[0] == 'x' ==> !IsDigit(rest[1])
    ensures NoDimension([c] + rest)
  {
    var t := [c] + rest;
    forall j | 0 < j < |t| - 1 && t[j] == 'x'
      ensures !(IsDigit(t[j - 1]) && IsDigit(t[j + 1]))
    {
      assert t[j] == rest[j - 1] && t[j + 1] == rest[j];
    }
  }

  // ---------------------------------------------------------------- what the rewrite does, piece by piece

  /** Nothing in the text is a separator comma or a dimension `x`. */
  predicate NothingFlanked(s: string) {
    forall i :: 0 <= i < |s| && (s[i] == ',' || s[i] == 'x') ==> !Flanked(s, i)
  }

  lemma {:induction false} RewriteLeavesAlone(s: string, i: nat)
    requires i <= |s| && NothingFlanked(s)
    ensures RewriteFrom(s, i) == s[i..]
    decreases |s| - i
  {
    if i < |s| {
      RewriteLeavesAlone(s, i + 1);
      assert s[i..] == [s[i]] + s[i + 1..];
    }
  }

  predicate EndsInDigit(s: string) {
    s != "" && IsDigit(s[|s| - 1])
  }

  predicate StartsWithDigit(s: string) {
    s != "" && IsDigit(s[0])
  }

  /** A digit shields what stands before it from what comes after. */
  lemma {:induction false} RewriteBefore(u: string, w: string, i: nat)
    requires EndsInDigit(u) && i <= |u|
    ensures RewriteFrom(u + w, i) == RewriteFrom(u, i) + RewriteFrom(u + w, |u|)
    decreases |u| - i
  {
    hide Piece;
    if i < |u| {
      RewriteBefore(u, w, i + 1);
      var s := u + w;
      PieceBefore(u, w, i);
      assert Piece(u, i) + (RewriteFrom(u, i + 1) + RewriteFrom(s, |u|)) == Piece(u, i) + RewriteFrom(u, i + 1) + RewriteFrom(s, |u|);
    } else {
      assert RewriteFrom(u, i) == "";
    }
  }

  lemma {:induction false} RewriteAfter(u: string, w: string, i: nat)
    requires StartsWithDigit(w) && i <= |w|
    ensures RewriteFrom(u + w, |u| + i) == RewriteFrom(w, i)
    decreases |w| - i
  {
    hide Piece;
    if i < |w| {
      RewriteAfter(u, w, i + 1);
      PieceAfter(u, w, i);
    }
  }

  lemma PieceBefore(u: string, w: string, i: nat)
    requires EndsInDigit(u) && i < |u|
    ensures Piece(u + w, i) == Piece(u, i)
  {
    var s := u + w;
    assert s[i] == u[i] && (i > 0 ==> s[i - 1] == u[i - 1]) && (i + 1 < |u| ==> s[i + 1] == u[i + 1]);
  }

  lemma PieceAfter(u: string, w: string, i: nat)
    requires StartsWithDigit(w) && i < |w|
    ensures Piece(u + w, |u| + i) == Piece(w, i)
  {
    var s, j := u + w, |u| + i;
    assert s[j] == w[i] && (i > 0 ==> s[j - 1] == w[i - 1]) && (i + 1 < |w| ==> s[j + 1] == w[i + 1]);
  }

  /** Between digits a comma disappears and an `x` stands apart; with `RewriteLeavesAlone`, that is all the rewrite does. */
  lemma RewriteBetweenDigits(u: string, v: string)
    requires EndsInDigit(u) && StartsWithDigit(v)
    ensures Rewrite(u + "," + v) == Rewrite(u) + Rewrite(v)
    ensures Rewrite(u + "x" + v) == Rewrite(u) + " x " + Rewrite(v)
  {
    RewriteBetween(u, ',', v);
    RewriteBetween(u, 'x', v);
    assert u + "," + v == u + ([','] + v) && u + "x" + v == u + (['x'] + v);
    assert Rewrite(u) + ("" + Rewrite(v)) == Rewrite(u) + Rewrite(v);
    assert Rewrite(u) + (" x " + Rewrite(v)) == Rewrite(u) + " x " + Rewrite(v);
  }

  lemma RewriteBetween(u: string, c: char, v: string)
    requires EndsInDigit(u) && StartsWithDigit(v) && (c == ',' || c == 'x')
    ensures Rewrite(u + ([c] + v)) == Rewrite(u) + ((if c == ',' then "" else " x ") + Rewrite(v))
  {
    var s := u + ([c] + v);
    RewriteBefore(u, [c] + v, 0);
    assert s[|u|] == c && s[|u| - 1] == u[|u| - 1] && s[|u| + 1] == v[0];
    assert s == (u + [c]) + v;
    RewriteAfter(u + [c], v, 0);
  }

  // ---------------------------------------------------------------- words

  /** Maximal alphanumeric runs, with `cur` the run in progress. */
  function WordsFrom(s: string, cur: string): seq<string>
    decreases |s|
  {
    if s == "" then (if cur == "" then [] else [cur])
    else if IsAlnum(s[0]) then WordsFrom(s[1..], cur + [s[0]])
    else (if cur == "" then [] else [cur]) + WordsFrom(s[1..], "")
  }

  function Words(s: string): seq<string> {
    WordsFrom(s, "")
  }

  /** Text splits at any character that is not alphanumeric, and only there. */
  lemma {:induction false} WordsSplitAt(a: string, c: char, b: string, cur: string)
    requires !IsAlnum(c)
    ensures WordsFrom(a + [c] + b, cur) == WordsFrom(a, cur) + Words(b)
    decreases |a|
  {
    var s := a + [c] + b;
    if a == "" {
      assert s[0] == c && s[1..] == b;
    } else {
      assert s[0] == a[0] && s[1..] == a[1..] + [c] + b;
      if IsAlnum(a[0]) {
        WordsSplitAt(a[1..], c, b, cur + [a[0]]);
      } else {
        WordsSplitAt(a[1..], c, b, "");
      }
    }
  }

  lemma {:induction false} OneWord(w: string, cur: string)
    requires forall i :: 0 <= i < |w| ==> IsAlnum(w[i])
    ensures WordsFrom(w, cur) == if cur + w == "" then [] else [cur + w]
    decreases |w|
  {
    if w != "" {
      OneWord(w[1..], cur + [w[0]]);
      assert (cur + [w[0]]) + w[1..] == cur + w;
    } else {
      assert cur + w == cur;
    }
  }

  predicate EndsWith(w: string, c: char) {
    w != "" && w[|w| - 1] == c
  }

  function StripPlural(w: string): string {
    if |w| > 3 && EndsWith(w, 's') && !EndsWith(w[..|w| - 1], 's') then w[..|w| - 1]
    else if EndsWith(w, 's') && IsNumber(w[..|w| - 1]) then w[..|w| - 1]
    else w
  }

  /**
   * A plural `s` goes from a word of four letters or more that does not end in two of them,
   * and from a numeral of any length; every other word stays as it is.
   */
  lemma StripsPluralIff(t: string)
    ensures StripPlural(t + "s") == t <==> (|t| >= 3 && t[|t| - 1] != 's') || IsNumber(t)
    ensures StripPlural(t + "s") == t || StripPlural(t + "s") == t + "s"
    ensures !EndsWith(t, 's') ==> StripPlural(t) == t
  {
    var w := t + "s";
    assert w[..|w| - 1] == t && w != t;
  }

  function StripAll(ws: seq<string>): (r: seq<string>)
    ensures |r| == |ws| && forall i :: 0 <= i < |ws| ==> r[i] == StripPlural(ws[i])
  {
    if ws == [] then [] else [StripPlural(ws[0])] + StripAll(ws[1..])
  }

  // ---------------------------------------------------------------- number words

  const NUMBER_WORDS: map<string, nat> :=
    map["zero" := 0, "one" := 1, "two" := 2, "three" := 3, "four" := 4, "five" := 5, "six" := 6, "seven" := 7,
        "eight" := 8, "nine" := 9, "ten" := 10, "eleven" := 11, "twelve" := 12, "thirteen" := 13, "fourteen" := 14,
        "fifteen" := 15, "sixteen" := 16, "seventeen" := 17, "eighteen" := 18, "nineteen" := 19, "twenty" := 20,
        "thirty" := 30, "forty" := 40, "fifty" := 50, "sixty" := 60, "seventy" := 70, "eighty" := 80, "ninety" := 90]

  const STOPWORDS: set<string> :=
    {"the", "a", "an", "to", "of", "for", "and", "or", "is", "are", "was", "were", "on", "in", "at", "we", "i", "it",
     "that", "this", "with", "need", "needs", "by", "x", "hundred"}

  const HUNDRED: string := "hundred"

  const U64: nat := 0x1_0000_0000_0000_0000

  /** `parse::<u64>()` of a string of digits. */
  function ParseU64(s: string): Option<nat>
    requires IsNumber(s)
  {
    if Value(s) < U64 then Some(Value(s)) else None
  }

  /** `parse().unwrap_or(0) * 100 (+ n2)`, wrapping as a release build does; a debug build panics instead. */
  function MergedValue(head: string, tail: nat): nat
    requires IsNumber(head)
  {
    var n := match ParseU64(head) case Some(v) => v case None => 0;
    (n * 100 % U64 + tail) % U64
  }

  /** The numeral after "hundred" is absorbed when it is below a hundred. */
  predicate Absorbs(s: string) {
    IsNumber(s) && Value(s) < 100
  }

  function WordToDigits(t: string): string {
    if t in NUMBER_WORDS then ToDecimal(NUMBER_WORDS[t]) else t
  }

  function MapNumbers(ts: seq<string>): (r: seq<string>)
    ensures |r| == |ts| && forall i :: 0 <= i < |ts| ==> r[i] == WordToDigits(ts[i])
  {
    if ts == [] then [] else [WordToDigits(ts[0])] + MapNumbers(ts[1..])
  }

  predicate MergesAt(m: seq<string>, i: nat) {
    i + 1 < |m| && IsNumber(m[i]) && m[i + 1] == HUNDRED
  }

  function MergeHundreds(m: seq<string>): seq<string> {
    if m == [] then []
    else if !MergesAt(m, 0) then [m[0]] + MergeHundreds(m[1..])
    else if |m| > 2 && Absorbs(m[2]) then [ToDecimal(MergedValue(m[0], Value(m[2])))] + MergeHundreds(m[3..])
    else [ToDecimal(MergedValue(m[0], 0))] + MergeHundreds(m[2..])
  }

  function CombineNumbers(ts: seq<string>): seq<string> {
    MergeHundreds(MapNumbers(ts))
  }

  /** The token that the merge makes at `i`, and how many tokens it takes. */
  function MergedAt(m: seq<string>, i: nat): (string, nat)
    requires i < |m|
  {
    if !MergesAt(m, i) then (m[i], 1)
    else if i + 2 < |m| && Absorbs(m[i + 2]) then (ToDecimal(MergedValue(m[i], Value(m[i + 2]))), 3)
    else (ToDecimal(MergedValue(m[i], 0)), 2)
  }

  lemma MergeFrom(m: seq<string>, i: nat)
    requires i < |m|
    ensures var (t, n) := MergedAt(m, i);
            i + n <= |m| && MergeHundreds(m[i..]) == [t] + MergeHundreds(m[i + n..])
  {
    hide MergedValue, Value, ToDecimal, IsNumber;
    var t := m[i..];
    assert t[1..] == m[i + 1..];
    if MergesAt(m, i) {
      assert t[2..] == m[i + 2..];
      if i + 2 < |m| {
        assert t[3..] == m[i + 3..];
      }
    }
  }

  /** One turn of the loop moves one token from what is left to what is out. */
  lemma MergeTurn(m: seq<string>, i: nat, out: seq<string>)
    requires i < |m|
    ensures var (t, n) := MergedAt(m, i);
            i + n <= |m| && out + MergeHundreds(m[i..]) == (out + [t]) + MergeHundreds(m[i + n..])
  {
    hide MergeHundreds, MergedAt;
    MergeFrom(m, i);
  }

  method CombineNumberWords(tokens: seq<string>) returns (out: seq<string>)
    ensures out == CombineNumbers(tokens)
  {
    hide MergeHundreds, MergedValue, Value, ToDecimal, MapNumbers, IsNumber, Absorbs, ParseU64;
    var mapped := MapNumbers(tokens);
    MergeNothing();
    AbsorbsNumbers();
    out := [];
    var i := 0;
    assert mapped[0..] == mapped;
    while i < |mapped|
      invariant i <= |mapped|
      invariant out + MergeHundreds(mapped[i..]) == MergeHundreds(mapped)
    {
      MergeTurn(mapped, i, out);
      if IsNumber(mapped[i]) && i + 1 < |mapped| && mapped[i + 1] == HUNDRED {
        var parsed := ParseU64(mapped[i]);
        var val := (if parsed.Some? then parsed.value else 0) * 100 % U64;
        MergedFrom(mapped[i], val);
        var consumed := 2;
        if i + 2 < |mapped| && IsNumber(mapped[i + 2]) {
          var n2 := ParseU64(mapped[i + 2]);
          AbsorbsIff(mapped[i + 2]);
          if n2.Some? && n2.value < 100 {
            val := (val + n2.value) % U64;
            consumed := 3;
          }
        }
        assert MergedAt(mapped, i) == (ToDecimal(val), consumed);
        out := out + [ToDecimal(val)];
        i := i + consumed;
      } else {
        assert MergedAt(mapped, i) == (mapped[i], 1);
        out := out + [mapped[i]];
        i := i + 1;
      }
    }
    assert mapped[|mapped|..] == [];
  }

  lemma AbsorbsNumbers()
    ensures forall s :: Absorbs(s) ==> IsNumber(s)
  {
  }

  lemma AbsorbsIff(s: string)
    requires IsNumber(s)
    ensures Absorbs(s) <==> ParseU64(s).Some? && ParseU64(s).value < 100
    ensures Absorbs(s) ==> ParseU64(s).value == Value(s)
  {
  }

  lemma MergeNothing()
    ensures MergeHundreds([]) == []
  {
  }

  /** The amount before and after absorbing a numeral. */
  lemma MergedFrom(head: string, val: nat)
    requires IsNumber(head)
    requires val == (match ParseU64(head) case Some(v) => v case None => 0) * 100 % U64
    ensures MergedValue(head, 0) == val
    ensures forall tail: nat :: MergedValue(head, tail) == (val + tail) % U64
  {
  }

  /** The merge is exact while the amount fits in 64 bits, and only then. */
  lemma MergeIsExactIff(head: string, tail: nat)
    requires IsNumber(head) && tail < 100
    ensures MergedValue(head, tail) == 100 * Value(head) + tail <==> 100 * Value(head) + tail < U64
  {
  }

  /** A numeral and "hundred" become one amount, with a numeral below a hundred right behind them added in. */
  lemma MergesHundreds(head: string, rest: seq<string>)
    requires IsNumber(head) && 100 * Value(head) + 99 < U64
    ensures MergeHundreds([head, HUNDRED] + rest)
            == if rest != [] && Absorbs(rest[0])
               then [ToDecimal(100 * Value(head) + Value(rest[0]))] + MergeHundreds(rest[1..])
               else [ToDecimal(100 * Value(head))] + MergeHundreds(rest)
  {
    var m := [head, HUNDRED] + rest;
    assert m[2..] == rest && (rest != [] ==> m[2] == rest[0] && m[3..] == rest[1..]);
    MergeIsExactIff(head, 0);
    if rest != [] && Absorbs(rest[0]) {
      MergeIsExactIff(head, Value(rest[0]));
    }
    hide Value, ToDecimal, MergedValue, IsNumber;
  }

  /** Any other token stays as it is. */
  lemma KeepsOtherTokens(t: string, rest: seq<string>)
    requires !(IsNumber(t) && rest != [] && rest[0] == HUNDRED)
    ensures MergeHundreds([t] + rest) == [t] + MergeHundreds(rest)
  {
    hide Value, ToDecimal, MergedValue, IsNumber;
    var m := [t] + rest;
    assert m[1..] == rest;
  }

  function TokensOrdered(s: Ascii): seq<string> {
    CombineNumbers(StripAll(Words(Rewrite(Lower(s)))))
  }

  function TokenSet(s: Ascii): set<string> {
    set t | t in TokensOrdered(s) && t !in STOPWORDS
  }
}
