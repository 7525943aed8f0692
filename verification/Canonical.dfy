/**
 * Canonical tokens: every token the graders produce is a fixed point of the pipeline,
 * so `token_set` is idempotent; `tokens_ordered` is so exactly when nothing is left to merge.
 */
module Canonical {
  import opened Outcomes
  import opened Decimals
  import opened Normalizing

  predicate IsLowerAlnum(w: string) {
    forall i :: 0 <= i < |w| ==> IsDigit(w[i]) || IsLower(w[i])
  }

  /** A token the pipeline leaves alone. */
  ghost predicate Canon(t: string) {
    && t != "" && IsLowerAlnum(t) && NoDimension(t)
    && StripPlural(t) == t && t !in NUMBER_WORDS
  }

  ghost predicate AllCanon(ts: seq<string>) {
    forall i :: 0 <= i < |ts| ==> Canon(ts[i])
  }

  // ---------------------------------------------------------------- what the pipeline produces is canonical

  /** No upper-case letter survives lowering and rewriting. */
  predicate NoUpper(s: string) {
    forall i :: 0 <= i < |s| ==> !IsUpper(s[i])
  }

  lemma {:induction false} RewriteAddsNoUpper(s: string, i: nat)
    requires i <= |s| && NoUpper(s)
    ensures NoUpper(RewriteFrom(s, i))
    decreases |s| - i
  {
    if i < |s| {
      RewriteAddsNoUpper(s, i + 1);
      assert NoUpper(Piece(s, i));
    }
  }

  ghost predicate GoodWord(w: string) {
    w != "" && IsLowerAlnum(w) && NoDimension(w)
  }

  lemma {:induction false} WordsAreGood(s: string, cur: string)
    requires IsLowerAlnum(cur) && NoUpper(s) && NoDimension(cur + s)
    ensures forall w :: w in WordsFrom(s, cur) ==> GoodWord(w)
    decreases |s|
  {
    hide NoDimension;
    assert (cur + s)[0..|cur|] == cur;
    NoDimensionSub(cur + s, 0, |cur|);
    if s != "" {
      if IsAlnum(s[0]) {
        assert (cur + [s[0]]) + s[1..] == cur + s;
        WordsAreGood(s[1..], cur + [s[0]]);
      } else {
        assert (cur + s)[|cur| + 1..|cur + s|] == "" + s[1..];
        NoDimensionSub(cur + s, |cur| + 1, |cur + s|);
        WordsAreGood(s[1..], "");
      }
    }
  }

  lemma StripIsGood(w: string)
    requires GoodWord(w)
    ensures GoodWord(StripPlural(w)) && StripPlural(StripPlural(w)) == StripPlural(w)
  {
    var t := StripPlural(w);
    if t != w {
      assert t == w[0..|w| - 1];
      NoDimensionSub(w, 0, |w| - 1);
      if IsNumber(t) {
        assert !EndsWith(t, 's');
      }
    }
  }

  /** A number word, checked by its first letter: no word begins with a digit. */
  lemma NumberWordsBeginWithLetters(t: string)
    requires t in NUMBER_WORDS
    ensures t != "" && !IsDigit(t[0])
  {
  }

  lemma NumberIsCanon(t: string)
    requires IsNumber(t)
    ensures Canon(t)
  {
    assert !EndsWith(t, 's');
    if t in NUMBER_WORDS {
      NumberWordsBeginWithLetters(t);
    }
  }

  lemma MappedIsCanon(t: string)
    requires GoodWord(t) && StripPlural(t) == t
    ensures Canon(WordToDigits(t))
  {
    if t in NUMBER_WORDS {
      NumberIsCanon(WordToDigits(t));
    }
  }

  lemma {:induction false} MergeKeepsCanon(m: seq<string>)
    requires AllCanon(m)
    ensures AllCanon(MergeHundreds(m))
  {
    hide Canon, MergedValue, Value;
    if m != [] {
      if !MergesAt(m, 0) {
        MergeKeepsCanon(m[1..]);
      } else if |m| > 2 && Absorbs(m[2]) {
        MergeKeepsCanon(m[3..]);
        NumberIsCanon(ToDecimal(MergedValue(m[0], Value(m[2]))));
      } else {
        MergeKeepsCanon(m[2..]);
        NumberIsCanon(ToDecimal(MergedValue(m[0], 0)));
      }
    }
  }

  /** Every token of any text is canonical. */
  lemma TokensAreCanon(s: Ascii)
    ensures AllCanon(TokensOrdered(s))
  {
    var low := Lower(s);
    assert NoUpper(low);
    RewriteAddsNoUpper(low, 0);
    RewriteSeparates(low, 0);
    assert "" + Rewrite(low) == Rewrite(low);
    WordsAreGood(Rewrite(low), "");
    var words := Words(Rewrite(low));
    var stripped := StripAll(words);
    var mapped := MapNumbers(stripped);
    forall i | 0 <= i < |mapped|
      ensures Canon(mapped[i])
    {
      assert words[i] in words;
      StripIsGood(words[i]);
      MappedIsCanon(stripped[i]);
    }
    MergeKeepsCanon(mapped);
  }

  // ---------------------------------------------------------------- canonical tokens are fixed points

  /** Tokens joined by single spaces. */
  function Join(ts: seq<string>): string {
    if ts == [] then "" else if |ts| == 1 then ts[0] else ts[0] + " " + Join(ts[1..])
  }

  ghost predicate Plain(s: string) {
    NoDimension(s) && forall i :: 0 <= i < |s| ==> s[i] == ' ' || IsDigit(s[i]) || IsLower(s[i])
  }

  ghost predicate AllGood(ts: seq<string>) {
    forall i :: 0 <= i < |ts| ==> GoodWord(ts[i])
  }

  lemma {:induction false} JoinIsPlain(ts: seq<string>)
    requires AllGood(ts)
    ensures Plain(Join(ts))
  {
    if |ts| == 1 {
      assert GoodWord(ts[0]);
    } else if ts != [] {
      assert GoodWord(ts[0]);
      JoinIsPlain(ts[1..]);
      SpacedIsPlain(ts[0], Join(ts[1..]));
    }
  }

  lemma SpacedIsPlain(t: string, rest: string)
    requires Plain(t) && Plain(rest)
    ensures Plain(t + " " + rest)
  {
    var s := t + " " + rest;
    forall j | 0 < j < |s| - 1 && s[j] == 'x'
      ensures !(IsDigit(s[j - 1]) && IsDigit(s[j + 1]))
    {
      if j < |t| {
        assert t[j] == 'x';
        assert j == |t| - 1 ==> s[j + 1] == ' ';
      } else {
        assert rest[j - |t| - 1] == 'x';
        assert j == |t| + 1 ==> s[j - 1] == ' ';
      }
    }
  }

  lemma PlainPiece(s: string, i: nat)
    requires i < |s| && Plain(s)
    ensures Piece(s, i) == [s[i]]
  {
    assert s[i] != ',';
  }

  lemma {:induction false} PlainIsUntouched(s: string, i: nat)
    requires i <= |s| && Plain(s)
    ensures RewriteFrom(s, i) == s[i..]
    decreases |s| - i
  {
    hide Plain, Piece;
    if i < |s| {
      PlainIsUntouched(s, i + 1);
      PlainPiece(s, i);
      assert s[i..] == [s[i]] + s[i + 1..];
    }
  }

  lemma PlainIsLower(s: string)
    requires Plain(s)
    ensures Lower(s) == s
  {
    assert forall i :: 0 <= i < |s| ==> !IsUpper(s[i]);
  }

  lemma {:induction false} WordsTakeRun(t: string, rest: string, cur: string)
    requires IsLowerAlnum(t)
    ensures WordsFrom(t + rest, cur) == WordsFrom(rest, cur + t)
  {
    if t == "" {
      assert t + rest == rest && cur + t == cur;
    } else {
      assert (t + rest)[1..] == t[1..] + rest;
      WordsTakeRun(t[1..], rest, cur + [t[0]]);
      assert (cur + [t[0]]) + t[1..] == cur + t;
    }
  }

  lemma SplitOne(t: string)
    requires IsLowerAlnum(t) && t != ""
    ensures Words(t) == [t]
  {
    WordsTakeRun(t, "", "");
    assert t + "" == t && "" + t == t;
  }

  lemma SplitFirst(t: string, rest: string)
    requires IsLowerAlnum(t) && t != ""
    ensures Words(t + " " + rest) == [t] + Words(rest)
  {
    WordsTakeRun(t, " " + rest, "");
    assert t + " " + rest == t + (" " + rest);
    assert (" " + rest)[1..] == rest && "" + t == t;
  }

  lemma {:induction false} SplitUndoesJoin(ts: seq<string>)
    requires AllGood(ts)
    ensures Words(Join(ts)) == ts
  {
    if ts != [] {
      assert GoodWord(ts[0]);
      assert [ts[0]] + ts[1..] == ts;
      hide Words, WordsFrom;
      if |ts| == 1 {
        SplitOne(ts[0]);
      } else {
        SplitFirst(ts[0], Join(ts[1..]));
        SplitUndoesJoin(ts[1..]);
      }
    }
  }

  lemma CanonMapsToItself(ts: seq<string>)
    requires AllCanon(ts)
    ensures StripAll(ts) == ts && MapNumbers(ts) == ts
  {
    assert forall i :: 0 <= i < |ts| ==> Canon(ts[i]);
  }

  lemma PlainIsAscii(s: string)
    requires Plain(s)
    ensures forall c :: c in s ==> c as int < 128
  {
  }

  /** Joining lower-case words and splitting the text again gives the words back. */
  lemma ReadWords(ts: seq<string>)
    requires AllGood(ts)
    ensures forall c :: c in Join(ts) ==> c as int < 128
    ensures TokensOrdered(Join(ts)) == CombineNumbers(StripAll(ts))
  {
    JoinIsPlain(ts);
    PlainIsAscii(Join(ts));
    PlainIsLower(Join(ts));
    PlainIsUntouched(Join(ts), 0);
    SplitUndoesJoin(ts);
  }

  /** Reading canonical tokens back only ever merges hundreds. */
  lemma ReadBack(ts: seq<string>)
    requires AllCanon(ts)
    ensures forall c :: c in Join(ts) ==> c as int < 128
    ensures TokensOrdered(Join(ts)) == MergeHundreds(ts)
  {
    hide TokensOrdered;
    ReadWords(ts);
    CanonMapsToItself(ts);
  }

  // ---------------------------------------------------------------- main results

  ghost predicate NothingToMerge(ts: seq<string>) {
    forall i: nat :: i < |ts| ==> !MergesAt(ts, i)
  }

  lemma {:induction false} NoMergeKeeps(ts: seq<string>)
    requires NothingToMerge(ts)
    ensures MergeHundreds(ts) == ts
  {
    if ts != [] {
      forall i: nat | i < |ts| - 1
        ensures !MergesAt(ts[1..], i)
      {
        assert !MergesAt(ts, i + 1);
      }
      NoMergeKeeps(ts[1..]);
      assert !MergesAt(ts, 0);
      assert [ts[0]] + ts[1..] == ts;
    }
  }

  lemma {:induction false} MergeShrinks(ts: seq<string>)
    ensures |MergeHundreds(ts)| <= |ts|
    ensures !NothingToMerge(ts) ==> |MergeHundreds(ts)| < |ts|
  {
    hide MergedValue, Value;
    if ts != [] {
      if !MergesAt(ts, 0) {
        MergeShrinks(ts[1..]);
        if !NothingToMerge(ts) {
          var i: nat :| i < |ts| && MergesAt(ts, i);
          assert MergesAt(ts[1..], i - 1);
        }
      } else if |ts| > 2 && Absorbs(ts[2]) {
        MergeShrinks(ts[3..]);
      } else {
        MergeShrinks(ts[2..]);
      }
    }
  }

  /**
   * `token_set` is idempotent: join the tokens of any text in any order, with or
   * without repeats, and the set of the result is the same set.
   */
  lemma TokenSetIsIdempotent(s: Ascii, ts: seq<string>)
    requires (set t | t in ts) == TokenSet(s)
    ensures forall c :: c in Join(ts) ==> c as int < 128
    ensures TokenSet(Join(ts)) == TokenSet(s)
  {
    hide Canon, TokensOrdered;
    TokensAreCanon(s);
    forall i | 0 <= i < |ts|
      ensures Canon(ts[i]) && ts[i] != HUNDRED
    {
      assert ts[i] in TokenSet(s);
      var j :| 0 <= j < |TokensOrdered(s)| && TokensOrdered(s)[j] == ts[i];
    }
    ReadBack(ts);
    NoMergeKeeps(ts);
  }

  // ---------------------------------------------------------------- when reading back changes the tokens

  /** The tokens just before the hundred merge. */
  function Premerged(s: Ascii): seq<string> {
    MapNumbers(StripAll(Words(Rewrite(Lower(s)))))
  }

  /** A merge at `i` that leaves another "hundred" right behind what it takes. */
  predicate LeavesHundred(m: seq<string>, i: nat) {
    && MergesAt(m, i)
    && ((i + 2 < |m| && m[i + 2] == HUNDRED) || (i + 3 < |m| && Absorbs(m[i + 2]) && m[i + 3] == HUNDRED))
  }

  ghost predicate SomeLeavesHundred(m: seq<string>) {
    exists i: nat :: i < |m| && LeavesHundred(m, i)
  }

  /** The merge neither makes nor swallows a leading "hundred". */
  lemma MergedHead(m: seq<string>)
    ensures var r := MergeHundreds(m); (r != [] && r[0] == HUNDRED) <==> (m != [] && m[0] == HUNDRED)
  {
    HundredIsNoNumber();
    if m != [] {
      assert m[0..] == m;
      MergeFrom(m, 0);
      hide MergedValue, Value, ToDecimal, IsNumber;
    }
  }

  lemma NothingToMergeCons(t: string, rest: seq<string>)
    ensures NothingToMerge([t] + rest) <==> !(IsNumber(t) && rest != [] && rest[0] == HUNDRED) && NothingToMerge(rest)
  {
    hide IsNumber;
    var ts := [t] + rest;
    assert forall i: nat :: i < |rest| ==> (MergesAt(rest, i) <==> MergesAt(ts, i + 1));
    assert MergesAt(ts, 0) <==> IsNumber(t) && rest != [] && rest[0] == HUNDRED;
    if NothingToMerge(rest) && !MergesAt(ts, 0) {
      forall i: nat | i < |ts|
        ensures !MergesAt(ts, i)
      {
        assert i > 0 ==> !MergesAt(rest, i - 1);
      }
    }
    if NothingToMerge(ts) {
      forall i: nat | i < |rest|
        ensures !MergesAt(rest, i)
      {
        assert !MergesAt(ts, i + 1);
      }
    }
  }

  /** What the first turn of the merge leaves is left by it, or by the turns after it. */
  lemma FirstTurnLeaves(m: seq<string>)
    requires m != []
    ensures var (t, n) := MergedAt(m, 0);
            && n <= |m|
            && (LeavesHundred(m, 0) <==> IsNumber(t) && n < |m| && m[n] == HUNDRED)
            && (SomeLeavesHundred(m) <==> LeavesHundred(m, 0) || SomeLeavesHundred(m[n..]))
  {
    hide MergedValue, Value, ToDecimal;
    HundredIsNoNumber();
    AbsorbsNumbers();
    hide IsNumber, Absorbs;
    var (t, n) := MergedAt(m, 0);
    var rest := m[n..];
    assert forall i: nat :: i < |rest| ==> (LeavesHundred(rest, i) <==> LeavesHundred(m, i + n));
    if i: nat :| i < |m| && LeavesHundred(m, i) {
      if i >= n {
        assert LeavesHundred(rest, i - n);
      } else {
        assert i == 0 || LeavesHundred(m, 0);
      }
    }
    if i: nat :| i < |rest| && LeavesHundred(rest, i) {
      assert LeavesHundred(m, i + n);
    }
  }

  lemma {:induction false} MergeLeavesIff(m: seq<string>)
    ensures NothingToMerge(MergeHundreds(m)) <==> !SomeLeavesHundred(m)
    decreases |m|
  {
    hide MergedAt, IsNumber, LeavesHundred, NothingToMerge;
    if m == [] {
      NothingLeft();
    } else {
      assert m[0..] == m;
      MergeFrom(m, 0);
      FirstTurnLeaves(m);
      var (t, n) := MergedAt(m, 0);
      TakesSomething(m);
      MergeLeavesIff(m[n..]);
      MergedHead(m[n..]);
      NothingToMergeCons(t, MergeHundreds(m[n..]));
    }
  }

  lemma NothingLeft()
    ensures MergeHundreds([]) == [] && NothingToMerge([]) && !SomeLeavesHundred([])
  {
  }

  lemma TakesSomething(m: seq<string>)
    requires m != []
    ensures MergedAt(m, 0).1 > 0
  {
    hide MergedValue, Value, ToDecimal, IsNumber;
  }

  lemma TokensAreMerged(s: Ascii)
    ensures TokensOrdered(s) == MergeHundreds(Premerged(s))
  {
    hide MergeHundreds, MapNumbers, StripAll, Words, Rewrite, Lower;
  }

  /**
   * `tokens_ordered` of its own joined output gives that output back exactly when the text
   * has no merge with another "hundred" right behind it.
   */
  lemma TokensOrderedIdempotentIff(s: Ascii)
    ensures forall c :: c in Join(TokensOrdered(s)) ==> c as int < 128
    ensures TokensOrdered(Join(TokensOrdered(s))) == TokensOrdered(s) <==> !SomeLeavesHundred(Premerged(s))
    ensures TokensOrdered(Join(TokensOrdered(s))) == TokensOrdered(s) <==> NothingToMerge(TokensOrdered(s))
  {
    hide TokensOrdered, Canon, Premerged, SomeLeavesHundred, MergeHundreds, Join, NothingToMerge;
    var ts := TokensOrdered(s);
    TokensAreMerged(s);
    TokensAreCanon(s);
    ReadBack(ts);
    MergeShrinks(ts);
    MergeLeavesIff(Premerged(s));
    if NothingToMerge(ts) {
      NoMergeKeeps(ts);
    }
  }

  const SPOKEN: seq<string> := ["twelve", "hundred", "hundred"]

  const READ_ONCE: seq<string> := ["1200", "hundred"]

  /** "twelve hundred hundred" leaves something to merge, so reading its tokens back changes them. */
  lemma HundredHundredIsNotIdempotent()
    ensures Join(SPOKEN) == "twelve hundred hundred"
    ensures forall c :: c in Join(SPOKEN) || c in Join(READ_ONCE) ==> c as int < 128
    ensures TokensOrdered(Join(SPOKEN)) == READ_ONCE
    ensures TokensOrdered(Join(READ_ONCE)) == ["120000"]
  {
    hide TokensOrdered, StripAll, MapNumbers, MergeHundreds;
    SpokenText();
    SpokenWords();
    ReadWords(SPOKEN);
    ReadWords(READ_ONCE);
    MapNumbersHere();
    MergeTwice();
  }

  lemma SpokenText()
    ensures Join(SPOKEN) == "twelve hundred hundred"
  {
    assert SPOKEN[1..] == ["hundred", "hundred"] && SPOKEN[1..][1..] == ["hundred"];
    assert Join(SPOKEN[1..]) == "hundred hundred";
  }

  lemma SpokenWords()
    ensures AllGood(SPOKEN) && AllGood(READ_ONCE)
    ensures StripAll(SPOKEN) == SPOKEN && StripAll(READ_ONCE) == READ_ONCE
  {
    hide GoodWord, StripPlural;
    WordStays("twelve");
    WordStays("hundred");
    WordStays("1200");
  }

  lemma WordStays(w: string)
    requires w == "twelve" || w == "hundred" || w == "1200"
    ensures GoodWord(w) && StripPlural(w) == w
  {
    assert w[|w| - 1] != 's';
    assert forall j :: 0 <= j < |w| ==> w[j] != 'x';
  }

  lemma MergeTwice()
    ensures MergeHundreds(["12", "hundred", "hundred"]) == ["1200", "hundred"]
    ensures MergeHundreds(["1200", "hundred"]) == ["120000"]
  {
    hide MergedValue, ToDecimal, Value;
    HundredIsNoNumber();
    LoneHundred();
    MergedAmounts();
    var a, b := ["12", "hundred", "hundred"], ["1200", "hundred"];
    assert a[2..] == ["hundred"] && b[2..] == [];
    assert !Absorbs(a[2]);
  }

  lemma HundredIsNoNumber()
    ensures !IsNumber(HUNDRED) && IsNumber("12") && IsNumber("1200")
  {
    assert !IsDigit(HUNDRED[0]);
  }

  lemma LoneHundred()
    ensures MergeHundreds([HUNDRED]) == [HUNDRED] && MergeHundreds([]) == []
  {
    hide MergedValue;
  }

  lemma MergedAmounts()
    ensures IsNumber("12") && ToDecimal(MergedValue("12", 0)) == "1200"
    ensures IsNumber("1200") && ToDecimal(MergedValue("1200", 0)) == "120000"
  {
    Decimal12();
    Decimal1200();
    Decimal120000();
    hide ToDecimal, Value;
  }

  lemma MapNumbersHere()
    ensures MapNumbers(["twelve", "hundred", "hundred"]) == ["12", "hundred", "hundred"]
    ensures MapNumbers(["1200", "hundred"]) == ["1200", "hundred"]
  {
    Decimal12();
    NumberIsCanon("1200");
  }

  lemma Decimal12()
    ensures ToDecimal(12) == "12" && Value("12") == 12
  {
    ValueOfDecimal(12);
  }

  lemma Decimal1200()
    ensures ToDecimal(1200) == "1200" && Value("1200") == 1200
  {
    assert ToDecimal(120) == ToDecimal(12) + [DigitChar(0)];
    Decimal12();
    ValueOfDecimal(1200);
  }

  lemma Decimal120000()
    ensures ToDecimal(120000) == "120000"
  {
    Decimal1200();
    assert ToDecimal(12000) == ToDecimal(1200) + [DigitChar(0)];
  }
}
