/**
 * Which maps the decoder refuses as having duplicate keys. Integer keys are compared after
 * rounding to doubles, so different ones can collide.
 */
module CborKeys {
  import opened Outcomes
  import opened Bytes
  import opened Cbor
  import opened CborGrammar

  datatype Pair = Pair(key: Item, value: Item)

  function Flat(pairs: seq<Pair>): (flat: seq<Item>)
    ensures |flat| == 2 * |pairs|
  {
    if pairs == [] then [] else [pairs[0].key, pairs[0].value] + Flat(pairs[1..])
  }

  /** A key the decoder can use: an integer, or text that decodes. */
  predicate IsKeyItem(txt: TextDecoder, it: Item) {
    KeyOf(Meaning(txt, it)).Some?
  }

  /** The key as it is read: text as decoded, an integer as the double nearest to it. */
  function KeyRead(txt: TextDecoder, it: Item): Key
    requires IsKeyItem(txt, it)
  {
    KeyOf(Meaning(txt, it)).value
  }

  ghost predicate GoodPairs(txt: TextDecoder, pairs: seq<Pair>) {
    forall i :: 0 <= i < |pairs| ==> IsKeyItem(txt, pairs[i].key) && Meaning(txt, pairs[i].value).Some?
  }

  /** Two keys read alike. */
  ghost predicate Collide(txt: TextDecoder, pairs: seq<Pair>)
    requires GoodPairs(txt, pairs)
  {
    exists i, j :: 0 <= i < j < |pairs| && KeyRead(txt, pairs[i].key) == KeyRead(txt, pairs[j].key)
  }

  /** A key already among the entries read. */
  ghost predicate Seen(txt: TextDecoder, pairs: seq<Pair>, out: seq<Entry>)
    requires GoodPairs(txt, pairs)
  {
    exists i :: 0 <= i < |pairs| && HasKey(out, KeyRead(txt, pairs[i].key))
  }

  lemma HasKeySnoc(out: seq<Entry>, e: Entry, key: Key)
    ensures HasKey(out + [e], key) <==> HasKey(out, key) || e.key == key
  {
    if HasKey(out, key) {
      var i :| 0 <= i < |out| && out[i].key == key;
      assert (out + [e])[i].key == key;
    }
    assert (out + [e])[|out|] == e;
  }

  /** Taking the first pair off: collisions are with it, among the rest, or with what was seen. */
  lemma CollisionsSplit(txt: TextDecoder, pairs: seq<Pair>, out: seq<Entry>, v: Value)
    requires pairs != [] && GoodPairs(txt, pairs)
    ensures GoodPairs(txt, pairs[1..])
    ensures var first := KeyRead(txt, pairs[0].key);
            Collide(txt, pairs) || Seen(txt, pairs, out)
            <==> HasKey(out, first) || Collide(txt, pairs[1..]) || Seen(txt, pairs[1..], out + [Entry(first, v)])
  {
    hide HasKey, KeyRead, IsKeyItem, Meaning;
    var rest := pairs[1..];
    var first := KeyRead(txt, pairs[0].key);
    var e := Entry(first, v);
    assert forall i :: 0 <= i < |rest| ==> rest[i] == pairs[i + 1];
    forall key {
      HasKeySnoc(out, e, key);
    }
    if i, j :| 0 <= i < j < |pairs| && KeyRead(txt, pairs[i].key) == KeyRead(txt, pairs[j].key) {
      if i == 0 {
        assert HasKey(out + [e], KeyRead(txt, rest[j - 1].key));
      } else {
        assert KeyRead(txt, rest[i - 1].key) == KeyRead(txt, rest[j - 1].key);
      }
    }
    if i :| 0 <= i < |pairs| && HasKey(out, KeyRead(txt, pairs[i].key)) {
      assert i == 0 || HasKey(out + [e], KeyRead(txt, rest[i - 1].key));
    }
    if i, j :| 0 <= i < j < |rest| && KeyRead(txt, rest[i].key) == KeyRead(txt, rest[j].key) {
      assert KeyRead(txt, pairs[i + 1].key) == KeyRead(txt, pairs[j + 1].key);
    }
    if i :| 0 <= i < |rest| && HasKey(out + [e], KeyRead(txt, rest[i].key)) {
      assert KeyRead(txt, pairs[0].key) == KeyRead(txt, pairs[i + 1].key) || HasKey(out, KeyRead(txt, pairs[i + 1].key));
    }
  }

  lemma {:induction false} EntriesIff(txt: TextDecoder, pairs: seq<Pair>, out: seq<Entry>)
    requires GoodPairs(txt, pairs)
    ensures EntriesOf(txt, Flat(pairs), out).None? <==> Collide(txt, pairs) || Seen(txt, pairs, out)
    decreases |pairs|
  {
    hide Meaning, HasKey, KeyRead, KeyOf;
    if pairs != [] {
      var p := pairs[0];
      var v := Meaning(txt, p.value).value;
      CollisionsSplit(txt, pairs, out, v);
      FirstEntry(txt, p, Flat(pairs[1..]), out);
      if !HasKey(out, KeyRead(txt, p.key)) {
        EntriesIff(txt, pairs[1..], out + [Entry(KeyRead(txt, p.key), v)]);
      }
    }
  }

  lemma FirstEntry(txt: TextDecoder, p: Pair, rest: seq<Item>, out: seq<Entry>)
    requires IsKeyItem(txt, p.key) && Meaning(txt, p.value).Some?
    ensures var key := KeyRead(txt, p.key);
            EntriesOf(txt, [p.key, p.value] + rest, out)
            == if HasKey(out, key) then None else EntriesOf(txt, rest, out + [Entry(key, Meaning(txt, p.value).value)])
  {
    hide Meaning, KeyOf, HasKey;
    var flat := [p.key, p.value] + rest;
    assert flat[0] == p.key && flat[1] == p.value && flat[2..] == rest;
  }

  // ---------------------------------------------------------------- the parser on a collision

  /** A repeated key stops the map loop with just that error. */
  lemma {:induction false} ParsesDuplicate(
    txt: TextDecoder, buf: seq<Byte>, pos: nat, pairs: seq<Pair>, depth: nat, out: seq<Entry>)
    requires |buf| < TWO53 && GoodPairs(txt, pairs)
    requires AllFit(Flat(pairs)) && StandsAt(buf, pos, EncodeItems(Flat(pairs)))
    requires depth + DepthAll(Flat(pairs)) <= MAX_DEPTH + 1 && EntriesOf(txt, Flat(pairs), out).None?
    ensures pos <= |buf| && ParseEntries(txt, buf, pos, |pairs|, depth, out) == Err(DuplicateKey)
    decreases |pairs|
  {
    hide Encode, Meaning, WidthsFit, ParseValue, StandsAt, Depth, HasKey, KeyOf, EncodeItems, DepthAll, AllFit;
    hide EntriesOf;
    if pairs == [] {
      NothingCollides(txt, out);
    } else {
      var p, flat := pairs[0], Flat(pairs);
      var rest := Flat(pairs[1..]);
      assert flat[0] == p.key && flat[1] == p.value && flat[2..] == rest;
      TwoItems(flat);
      var k, v := Encode(p.key), Encode(p.value);
      StandsSplit(buf, pos, k + v, EncodeItems(rest));
      StandsSplit(buf, pos, k, v);
      StandsInside(buf, pos, k);
      StandsInside(buf, pos + |k|, v);
      KeyIsMeaning(Meaning(txt, p.key));
      ParsesEncoding(txt, buf, pos, p.key, depth);
      ParsesEncoding(txt, buf, pos + |k|, p.value, depth);
      FirstEntry(txt, p, rest, out);
      if !HasKey(out, KeyRead(txt, p.key)) {
        assert GoodPairs(txt, pairs[1..]);
        ParsesDuplicate(txt, buf, pos + |k + v|, pairs[1..], depth,
                        out + [Entry(KeyRead(txt, p.key), Meaning(txt, p.value).value)]);
      }
    }
  }

  lemma NothingCollides(txt: TextDecoder, out: seq<Entry>)
    ensures EntriesOf(txt, [], out) == Some(out)
  {
  }

  /**
   * A map whose keys and values are all well formed is refused, and then as a duplicate,
   * exactly when two of its keys read alike.
   */
  lemma RefusedIffKeysCollide(txt: TextDecoder, w: Width, pairs: seq<Pair>)
    requires GoodPairs(txt, pairs) && WidthsFit(Dict(w, Flat(pairs))) && Depth(Dict(w, Flat(pairs))) <= MAX_DEPTH + 1
    requires |Encode(Dict(w, Flat(pairs)))| < TWO53
    ensures var it := Dict(w, Flat(pairs));
            if Collide(txt, pairs) then Decode(txt, Encode(it)) == Err(DuplicateKey)
            else Meaning(txt, it).Some? && Decode(txt, Encode(it)) == Ok(Meaning(txt, it).value)
  {
    hide Encode, EntriesOf, ParseValue, Flat, Collide, KeyRead, Decode;
    var it := Dict(w, Flat(pairs));
    EntriesIff(txt, pairs, []);
    assert !Seen(txt, pairs, []);
    if Collide(txt, pairs) {
      CollisionIsRefused(txt, w, pairs);
    } else {
      DecodesEveryEncoding(txt, it);
    }
  }

  lemma CollisionIsRefused(txt: TextDecoder, w: Width, pairs: seq<Pair>)
    requires GoodPairs(txt, pairs) && WidthsFit(Dict(w, Flat(pairs))) && Depth(Dict(w, Flat(pairs))) <= MAX_DEPTH + 1
    requires |Encode(Dict(w, Flat(pairs)))| < TWO53 && EntriesOf(txt, Flat(pairs), []).None?
    ensures Decode(txt, Encode(Dict(w, Flat(pairs)))) == Err(DuplicateKey)
  {
    hide HeadAt, HeadBytes, ToDouble, ParseEntries, AllFit, EntriesOf, EncodeItems, Meaning, DepthAll;
    var it := Dict(w, Flat(pairs));
    var buf := Encode(it);
    var head := HeadBytes(Major(it), it.w, Arg(it));
    assert buf[0..0 + |buf|] == buf;
    StandsSplit(buf, 0, head, Body(it));
    HeadRoundTrip(buf, 0, it);
    ArgIsExact(it);
    ParsesDuplicate(txt, buf, |head|, pairs, 1, []);
  }

  // ---------------------------------------------------------------- in terms of what was written

  predicate IsInteger(it: Item) {
    it.UInt? || it.NInt?
  }

  /** The integer written. */
  function Written(it: Item): int
    requires IsInteger(it)
  {
    if it.UInt? then it.n else 0 - 1 - it.n
  }

  /** The double it is read as. */
  function NumberOf(it: Item): int
    requires IsInteger(it)
  {
    if it.UInt? then Read(it) else 0 - ToDouble(1 + Read(it))
  }

  /** An integer within 2^53 either way is read as written. */
  predicate Small(it: Item)
    requires IsInteger(it)
  {
    0 - TWO53 <= Written(it) <= TWO53
  }

  lemma SmallIsExact(it: Item)
    requires IsInteger(it) && Small(it)
    ensures NumberOf(it) == Written(it)
  {
    SmallIntegersAreExact(it.n);
    SmallIntegersAreExact(it.n + 1);
    hide ToDouble;
  }

  /** When two keys read alike: integers that round to the same double, or texts that decode alike; never one of each. */
  lemma KeysReadAlikeIff(txt: TextDecoder, a: Item, b: Item)
    requires IsKeyItem(txt, a) && IsKeyItem(txt, b)
    ensures KeyRead(txt, a) == KeyRead(txt, b)
            <==> || (IsInteger(a) && IsInteger(b) && NumberOf(a) == NumberOf(b))
                 || (a.TStr? && b.TStr? && txt(a.utf8) == txt(b.utf8))
  {
    hide ToDouble, Meanings, EntriesOf;
  }

  /** Keys within 2^53, or text: only a key written twice, or two texts that decode alike, are refused. */
  lemma SmallKeysCollideOnlyIfEqual(txt: TextDecoder, a: Item, b: Item)
    requires IsKeyItem(txt, a) && IsKeyItem(txt, b)
    requires IsInteger(a) ==> Small(a)
    requires IsInteger(b) ==> Small(b)
    ensures KeyRead(txt, a) == KeyRead(txt, b)
            <==> || (IsInteger(a) && IsInteger(b) && Written(a) == Written(b))
                 || (a.TStr? && b.TStr? && txt(a.utf8) == txt(b.utf8))
  {
    KeysReadAlikeIff(txt, a, b);
    if IsInteger(a) {
      SmallIsExact(a);
    }
    if IsInteger(b) {
      SmallIsExact(b);
    }
    hide KeyRead, NumberOf, Written, IsKeyItem;
  }

  const TWIN: seq<Pair> := [Pair(UInt(Eight, TWO53), UInt(InHead, 0)), Pair(UInt(Eight, TWO53 + 1), UInt(InHead, 0))]

  /** The two different keys 2^53 and 2^53 + 1 are refused as duplicates. */
  lemma CollidingKeys(txt: TextDecoder)
    ensures var it := Dict(InHead, Flat(TWIN));
            && WidthsFit(it) && Meaning(txt, it).None?
            && Decode(txt, Encode(it)) == Err(DuplicateKey)
    ensures Written(TWIN[0].key) != Written(TWIN[1].key)
  {
    TwinIsEncodable();
    TwinCollides(txt);
    hide Encode, WidthsFit, Decode, Collide, ToDouble, Flat;
    EntriesIff(txt, TWIN, []);
    RefusedIffKeysCollide(txt, InHead, TWIN);
  }

  lemma TwinCollides(txt: TextDecoder)
    ensures GoodPairs(txt, TWIN) && Collide(txt, TWIN)
  {
    SmallIntegersAreExact(TWO53);
    hide ToDouble;
    assert KeyRead(txt, TWIN[0].key) == KeyRead(txt, TWIN[1].key);
  }

  lemma TwinIsEncodable()
    ensures WidthsFit(Dict(InHead, Flat(TWIN))) && Depth(Dict(InHead, Flat(TWIN))) <= MAX_DEPTH + 1
    ensures |Encode(Dict(InHead, Flat(TWIN)))| == 21
  {
    hide AllFit, EncodeItems, DepthAll;
    var a, b, zero := TWIN[0].key, TWIN[1].key, UInt(InHead, 0);
    OneInteger(Eight, TWO53);
    OneInteger(Eight, TWO53 + 1);
    OneInteger(InHead, 0);
    assert TWIN[1..] == [TWIN[1]] && TWIN[1..][1..] == [];
    assert Flat(TWIN) == [a, zero] + ([b, zero] + []);
    hide Flat;
    NoEncodedItems();
    PairFits(b, zero, []);
    PairFits(a, zero, [b, zero] + []);
  }

  lemma OneInteger(w: Width, n: nat)
    requires (w == InHead && n < 24) || (w == Eight && n <= TWO53 + 1)
    ensures WidthsFit(UInt(w, n)) && |Encode(UInt(w, n))| == 1 + Size(w) && Depth(UInt(w, n)) == 1
  {
    Powers();
    hide Pow256;
  }

  lemma NoEncodedItems()
    ensures AllFit([]) && EncodeItems([]) == [] && DepthAll([]) == 0
  {
  }
}
