/**
 * The grammar of section 3.1 of RFC 8949 beside the decoder: a concrete syntax with a
 * free choice of head width. The decoder accepts exactly its well-formed encodings.
 */
module CborGrammar {
  import opened Outcomes
  import opened Bytes
  import opened Cbor

  /** How many bytes the argument of a head takes. */
  datatype Width = InHead | One | Two | Four | Eight

  datatype Item =
    | UInt(w: Width, n: nat)
    | NInt(w: Width, n: nat)
    | BStr(w: Width, bytes: seq<Byte>)
    | TStr(w: Width, utf8: seq<Byte>)
    | Arr(w: Width, items: seq<Item>)
    | Dict(w: Width, flat: seq<Item>)   // key, value, key, value, ...

  function Size(w: Width): nat {
    match w
    case InHead => 0
    case One => 1
    case Two => 2
    case Four => 4
    case Eight => 8
  }

  predicate Fits(w: Width, n: nat) {
    if w == InHead then n < 24 else n < Pow256(Size(w))
  }

  function InfoBits(w: Width, n: nat): nat
    requires Fits(w, n)
  {
    match w
    case InHead => n
    case One => 24
    case Two => 25
    case Four => 26
    case Eight => 27
  }

  function HeadBytes(major: nat, w: Width, n: nat): (s: seq<Byte>)
    requires major < 8 && Fits(w, n)
    ensures |s| == 1 + Size(w)
  {
    [major * 32 + InfoBits(w, n)] + BeBytes(n, Size(w))
  }

  function Major(it: Item): nat {
    match it
    case UInt(_, _) => 0
    case NInt(_, _) => 1
    case BStr(_, _) => 2
    case TStr(_, _) => 3
    case Arr(_, _) => 4
    case Dict(_, _) => 5
  }

  function Arg(it: Item): nat {
    match it
    case UInt(_, n) => n
    case NInt(_, n) => n
    case BStr(_, b) => |b|
    case TStr(_, b) => |b|
    case Arr(_, items) => |items|
    case Dict(_, flat) => |flat| / 2
  }

  /** Every argument fits the width chosen for it, and every key has a value. */
  predicate WidthsFit(it: Item)
    decreases it
  {
    && Fits(it.w, Arg(it))
    && match it
       case Arr(_, items) => AllFit(items)
       case Dict(_, flat) => |flat| % 2 == 0 && AllFit(flat)
       case _ => true
  }

  predicate AllFit(items: seq<Item>)
    decreases items
  {
    items == [] || (WidthsFit(items[0]) && AllFit(items[1..]))
  }

  function Encode(it: Item): (s: seq<Byte>)
    requires WidthsFit(it)
    decreases it
  {
    HeadBytes(Major(it), it.w, Arg(it)) + Body(it)
  }

  function Body(it: Item): seq<Byte>
    requires WidthsFit(it)
    decreases it, 0
  {
    match it
    case BStr(_, b) => b
    case TStr(_, b) => b
    case Arr(_, items) => EncodeItems(items)
    case Dict(_, flat) => EncodeItems(flat)
    case _ => []
  }

  function EncodeItems(items: seq<Item>): (s: seq<Byte>)
    requires AllFit(items)
    ensures |items| <= |s|
    decreases items
  {
    if items == [] then [] else Encode(items[0]) + EncodeItems(items[1..])
  }

  // ---------------------------------------------------------------- meaning

  /** A head argument as the decoder sees it: only 64-bit arguments can lose precision. */
  function Read(it: Item): nat {
    if it.w == InHead then Arg(it) else ToDouble(Arg(it))
  }

  function Meaning(txt: TextDecoder, it: Item): Option<Value>
    decreases it
  {
    match it
    case UInt(_, _) => Some(Int(Read(it)))
    case NInt(_, _) => Some(Int(0 - ToDouble(1 + Read(it))))
    case BStr(_, b) => Some(ByteString(b))
    case TStr(_, b) => (match txt(b) case None => None case Some(s) => Some(Text(s)))
    case Arr(_, items) => (match Meanings(txt, items, []) case None => None case Some(vs) => Some(Array(vs)))
    case Dict(_, flat) => (match EntriesOf(txt, flat, []) case None => None case Some(es) => Some(Map(es)))
  }

  function Meanings(txt: TextDecoder, items: seq<Item>, out: seq<Value>): Option<seq<Value>>
    decreases items
  {
    if items == [] then Some(out)
    else match Meaning(txt, items[0])
      case None => None
      case Some(v) => Meanings(txt, items[1..], out + [v])
  }

  /** Keys are text or integers, and none repeats an earlier one (section 5.6). */
  function EntriesOf(txt: TextDecoder, flat: seq<Item>, out: seq<Entry>): Option<seq<Entry>>
    decreases flat
  {
    if |flat| < 2 then (if flat == [] then Some(out) else None)
    else match KeyOf(Meaning(txt, flat[0]))
      case None => None
      case Some(key) =>
        if HasKey(out, key) then None
        else match Meaning(txt, flat[1])
          case None => None
          case Some(v) => EntriesOf(txt, flat[2..], out + [Entry(key, v)])
  }

  function KeyOf(v: Option<Value>): Option<Key> {
    match v
    case None => None
    case Some(k) => AsKey(k)
  }

  /** Levels of nesting. */
  function Depth(it: Item): (d: nat)
    ensures d >= 1
    decreases it
  {
    match it
    case Arr(_, items) => 1 + DepthAll(items)
    case Dict(_, flat) => 1 + DepthAll(flat)
    case _ => 1
  }

  function DepthAll(items: seq<Item>): nat
    decreases items
  {
    if items == [] then 0
    else if Depth(items[0]) < DepthAll(items[1..]) then DepthAll(items[1..]) else Depth(items[0])
  }

  // ---------------------------------------------------------------- heads round-trip

  lemma InitialByte(major: nat, info: nat)
    requires major < 8 && info < 32
    ensures (major * 32 + info) / 32 == major && (major * 32 + info) % 32 == info
  {
  }

  lemma HeadRoundTrip(buf: seq<Byte>, pos: nat, it: Item)
    requires Fits(it.w, Arg(it))
    requires StandsAt(buf, pos, HeadBytes(Major(it), it.w, Arg(it)))
    ensures HeadAt(buf, pos) == Ok(Head(Major(it), Read(it), pos + 1 + Size(it.w)))
  {
    var info := InfoBits(it.w, Arg(it));
    var tail := BeBytes(Arg(it), Size(it.w));
    StandsSplit(buf, pos, [Major(it) * 32 + info], tail);
    assert buf[pos] == buf[pos..pos + 1][0];
    InitialByte(Major(it), info);
    assert ArgSize(info) == Some(Size(it.w));
    if it.w != InHead {
      BeRoundTrip(Arg(it), Size(it.w));
    }
    assert buf[pos + 1..pos + 1 + Size(it.w)] == tail;
    assert buf[pos] == Major(it) * 32 + info;
    hide BeBytes, BeValue, ToDouble, Pow256, StandsAt, HeadBytes, Major, Arg, InfoBits, ArgSize, Size, Fits;
    InHeadTakesNoBytes(it.w);
  }

  lemma InHeadTakesNoBytes(w: Width)
    ensures Size(w) == 0 <==> w == InHead
  {
  }

  /** Whatever head the decoder reads was written with some width, and its exact argument. */
  lemma HeadHasWidth(buf: seq<Byte>, pos: nat) returns (w: Width, n: nat)
    requires pos <= |buf| && HeadAt(buf, pos).Ok?
    ensures Fits(w, n) && HeadAt(buf, pos).value.next == pos + 1 + Size(w)
    ensures buf[pos..pos + 1 + Size(w)] == HeadBytes(HeadAt(buf, pos).value.major, w, n)
    ensures HeadAt(buf, pos).value.arg == if w == InHead then n else ToDouble(n)
  {
    var info := buf[pos] % 32;
    w := if info < 24 then InHead else if info == 24 then One else if info == 25 then Two
         else if info == 26 then Four else Eight;
    var rest := buf[pos + 1..pos + 1 + Size(w)];
    BeInverse(rest);
    n := if w == InHead then info else BeValue(rest);
    SliceConcat(buf, pos, pos + 1, pos + 1 + Size(w));
    assert buf[pos..pos + 1] == [buf[pos]];
    hide BeBytes, BeValue, ToDouble, Pow256;
    NothingToRead(n, rest, w);
  }

  lemma NothingToRead(n: nat, rest: seq<Byte>, w: Width)
    requires w == InHead ==> rest == []
    ensures w == InHead ==> BeBytes(n, Size(w)) == rest
  {
  }

  // ---------------------------------------------------------------- every encoding is accepted

  /** Lengths the decoder can hold are read exactly. */
  lemma ArgIsExact(it: Item)
    requires Arg(it) < TWO53
    ensures Read(it) == Arg(it)
  {
    SmallIntegersAreExact(Arg(it));
  }

  lemma {:induction false} ParsesEncoding(txt: TextDecoder, buf: seq<Byte>, pos: nat, it: Item, depth: nat)
    requires |buf| < TWO53 && WidthsFit(it) && StandsAt(buf, pos, Encode(it))
    requires depth + Depth(it) <= MAX_DEPTH + 1 && Meaning(txt, it).Some?
    ensures ParseValue(txt, buf, pos, depth) == Ok((Meaning(txt, it).value, pos + |Encode(it)|))
    decreases it
  {
    hide HeadAt, HeadBytes, ToDouble, ParseItems, ParseEntries, AllFit, Meanings, EntriesOf, DepthAll;
    var head := HeadBytes(Major(it), it.w, Arg(it));
    StandsSplit(buf, pos, head, Body(it));
    HeadRoundTrip(buf, pos, it);
    match it {
      case UInt(_, _) =>
      case NInt(_, _) =>
      case BStr(_, b) => ArgIsExact(it);
      case TStr(_, b) => ArgIsExact(it);
      case Arr(_, items) =>
        ArgIsExact(it);
        ParsesItems(txt, buf, pos + |head|, items, depth + 1, []);
      case Dict(_, flat) =>
        ArgIsExact(it);
        ParsesEntries(txt, buf, pos + |head|, flat, depth + 1, []);
    }
  }

  lemma {:induction false} ParsesItems(
    txt: TextDecoder, buf: seq<Byte>, pos: nat, items: seq<Item>, depth: nat, out: seq<Value>)
    requires |buf| < TWO53 && AllFit(items) && StandsAt(buf, pos, EncodeItems(items))
    requires depth + DepthAll(items) <= MAX_DEPTH + 1 && Meanings(txt, items, out).Some?
    ensures ParseItems(txt, buf, pos, |items|, depth, out) == Ok((Meanings(txt, items, out).value, pos + |EncodeItems(items)|))
    decreases items
  {
    hide Encode, Meaning, WidthsFit, ParseValue, StandsAt, Depth;
    if items == [] {
      NothingStands(buf, pos);
    } else {
      StandsSplit(buf, pos, Encode(items[0]), EncodeItems(items[1..]));
      StandsInside(buf, pos, Encode(items[0]));
      ParsesEncoding(txt, buf, pos, items[0], depth);
      var v := Meaning(txt, items[0]).value;
      ParsesItems(txt, buf, pos + |Encode(items[0])|, items[1..], depth, out + [v]);
    }
  }

  lemma {:induction false} ParsesEntries(
    txt: TextDecoder, buf: seq<Byte>, pos: nat, flat: seq<Item>, depth: nat, out: seq<Entry>)
    requires |buf| < TWO53 && |flat| % 2 == 0 && AllFit(flat) && StandsAt(buf, pos, EncodeItems(flat))
    requires depth + DepthAll(flat) <= MAX_DEPTH + 1 && EntriesOf(txt, flat, out).Some?
    ensures ParseEntries(txt, buf, pos, |flat| / 2, depth, out)
            == Ok((EntriesOf(txt, flat, out).value, pos + |EncodeItems(flat)|))
    decreases flat
  {
    hide Encode, Meaning, WidthsFit, ParseValue, StandsAt, Depth, HasKey, KeyOf;
    if flat == [] {
      NothingStands(buf, pos);
    } else {
      TwoItems(flat);
      hide EncodeItems, DepthAll, AllFit;
      var k, v := Encode(flat[0]), Encode(flat[1]);
      StandsSplit(buf, pos, k + v, EncodeItems(flat[2..]));
      StandsSplit(buf, pos, k, v);
      StandsInside(buf, pos, k);
      StandsInside(buf, pos + |k|, v);
      KeyIsMeaning(Meaning(txt, flat[0]));
      ParsesEncoding(txt, buf, pos, flat[0], depth);
      ParsesEncoding(txt, buf, pos + |k|, flat[1], depth);
      var entry := Entry(KeyOf(Meaning(txt, flat[0])).value, Meaning(txt, flat[1]).value);
      ParsesEntries(txt, buf, pos + |k + v|, flat[2..], depth, out + [entry]);
    }
  }

  lemma KeyIsMeaning(v: Option<Value>)
    ensures v.Some? ==> KeyOf(v) == AsKey(v.value)
    ensures KeyOf(v).Some? ==> v.Some?
  {
  }

  lemma NothingStands(buf: seq<Byte>, pos: nat)
    ensures StandsAt(buf, pos, []) ==> pos <= |buf|
  {
  }

  lemma StandsInside(buf: seq<Byte>, pos: nat, part: seq<Byte>)
    ensures StandsAt(buf, pos, part) ==> pos + |part| <= |buf|
  {
  }

  lemma TwoItems(flat: seq<Item>)
    requires |flat| >= 2 && AllFit(flat)
    ensures WidthsFit(flat[0]) && WidthsFit(flat[1]) && AllFit(flat[2..])
    ensures EncodeItems(flat) == Encode(flat[0]) + Encode(flat[1]) + EncodeItems(flat[2..])
    ensures Depth(flat[0]) <= DepthAll(flat) && Depth(flat[1]) <= DepthAll(flat) && DepthAll(flat[2..]) <= DepthAll(flat)
    ensures DepthAll(flat) <= DepthAll(flat[2..]) || DepthAll(flat) <= Depth(flat[0]) || DepthAll(flat) <= Depth(flat[1])
  {
    var rest := flat[1..];
    assert rest[0] == flat[1] && rest[1..] == flat[2..];
    TwoFit(flat);
    TwoEncode(flat);
    TwoDeep(flat);
    hide *;
  }

  lemma TwoFit(flat: seq<Item>)
    requires |flat| >= 2 && AllFit(flat)
    ensures AllFit(flat[1..]) && WidthsFit(flat[0]) && WidthsFit(flat[1]) && AllFit(flat[2..])
  {
    hide WidthsFit;
    assert AllFit(flat[1..]);
    assert flat[1..][0] == flat[1] && flat[1..][1..] == flat[2..];
  }

  lemma TwoEncode(flat: seq<Item>)
    requires |flat| >= 2 && AllFit(flat)
    requires AllFit(flat[1..]) && WidthsFit(flat[0]) && WidthsFit(flat[1]) && AllFit(flat[2..])
    ensures EncodeItems(flat) == Encode(flat[0]) + Encode(flat[1]) + EncodeItems(flat[2..])
  {
    hide WidthsFit, Encode, AllFit;
    assert flat[1..][0] == flat[1] && flat[1..][1..] == flat[2..];
    assert EncodeItems(flat[1..]) == Encode(flat[1]) + EncodeItems(flat[2..]);
    assert Encode(flat[0]) + (Encode(flat[1]) + EncodeItems(flat[2..]))
        == Encode(flat[0]) + Encode(flat[1]) + EncodeItems(flat[2..]);
  }

  lemma TwoDeep(flat: seq<Item>)
    requires |flat| >= 2
    ensures Depth(flat[0]) <= DepthAll(flat) && Depth(flat[1]) <= DepthAll(flat) && DepthAll(flat[2..]) <= DepthAll(flat)
    ensures DepthAll(flat) <= DepthAll(flat[2..]) || DepthAll(flat) <= Depth(flat[0]) || DepthAll(flat) <= Depth(flat[1])
  {
    hide Depth;
    assert flat[1..][0] == flat[1] && flat[1..][1..] == flat[2..];
    assert DepthAll(flat[1..]) == if Depth(flat[1]) < DepthAll(flat[2..]) then DepthAll(flat[2..]) else Depth(flat[1]);
  }

  // ---------------------------------------------------------------- nothing else is accepted

  lemma {:induction false} ParsedIsEncoding(txt: TextDecoder, buf: seq<Byte>, pos: nat, depth: nat) returns (it: Item)
    requires |buf| < TWO53 && pos <= |buf| && ParseValue(txt, buf, pos, depth).Ok?
    ensures var (v, end) := ParseValue(txt, buf, pos, depth).value;
            WidthsFit(it) && Encode(it) == buf[pos..end] && Meaning(txt, it) == Some(v)
            && depth + Depth(it) <= MAX_DEPTH + 1
    decreases |buf| - pos, 0
  {
    hide HeadBytes, ToDouble, Pow256, ParseItems, ParseEntries, AllFit, EncodeItems, Meanings, EntriesOf, DepthAll, HeadAt;
    if HeadAt(buf, pos).value.major < 4 {
      it := ParsedLeaf(txt, buf, pos, depth);
    } else {
      var h := HeadAt(buf, pos).value;
      var w, n := HeadHasWidth(buf, pos);
      SliceConcat(buf, pos, h.next, ParseValue(txt, buf, pos, depth).value.1);
      ExactArg(w, n, h.arg, |buf|);
      if h.major == 4 {
        var items := ParsedItems(txt, buf, h.next, h.arg, depth + 1, []);
        it := Arr(w, items);
      } else {
        var flat := ParsedEntries(txt, buf, h.next, h.arg, depth + 1, []);
        it := Dict(w, flat);
      }
      assert buf[pos..h.next] == HeadBytes(Major(it), it.w, Arg(it));
    }
  }

  /** The same for a number, a byte string or a text. */
  lemma ParsedLeaf(txt: TextDecoder, buf: seq<Byte>, pos: nat, depth: nat) returns (it: Item)
    requires |buf| < TWO53 && pos <= |buf| && ParseValue(txt, buf, pos, depth).Ok? && HeadAt(buf, pos).value.major < 4
    ensures var (v, end) := ParseValue(txt, buf, pos, depth).value;
            WidthsFit(it) && Encode(it) == buf[pos..end] && Meaning(txt, it) == Some(v) && Depth(it) == 1
    ensures depth <= MAX_DEPTH
  {
    hide HeadBytes, ToDouble, Pow256, ParseItems, ParseEntries, AllFit, EncodeItems, Meanings, EntriesOf, DepthAll, HeadAt;
    var (v, end) := ParseValue(txt, buf, pos, depth).value;
    var h := HeadAt(buf, pos).value;
    var w, n := HeadHasWidth(buf, pos);
    SliceConcat(buf, pos, h.next, end);
    if h.major >= 2 {
      ExactArg(w, n, h.arg, |buf|);
    }
    it := if h.major == 0 then UInt(w, n)
          else if h.major == 1 then NInt(w, n)
          else if h.major == 2 then BStr(w, buf[h.next..end])
          else TStr(w, buf[h.next..end]);
    assert buf[pos..h.next] == HeadBytes(Major(it), it.w, Arg(it));
    assert h.major < 2 ==> end == h.next && buf[h.next..end] == [];
  }

  /** A length the buffer can hold was not rounded. */
  lemma ExactArg(w: Width, n: nat, arg: nat, len: nat)
    requires arg == if w == InHead then n else ToDouble(n)
    ensures arg <= len < TWO53 ==> n == arg
  {
    if w != InHead && ToDouble(n) < TWO53 {
      SmallDoublesAreExact(n);
    }
  }

  lemma {:induction false} ParsedItems(
    txt: TextDecoder, buf: seq<Byte>, pos: nat, count: nat, depth: nat, out: seq<Value>) returns (items: seq<Item>)
    requires |buf| < TWO53 && pos <= |buf| && ParseItems(txt, buf, pos, count, depth, out).Ok?
    ensures var (vs, end) := ParseItems(txt, buf, pos, count, depth, out).value;
            |items| == count && AllFit(items) && EncodeItems(items) == buf[pos..end]
            && Meanings(txt, items, out) == Some(vs)
            && (count > 0 ==> depth + DepthAll(items) <= MAX_DEPTH + 1) && (count == 0 ==> DepthAll(items) == 0)
    decreases |buf| - pos, 1
  {
    if count == 0 {
      items := [];
    } else {
      hide ParseValue, Encode, WidthsFit, Meaning, Depth;
      var (v, next) := ParseValue(txt, buf, pos, depth).value;
      var first := ParsedIsEncoding(txt, buf, pos, depth);
      var rest := ParsedItems(txt, buf, next, count - 1, depth, out + [v]);
      items := [first] + rest;
      assert items[1..] == rest;
      SliceConcat(buf, pos, next, ParseItems(txt, buf, pos, count, depth, out).value.1);
    }
  }

  /** `it` is what stands in `buf[pos..end]`, and means `v`. */
  ghost predicate ReadsItem(txt: TextDecoder, buf: seq<Byte>, pos: nat, end: nat, depth: nat, it: Item, v: Value) {
    && pos <= end <= |buf|
    && WidthsFit(it) && Encode(it) == buf[pos..end] && Meaning(txt, it) == Some(v) && depth + Depth(it) <= MAX_DEPTH + 1
  }

  /** `flat` is what stands in `buf[pos..end]`, and adds up to `es` after the entries `out`. */
  ghost predicate ReadsEntries(
    txt: TextDecoder, buf: seq<Byte>, pos: nat, end: nat, depth: nat, flat: seq<Item>, out: seq<Entry>, es: seq<Entry>)
  {
    && pos <= end <= |buf|
    && AllFit(flat) && EncodeItems(flat) == buf[pos..end] && EntriesOf(txt, flat, out) == Some(es)
    && (flat != [] ==> depth + DepthAll(flat) <= MAX_DEPTH + 1) && (flat == [] ==> DepthAll(flat) == 0)
  }

  lemma ConsEntry(txt: TextDecoder, buf: seq<Byte>, pos: nat, mid: nat, next: nat, end: nat, depth: nat,
                  key: Item, k: Value, value: Item, v: Value, rest: seq<Item>, out: seq<Entry>, es: seq<Entry>)
    requires ReadsItem(txt, buf, pos, mid, depth, key, k) && ReadsItem(txt, buf, mid, next, depth, value, v)
    requires AsKey(k).Some? && !HasKey(out, AsKey(k).value)
    requires ReadsEntries(txt, buf, next, end, depth, rest, out + [Entry(AsKey(k).value, v)], es)
    ensures ReadsEntries(txt, buf, pos, end, depth, [key, value] + rest, out, es)
  {
    hide AllFit, EncodeItems, EntriesOf, DepthAll, WidthsFit, Encode, Meaning, Depth, HasKey, KeyOf, AsKey;
    PairFits(key, value, rest);
    KeyIsMeaning(Meaning(txt, key));
    PairEntry(txt, key, value, rest, out);
    Glue(buf, pos, mid, next, end);
  }

  lemma ItemWasRead(txt: TextDecoder, buf: seq<Byte>, pos: nat, depth: nat, it: Item, v: Value, end: nat)
    requires WidthsFit(it) && pos <= end <= |buf| && Encode(it) == buf[pos..end] && Meaning(txt, it) == Some(v)
    requires depth + Depth(it) <= MAX_DEPTH + 1
    ensures ReadsItem(txt, buf, pos, end, depth, it, v)
  {
    hide WidthsFit, Encode, Meaning, Depth;
  }

  lemma {:induction false} ParsedEntries(
    txt: TextDecoder, buf: seq<Byte>, pos: nat, count: nat, depth: nat, out: seq<Entry>) returns (flat: seq<Item>)
    requires |buf| < TWO53 && pos <= |buf| && ParseEntries(txt, buf, pos, count, depth, out).Ok?
    ensures var (es, end) := ParseEntries(txt, buf, pos, count, depth, out).value;
            |flat| == 2 * count && ReadsEntries(txt, buf, pos, end, depth, flat, out, es)
    decreases |buf| - pos, 1
  {
    hide ParseValue, Encode, WidthsFit, Meaning, Depth, HasKey, AsKey, ParseEntries, ReadsEntries, ReadsItem;
    if count == 0 {
      flat := [];
      NoEntries(txt, buf, pos, depth, out);
      NothingRead(txt, buf, pos, depth, out);
    } else {
      var k, mid, v, next := EntryParsed(txt, buf, pos, count, depth, out);
      var key := ParsedIsEncoding(txt, buf, pos, depth);
      ItemWasRead(txt, buf, pos, depth, key, k, mid);
      var value := ParsedIsEncoding(txt, buf, mid, depth);
      ItemWasRead(txt, buf, mid, depth, value, v, next);
      var rest := ParsedEntries(txt, buf, next, count - 1, depth, out + [Entry(AsKey(k).value, v)]);
      flat := [key, value] + rest;
      var (es, end) := ParseEntries(txt, buf, pos, count, depth, out).value;
      ConsEntry(txt, buf, pos, mid, next, end, depth, key, k, value, v, rest, out, es);
    }
  }

  lemma NothingRead(txt: TextDecoder, buf: seq<Byte>, pos: nat, depth: nat, out: seq<Entry>)
    requires pos <= |buf|
    ensures ReadsEntries(txt, buf, pos, pos, depth, [], out, out)
  {
  }

  /** A turn of the map loop that succeeds. */
  lemma EntryParsed(txt: TextDecoder, buf: seq<Byte>, pos: nat, count: nat, depth: nat, out: seq<Entry>)
    returns (k: Value, mid: nat, v: Value, next: nat)
    requires pos <= |buf| && count > 0 && ParseEntries(txt, buf, pos, count, depth, out).Ok?
    ensures ParseValue(txt, buf, pos, depth) == Ok((k, mid)) && mid <= |buf|
    ensures AsKey(k).Some? && !HasKey(out, AsKey(k).value)
    ensures ParseValue(txt, buf, mid, depth) == Ok((v, next)) && pos < mid < next <= |buf|
    ensures ParseEntries(txt, buf, pos, count, depth, out)
            == ParseEntries(txt, buf, next, count - 1, depth, out + [Entry(AsKey(k).value, v)])
  {
    hide ParseValue, HasKey, ParseEntries, AsKey;
    EntriesStep(txt, buf, pos, count, depth, out);
    k, mid := ParseValue(txt, buf, pos, depth).value.0, ParseValue(txt, buf, pos, depth).value.1;
    v, next := ParseValue(txt, buf, mid, depth).value.0, ParseValue(txt, buf, mid, depth).value.1;
  }

  /** Three adjoining slices. */
  lemma Glue(buf: seq<Byte>, pos: nat, mid: nat, next: nat, end: nat)
    requires pos <= mid <= next <= end <= |buf|
    ensures buf[pos..mid] + buf[mid..next] + buf[next..end] == buf[pos..end]
  {
  }

  lemma PairEntry(txt: TextDecoder, key: Item, value: Item, rest: seq<Item>, out: seq<Entry>)
    requires KeyOf(Meaning(txt, key)).Some? && Meaning(txt, value).Some?
    requires !HasKey(out, KeyOf(Meaning(txt, key)).value)
    ensures EntriesOf(txt, [key, value] + rest, out)
            == EntriesOf(txt, rest, out + [Entry(KeyOf(Meaning(txt, key)).value, Meaning(txt, value).value)])
  {
    hide Meaning, KeyOf, HasKey;
    var flat := [key, value] + rest;
    assert flat[0] == key && flat[1] == value && flat[2..] == rest;
  }

  lemma PairFits(key: Item, value: Item, rest: seq<Item>)
    requires WidthsFit(key) && WidthsFit(value) && AllFit(rest)
    ensures AllFit([key, value] + rest)
    ensures EncodeItems([key, value] + rest) == Encode(key) + Encode(value) + EncodeItems(rest)
    ensures DepthAll([key, value] + rest) <= DepthAll(rest) || DepthAll([key, value] + rest) <= Depth(key)
            || DepthAll([key, value] + rest) <= Depth(value)
  {
    var flat := [key, value] + rest;
    assert flat[1..] == [value] + rest && flat[1..][1..] == rest && flat[2..] == rest;
    hide Encode, WidthsFit, Depth;
    assert AllFit(flat[1..]);
    TwoEncode(flat);
    TwoDeep(flat);
  }

  // ---------------------------------------------------------------- main results

  /** A well-formed item: widths fit, at most 17 levels, text decodes, keys are fit and unrepeated. */
  ghost predicate WellFormed(txt: TextDecoder, it: Item) {
    WidthsFit(it) && Depth(it) <= MAX_DEPTH + 1 && Meaning(txt, it).Some?
  }

  /** Whatever head widths the encoder chose, the decoder returns the item's meaning. */
  lemma DecodesEveryEncoding(txt: TextDecoder, it: Item)
    requires WellFormed(txt, it) && |Encode(it)| < TWO53
    ensures Decode(txt, Encode(it)) == Ok(Meaning(txt, it).value)
  {
    var buf := Encode(it);
    assert buf[0..0 + |buf|] == buf;
    ParsesEncoding(txt, buf, 0, it, 0);
  }

  /** The decoder accepts exactly the well-formed encodings. */
  lemma AcceptsExactlyTheGrammar(txt: TextDecoder, bytes: seq<Byte>)
    requires |bytes| < TWO53
    ensures Decode(txt, bytes).Ok? <==> exists it :: WellFormed(txt, it) && Encode(it) == bytes
  {
    hide Encode, Meaning, WidthsFit, Depth, ParseValue;
    if Decode(txt, bytes).Ok? {
      var it := ParsedIsEncoding(txt, bytes, 0, 0);
      assert bytes[0..|bytes|] == bytes;
      assert WellFormed(txt, it);
    }
    if it :| WellFormed(txt, it) && Encode(it) == bytes {
      DecodesEveryEncoding(txt, it);
    }
  }

  /** No encoding is a proper prefix of another: items delimit themselves. */
  lemma PrefixFree(txt: TextDecoder, a: Item, b: Item)
    requires WellFormed(txt, a) && WellFormed(txt, b)
    requires Encode(a) <= Encode(b) && |Encode(b)| < TWO53
    ensures Encode(a) == Encode(b) && Meaning(txt, a) == Meaning(txt, b)
  {
    var buf := Encode(b);
    assert buf[0..0 + |buf|] == buf && buf[0..0 + |Encode(a)|] == Encode(a);
    ParsesEncoding(txt, buf, 0, a, 0);
    ParsesEncoding(txt, buf, 0, b, 0);
  }

  /** Integers up to 2^53 come back as written. */
  lemma IntegersRoundTrip(txt: TextDecoder, w: Width, n: nat)
    ensures n <= TWO53 ==> Meaning(txt, UInt(w, n)) == Some(Int(n))
    ensures n < TWO53 ==> Meaning(txt, NInt(w, n)) == Some(Int(0 - 1 - n))
  {
    SmallIntegersAreExact(n);
    SmallIntegersAreExact(n + 1);
  }
}
