/**
 * The proxy's CBOR decoder (services/proxy/src/cbor.ts), a subset of RFC 8949:
 * definite-length items of major types 0 to 5.
 *
 * Text decoding is a parameter. Numbers are JavaScript doubles, so a 64-bit argument is
 * rounded to 53 significant bits.
 */
module Cbor {
  import opened Outcomes
  import opened Bytes

  datatype Error =
    | Truncated | UnsupportedInfo | TooDeep | BadText | BadKey | DuplicateKey | UnsupportedMajor | TrailingBytes

  datatype Key = IntKey(n: int) | TextKey(s: string)

  datatype Value =
    | Int(n: int)
    | ByteString(b: seq<Byte>)
    | Text(s: string)
    | Array(items: seq<Value>)
    | Map(entries: seq<Entry>)

  datatype Entry = Entry(key: Key, value: Value)

  type TextDecoder = seq<Byte> -> Option<string>

  const MAX_DEPTH: nat := 16

  // ---------------------------------------------------------------- doubles

  const TWO53: nat := 0x20_0000_0000_0000

  /** Nearest multiple of `ulp`, ties to the even one. */
  function RoundTo(n: nat, ulp: nat): nat
    requires ulp > 0
  {
    var q, r := n / ulp, n % ulp;
    if 2 * r < ulp || (2 * r == ulp && q % 2 == 0) then q * ulp else (q + 1) * ulp
  }

  /** The double nearest to `n`; `ulp` doubles until `n` has 53 bits above it. */
  function RoundFrom(n: nat, ulp: nat): nat
    requires ulp > 0
    decreases n - TWO53 * ulp
  {
    if n <= TWO53 * ulp then RoundTo(n, ulp) else RoundFrom(n, 2 * ulp)
  }

  function ToDouble(n: nat): nat {
    RoundFrom(n, 1)
  }

  /** Integers up to 2^53 are exact; the next one is not, and collides with its neighbour. */
  lemma SmallIntegersAreExact(n: nat)
    ensures n <= TWO53 ==> ToDouble(n) == n
    ensures ToDouble(TWO53 + 1) == TWO53
  {
    assert RoundFrom(TWO53 + 1, 2) == RoundTo(TWO53 + 1, 2);
  }

  lemma {:induction false} RoundFromAtLeast(n: nat, ulp: nat)
    requires ulp > 0 && n >= TWO53 && (ulp == 1 || (ulp >= 2 && 2 * n >= TWO53 * ulp))
    ensures RoundFrom(n, ulp) >= TWO53
    decreases n - TWO53 * ulp
  {
    if n <= TWO53 * ulp {
      var q := n / ulp;
      assert n == q * ulp + n % ulp;
      if ulp >= 2 {
        HalfTheBits(n, q, ulp);
      }
    } else {
      RoundFromAtLeast(n, 2 * ulp);
    }
  }

  lemma MulLe(a: nat, b: nat, c: nat)
    requires a <= b
    ensures a * c <= b * c
  {
  }

  lemma HalfTheBits(n: nat, q: nat, ulp: nat)
    requires ulp >= 2 && q * ulp <= n < q * ulp + ulp && 2 * n >= TWO53 * ulp
    ensures q * ulp >= TWO53 && (q + 1) * ulp >= TWO53
  {
    var half: nat := 0x10_0000_0000_0000;
    var m := half * ulp;
    assert n >= m;
    assert (q + 1) * ulp == q * ulp + ulp;
    if q + 1 <= half {
      MulLe(q + 1, half, ulp);
      assert false;
    }
    MulLe(half, q, ulp);
  }

  /** A double below 2^53 came from that very integer. */
  lemma SmallDoublesAreExact(n: nat)
    requires ToDouble(n) < TWO53
    ensures ToDouble(n) == n
  {
    if n >= TWO53 {
      RoundFromAtLeast(n, 1);
    }
    SmallIntegersAreExact(n);
  }

  function Gap(a: nat, b: nat): nat {
    if a >= b then a - b else b - a
  }

  /** `m` is the multiple of `ulp` nearest to `n`, the even one of two. */
  predicate Nearest(m: nat, n: nat, ulp: nat, q: nat) {
    m == q * ulp && 2 * Gap(m, n) <= ulp && (2 * Gap(m, n) == ulp ==> q % 2 == 0)
  }

  lemma RoundsToNearest(n: nat, ulp: nat) returns (q: nat)
    requires ulp > 0
    ensures Nearest(RoundTo(n, ulp), n, ulp, q)
  {
    var r := n % ulp;
    q := n / ulp;
    assert n == q * ulp + r && (q + 1) * ulp == q * ulp + ulp;
    if RoundTo(n, ulp) != q * ulp {
      q := q + 1;
    }
  }

  predicate IsPowerOfTwo(n: nat) {
    n == 1 || (n > 0 && n % 2 == 0 && IsPowerOfTwo(n / 2))
  }

  /**
   * What a 64-bit argument becomes: exact up to 2^53, and above that the nearest multiple of the
   * power of two that leaves 53 significant bits, an even one where two are as near.
   */
  lemma {:induction false} RoundsLikeADouble(n: nat, from: nat) returns (ulp: nat, q: nat)
    requires IsPowerOfTwo(from) && (from == 1 || 2 * n > TWO53 * from)
    ensures IsPowerOfTwo(ulp) && n <= TWO53 * ulp && (ulp == 1 || 2 * n > TWO53 * ulp)
    ensures Nearest(RoundFrom(n, from), n, ulp, q)
    decreases n - TWO53 * from
  {
    hide RoundTo, Nearest;
    if n <= TWO53 * from {
      ulp := from;
      q := RoundsToNearest(n, from);
    } else {
      ulp, q := RoundsLikeADouble(n, 2 * from);
    }
  }

  // ---------------------------------------------------------------- heads

  datatype Head = Head(major: nat, arg: nat, next: nat)

  /** Size in bytes of the argument that follows an initial byte. */
  function ArgSize(info: nat): Option<nat> {
    if info < 24 then Some(0)
    else if info == 24 then Some(1)
    else if info == 25 then Some(2)
    else if info == 26 then Some(4)
    else if info == 27 then Some(8)
    else None
  }

  function HeadAt(buf: seq<Byte>, pos: nat): (r: Result<Head, Error>)
    ensures r.Ok? ==> pos < r.value.next <= |buf| && r.value.major < 8
  {
    if pos + 1 > |buf| then Err(Truncated)
    else
      var major, info := buf[pos] / 32, buf[pos] % 32;
      match ArgSize(info)
      case None => Err(UnsupportedInfo)
      case Some(k) =>
        if pos + 1 + k > |buf| then Err(Truncated)
        else if k == 0 then Ok(Head(major, info, pos + 1))
        else Ok(Head(major, ToDouble(BeValue(buf[pos + 1..pos + 1 + k])), pos + 1 + k))
  }

  /** A one-, two- or four-byte argument is read exactly. */
  lemma ShortArgument(buf: seq<Byte>, pos: nat, k: nat)
    requires pos < |buf| && (k == 1 || k == 2 || k == 4) && ArgSize(buf[pos] % 32) == Some(k)
    ensures HeadAt(buf, pos) == if pos + 1 + k > |buf| then Err(Truncated)
                                else Ok(Head(buf[pos] / 32, BeValue(buf[pos + 1..pos + 1 + k]), pos + 1 + k))
  {
    if pos + 1 + k <= |buf| {
      var arg := buf[pos + 1..pos + 1 + k];
      BeInverse(arg);
      Powers();
      SmallIntegersAreExact(BeValue(arg));
    }
    hide BeValue, ToDouble, Pow256;
  }

  /** An eight-byte argument is assembled from two halves, and rounded. */
  lemma LongArgument(buf: seq<Byte>, pos: nat)
    requires pos < |buf| && buf[pos] % 32 == 27
    ensures HeadAt(buf, pos) == if pos + 9 > |buf| then Err(Truncated)
                                else Ok(Head(buf[pos] / 32,
                                             ToDouble(BeValue(buf[pos + 1..pos + 5]) * 0x1_0000_0000 + BeValue(buf[pos + 5..pos + 9])),
                                             pos + 9))
  {
    if pos + 9 <= |buf| {
      Powers();
      SliceConcat(buf, pos + 1, pos + 5, pos + 9);
      BeConcat(buf[pos + 1..pos + 5], buf[pos + 5..pos + 9]);
    }
    hide BeValue, ToDouble, Pow256;
  }

  lemma ReservedInfo(buf: seq<Byte>, pos: nat)
    requires pos < |buf| && buf[pos] % 32 > 27
    ensures HeadAt(buf, pos) == Err(UnsupportedInfo)
  {
  }

  lemma ByteValue(buf: seq<Byte>, pos: nat)
    requires pos < |buf|
    ensures BeValue(buf[pos..pos + 1]) == buf[pos]
  {
    assert buf[pos..pos + 1] == [buf[pos]] && [buf[pos]][..0] == [];
  }

  // ---------------------------------------------------------------- values

  predicate HasKey(entries: seq<Entry>, key: Key) {
    exists i :: 0 <= i < |entries| && entries[i].key == key
  }

  function AsKey(v: Value): Option<Key> {
    match v
    case Int(n) => Some(IntKey(n))
    case Text(s) => Some(TextKey(s))
    case _ => None
  }

  function ParseValue(txt: TextDecoder, buf: seq<Byte>, pos: nat, depth: nat): (r: Result<(Value, nat), Error>)
    requires pos <= |buf|
    ensures r.Ok? ==> pos < r.value.1 <= |buf|
    decreases |buf| - pos, 0
  {
    if depth > MAX_DEPTH then Err(TooDeep)
    else
      match HeadAt(buf, pos)
      case Err(e) => Err(e)
      case Ok(Head(major, arg, next)) =>
        if major == 0 then Ok((Int(arg), next))
        else if major == 1 then Ok((Int(0 - ToDouble(1 + arg)), next))
        else if major == 2 then
          if next + arg > |buf| then Err(Truncated) else Ok((ByteString(buf[next..next + arg]), next + arg))
        else if major == 3 then
          if next + arg > |buf| then Err(Truncated)
          else match txt(buf[next..next + arg])
            case None => Err(BadText)
            case Some(s) => Ok((Text(s), next + arg))
        else if major == 4 then
          match ParseItems(txt, buf, next, arg, depth + 1, [])
          case Err(e) => Err(e)
          case Ok((items, end)) => Ok((Array(items), end))
        else if major == 5 then
          match ParseEntries(txt, buf, next, arg, depth + 1, [])
          case Err(e) => Err(e)
          case Ok((entries, end)) => Ok((Map(entries), end))
        else Err(UnsupportedMajor)
  }

  /** Each element takes a byte at least, so a declared count beyond the buffer runs out of input. */
  function ParseItems(txt: TextDecoder, buf: seq<Byte>, pos: nat, count: nat, depth: nat, out: seq<Value>)
    : (r: Result<(seq<Value>, nat), Error>)
    requires pos <= |buf|
    ensures r.Ok? ==> pos + count <= r.value.1 <= |buf|
    decreases |buf| - pos, 1
  {
    if count == 0 then Ok((out, pos))
    else match ParseValue(txt, buf, pos, depth)
      case Err(e) => Err(e)
      case Ok((v, next)) => ParseItems(txt, buf, next, count - 1, depth, out + [v])
  }

  function ParseEntries(txt: TextDecoder, buf: seq<Byte>, pos: nat, count: nat, depth: nat, out: seq<Entry>)
    : (r: Result<(seq<Entry>, nat), Error>)
    requires pos <= |buf|
    ensures r.Ok? ==> pos + 2 * count <= r.value.1 <= |buf|
    decreases |buf| - pos, 1
  {
    if count == 0 then Ok((out, pos))
    else match ParseValue(txt, buf, pos, depth)
      case Err(e) => Err(e)
      case Ok((k, mid)) =>
        match AsKey(k)
        case None => Err(BadKey)
        case Some(key) =>
          if HasKey(out, key) then Err(DuplicateKey)
          else match ParseValue(txt, buf, mid, depth)
            case Err(e) => Err(e)
            case Ok((v, next)) => ParseEntries(txt, buf, next, count - 1, depth, out + [Entry(key, v)])
  }

  /** One turn of the map loop: the first failure, or the entry and the rest. */
  lemma EntriesStep(txt: TextDecoder, buf: seq<Byte>, pos: nat, count: nat, depth: nat, out: seq<Entry>)
    requires pos <= |buf| && count > 0
    ensures ParseValue(txt, buf, pos, depth).Err? ==>
              ParseEntries(txt, buf, pos, count, depth, out) == Err(ParseValue(txt, buf, pos, depth).error)
    ensures ParseValue(txt, buf, pos, depth).Ok? ==>
              var (k, mid) := ParseValue(txt, buf, pos, depth).value;
              && (AsKey(k).None? ==> ParseEntries(txt, buf, pos, count, depth, out) == Err(BadKey))
              && (AsKey(k).Some? && HasKey(out, AsKey(k).value) ==>
                    ParseEntries(txt, buf, pos, count, depth, out) == Err(DuplicateKey))
              && (AsKey(k).Some? && !HasKey(out, AsKey(k).value) ==>
                    ParseEntries(txt, buf, pos, count, depth, out)
                    == match ParseValue(txt, buf, mid, depth)
                       case Err(e) => Err(e)
                       case Ok((v, next)) => ParseEntries(txt, buf, next, count - 1, depth, out + [Entry(AsKey(k).value, v)]))
  {
    hide ParseValue, HasKey, AsKey;
  }

  lemma NoEntries(txt: TextDecoder, buf: seq<Byte>, pos: nat, depth: nat, out: seq<Entry>)
    requires pos <= |buf|
    ensures ParseEntries(txt, buf, pos, 0, depth, out) == Ok((out, pos))
  {
  }

  function Decode(txt: TextDecoder, bytes: seq<Byte>): Result<Value, Error> {
    match ParseValue(txt, bytes, 0, 0)
    case Err(e) => Err(e)
    case Ok((v, end)) => if end != |bytes| then Err(TrailingBytes) else Ok(v)
  }

  // ---------------------------------------------------------------- the cursor

  class Cursor {
    const buf: seq<Byte>
    const txt: TextDecoder
    var pos: nat

    constructor (bytes: seq<Byte>, txt: TextDecoder)
      ensures buf == bytes && this.txt == txt && pos == 0
    {
      buf, this.txt, pos := bytes, txt, 0;
    }

    /** The bounds check every read goes through. */
    predicate Has(n: nat)
      reads this`pos
    {
      pos + n <= |buf|
    }

    method ReadHead() returns (r: Result<(nat, nat), Error>)
      requires pos <= |buf|
      modifies this`pos
      ensures match HeadAt(buf, old(pos))
              case Err(e) => r == Err(e)
              case Ok(h) => r == Ok((h.major, h.arg)) && pos == h.next
    {
      hide ToDouble, BeValue;
      if !Has(1) {
        return Err(Truncated);
      }
      var initial := buf[pos];
      pos := pos + 1;
      var major, info := initial / 32, initial % 32;
      if info < 24 {
        return Ok((major, info));
      }
      hide HeadAt;
      if info == 24 {
        ShortArgument(buf, pos - 1, 1);
        if !Has(1) { return Err(Truncated); }
        ByteValue(buf, pos);
        r := Ok((major, buf[pos]));
        pos := pos + 1;
      } else if info == 25 {
        ShortArgument(buf, pos - 1, 2);
        if !Has(2) { return Err(Truncated); }
        r := Ok((major, BeValue(buf[pos..pos + 2])));
        pos := pos + 2;
      } else if info == 26 {
        ShortArgument(buf, pos - 1, 4);
        if !Has(4) { return Err(Truncated); }
        r := Ok((major, BeValue(buf[pos..pos + 4])));
        pos := pos + 4;
      } else if info == 27 {
        LongArgument(buf, pos - 1);
        if !Has(8) { return Err(Truncated); }
        var hi := BeValue(buf[pos..pos + 4]);
        var lo := BeValue(buf[pos + 4..pos + 8]);
        r := Ok((major, ToDouble(hi * 0x1_0000_0000 + lo)));
        pos := pos + 8;
      } else {
        ReservedInfo(buf, pos - 1);
        r := Err(UnsupportedInfo);
      }
    }

    method ReadValue(depth: nat) returns (r: Result<Value, Error>)
      requires pos <= |buf|
      modifies this`pos
      ensures match ParseValue(txt, buf, old(pos), depth)
              case Err(e) => r == Err(e)
              case Ok((v, end)) => r == Ok(v) && pos == end
      decreases |buf| - pos, 0
    {
      if depth > MAX_DEPTH {
        return Err(TooDeep);
      }
      var head := ReadHead();
      if head.Err? {
        return Err(head.error);
      }
      var (major, arg) := head.value;
      if major == 0 {
        r := Ok(Int(arg));
      } else if major == 1 {
        r := Ok(Int(0 - ToDouble(1 + arg)));
      } else if major == 2 {
        if !Has(arg) { return Err(Truncated); }
        r := Ok(ByteString(buf[pos..pos + arg]));
        pos := pos + arg;
      } else if major == 3 {
        if !Has(arg) { return Err(Truncated); }
        var text := txt(buf[pos..pos + arg]);
        if text.None? { return Err(BadText); }
        pos := pos + arg;
        r := Ok(Text(text.value));
      } else if major == 4 {
        r := ReadArray(arg, depth + 1);
      } else if major == 5 {
        r := ReadMap(arg, depth + 1);
      } else {
        r := Err(UnsupportedMajor);
      }
    }

    method ReadArray(arg: nat, depth: nat) returns (r: Result<Value, Error>)
      requires pos <= |buf|
      modifies this`pos
      ensures match ParseItems(txt, buf, old(pos), arg, depth, [])
              case Err(e) => r == Err(e)
              case Ok((items, end)) => r == Ok(Array(items)) && pos == end
      decreases |buf| - pos, 1
    {
      var out := [];
      var i := 0;
      ghost var start := pos;
      while i < arg
        invariant i <= arg && start <= pos <= |buf|
        invariant ParseItems(txt, buf, start, arg, depth, []) == ParseItems(txt, buf, pos, arg - i, depth, out)
      {
        var v := ReadValue(depth);
        if v.Err? { return Err(v.error); }
        out := out + [v.value];
        i := i + 1;
      }
      r := Ok(Array(out));
    }

    method ReadMap(arg: nat, depth: nat) returns (r: Result<Value, Error>)
      requires pos <= |buf|
      modifies this`pos
      ensures match ParseEntries(txt, buf, old(pos), arg, depth, [])
              case Err(e) => r == Err(e)
              case Ok((entries, end)) => r == Ok(Map(entries)) && pos == end
      decreases |buf| - pos, 1
    {
      hide ParseEntries, ParseValue, HasKey, AsKey;
      var out := [];
      var i := 0;
      ghost var start := pos;
      while i < arg
        invariant i <= arg && start <= pos <= |buf|
        invariant ParseEntries(txt, buf, start, arg, depth, []) == ParseEntries(txt, buf, pos, arg - i, depth, out)
      {
        EntriesStep(txt, buf, pos, arg - i, depth, out);
        var k := ReadValue(depth);
        if k.Err? { return Err(k.error); }
        var key := AsKey(k.value);
        if key.None? { return Err(BadKey); }
        if HasKey(out, key.value) { return Err(DuplicateKey); }
        var v := ReadValue(depth);
        if v.Err? { return Err(v.error); }
        out := out + [Entry(key.value, v.value)];
        i := i + 1;
      }
      NoEntries(txt, buf, pos, depth, out);
      r := Ok(Map(out));
    }
  }

  method DecodeCbor(bytes: seq<Byte>, txt: TextDecoder) returns (r: Result<Value, Error>)
    ensures r == Decode(txt, bytes)
  {
    var cursor := new Cursor(bytes, txt);
    r := cursor.ReadValue(0);
    if r.Ok? && cursor.pos != |bytes| {
      r := Err(TrailingBytes);
    }
  }
}
