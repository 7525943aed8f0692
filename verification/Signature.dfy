/** ECDSA signatures from DER to fixed width (services/proxy/src/der.ts `ecdsaDerToRaw`). */
module Signatures {
  import opened Outcomes
  import opened Bytes
  import opened Der

  const SEQUENCE: Byte := 0x30

  const INTEGER: Byte := 0x02

  /** Leading zero bytes dropped, but never the last byte. */
  function Stripped(s: seq<Byte>): seq<Byte> {
    if |s| > 1 && s[0] == 0 then Stripped(s[1..]) else s
  }

  function Zeros(n: nat): (s: seq<Byte>)
    ensures |s| == n && forall i :: 0 <= i < n ==> s[i] == 0
  {
    if n == 0 then [] else [0] + Zeros(n - 1)
  }

  /** Right-aligned in `size` bytes. */
  function Padded(s: seq<Byte>, size: nat): seq<Byte>
    requires |s| <= size
  {
    Zeros(size - |s|) + s
  }

  function Content(buf: seq<Byte>, tlv: Tlv): seq<Byte> {
    if tlv.contentStart <= tlv.end <= |buf| then buf[tlv.contentStart..tlv.end] else []
  }

  /** The two INTEGERs of a signature: first two elements of the leading SEQUENCE. */
  function Components(sig: seq<Byte>): (r: Result<(seq<Byte>, seq<Byte>), Error>) {
    match TlvAt(sig, 0)
    case Err(e) => Err(e)
    case Ok(outer) =>
      if outer.tag != SEQUENCE then Err(NotASequence)
      else match Children(sig, outer)
        case Err(e) => Err(e)
        case Ok(kids) =>
          if |kids| < 2 || kids[0].tag != INTEGER || kids[1].tag != INTEGER then Err(NotTwoIntegers)
          else Ok((Content(sig, kids[0]), Content(sig, kids[1])))
  }

  function RawOf(sig: seq<Byte>, size: nat): Result<seq<Byte>, Error> {
    match Components(sig)
    case Err(e) => Err(e)
    case Ok((r, s)) =>
      if |Stripped(r)| > size || |Stripped(s)| > size then Err(ComponentTooLarge)
      else Ok(Padded(Stripped(r), size) + Padded(Stripped(s), size))
  }

  lemma {:induction false} StripFrom(bytes: seq<Byte>, from: nat)
    requires from <= |bytes| && forall i :: 0 <= i < from ==> bytes[i] == 0
    requires from < |bytes| || from == 0
    ensures Stripped(bytes) == Stripped(bytes[from..])
  {
    if from > 0 {
      StripFrom(bytes[1..], from - 1);
      assert bytes[1..][from - 1..] == bytes[from..];
    } else {
      assert bytes[0..] == bytes;
    }
  }

  /** Writes one component right-aligned in `out[offset..offset + size]`. */
  method Place(content: seq<Byte>, out: array<Byte>, offset: nat, size: nat) returns (ok: bool)
    requires offset + size <= out.Length
    requires forall i :: offset <= i < offset + size ==> out[i] == 0
    modifies out
    ensures ok <==> |Stripped(content)| <= size
    ensures ok ==> out[offset..offset + size] == Padded(Stripped(content), size)
    ensures forall i :: 0 <= i < out.Length && !(offset <= i < offset + size) ==> out[i] == old(out[i])
  {
    var from := 0;
    while from + 1 < |content| && content[from] == 0
      invariant from == 0 || from < |content|
      invariant forall i :: 0 <= i < from ==> content[i] == 0
    {
      from := from + 1;
    }
    StripFrom(content, from);
    var bytes := content[from..];
    if |bytes| > size {
      return false;
    }
    var at := offset + size - |bytes|;
    for i := 0 to |bytes|
      invariant forall k :: 0 <= k < i ==> out[at + k] == bytes[k]
      invariant forall k :: offset <= k < at ==> out[k] == 0
      invariant forall k :: 0 <= k < out.Length && !(offset <= k < offset + size) ==> out[k] == old(out[k])
    {
      out[at + i] := bytes[i];
    }
    assert out[offset..at] == Zeros(size - |bytes|);
    assert out[at..offset + size] == bytes;
    assert out[offset..offset + size] == out[offset..at] + out[at..offset + size];
    ok := true;
  }

  method EcdsaDerToRaw(sig: seq<Byte>, size: nat) returns (r: Result<seq<Byte>, Error>)
    ensures r == RawOf(sig, size)
  {
    var outer := ParseTlv(sig, 0);
    if outer.Err? {
      return Err(outer.error);
    }
    if outer.value.tag != SEQUENCE {
      return Err(NotASequence);
    }
    var kids := ReadChildren(sig, outer.value);
    if kids.Err? {
      return Err(kids.error);
    }
    if |kids.value| < 2 || kids.value[0].tag != INTEGER || kids.value[1].tag != INTEGER {
      return Err(NotTwoIntegers);
    }
    var out := new Byte[size * 2](i => 0);
    var ok := Place(Content(sig, kids.value[0]), out, 0, size);
    if !ok {
      return Err(ComponentTooLarge);
    }
    ghost var half := out[0..size];
    ok := Place(Content(sig, kids.value[1]), out, size, size);
    if !ok {
      return Err(ComponentTooLarge);
    }
    assert out[0..size] == half;
    assert out[..] == out[0..size] + out[size..size + size];
    r := Ok(out[..]);
  }

  // ---------------------------------------------------------------- value is preserved

  lemma {:induction false} LeadingZero(s: seq<Byte>)
    ensures BeValue([0] + s) == BeValue(s)
  {
    if s == [] {
      assert [0] + s == [0] && [0][..0] == [];
    } else {
      assert ([0] + s)[..|s|] == [0] + s[..|s| - 1];
      LeadingZero(s[..|s| - 1]);
    }
  }

  lemma {:induction false} StripKeepsValue(s: seq<Byte>)
    ensures BeValue(Stripped(s)) == BeValue(s)
  {
    if |s| > 1 && s[0] == 0 {
      StripKeepsValue(s[1..]);
      LeadingZero(s[1..]);
      assert [0] + s[1..] == s;
    }
  }

  lemma {:induction false} PaddingKeepsValue(s: seq<Byte>, n: nat)
    ensures BeValue(Zeros(n) + s) == BeValue(s)
  {
    if n == 0 {
      assert Zeros(0) + s == s;
    } else {
      PaddingKeepsValue(s, n - 1);
      LeadingZero(Zeros(n - 1) + s);
      assert Zeros(n) + s == [0] + (Zeros(n - 1) + s);
    }
  }

  /** A stripped number of more than one byte has a leading byte that counts. */
  lemma {:induction false} StrippedIsShort(s: seq<Byte>, size: nat)
    requires size >= 1
    ensures |Stripped(s)| <= size <==> BeValue(s) < Pow256(size)
  {
    hide BeValue, BeBytes, Pow256;
    StripKeepsValue(s);
    StrippedLeads(s);
    var t := Stripped(s);
    hide Stripped;
    BeInverse(t);
    if |t| <= size {
      PowersGrow(|t|, size);
    } else {
      assert t == [t[0]] + t[1..];
      BeConcat([t[0]], t[1..]);
      OneByte(t[0]);
      PowersGrow(size, |t| - 1);
      AtLeastOnce(t[0], Pow256(|t| - 1));
    }
  }

  lemma AtLeastOnce(a: nat, p: nat)
    requires a >= 1
    ensures a * p >= p
  {
  }

  lemma OneByte(b: Byte)
    ensures BeValue([b]) == b
  {
    assert [b][..0] == [];
  }

  lemma {:induction false} StrippedLeads(s: seq<Byte>)
    ensures |Stripped(s)| > 1 ==> Stripped(s)[0] > 0
  {
    if |s| > 1 && s[0] == 0 {
      StrippedLeads(s[1..]);
    }
  }

  lemma {:induction false} PowersGrow(j: nat, k: nat)
    requires j <= k
    ensures Pow256(j) <= Pow256(k)
  {
    if j < k {
      PowersGrow(j, k - 1);
    }
  }

  /**
   * A signature is accepted exactly when it is a SEQUENCE that starts with two INTEGERs
   * whose contents, read unsigned, fit in `size` bytes; and then the two halves of the
   * result have those very values.
   */
  lemma PreservesValues(sig: seq<Byte>, size: nat)
    requires size >= 1
    ensures RawOf(sig, size).Ok? <==>
              && Components(sig).Ok?
              && BeValue(Components(sig).value.0) < Pow256(size) && BeValue(Components(sig).value.1) < Pow256(size)
    ensures RawOf(sig, size).Ok? ==>
              var out := RawOf(sig, size).value;
              && |out| == 2 * size
              && BeValue(out[..size]) == BeValue(Components(sig).value.0)
              && BeValue(out[size..]) == BeValue(Components(sig).value.1)
  {
    if Components(sig).Ok? {
      var (r, s) := Components(sig).value;
      StrippedIsShort(r, size);
      StrippedIsShort(s, size);
      if RawOf(sig, size).Ok? {
        var out := RawOf(sig, size).value;
        assert out[..size] == Padded(Stripped(r), size) && out[size..] == Padded(Stripped(s), size);
        StripKeepsValue(r);
        StripKeepsValue(s);
        PaddingKeepsValue(Stripped(r), size - |Stripped(r)|);
        PaddingKeepsValue(Stripped(s), size - |Stripped(s)|);
      }
    }
  }

  // ---------------------------------------------------------------- every well-formed signature is recovered

  /** The shortest two's-complement form of a non-negative integer (section 8.3 of X.690). */
  function IntegerBytes(n: nat): seq<Byte> {
    if n < 128 then [n] else IntegerBytes(n / 256) + [n % 256]
  }

  lemma {:induction false} IntegerBytesValue(n: nat)
    ensures BeValue(IntegerBytes(n)) == n
  {
    if n < 128 {
      OneByte(n);
    } else {
      IntegerBytesValue(n / 256);
      var s := IntegerBytes(n);
      assert s[..|s| - 1] == IntegerBytes(n / 256);
    }
  }

  function SignatureTree(r: nat, s: nat, fr: Form, fs: Form, outer: Form): Tree {
    Constructed(SEQUENCE, outer, [Primitive(INTEGER, fr, IntegerBytes(r)), Primitive(INTEGER, fs, IntegerBytes(s))])
  }

  /** Every pair below 256^size, encoded as section 8.3 says and with any length forms, comes back exactly. */
  lemma RecoversEverySignature(r: nat, s: nat, size: nat, fr: Form, fs: Form, outer: Form)
    requires size >= 1 && r < Pow256(size) && s < Pow256(size)
    requires Encodable(SignatureTree(r, s, fr, fs, outer))
    ensures RawOf(Encode(SignatureTree(r, s, fr, fs, outer)), size) == Ok(BeBytes(r, size) + BeBytes(s, size))
  {
    hide Encode, Encodable, RawOf, Components, BeValue, BeBytes, Pow256, IntegerBytes;
    var t := SignatureTree(r, s, fr, fs, outer);
    SignatureComponents(t);
    IntegerBytesValue(r);
    IntegerBytesValue(s);
    hide SignatureTree;
    var sig := Encode(t);
    PreservesValues(sig, size);
    var out := RawOf(sig, size).value;
    BeInverse(out[..size]);
    BeInverse(out[size..]);
    assert out == out[..size] + out[size..];
  }

  lemma SignatureComponents(t: Tree)
    requires t.Constructed? && t.tag == SEQUENCE && Encodable(t)
    requires |t.kids| == 2 && t.kids[0].Primitive? && t.kids[1].Primitive?
    requires t.kids[0].tag == INTEGER && t.kids[1].tag == INTEGER
    ensures Components(Encode(t)) == Ok((t.kids[0].content, t.kids[1].content))
  {
    var buf := Encode(t);
    assert StandsAt(buf, 0, buf) by { assert buf[0..0 + |buf|] == buf; }
    hide TlvAt, StandsAt, LengthFits, Frame, ChildrenFrom;
    TreeParses(buf, 0, t);
    var tlv := TlvAt(buf, 0).value;
    hide Encode;
    PairStands(buf, tlv.contentStart, t.kids);
    PairTiles(buf, tlv.contentStart, tlv.end, t.kids[0], t.kids[1]);
  }

  lemma PairStands(buf: seq<Byte>, pos: nat, kids: seq<Tree>)
    requires |kids| == 2 && AllEncodable(kids) && StandsAt(buf, pos, EncodeAll(kids))
    ensures Encodable(kids[0]) && Encodable(kids[1])
    ensures StandsAt(buf, pos, Encode(kids[0])) && StandsAt(buf, pos + |Encode(kids[0])|, Encode(kids[1]))
    ensures |EncodeAll(kids)| == |Encode(kids[0])| + |Encode(kids[1])|
  {
    hide StandsAt, Encode, Encodable;
    var rest := kids[1..];
    assert rest[0] == kids[1] && rest[1..] == [];
    assert AllEncodable(rest);
    assert EncodeAll(rest) == Encode(kids[1]) + EncodeAll([]);
    StandsSplit(buf, pos, Encode(kids[0]), EncodeAll(rest));
    StandsSplit(buf, pos + |Encode(kids[0])|, Encode(kids[1]), EncodeAll([]));
  }

  /** Two values side by side are the children found between their outer ends. */
  lemma PairTiles(buf: seq<Byte>, pos: nat, end: nat, a: Tree, b: Tree)
    requires Encodable(a) && Encodable(b)
    requires StandsAt(buf, pos, Encode(a)) && StandsAt(buf, pos + |Encode(a)|, Encode(b))
    requires end == pos + |Encode(a)| + |Encode(b)|
    ensures TlvAt(buf, pos).Ok? && TlvAt(buf, pos + |Encode(a)|).Ok?
    ensures var ka, kb := TlvAt(buf, pos).value, TlvAt(buf, pos + |Encode(a)|).value;
            && ka.tag == a.tag && kb.tag == b.tag
            && ChildrenFrom(buf, pos, end, []) == Ok([ka, kb])
            && (a.Primitive? ==> Content(buf, ka) == a.content) && (b.Primitive? ==> Content(buf, kb) == b.content)
  {
    hide TlvAt, StandsAt, LengthFits, Frame, ChildrenFrom, Encode, Encodable, EncodeAll;
    TreeParses(buf, pos, a);
    TreeParses(buf, pos + |Encode(a)|, b);
    var ka, kb := TlvAt(buf, pos).value, TlvAt(buf, pos + |Encode(a)|).value;
    assert [ka, kb][1..] == [kb] && [kb][1..] == [];
    assert Tile(buf, [], kb.end, end);
    assert Tile(buf, [kb], ka.end, end);
    ChildrenTile(buf, pos, end, [], [ka, kb]);
    assert [] + [ka, kb] == [ka, kb];
  }
}
