/**
 * The proxy's DER reader (services/proxy/src/der.ts): tag-length-value headers, the
 * children of a constructed value, object identifiers, and ECDSA signatures.
 */
module Der {
  import opened Outcomes
  import opened Bytes

  datatype Error =
    | TruncatedHeader | MultiByteTag | IndefiniteLength | LengthTooLarge | TruncatedLength | RunsPastBuffer
    | NotTiled | EmptyOid | OidEndsMidArc | NotASequence | NotTwoIntegers | ComponentTooLarge

  /** Offsets into the buffer: the identifier octet, the content, and one past its end. */
  datatype Tlv = Tlv(tag: Byte, start: nat, contentStart: nat, length: nat, end: nat)

  // ---------------------------------------------------------------- headers

  function TlvAt(buf: seq<Byte>, pos: nat): (r: Result<Tlv, Error>)
    ensures r.Ok? ==>
              && r.value.start == pos && pos + 2 <= r.value.contentStart <= r.value.end <= |buf|
              && r.value.end == r.value.contentStart + r.value.length && r.value.tag == buf[pos]
  {
    if pos + 2 > |buf| then Err(TruncatedHeader)
    else if buf[pos] % 32 == 31 then Err(MultiByteTag)
    else
      var first := buf[pos + 1];
      if first < 128 then WithLength(buf, pos, pos + 2, first)
      else
        var count := first - 128;
        if count == 0 then Err(IndefiniteLength)
        else if count > 4 then Err(LengthTooLarge)
        else if pos + 2 + count > |buf| then Err(TruncatedLength)
        else WithLength(buf, pos, pos + 2 + count, BeValue(buf[pos + 2..pos + 2 + count]))
  }

  function WithLength(buf: seq<Byte>, pos: nat, contentStart: nat, length: nat): Result<Tlv, Error>
    requires pos < |buf|
  {
    if contentStart + length > |buf| then Err(RunsPastBuffer)
    else Ok(Tlv(buf[pos], pos, contentStart, length, contentStart + length))
  }

  method ParseTlv(buf: seq<Byte>, start: nat) returns (r: Result<Tlv, Error>)
    ensures r == TlvAt(buf, start)
  {
    var pos := start;
    if pos + 2 > |buf| {
      return Err(TruncatedHeader);
    }
    var tag := buf[pos];
    pos := pos + 1;
    if tag % 32 == 31 {
      return Err(MultiByteTag);
    }
    var first := buf[pos];
    pos := pos + 1;
    var length: nat;
    if first < 128 {
      length := first;
    } else {
      var count := first % 128;
      if count == 0 {
        return Err(IndefiniteLength);
      }
      if count > 4 {
        return Err(LengthTooLarge);
      }
      if pos + count > |buf| {
        return Err(TruncatedLength);
      }
      length := 0;
      for i := 0 to count
        invariant pos == start + 2 + i
        invariant length == BeValue(buf[start + 2..pos])
      {
        assert buf[start + 2..pos + 1][..i] == buf[start + 2..pos];
        length := length * 256 + buf[pos];
        pos := pos + 1;
      }
    }
    var end := pos + length;
    if end > |buf| {
      return Err(RunsPastBuffer);
    }
    r := Ok(Tlv(tag, start, pos, length, end));
  }

  // ---------------------------------------------------------------- children

  function ChildrenFrom(buf: seq<Byte>, pos: nat, end: nat, out: seq<Tlv>): Result<seq<Tlv>, Error>
    decreases |buf| - pos
  {
    if pos < end then
      match TlvAt(buf, pos)
      case Err(e) => Err(e)
      case Ok(child) => ChildrenFrom(buf, child.end, end, out + [child])
    else if pos != end then Err(NotTiled)
    else Ok(out)
  }

  function Children(buf: seq<Byte>, parent: Tlv): Result<seq<Tlv>, Error> {
    ChildrenFrom(buf, parent.contentStart, parent.end, [])
  }

  method ReadChildren(buf: seq<Byte>, parent: Tlv) returns (r: Result<seq<Tlv>, Error>)
    ensures r == Children(buf, parent)
  {
    var out := [];
    var pos := parent.contentStart;
    while pos < parent.end
      invariant Children(buf, parent) == ChildrenFrom(buf, pos, parent.end, out)
      decreases |buf| - pos
    {
      var child := ParseTlv(buf, pos);
      if child.Err? {
        return Err(child.error);
      }
      out := out + [child.value];
      pos := child.value.end;
    }
    if pos != parent.end {
      return Err(NotTiled);
    }
    r := Ok(out);
  }

  /** `kids` are parsed headers whose ranges follow one another from `from` to `to`. */
  ghost predicate Tile(buf: seq<Byte>, kids: seq<Tlv>, from: nat, until: nat) {
    if kids == [] then from == until
    else TlvAt(buf, from) == Ok(kids[0]) && Tile(buf, kids[1..], kids[0].end, until)
  }

  /** `children` succeeds exactly when the content is tiled by values, and returns that tiling. */
  lemma {:induction false} ChildrenTile(buf: seq<Byte>, pos: nat, end: nat, out: seq<Tlv>, kids: seq<Tlv>)
    ensures ChildrenFrom(buf, pos, end, out) == Ok(out + kids) <==> Tile(buf, kids, pos, end)
    decreases |buf| - pos, |kids|
  {
    hide TlvAt;
    if kids == [] {
      assert out + kids == out;
      if pos < end && TlvAt(buf, pos).Ok? {
        MoreThanOut(buf, TlvAt(buf, pos).value.end, end, out + [TlvAt(buf, pos).value]);
      }
    } else {
      if pos < end && TlvAt(buf, pos).Ok? {
        var child := TlvAt(buf, pos).value;
        if child == kids[0] {
          assert out + kids == (out + [child]) + kids[1..];
          ChildrenTile(buf, child.end, end, out + [child], kids[1..]);
        } else {
          KeepsOut(buf, child.end, end, out + [child]);
          assert (out + kids)[|out|] == kids[0];
        }
      } else {
        assert out + kids != out by { assert |out + kids| > |out|; }
        TilesMoveForward(buf, kids, pos, end);
      }
    }
  }

  lemma {:induction false} TilesMoveForward(buf: seq<Byte>, kids: seq<Tlv>, from: nat, until: nat)
    ensures Tile(buf, kids, from, until) ==> from <= until && (kids != [] ==> from < until)
  {
    hide TlvAt;
    if kids != [] {
      TilesMoveForward(buf, kids[1..], kids[0].end, until);
    }
  }

  lemma {:induction false} KeepsOut(buf: seq<Byte>, pos: nat, end: nat, out: seq<Tlv>)
    ensures ChildrenFrom(buf, pos, end, out).Ok? ==> out <= ChildrenFrom(buf, pos, end, out).value
    decreases |buf| - pos
  {
    hide TlvAt;
    if pos < end && TlvAt(buf, pos).Ok? {
      KeepsOut(buf, TlvAt(buf, pos).value.end, end, out + [TlvAt(buf, pos).value]);
    }
  }

  lemma MoreThanOut(buf: seq<Byte>, pos: nat, end: nat, out: seq<Tlv>)
    ensures ChildrenFrom(buf, pos, end, out).Ok? ==> |out| <= |ChildrenFrom(buf, pos, end, out).value|
  {
    KeepsOut(buf, pos, end, out);
  }

  /** The bytes of tiling values, header included, are together the bytes they tile. */
  lemma {:induction false} TilesCover(buf: seq<Byte>, kids: seq<Tlv>, from: nat, until: nat)
    requires Tile(buf, kids, from, until) && from <= |buf|
    ensures from <= until <= |buf| && Raws(buf, kids) == buf[from..until]
  {
    hide TlvAt;
    if kids != [] {
      TilesCover(buf, kids[1..], kids[0].end, until);
      SliceConcat(buf, from, kids[0].end, until);
    }
  }

  /** Concatenation of the complete values. */
  ghost function Raws(buf: seq<Byte>, kids: seq<Tlv>): seq<Byte> {
    if kids == [] then []
    else (if kids[0].start <= kids[0].end <= |buf| then buf[kids[0].start..kids[0].end] else []) + Raws(buf, kids[1..])
  }

  // ---------------------------------------------------------------- trees

  /** Short form, or a length written in one to four bytes (section 8.1.3 of X.690); DER takes the shortest. */
  datatype Form = Short | Long(size: nat)

  datatype Tree =
    | Primitive(tag: Byte, form: Form, content: seq<Byte>)
    | Constructed(tag: Byte, form: Form, kids: seq<Tree>)

  /** What a tree means once its length forms are forgotten. */
  datatype Node = Leaf(tag: Byte, content: seq<Byte>) | Branch(tag: Byte, kids: seq<Node>)

  predicate IsConstructed(tag: Byte) {
    tag / 32 % 2 == 1
  }

  predicate LengthFits(form: Form, n: nat) {
    match form
    case Short => n < 128
    case Long(k) => 1 <= k <= 4 && n < Pow256(k)
  }

  function LengthBytes(form: Form, n: nat): seq<Byte>
    requires LengthFits(form, n)
  {
    match form
    case Short => [n]
    case Long(k) => [128 + k] + BeBytes(n, k)
  }

  function Frame(tag: Byte, form: Form, content: seq<Byte>): seq<Byte>
    requires LengthFits(form, |content|)
  {
    [tag] + LengthBytes(form, |content|) + content
  }

  predicate Encodable(t: Tree)
    decreases t, 0
  {
    && t.tag % 32 != 31
    && match t
       case Primitive(tag, form, content) => !IsConstructed(tag) && LengthFits(form, |content|)
       case Constructed(tag, form, kids) => IsConstructed(tag) && AllEncodable(kids) && LengthFits(form, |EncodeAll(kids)|)
  }

  predicate AllEncodable(ts: seq<Tree>)
    decreases ts, 0
  {
    ts == [] || (Encodable(ts[0]) && AllEncodable(ts[1..]))
  }

  function Encode(t: Tree): seq<Byte>
    requires Encodable(t)
    decreases t, 1
  {
    match t
    case Primitive(tag, form, content) => Frame(tag, form, content)
    case Constructed(tag, form, kids) => Frame(tag, form, EncodeAll(kids))
  }

  function EncodeAll(ts: seq<Tree>): seq<Byte>
    requires AllEncodable(ts)
    decreases ts, 1
  {
    if ts == [] then [] else Encode(ts[0]) + EncodeAll(ts[1..])
  }

  function Shape(t: Tree): Node
    decreases t
  {
    match t
    case Primitive(tag, _, content) => Leaf(tag, content)
    case Constructed(tag, _, kids) => Branch(tag, Shapes(kids))
  }

  function Shapes(ts: seq<Tree>): seq<Node>
    decreases ts
  {
    if ts == [] then [] else [Shape(ts[0])] + Shapes(ts[1..])
  }

  /** Reading a value and recursing through `children` wherever the tag says constructed. */
  function Rebuild(buf: seq<Byte>, tlv: Tlv): Result<Node, Error>
    requires TlvAt(buf, tlv.start) == Ok(tlv)
    decreases tlv.end - tlv.start, 0
  {
    if !IsConstructed(tlv.tag) then Ok(Leaf(tlv.tag, buf[tlv.contentStart..tlv.end]))
    else
      match Children(buf, tlv)
      case Err(e) => Err(e)
      case Ok(kids) =>
        ChildrenAreTiles(buf, tlv);
        match RebuildAll(buf, kids, tlv.contentStart, tlv.end)
        case Err(e) => Err(e)
        case Ok(nodes) => Ok(Branch(tlv.tag, nodes))
  }

  function RebuildAll(buf: seq<Byte>, kids: seq<Tlv>, from: nat, until: nat): Result<seq<Node>, Error>
    requires Tile(buf, kids, from, until)
    decreases until - from, 1, |kids|
  {
    if kids == [] then Ok([])
    else
      TilesMoveForward(buf, kids[1..], kids[0].end, until);
      match Rebuild(buf, kids[0])
      case Err(e) => Err(e)
      case Ok(node) =>
        match RebuildAll(buf, kids[1..], kids[0].end, until)
        case Err(e) => Err(e)
        case Ok(rest) => Ok([node] + rest)
  }

  lemma ChildrenAreTiles(buf: seq<Byte>, parent: Tlv)
    ensures Children(buf, parent).Ok? ==> Tile(buf, Children(buf, parent).value, parent.contentStart, parent.end)
  {
    if Children(buf, parent).Ok? {
      var kids := Children(buf, parent).value;
      assert [] + kids == kids;
      ChildrenTile(buf, parent.contentStart, parent.end, [], kids);
    }
  }

  // ---------------------------------------------------------------- round trip

  /** Whatever form a length is written in, the header reads it back. */
  lemma LengthParses(buf: seq<Byte>, pos: nat, form: Form, n: nat)
    requires pos < |buf| && buf[pos] % 32 != 31 && LengthFits(form, n)
    requires StandsAt(buf, pos + 1, LengthBytes(form, n))
    ensures TlvAt(buf, pos) == WithLength(buf, pos, pos + 1 + |LengthBytes(form, n)|, n)
  {
    var size := LengthBytes(form, n);
    assert buf[pos + 1] == buf[pos + 1..pos + 1 + |size|][0] == size[0];
    match form {
      case Short =>
      case Long(k) =>
        LongLengthParses(buf, pos, k, n);
    }
  }

  lemma LongLengthParses(buf: seq<Byte>, pos: nat, k: nat, n: nat)
    requires pos < |buf| && buf[pos] % 32 != 31 && LengthFits(Long(k), n)
    requires StandsAt(buf, pos + 1, [128 + k] + BeBytes(n, k))
    ensures TlvAt(buf, pos) == WithLength(buf, pos, pos + 2 + k, n)
  {
    StandsSplit(buf, pos + 1, [128 + k], BeBytes(n, k));
    assert buf[pos + 1] == buf[pos + 1..pos + 2][0];
    BeRoundTrip(n, k);
    hide WithLength, BeBytes, BeValue, Pow256;
  }

  lemma FrameParses(buf: seq<Byte>, pos: nat, tag: Byte, form: Form, content: seq<Byte>)
    requires tag % 32 != 31 && LengthFits(form, |content|)
    requires StandsAt(buf, pos, Frame(tag, form, content))
    ensures TlvAt(buf, pos).Ok?
    ensures var t := TlvAt(buf, pos).value;
            && t.tag == tag && t.end == pos + |Frame(tag, form, content)|
            && t.length == |content| && buf[t.contentStart..t.end] == content
            && StandsAt(buf, t.contentStart, content)
  {
    hide StandsAt, LengthBytes, LengthFits, TlvAt, Pow256, BeBytes, BeValue;
    var size := LengthBytes(form, |content|);
    FrameStands(buf, pos, tag, size, content);
    FrameLength(tag, form, content);
    hide Frame;
    LengthParses(buf, pos, form, |content|);
    ContentStands(buf, pos + 1 + |size|, content);
  }

  lemma FrameLength(tag: Byte, form: Form, content: seq<Byte>)
    requires LengthFits(form, |content|)
    ensures |Frame(tag, form, content)| == 1 + |LengthBytes(form, |content|)| + |content|
  {
    hide LengthBytes;
  }

  lemma ContentStands(buf: seq<Byte>, pos: nat, content: seq<Byte>)
    ensures StandsAt(buf, pos, content) ==> pos + |content| <= |buf| && buf[pos..pos + |content|] == content
  {
  }

  lemma FrameStands(buf: seq<Byte>, pos: nat, tag: Byte, size: seq<Byte>, content: seq<Byte>)
    requires StandsAt(buf, pos, [tag] + size + content)
    ensures pos < |buf| && buf[pos] == tag
    ensures StandsAt(buf, pos + 1, size) && StandsAt(buf, pos + 1 + |size|, content)
  {
    StandsSplit(buf, pos, [tag] + size, content);
    StandsSplit(buf, pos, [tag], size);
    assert buf[pos] == buf[pos..pos + 1][0] == tag;
  }

  /** The header standing at `pos`, when a tree's encoding does. */
  lemma TreeParses(buf: seq<Byte>, pos: nat, t: Tree)
    requires Encodable(t) && StandsAt(buf, pos, Encode(t))
    ensures TlvAt(buf, pos).Ok? && TlvAt(buf, pos).value.tag == t.tag
    ensures TlvAt(buf, pos).value.end == pos + |Encode(t)|
    ensures var tlv := TlvAt(buf, pos).value;
            match t
            case Primitive(_, _, content) => buf[tlv.contentStart..tlv.end] == content
            case Constructed(_, _, kids) =>
              StandsAt(buf, tlv.contentStart, EncodeAll(kids)) && tlv.end == tlv.contentStart + |EncodeAll(kids)|
  {
    hide TlvAt, LengthFits, Frame, StandsAt;
    match t {
      case Primitive(tag, form, content) => FrameParses(buf, pos, tag, form, content);
      case Constructed(tag, form, kids) => FrameParses(buf, pos, tag, form, EncodeAll(kids));
    }
  }

  /** Parsing an encoded tree and recursing through `children` gives the tree back, whatever its length forms. */
  lemma {:induction false} RebuildsTree(buf: seq<Byte>, pos: nat, t: Tree)
    requires Encodable(t) && StandsAt(buf, pos, Encode(t))
    ensures TlvAt(buf, pos).Ok? && TlvAt(buf, pos).value.end == pos + |Encode(t)|
    ensures Rebuild(buf, TlvAt(buf, pos).value) == Ok(Shape(t))
    decreases t, 1
  {
    hide TlvAt, StandsAt, LengthFits, Frame, Tile, ChildrenFrom, RebuildAll;
    TreeParses(buf, pos, t);
    var tlv := TlvAt(buf, pos).value;
    if t.Constructed? {
      var kids := RebuildsAll(buf, tlv.contentStart, t.kids);
      NothingBefore(kids);
      ChildrenTile(buf, tlv.contentStart, tlv.end, [], kids);
    }
  }

  lemma NothingBefore(kids: seq<Tlv>)
    ensures [] + kids == kids
  {
  }

  lemma {:induction false} RebuildsAll(buf: seq<Byte>, pos: nat, ts: seq<Tree>) returns (kids: seq<Tlv>)
    requires AllEncodable(ts) && StandsAt(buf, pos, EncodeAll(ts))
    ensures Tile(buf, kids, pos, pos + |EncodeAll(ts)|)
    ensures RebuildAll(buf, kids, pos, pos + |EncodeAll(ts)|) == Ok(Shapes(ts))
    decreases ts, 0
  {
    hide TlvAt, StandsAt, Encodable, Encode, Rebuild;
    if ts == [] {
      kids := [];
    } else {
      StandsSplit(buf, pos, Encode(ts[0]), EncodeAll(ts[1..]));
      RebuildsTree(buf, pos, ts[0]);
      var rest := RebuildsAll(buf, pos + |Encode(ts[0])|, ts[1..]);
      kids := [TlvAt(buf, pos).value] + rest;
      assert kids[1..] == rest;
    }
  }

  /** Conversely, whatever rebuilds was the encoding of a tree of that shape. */
  lemma {:induction false} RebuiltIsEncoded(buf: seq<Byte>, tlv: Tlv) returns (t: Tree)
    requires TlvAt(buf, tlv.start) == Ok(tlv) && Rebuild(buf, tlv).Ok?
    ensures Encodable(t) && Encode(t) == buf[tlv.start..tlv.end] && Shape(t) == Rebuild(buf, tlv).value
    decreases tlv.end - tlv.start, 0
  {
    var form := FormOf(buf, tlv);
    var content := buf[tlv.contentStart..tlv.end];
    hide TlvAt, LengthFits, Frame;
    if !IsConstructed(tlv.tag) {
      t := Primitive(tlv.tag, form, content);
    } else {
      ChildrenAreTiles(buf, tlv);
      var kids := Children(buf, tlv).value;
      TilesCover(buf, kids, tlv.contentStart, tlv.end);
      var ts := RebuiltAll(buf, kids, tlv.contentStart, tlv.end);
      t := Constructed(tlv.tag, form, ts);
    }
  }

  lemma {:induction false} RebuiltAll(buf: seq<Byte>, kids: seq<Tlv>, from: nat, until: nat) returns (ts: seq<Tree>)
    requires from <= |buf| && Tile(buf, kids, from, until) && RebuildAll(buf, kids, from, until).Ok?
    ensures from <= until <= |buf| && AllEncodable(ts) && EncodeAll(ts) == buf[from..until]
    ensures Shapes(ts) == RebuildAll(buf, kids, from, until).value
    decreases until - from, 1, |kids|
  {
    hide TlvAt, Encodable, Encode, Rebuild;
    TilesCover(buf, kids, from, until);
    if kids == [] {
      ts := [];
    } else {
      TilesMoveForward(buf, kids[1..], kids[0].end, until);
      var first := RebuiltIsEncoded(buf, kids[0]);
      var rest := RebuiltAll(buf, kids[1..], kids[0].end, until);
      ts := [first] + rest;
      assert ts[1..] == rest;
      SliceConcat(buf, from, kids[0].end, until);
    }
  }

  /** The length form a header was written with. */
  lemma FormOf(buf: seq<Byte>, tlv: Tlv) returns (form: Form)
    requires TlvAt(buf, tlv.start) == Ok(tlv)
    ensures tlv.tag % 32 != 31 && LengthFits(form, tlv.end - tlv.contentStart)
    ensures Frame(tlv.tag, form, buf[tlv.contentStart..tlv.end]) == buf[tlv.start..tlv.end]
  {
    hide LengthBytes, LengthFits, BeValue;
    form := if buf[tlv.start + 1] < 128 then Short else Long(buf[tlv.start + 1] - 128);
    LengthWasWritten(buf, tlv);
    hide TlvAt;
    HeaderSlices(buf, tlv.start, tlv.contentStart, tlv.end);
  }

  /** A tag, a length and a content side by side. */
  lemma HeaderSlices(buf: seq<Byte>, pos: nat, contentStart: nat, end: nat)
    requires pos < contentStart <= end <= |buf|
    ensures buf[pos..end] == [buf[pos]] + buf[pos + 1..contentStart] + buf[contentStart..end]
  {
  }

  lemma LengthWasWritten(buf: seq<Byte>, tlv: Tlv)
    requires TlvAt(buf, tlv.start) == Ok(tlv)
    ensures var first := buf[tlv.start + 1];
            var form := if first < 128 then Short else Long(first - 128);
            && tlv.tag % 32 != 31 && LengthFits(form, tlv.length)
            && LengthBytes(form, tlv.length) == buf[tlv.start + 1..tlv.contentStart]
  {
    var pos, first := tlv.start, buf[tlv.start + 1];
    if first >= 128 {
      BeInverse(buf[pos + 2..tlv.contentStart]);
      assert buf[pos + 1..tlv.contentStart] == [first] + buf[pos + 2..tlv.contentStart];
    }
    hide BeBytes, BeValue, Pow256;
  }

  /** Reading a buffer that is one value: it succeeds exactly on encoded trees, and returns their shape. */
  lemma RebuildIsExact(buf: seq<Byte>, node: Node)
    ensures (TlvAt(buf, 0).Ok? && TlvAt(buf, 0).value.end == |buf| && Rebuild(buf, TlvAt(buf, 0).value) == Ok(node))
            <==> exists t :: Encodable(t) && Encode(t) == buf && Shape(t) == node
  {
    hide TlvAt, Rebuild, Encode, Encodable, Shape;
    if TlvAt(buf, 0).Ok? && TlvAt(buf, 0).value.end == |buf| && Rebuild(buf, TlvAt(buf, 0).value) == Ok(node) {
      var t := RebuiltIsEncoded(buf, TlvAt(buf, 0).value);
      assert buf[0..|buf|] == buf;
    }
    if t :| Encodable(t) && Encode(t) == buf && Shape(t) == node {
      assert buf[0..0 + |buf|] == buf;
      RebuildsTree(buf, 0, t);
    }
  }
}
