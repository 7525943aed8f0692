/** Object identifiers (services/proxy/src/der.ts `decodeOid`): lists of arcs, and their dotted form. */
module Oids {
  import opened Outcomes
  import opened Bytes
  import opened Der
  import opened Decimals

  // ---------------------------------------------------------------- decoding

  /** The base-128 loop: `value` is the arc in progress, `parts` the arcs finished. */
  function ArcsFrom(bytes: seq<Byte>, i: nat, value: nat, parts: seq<nat>): (nat, seq<nat>)
    requires i <= |bytes|
    decreases |bytes| - i
  {
    if i == |bytes| then (value, parts)
    else
      var v := value * 128 + bytes[i] % 128;
      if bytes[i] < 128 then ArcsFrom(bytes, i + 1, 0, parts + [v]) else ArcsFrom(bytes, i + 1, v, parts)
  }

  function OidOf(bytes: seq<Byte>): Result<seq<nat>, Error> {
    if bytes == [] then Err(EmptyOid)
    else
      var (value, parts) := ArcsFrom(bytes, 1, 0, [bytes[0] / 40, bytes[0] % 40]);
      if value != 0 then Err(OidEndsMidArc) else Ok(parts)
  }

  /** Arcs joined by dots. */
  function Dotted(arcs: seq<nat>): string {
    if arcs == [] then "" else ToDecimal(arcs[0]) + DottedTail(arcs[1..])
  }

  /** Each further arc, behind its dot. */
  function DottedTail(arcs: seq<nat>): string {
    if arcs == [] then "" else "." + ToDecimal(arcs[0]) + DottedTail(arcs[1..])
  }

  function TextOf(bytes: seq<Byte>): Result<string, Error> {
    match OidOf(bytes)
    case Err(e) => Err(e)
    case Ok(parts) => Ok(Dotted(parts))
  }

  method DecodeOid(bytes: seq<Byte>) returns (r: Result<string, Error>)
    ensures r == TextOf(bytes)
  {
    if |bytes| == 0 {
      return Err(EmptyOid);
    }
    var first := bytes[0];
    var parts: seq<nat> := [first / 40, first % 40];
    var value: nat := 0;
    for i := 1 to |bytes|
      invariant ArcsFrom(bytes, 1, 0, [first / 40, first % 40]) == ArcsFrom(bytes, i, value, parts)
    {
      var byte := bytes[i];
      value := value * 128 + byte % 128;
      if byte < 128 {
        parts := parts + [value];
        value := 0;
      }
    }
    if value != 0 {
      return Err(OidEndsMidArc);
    }
    r := Ok(Dotted(parts));
  }

  lemma NumeralsSplit(x: string, t: string, y: string, u: string)
    requires IsNumber(x) && IsNumber(y) && x + t == y + u
    requires (t == "" || t[0] == '.') && (u == "" || u[0] == '.')
    ensures x == y && t == u
  {
    var s := x + t;
    assert forall i :: 0 <= i < |x| ==> s[i] == x[i];
    assert forall i :: 0 <= i < |y| ==> s[i] == y[i];
    assert t != "" ==> s[|x|] == '.';
    assert u != "" ==> s[|y|] == '.';
    assert |x| == |y|;
    assert x == s[..|x|] && y == s[..|y|] && t == s[|x|..] && u == s[|y|..];
  }

  /** The first of two arc lists written alike is the same, and so is what follows. */
  lemma FirstArc(m: nat, a: seq<nat>, n: nat, b: seq<nat>)
    requires ToDecimal(m) + DottedTail(a) == ToDecimal(n) + DottedTail(b)
    ensures m == n && DottedTail(a) == DottedTail(b)
  {
    NumeralsSplit(ToDecimal(m), DottedTail(a), ToDecimal(n), DottedTail(b));
    ValueOfDecimal(m);
    ValueOfDecimal(n);
  }

  lemma TailText(a: seq<nat>)
    ensures a == [] <==> DottedTail(a) == ""
    ensures a != [] ==> DottedTail(a) != "" && DottedTail(a)[1..] == ToDecimal(a[0]) + DottedTail(a[1..])
  {
    hide ToDecimal;
  }

  lemma {:induction false} TailsDiffer(a: seq<nat>, b: seq<nat>)
    requires DottedTail(a) == DottedTail(b)
    ensures a == b
  {
    hide ToDecimal, DottedTail;
    TailText(a);
    TailText(b);
    if a != [] {
      FirstArc(a[0], a[1..], b[0], b[1..]);
      TailsDiffer(a[1..], b[1..]);
      assert a == [a[0]] + a[1..] && b == [b[0]] + b[1..];
    }
  }

  /** Different identifiers are written differently. */
  lemma DottedIsInjective(a: seq<nat>, b: seq<nat>)
    ensures Dotted(a) == Dotted(b) <==> a == b
  {
    if Dotted(a) == Dotted(b) && a != [] && b != [] {
      hide ToDecimal;
      FirstArc(a[0], a[1..], b[0], b[1..]);
      TailsDiffer(a[1..], b[1..]);
      assert a == [a[0]] + a[1..] && b == [b[0]] + b[1..];
    }
  }

  // ---------------------------------------------------------------- encoding (section 8.19 of X.690)

  /** Leading base-128 digits, each with the continuation bit. */
  function HighDigits(n: nat): seq<Byte> {
    if n == 0 then [] else HighDigits(n / 128) + [128 + n % 128]
  }

  function Subidentifier(n: nat): (s: seq<Byte>)
    ensures s != []
  {
    HighDigits(n / 128) + [n % 128]
  }

  function Subidentifiers(arcs: seq<nat>): seq<Byte> {
    if arcs == [] then [] else Subidentifier(arcs[0]) + Subidentifiers(arcs[1..])
  }

  /** The first two arcs share a subidentifier. */
  function EncodeOid(x: nat, y: nat, rest: seq<nat>): seq<Byte> {
    Subidentifier(40 * x + y) + Subidentifiers(rest)
  }

  /** Roots 0 and 1 have at most 40 children; root 2 has no bound. */
  predicate IsOid(x: nat, y: nat) {
    x <= 2 && (x < 2 ==> y < 40)
  }

  // ---------------------------------------------------------------- what the loop reads back

  lemma {:induction false} ReadsHighDigits(buf: seq<Byte>, i: nat, n: nat, parts: seq<nat>)
    requires StandsAt(buf, i, HighDigits(n))
    ensures ArcsFrom(buf, i, 0, parts) == ArcsFrom(buf, i + |HighDigits(n)|, n, parts)
  {
    if n > 0 {
      StandsSplit(buf, i, HighDigits(n / 128), [128 + n % 128]);
      var j := i + |HighDigits(n / 128)|;
      ReadsHighDigits(buf, i, n / 128, parts);
      assert buf[j] == buf[j..j + 1][0];
    }
  }

  lemma ReadsSubidentifier(buf: seq<Byte>, i: nat, n: nat, parts: seq<nat>)
    requires StandsAt(buf, i, Subidentifier(n))
    ensures ArcsFrom(buf, i, 0, parts) == ArcsFrom(buf, i + |Subidentifier(n)|, 0, parts + [n])
  {
    StandsSplit(buf, i, HighDigits(n / 128), [n % 128]);
    var j := i + |HighDigits(n / 128)|;
    ReadsHighDigits(buf, i, n / 128, parts);
    assert buf[j] == buf[j..j + 1][0] == n % 128;
  }

  lemma {:induction false} ReadsSubidentifiers(buf: seq<Byte>, i: nat, arcs: seq<nat>, parts: seq<nat>)
    requires StandsAt(buf, i, Subidentifiers(arcs)) && i + |Subidentifiers(arcs)| == |buf|
    ensures ArcsFrom(buf, i, 0, parts) == (0, parts + arcs)
    decreases |arcs|
  {
    if arcs == [] {
      assert parts + [] == parts;
    } else {
      hide Subidentifier;
      StandsSplit(buf, i, Subidentifier(arcs[0]), Subidentifiers(arcs[1..]));
      ReadsSubidentifier(buf, i, arcs[0], parts);
      ReadsSubidentifiers(buf, i + |Subidentifier(arcs[0])|, arcs[1..], parts + [arcs[0]]);
      assert (parts + [arcs[0]]) + arcs[1..] == parts + arcs;
    }
  }

  /** Arcs already finished are never revised. */
  lemma {:induction false} PartsStay(bytes: seq<Byte>, i: nat, value: nat, parts: seq<nat>)
    requires i <= |bytes|
    ensures parts <= ArcsFrom(bytes, i, value, parts).1
    decreases |bytes| - i
  {
    if i < |bytes| {
      var v := value * 128 + bytes[i] % 128;
      if bytes[i] < 128 {
        PartsStay(bytes, i + 1, 0, parts + [v]);
      } else {
        PartsStay(bytes, i + 1, v, parts);
      }
    }
  }

  lemma {:induction false} HighDigitsLead(n: nat)
    requires n > 0
    ensures HighDigits(n) != [] && HighDigits(n)[0] > 128
  {
    if n >= 128 {
      HighDigitsLead(n / 128);
    } else {
      assert n / 128 == 0 && HighDigits(n / 128) == [];
    }
  }

  /** The first byte of the encoding, where `decodeOid` looks for both arcs. */
  lemma FirstByte(x: nat, y: nat, rest: seq<nat>)
    requires IsOid(x, y)
    ensures y < 40 ==> EncodeOid(x, y, rest)[0] == 40 * x + y && |Subidentifier(40 * x + y)| == 1
    ensures y >= 40 ==> EncodeOid(x, y, rest)[0] >= 120
  {
    var n := 40 * x + y;
    if n < 128 {
      assert HighDigits(n / 128) == [];
    } else {
      HighDigitsLead(n / 128);
    }
  }

  /** Every encoded identifier decodes to its dotted form exactly when the second arc is below 40. */
  lemma InvertsEncodingIff(x: nat, y: nat, rest: seq<nat>)
    requires IsOid(x, y)
    ensures TextOf(EncodeOid(x, y, rest)) == Ok(Dotted([x, y] + rest)) <==> y < 40
  {
    hide Dotted;
    ArcsComeBackIff(x, y, rest);
    if OidOf(EncodeOid(x, y, rest)).Ok? {
      DottedIsInjective(OidOf(EncodeOid(x, y, rest)).value, [x, y] + rest);
    }
  }

  lemma ArcsComeBackIff(x: nat, y: nat, rest: seq<nat>)
    requires IsOid(x, y)
    ensures OidOf(EncodeOid(x, y, rest)) == Ok([x, y] + rest) <==> y < 40
  {
    hide Subidentifier, Subidentifiers;
    var bytes := EncodeOid(x, y, rest);
    FirstByte(x, y, rest);
    var parts := [bytes[0] / 40, bytes[0] % 40];
    if y < 40 {
      assert bytes[0] / 40 == x && bytes[0] % 40 == y;
      assert bytes[1..1 + |Subidentifiers(rest)|] == Subidentifiers(rest);
      ReadsSubidentifiers(bytes, 1, rest, parts);
    } else {
      PartsStay(bytes, 1, 0, parts);
      assert ArcsFrom(bytes, 1, 0, parts).1[0] == parts[0] >= 3;
      assert ([x, y] + rest)[0] == x;
    }
  }

  // ---------------------------------------------------------------- what is accepted

  /** The first `n` bytes end an arc, as far as the loop can tell: it never looks at the first byte's own bit. */
  predicate EndsArc(bytes: seq<Byte>, n: nat) {
    1 <= n <= |bytes| && (n == 1 || bytes[n - 1] < 128)
  }

  /** Nothing but empty continuation bytes from `n` on. */
  predicate OnlyPadding(bytes: seq<Byte>, n: nat) {
    forall m :: n <= m < |bytes| ==> bytes[m] == 128
  }

  /** Some complete prefix longer than `i` has only padding after it. */
  predicate PaddedPrefix(bytes: seq<Byte>, i: nat) {
    exists n :: i < n <= |bytes| && EndsArc(bytes, n) && OnlyPadding(bytes, n)
  }

  /** After the first byte, a pending value is zero at the end iff it started so and only padding came, or an arc ended. */
  lemma {:induction false} PendingValue(bytes: seq<Byte>, i: nat, value: nat, parts: seq<nat>)
    requires 1 <= i <= |bytes|
    ensures ArcsFrom(bytes, i, value, parts).0 == 0 <==> (value == 0 && OnlyPadding(bytes, i)) || PaddedPrefix(bytes, i)
    decreases |bytes| - i
  {
    if i < |bytes| {
      var v := value * 128 + bytes[i] % 128;
      PaddingStep(bytes, i);
      if bytes[i] < 128 {
        PendingValue(bytes, i + 1, 0, parts + [v]);
      } else {
        PendingValue(bytes, i + 1, v, parts);
      }
    }
  }

  lemma PaddingStep(bytes: seq<Byte>, i: nat)
    requires 1 <= i < |bytes|
    ensures OnlyPadding(bytes, i) <==> bytes[i] == 128 && OnlyPadding(bytes, i + 1)
    ensures PaddedPrefix(bytes, i) <==> (bytes[i] < 128 && OnlyPadding(bytes, i + 1)) || PaddedPrefix(bytes, i + 1)
  {
    if PaddedPrefix(bytes, i) {
      var n :| i < n <= |bytes| && EndsArc(bytes, n) && OnlyPadding(bytes, n);
      assert n == i + 1 || PaddedPrefix(bytes, i + 1);
    }
    if bytes[i] < 128 && OnlyPadding(bytes, i + 1) {
      assert EndsArc(bytes, i + 1);
    }
  }

  /**
   * Exactly which contents are accepted: some prefix is a complete identifier as the loop
   * sees it, and only 0x80 bytes follow. The prefix may be the first byte alone, whatever it is.
   */
  lemma AcceptsIff(bytes: seq<Byte>)
    ensures OidOf(bytes).Ok? <==> exists n :: EndsArc(bytes, n) && OnlyPadding(bytes, n)
  {
    if bytes != [] {
      var parts := [bytes[0] / 40, bytes[0] % 40];
      PendingValue(bytes, 1, 0, parts);
      assert EndsArc(bytes, 1);
      if n :| EndsArc(bytes, n) && OnlyPadding(bytes, n) {
        assert n == 1 || PaddedPrefix(bytes, 1);
      }
    }
  }

  /** Padding after an accepted content changes nothing. */
  lemma PaddedTailIsAccepted(bytes: seq<Byte>)
    requires OidOf(bytes).Ok?
    ensures OidOf(bytes + [128]) == OidOf(bytes)
  {
    var parts := [bytes[0] / 40, bytes[0] % 40];
    OneMoreByte(bytes, 1, 0, parts, 128);
  }

  lemma {:induction false} OneMoreByte(bytes: seq<Byte>, i: nat, value: nat, parts: seq<nat>, b: Byte)
    requires i <= |bytes| && b >= 128
    ensures var (v, ps) := ArcsFrom(bytes, i, value, parts);
            ArcsFrom(bytes + [b], i, value, parts) == (v * 128 + b % 128, ps)
    decreases |bytes| - i
  {
    if i < |bytes| {
      var v := value * 128 + bytes[i] % 128;
      if bytes[i] < 128 {
        OneMoreByte(bytes, i + 1, 0, parts + [v], b);
      } else {
        OneMoreByte(bytes, i + 1, v, parts, b);
      }
    }
  }

  /**
   * Cut after its first byte, the encoding of 2.999 (0x88 0x37) is still accepted, as 3.16;
   * so is any lone byte.
   */
  lemma CutFirstArcIsAccepted(b: Byte)
    ensures EncodeOid(2, 999, []) == [0x88, 0x37]
    ensures OidOf([b]) == Ok([b / 40, b % 40])
    ensures TextOf([0x88]) == Ok("3.16")
  {
    assert 1079 == 8 * 128 + 55 && HighDigits(0) == [] && HighDigits(8) == [] + [136];
    assert Subidentifier(1079) == [136] + [55];
    assert EncodeOid(2, 999, []) == [136] + [55] + [];
    ThreeSixteen();
  }

  lemma ThreeSixteen()
    ensures Dotted([3, 16]) == "3.16"
  {
    assert ToDecimal(1) == "1" && ToDecimal(16) == ToDecimal(1) + [DigitChar(6)];
    assert ToDecimal(16) == "16" && ToDecimal(3) == "3";
    var arcs := [3, 16];
    assert arcs[1..] == [16] && [16][1..] == [];
    assert DottedTail([16]) == "." + "16" + "";
    assert Dotted(arcs) == "3" + ".16";
  }
}
