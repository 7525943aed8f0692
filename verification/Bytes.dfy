/** Big-endian numbers and byte ranges, shared by the two binary readers of the proxy. */
module Bytes {

  type Byte = b: int | 0 <= b < 256

  function Pow256(k: nat): (p: nat)
    ensures p >= 1
  {
    if k == 0 then 1 else 256 * Pow256(k - 1)
  }

  /** The bytes of a number, most significant first. */
  function BeValue(s: seq<Byte>): nat {
    if s == [] then 0 else BeValue(s[..|s| - 1]) * 256 + s[|s| - 1]
  }

  function BeBytes(n: nat, k: nat): (s: seq<Byte>)
    ensures |s| == k
  {
    if k == 0 then [] else BeBytes(n / 256, k - 1) + [n % 256]
  }

  lemma {:induction false} BeRoundTrip(n: nat, k: nat)
    requires n < Pow256(k)
    ensures BeValue(BeBytes(n, k)) == n
  {
    if k > 0 {
      BeRoundTrip(n / 256, k - 1);
      assert BeBytes(n, k)[..k - 1] == BeBytes(n / 256, k - 1);
    }
  }

  lemma {:induction false} BeInverse(s: seq<Byte>)
    ensures BeValue(s) < Pow256(|s|)
    ensures BeBytes(BeValue(s), |s|) == s
  {
    if s != [] {
      var init, last := s[..|s| - 1], s[|s| - 1];
      BeInverse(init);
      assert BeValue(s) / 256 == BeValue(init) && BeValue(s) % 256 == last;
    }
  }

  lemma {:induction false} BeConcat(a: seq<Byte>, b: seq<Byte>)
    ensures BeValue(a + b) == BeValue(a) * Pow256(|b|) + BeValue(b)
  {
    if b == [] {
      assert a + b == a;
    } else {
      var init := b[..|b| - 1];
      BeConcat(a, init);
      assert (a + b)[..|a + b| - 1] == a + init;
      assert BeValue(a) * Pow256(|b|) == BeValue(a) * Pow256(|init|) * 256;
    }
  }

  lemma Powers()
    ensures Pow256(1) == 0x100 && Pow256(2) == 0x1_0000 && Pow256(4) == 0x1_0000_0000
    ensures Pow256(8) == 0x1_0000_0000_0000_0000
  {
    assert Pow256(3) == 0x100_0000 && Pow256(5) == 0x100_0000_0000 && Pow256(6) == 0x1_0000_0000_0000
        && Pow256(7) == 0x100_0000_0000_0000;
  }

  /** `part` stands in `buf` at `pos`. */
  predicate StandsAt(buf: seq<Byte>, pos: nat, part: seq<Byte>) {
    pos + |part| <= |buf| && buf[pos..pos + |part|] == part
  }

  lemma StandsSplit(buf: seq<Byte>, pos: nat, a: seq<Byte>, b: seq<Byte>)
    ensures StandsAt(buf, pos, a + b) <==> StandsAt(buf, pos, a) && StandsAt(buf, pos + |a|, b)
  {
    if StandsAt(buf, pos, a + b) {
      assert buf[pos..pos + |a|] == (a + b)[..|a|];
      assert buf[pos + |a|..pos + |a| + |b|] == (a + b)[|a|..];
    }
    if StandsAt(buf, pos, a) && StandsAt(buf, pos + |a|, b) {
      assert buf[pos..pos + |a + b|] == buf[pos..pos + |a|] + buf[pos + |a|..pos + |a| + |b|];
    }
  }

  lemma SliceConcat(buf: seq<Byte>, i: nat, j: nat, k: nat)
    requires i <= j <= k <= |buf|
    ensures buf[i..k] == buf[i..j] + buf[j..k]
  {
  }
}
