// Bytes and big-endian numbers.

module Bytes {
  import opened Arith

  type byte = b: int | 0 <= b < 256 witness 0

  function Pow256(k: nat): (p: int)
    ensures p >= 1
  {
    if k == 0 then 1 else 256 * Pow256(k - 1)
  }

  // The low k bytes of n, most significant first; n may be negative.
  function ToBE(k: nat, n: int): (s: seq<byte>)
    ensures |s| == k
  {
    if k == 0 then [] else ToBE(k - 1, n / 256) + [n % 256]
  }

  function FromBE(s: seq<byte>): (n: nat)
    ensures n < Pow256(|s|)
  {
    if s == [] then 0 else FromBE(s[..|s| - 1]) * 256 + s[|s| - 1]
  }

  // Reading back what was written keeps the number modulo the width.
  lemma {:induction false} FromToBE(k: nat, n: int)
    ensures FromBE(ToBE(k, n)) == n % Pow256(k)
  {
    if k > 0 {
      FromToBE(k - 1, n / 256);
      assert ToBE(k, n)[..k - 1] == ToBE(k - 1, n / 256);
      NestedMod(n, 256, Pow256(k - 1));
    }
  }

  // A digit and what is above it, modulo a width.
  lemma NestedMod(n: int, base: int, p: int)
    requires base >= 1 && p >= 1
    ensures base * p >= 1 && ((n / base) % p) * base + n % base == n % (base * p)
  {
    var q, d := n / base, n % base;
    var a, b := q / p, q % p;
    assert n == q * base + d && q == a * p + b;
    Monotone(b, p - 1, base);
    Monotone(1, p, base);
    Monotone(0, b, base);
    calc {
      n;
      (a * p + b) * base + d;
      a * p * base + b * base + d;
      { assert a * p * base == a * (p * base); assert p * base == base * p; }
      a * (base * p) + (b * base + d);
    }
    DivMod(n, base * p, a, b * base + d);
  }

  lemma {:induction false} ToFromBE(s: seq<byte>)
    ensures ToBE(|s|, FromBE(s)) == s
  {
    if s != [] {
      var t := s[..|s| - 1];
      ToFromBE(t);
      DivMod(FromBE(s), 256, FromBE(t), s[|s| - 1]);
    }
  }

  // A number that fits survives.
  lemma FitsBE(k: nat, n: int)
    requires 0 <= n < Pow256(k)
    ensures FromBE(ToBE(k, n)) == n
  {
    FromToBE(k, n);
    DivMod(n, Pow256(k), 0, n);
  }

  // The two widths of a length head, written out byte by byte.
  lemma TwoBytes(n: int)
    ensures ToBE(2, n) == [n / 256 % 256, n % 256]
    ensures Pow256(2) == 65536
  {
    assert ToBE(1, n / 256) == [] + [n / 256 % 256];
  }

  lemma FourBytes(n: int)
    ensures ToBE(4, n) == [n / 16777216 % 256, n / 65536 % 256, n / 256 % 256, n % 256]
    ensures Pow256(4) == 4294967296
  {
    TwoBytes(n / 65536);
    assert n / 256 / 256 == n / 65536 && n / 65536 / 256 == n / 16777216;
    assert ToBE(3, n / 256) == ToBE(2, n / 65536) + [n / 256 % 256];
  }

  lemma ReadTwo(s: seq<byte>)
    requires |s| == 2
    ensures FromBE(s) == (s[0] as int) * 256 + s[1]
  {
    assert s[..1][..0] == [];
    assert FromBE(s[..1]) == FromBE([]) * 256 + s[0];
  }

  lemma ReadFour(s: seq<byte>)
    requires |s| == 4
    ensures FromBE(s) == (s[0] as int) * 16777216 + (s[1] as int) * 65536 + (s[2] as int) * 256 + s[3]
  {
    var t := s[..3];
    assert t[..2] == s[..2];
    ReadTwo(s[..2]);
    assert FromBE(t) == FromBE(s[..2]) * 256 + s[2];
  }
}
