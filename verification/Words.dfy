/** Numbers and the bytes that spell them, most significant first. */
module Words {
  import opened Base

  /** 256 to the power n. */
  function Pow256(n: nat): (p: nat)
    ensures p > 0
  {
    if n == 0 then 1 else 0x100 * Pow256(n - 1)
  }

  lemma Pow256Values()
    ensures Pow256(1) == 0x100 && Pow256(2) == 0x1_0000 && Pow256(3) == 0x100_0000 && Pow256(4) == 0x1_0000_0000
    ensures Pow256(7) == 0x100_0000_0000_0000 && Pow256(8) == 0x1_0000_0000_0000_0000
  {
    assert Pow256(5) == 0x100_0000_0000 && Pow256(6) == 0x1_0000_0000_0000;
  }

  /** The number that bytes spell, most significant first. */
  function Number(s: bytes): nat {
    if s == [] then 0 else 0x100 * Number(s[..|s| - 1]) + s[|s| - 1]
  }

  lemma {:induction false} NumberInRange(s: bytes)
    ensures Number(s) < Pow256(|s|)
  {
    if s != [] {
      NumberInRange(s[..|s| - 1]);
    }
  }

  lemma {:induction false} NumberOfBigEndian(v: nat, width: nat)
    requires v < Pow256(width)
    ensures Number(BigEndian(v, width)) == v
  {
    if width > 0 {
      NumberOfBigEndian(v / 0x100, width - 1);
      assert BigEndian(v, width)[..width - 1] == BigEndian(v / 0x100, width - 1);
    }
  }

  lemma {:induction false} BigEndianOfNumber(s: bytes)
    ensures BigEndian(Number(s), |s|) == s
  {
    if s != [] {
      BigEndianOfNumber(s[..|s| - 1]);
    }
  }

  /** The first byte counts for the rest's range. */
  lemma {:induction false} NumberByHead(s: bytes)
    requires s != []
    ensures Number(s) == s[0] * Pow256(|s| - 1) + Number(s[1..])
  {
    if |s| > 1 {
      var init := s[..|s| - 1];
      NumberByHead(init);
      assert s[1..][..|s| - 2] == init[1..];
      Scale(s[0], Pow256(|s| - 2));
    }
  }

  lemma Scale(a: int, p: int)
    ensures 0x100 * (a * p) == a * (0x100 * p)
  {
  }

  lemma NumberSnoc(s: bytes, x: uint8)
    ensures Number(s + [x]) == 0x100 * Number(s) + x
  {
    assert (s + [x])[..|s|] == s;
  }

  lemma NumberOf2(a: uint8, b: uint8)
    ensures Number([a, b]) == a as int * 0x100 + b
  {
    NumberSnoc([a], b);
    assert [a] + [b] == [a, b];
  }

  lemma NumberOf4(a: uint8, b: uint8, c: uint8, d: uint8)
    ensures Number([a, b, c, d]) == a as int * 0x100_0000 + b as int * 0x1_0000 + c as int * 0x100 + d
  {
    NumberOf2(a, b);
    NumberSnoc([a, b], c);
    NumberSnoc([a, b, c], d);
    assert [a, b] + [c] == [a, b, c] && [a, b, c] + [d] == [a, b, c, d];
  }
}
