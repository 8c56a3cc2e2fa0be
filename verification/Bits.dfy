/**
 Bitwise operators on unsigned integers, defined bit by bit on naturals.
 A shift that leaves the word is cut off by the caller, which reduces modulo the word size.
 */
module Bits {
  function Pow2(n: nat): (r: nat)
    ensures r > 0
  {
    if n == 0 then 1 else 2 * Pow2(n - 1)
  }

  /** Bit k of w. */
  predicate Bit(w: nat, k: nat) {
    if k == 0 then w % 2 == 1 else Bit(w / 2, k - 1)
  }

  function Or(a: nat, b: nat): nat {
    if a == 0 then b
    else (if a % 2 == 1 || b % 2 == 1 then 1 else 0) + 2 * Or(a / 2, b / 2)
  }

  function And(a: nat, b: nat): nat {
    if a == 0 then 0
    else (if a % 2 == 1 && b % 2 == 1 then 1 else 0) + 2 * And(a / 2, b / 2)
  }

  /** The shift w << d in a word of the given number of bits. */
  function Shl(w: nat, d: nat, width: nat): (r: nat)
    ensures r < Pow2(width)
  {
    (w * Pow2(d)) % Pow2(width)
  }

  lemma {:induction false} ZeroBit(k: nat)
    ensures !Bit(0, k)
  {
    if k > 0 {
      ZeroBit(k - 1);
    }
  }

  lemma {:induction false} BitOr(a: nat, b: nat, k: nat)
    ensures Bit(Or(a, b), k) <==> Bit(a, k) || Bit(b, k)
  {
    if a == 0 {
      ZeroBit(k);
    } else if k > 0 {
      assert Or(a, b) / 2 == Or(a / 2, b / 2);
      BitOr(a / 2, b / 2, k - 1);
    }
  }

  lemma {:induction false} BitPow2(d: nat, k: nat)
    ensures Bit(Pow2(d), k) <==> k == d
  {
    if k == 0 {
    } else if d == 0 {
      ZeroBit(k - 1);
    } else {
      BitPow2(d - 1, k - 1);
    }
  }

  /** Testing against a one-bit mask reads that bit. */
  lemma {:induction false} AndMask(w: nat, d: nat)
    ensures And(w, Pow2(d)) != 0 <==> Bit(w, d)
  {
    if w == 0 {
      ZeroBit(d);
    } else if d == 0 {
      assert Pow2(0) / 2 == 0;
      AndZero(w / 2);
    } else {
      AndMask(w / 2, d - 1);
    }
  }

  lemma {:induction false} AndZero(w: nat)
    ensures And(w, 0) == 0
  {
    if w > 0 {
      AndZero(w / 2);
    }
  }

  lemma {:induction false} BitShift(w: nat, d: nat, k: nat)
    ensures Bit(w * Pow2(d), k) <==> k >= d && Bit(w, k - d)
  {
    if d > 0 {
      assert w * Pow2(d) == 2 * (w * Pow2(d - 1));
      if k > 0 {
        BitShift(w, d - 1, k - 1);
      }
    }
  }

  lemma {:induction false} BitMod(w: nat, n: nat, k: nat)
    requires k < n
    ensures Bit(w % Pow2(n), k) <==> Bit(w, k)
  {
    ModHalves(w, Pow2(n - 1));
    if k > 0 {
      BitMod(w / 2, n - 1, k - 1);
    }
  }

  lemma ModHalves(w: nat, p: nat)
    requires p > 0
    ensures (w % (2 * p)) % 2 == w % 2
    ensures (w % (2 * p)) / 2 == (w / 2) % p
  {
    ModDouble(w, p);
    var m := w % (2 * p);
    assert m == 2 * ((w / 2) % p) + w % 2;
  }

  /** Reducing modulo 2p keeps the low bit and reduces the rest modulo p. */
  lemma ModDouble(w: nat, p: nat)
    requires p > 0
    ensures w % (2 * p) == 2 * ((w / 2) % p) + w % 2
  {
    var q := (w / 2) / p;
    var r := (w / 2) % p;
    assert w == (2 * p) * q + (2 * r + w % 2);
    ModUnique(w, 2 * p, q, 2 * r + w % 2);
  }

  lemma ModUnique(w: nat, m: nat, q: nat, r: nat)
    requires r < m && w == m * q + r
    ensures w % m == r && w / m == q
  {
    var d := w / m - q;
    assert w == m * (w / m) + w % m;
    assert m * d == r - w % m;
    assert d >= 1 ==> m * d >= m;
    assert d <= -1 ==> m * d <= -(m as int);
  }

  /** Bit k of (w << d) in a word of the given width. */
  lemma BitShl(w: nat, d: nat, width: nat, k: nat)
    requires k < width
    ensures Bit(Shl(w, d, width), k) <==> k >= d && Bit(w, k - d)
  {
    BitMod(w * Pow2(d), width, k);
    BitShift(w, d, k);
  }

  /** When the low k bits of b are clear and a has no higher bits, or is addition. */
  lemma {:induction false} OrDisjoint(a: nat, b: nat, k: nat)
    requires a < Pow2(k)
    ensures Or(a, b * Pow2(k)) == a + b * Pow2(k)
  {
    if k > 0 && a > 0 {
      var c := b * Pow2(k - 1);
      assert b * Pow2(k) == 2 * c;
      OrDisjoint(a / 2, b, k - 1);
    }
  }

  lemma {:induction false} OrBound(a: nat, b: nat, k: nat)
    requires a < Pow2(k) && b < Pow2(k)
    ensures Or(a, b) < Pow2(k)
  {
    if a > 0 && k > 0 {
      OrBound(a / 2, b / 2, k - 1);
    }
  }

  /** Masking with n ones keeps the remainder modulo 2^n. */
  lemma {:induction false} AndLow(w: nat, n: nat)
    ensures And(w, Pow2(n) - 1) == w % Pow2(n)
  {
    if w > 0 && n > 0 {
      ModDouble(w, Pow2(n - 1));
      AndLow(w / 2, n - 1);
    } else if n == 0 {
      AndZero(w);
    }
  }

  lemma {:induction false} Pow2Add(a: nat, b: nat)
    ensures Pow2(a + b) == Pow2(a) * Pow2(b)
  {
    if a > 0 {
      Pow2Add(a - 1, b);
    }
  }

  lemma {:induction false} Pow2Monotone(a: nat, b: nat)
    requires a <= b
    ensures Pow2(a) <= Pow2(b)
  {
    if a < b {
      Pow2Monotone(a, b - 1);
    }
  }

  lemma Pow2Words()
    ensures Pow2(7) == 0x80 && Pow2(8) == 0x100 && Pow2(32) == 0x1_0000_0000
    ensures Pow2(64) == 0x1_0000_0000_0000_0000
  {
    Pow2Byte();
    Pow2Square(8, 0x100);
    Pow2Square(16, 0x1_0000);
    Pow2Square(32, 0x1_0000_0000);
  }

  lemma Pow2Byte()
    ensures Pow2(7) == 0x80 && Pow2(8) == 0x100
  {
    assert Pow2(4) == 16;
  }

  lemma Pow2Square(n: nat, p: nat)
    requires Pow2(n) == p
    ensures Pow2(n + n) == p * p
  {
    Pow2Add(n, n);
  }
}
