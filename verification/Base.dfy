/** Shared types: results, options, and the fixed-width unsigned integers of the library. */
module Base {
  datatype Option<+T> = None | Some(value: T)

  datatype Result<+T, +E> = Ok(value: T) | Err(error: E)

  type uint8 = x: nat | x < 0x100
  type uint16 = x: nat | x < 0x1_0000
  type uint32 = x: nat | x < 0x1_0000_0000
  type uint64 = x: nat | x < 0x1_0000_0000_0000_0000

  type bytes = seq<uint8>

  /** A non-empty string of decimal digits that fits in 64 bits, as strconv.ParseUint(s, 10, 64) reads it. */
  function ParseUint64(s: string): Option<uint64> {
    if s == [] then None else ParseDigits(s, 0)
  }

  function ParseDigits(s: string, acc: uint64): Option<uint64> {
    if s == [] then Some(acc)
    else if !('0' <= s[0] <= '9') then None
    else
      var next := 10 * acc + (s[0] - '0') as int;
      if next < 0x1_0000_0000_0000_0000 then ParseDigits(s[1..], next) else None
  }

  predicate AllDigits(s: string) {
    forall i | 0 <= i < |s| :: '0' <= s[i] <= '9'
  }

  /** The number that more decimal digits make of one read already. */
  function Decimal(acc: nat, s: string): (v: nat)
    requires AllDigits(s)
  {
    if s == [] then acc else 10 * Decimal(acc, s[..|s| - 1]) + (s[|s| - 1] - '0') as int
  }

  lemma {:induction false} DecimalFromFront(acc: nat, s: string)
    requires AllDigits(s) && s != []
    ensures Decimal(acc, s) == Decimal(10 * acc + (s[0] - '0') as int, s[1..])
  {
    if |s| > 1 {
      DecimalFromFront(acc, s[..|s| - 1]);
      assert s[..|s| - 1][1..] == s[1..][..|s| - 2];
    }
  }

  lemma {:induction false} DecimalGrows(acc: nat, s: string)
    requires AllDigits(s)
    ensures Decimal(acc, s) >= acc
  {
    if s != [] {
      DecimalGrows(acc, s[..|s| - 1]);
    }
  }

  lemma {:induction false} DigitsParse(s: string, acc: uint64)
    ensures ParseDigits(s, acc) ==
            if AllDigits(s) && Decimal(acc, s) < 0x1_0000_0000_0000_0000 then Some(Decimal(acc, s)) else None
  {
    if s != [] && '0' <= s[0] <= '9' {
      var next := 10 * acc + (s[0] - '0') as int;
      assert s == [s[0]] + s[1..];
      if AllDigits(s) {
        DecimalFromFront(acc, s);
        DecimalGrows(next, s[1..]);
      }
      if next < 0x1_0000_0000_0000_0000 {
        DigitsParse(s[1..], next);
      }
    }
  }

  /** Exactly the non-empty strings of digits whose number is below 2^64 parse, each to its number. */
  lemma ParsesDecimal(s: string)
    ensures ParseUint64(s) ==
            if s != [] && AllDigits(s) && Decimal(0, s) < 0x1_0000_0000_0000_0000 then Some(Decimal(0, s)) else None
  {
    DigitsParse(s, 0);
  }

  /** The low width bytes of v, most significant first. */
  function BigEndian(v: nat, width: nat): (r: bytes)
    ensures |r| == width
  {
    if width == 0 then [] else BigEndian(v / 0x100, width - 1) + [v % 0x100]
  }

  /** The low width bytes of v, least significant first. */
  function LittleEndian(v: nat, width: nat): (r: bytes)
    ensures |r| == width
  {
    if width == 0 then [] else [v % 0x100] + LittleEndian(v / 0x100, width - 1)
  }

  /** The bytes of the widths in use, one by one. */
  lemma ByteOrder(v: nat)
    ensures BigEndian(v, 2) == [v / 0x100 % 0x100, v % 0x100]
    ensures BigEndian(v, 4) == [v / 0x100_0000 % 0x100, v / 0x1_0000 % 0x100, v / 0x100 % 0x100, v % 0x100]
    ensures LittleEndian(v, 4) == [v % 0x100, v / 0x100 % 0x100, v / 0x1_0000 % 0x100, v / 0x100_0000 % 0x100]
  {
    assert v / 0x100 / 0x100 == v / 0x1_0000 && v / 0x1_0000 / 0x100 == v / 0x100_0000;
    assert BigEndian(v / 0x100_0000, 1) == [v / 0x100_0000 % 0x100] == LittleEndian(v / 0x100_0000, 1);
    assert BigEndian(v / 0x1_0000, 2) == [v / 0x100_0000 % 0x100, v / 0x1_0000 % 0x100];
    assert LittleEndian(v / 0x1_0000, 2) == [v / 0x1_0000 % 0x100, v / 0x100_0000 % 0x100];
    assert BigEndian(v / 0x100, 3) == [v / 0x100_0000 % 0x100, v / 0x1_0000 % 0x100, v / 0x100 % 0x100];
    assert LittleEndian(v / 0x100, 3) == [v / 0x100 % 0x100, v / 0x1_0000 % 0x100, v / 0x100_0000 % 0x100];
    assert BigEndian(v, 2) == BigEndian(v / 0x100, 1) + [v % 0x100];
  }

  /** Distinct naturals below n number at most n. */
  lemma {:induction false} Pigeonhole(s: seq<nat>, n: nat)
    requires forall i | 0 <= i < |s| :: s[i] < n
    requires forall i, j | 0 <= i < j < |s| :: s[i] != s[j]
    ensures |s| <= n
  {
    if s == [] {
      return;
    }
    assert s[0] < n;
    if i :| 0 <= i < |s| && s[i] == n - 1 {
      Pigeonhole(s[..i] + s[i + 1..], n - 1);
    } else {
      Pigeonhole(s, n - 1);
    }
  }
}
