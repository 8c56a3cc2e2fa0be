/**
 The ULEB128 codec for frame nonces (dave_crypto.go): encoding, and decoding that refuses every
 non-minimal, overlong or overflowing form (section 7.6 of DWARF Version 5 gives the plain format).
 */
module Uleb128 {
  import opened Base
  import opened Bits

  /** The shortest ULEB128 encoding of v: seven bits a byte, least significant first. */
  function Uleb(v: nat): (r: bytes)
    ensures |r| > 0
  {
    if v < 0x80 then [v] else [v % 0x80 + 0x80] + Uleb(v / 0x80)
  }

  /** The number that a ULEB128 byte string denotes. */
  function UlebValue(data: bytes): nat {
    if data == [] then 0 else data[0] % 0x80 + 0x80 * UlebValue(data[1..])
  }

  /** Every byte but the last continues, and the last is non-zero unless it is the only one. */
  ghost predicate Minimal(data: bytes) {
    && data != []
    && (forall i | 0 <= i < |data| :: data[i] >= 0x80 <==> i < |data| - 1)
    && (|data| > 1 ==> data[|data| - 1] != 0)
  }

  /** Uleb(v) is the one minimal byte string denoting v. */
  lemma {:induction false} UlebIsTheMinimalEncoding(data: bytes, v: nat)
    ensures Minimal(data) && UlebValue(data) == v <==> data == Uleb(v)
    decreases v
  {
    if v < 0x80 {
      if Minimal(data) && UlebValue(data) == v && |data| > 1 {
        MinimalTail(data);
        MinimalPositive(data[1..]);
      }
    } else {
      UlebIsTheMinimalEncoding(Uleb(v / 0x80), v / 0x80);
      assert Uleb(v)[1..] == Uleb(v / 0x80);
      if Minimal(data) && UlebValue(data) == v {
        MinimalTail(data);
        UlebIsTheMinimalEncoding(data[1..], v / 0x80);
        assert data == [data[0]] + data[1..];
      }
    }
  }

  lemma MinimalTail(data: bytes)
    requires Minimal(data) && |data| > 1
    ensures Minimal(data[1..]) && data[1..] != [0]
  {
    var t := data[1..];
    assert forall i | 0 <= i < |t| :: t[i] == data[i + 1];
  }

  lemma {:induction false} MinimalPositive(data: bytes)
    requires Minimal(data) && data != [0]
    ensures UlebValue(data) > 0
  {
    if |data| > 1 {
      MinimalTail(data);
      MinimalPositive(data[1..]);
    }
  }

  /** A 32-bit value takes at most five bytes. */
  lemma UlebShort(v: uint32)
    ensures |Uleb(v)| <= 5
  {
    var a := v / 0x80;
    var b := a / 0x80;
    var c := b / 0x80;
    var d := c / 0x80;
    assert |Uleb(d)| == 1;
    assert |Uleb(c)| <= 2;
    assert |Uleb(b)| <= 3;
    assert |Uleb(a)| <= 4;
  }

  /** v & 0x7F */
  method LowBits(v: uint32) returns (r: uint32)
    ensures r == v % 0x80
  {
    AndLow(v, 7);
    Pow2Byte();
    r := And(v, 0x7F);
  }

  /** b | 0x80, for a byte whose top bit is clear */
  method SetTop(b: uint8) returns (r: uint8)
    requires b < 0x80
    ensures r == b + 0x80
  {
    Pow2Byte();
    OrDisjoint(b, 1, 7);
    r := Or(b, 0x80);
  }

  /** b & 0x80 != 0 */
  method Continues(b: uint8) returns (r: bool)
    ensures r <==> b >= 0x80
  {
    TopBit(b);
    r := And(b, 0x80) != 0;
  }

  method EncodeULEB128(value: uint32) returns (result: bytes)
    ensures result == Uleb(value)
  {
    if value == 0 {
      return [0];
    }
    result := [];
    var v: uint32 := value;
    while v > 0
      invariant v > 0 ==> result + Uleb(v) == Uleb(value)
      invariant v == 0 ==> result == Uleb(value)
    {
      var b: uint8 := LowBits(v);
      v := v / 0x80;
      if v > 0 {
        b := SetTop(b);
      }
      result := result + [b];
    }
  }

  datatype UlebError = Empty | TooLong | Overflow | NonCanonical | Unterminated

  /** Values representable by the bytes from index i on: 32 - 7i bits. */
  function Limit(i: nat): nat {
    match i
    case 0 => 0x1_0000_0000
    case 1 => 0x200_0000
    case 2 => 0x4_0000
    case 3 => 0x800
    case _ => 0x10
  }

  /** The value of the bytes from index i on, and the index after its last byte. */
  function DecodeAt(data: bytes, i: nat): (r: Result<(nat, nat), UlebError>)
    requires i <= |data|
    ensures r.Ok? ==> r.value.0 < Limit(i)
    decreases |data| - i
  {
    if i == |data| then Err(if i == 0 then Empty else Unterminated)
    else if i >= 5 then Err(TooLong)
    else
      var value := data[i] % 0x80;
      if i == 4 && value > 0x0F then Err(Overflow)
      else if data[i] < 0x80 then
        if i > 0 && value == 0 then Err(NonCanonical) else Ok((value, i + 1))
      else
        match DecodeAt(data, i + 1)
        case Err(e) => Err(e)
        case Ok((w, n)) => Ok((value + 0x80 * w, n))
  }

  function DecodeUleb(data: bytes): Result<(uint32, nat), UlebError> {
    match DecodeAt(data, 0)
    case Err(e) => Err(e)
    case Ok((v, n)) => Ok((v, n))
  }

  /** The decoder accepts exactly the data that begin with the minimal encoding of a 32-bit value. */
  lemma DecodeAcceptsExactlyMinimal(data: bytes, v: uint32, n: nat)
    ensures DecodeUleb(data) == Ok((v, n)) <==> n <= |data| && data[..n] == Uleb(v)
  {
    DecodeAtExact(data, 0, v, n);
    assert n <= |data| ==> data[0..n] == data[..n];
  }

  /** The bytes before a place all continue. */
  predicate Continued(data: bytes, n: nat) {
    n <= |data| && forall i | 0 <= i < n :: data[i] >= 0x80
  }

  /** Why data is refused: each error has its own kind of data. */
  lemma WhyRefused(data: bytes)
    ensures DecodeUleb(data) == Err(Empty) <==> data == []
    ensures DecodeUleb(data) == Err(TooLong) <==> |data| > 5 && Continued(data, 5) && data[4] <= 0x8F
    ensures DecodeUleb(data) == Err(Overflow) <==> |data| > 4 && Continued(data, 4) && data[4] % 0x80 > 0x0F
    ensures DecodeUleb(data) == Err(NonCanonical) <==> exists n | 1 <= n < 5 && n < |data| :: Continued(data, n) && data[n] == 0
    ensures DecodeUleb(data) == Err(Unterminated) <==>
              data != [] && |data| <= 5 && Continued(data, |data|) && (|data| == 5 ==> data[4] <= 0x8F)
  {
    RefusedFrom(data, 0);
  }

  /** The same for what is left of data that has continued so far. */
  lemma {:induction false} RefusedFrom(data: bytes, i: nat)
    requires i <= |data| && i <= 5 && Continued(data, i) && (i == 5 ==> data[4] <= 0x8F)
    requires forall n | 1 <= n < i :: data[n] != 0
    ensures var r := DecodeAt(data, i);
            && (r == Err(Empty) <==> i == 0 && data == [])
            && (r == Err(TooLong) <==> |data| > 5 && Continued(data, 5) && data[4] <= 0x8F)
            && (r == Err(Overflow) <==> |data| > 4 && Continued(data, 4) && data[4] % 0x80 > 0x0F)
            && (r == Err(NonCanonical) <==> exists n | 1 <= n < 5 && n < |data| :: Continued(data, n) && data[n] == 0)
            && (r == Err(Unterminated) <==>
                  data != [] && |data| <= 5 && Continued(data, |data|) && (|data| == 5 ==> data[4] <= 0x8F))
    decreases |data| - i
  {
    if i < |data| && i < 5 && data[i] >= 0x80 && !(i == 4 && data[i] % 0x80 > 0x0F) {
      RefusedFrom(data, i + 1);
    } else if 1 <= i < 5 && i < |data| && data[i] == 0 {
      assert Continued(data, i) && data[i] == 0;
    }
  }

  lemma {:induction false} DecodeAtExact(data: bytes, i: nat, w: nat, n: nat)
    requires i <= |data|
    ensures DecodeAt(data, i) == Ok((w, n)) <==>
            i < n <= |data| && data[i..n] == Uleb(w) && (i > 0 ==> w > 0) && i < 5 && w < Limit(i)
    decreases |data| - i
  {
    if i < |data| && i < 5 {
      var value := data[i] % 0x80;
      if data[i] < 0x80 {
        OneByte(data, i, w, n);
      } else {
        DecodeAtExact(data, i + 1, w / 0x80, n);
        if i < n <= |data| {
          assert data[i..n] == [data[i]] + data[i + 1..n];
        }
        if i == 4 && DecodeAt(data, 4).Ok? {
          assert DecodeAt(data, 5).Err?;
        }
        UlebSplit(data, i, w, n);
      }
    }
  }

  lemma OneByte(data: bytes, i: nat, w: nat, n: nat)
    requires i < |data| && data[i] < 0x80
    ensures i < n <= |data| && data[i..n] == Uleb(w) <==> n == i + 1 && w == data[i]
  {
    if i < n <= |data| && data[i..n] == Uleb(w) {
      assert data[i..n][0] == data[i];
    }
    assert data[i..i + 1] == [data[i]];
  }

  lemma UlebSplit(data: bytes, i: nat, w: nat, n: nat)
    requires i < |data| && data[i] >= 0x80
    ensures i < n <= |data| && data[i..n] == Uleb(w) <==>
            i + 1 < n <= |data| && data[i + 1..n] == Uleb(w / 0x80) && w % 0x80 == data[i] % 0x80 && w >= 0x80
  {
    if i < n <= |data| && data[i..n] == Uleb(w) {
      assert data[i..n][0] == data[i];
      assert data[i..n][1..] == data[i + 1..n];
    }
    if i + 1 < n <= |data| {
      assert data[i..n] == [data[i]] + data[i + 1..n];
    }
  }

  /** The loop of decodeULEB128: no shift loses a bit and no or carries into one already set. */
  method DecodeULEB128(data: bytes) returns (r: Result<(uint32, nat), UlebError>)
    ensures r == DecodeUleb(data)
  {
    if |data| == 0 {
      return Err(Empty);
    }
    var result: uint32 := 0;
    var i := 0;
    while i < |data|
      invariant 0 <= i <= |data| && i <= 5
      invariant result < Pow2(7 * i)
      invariant DecodeUleb(data) == Resume(result, Pow2(7 * i), DecodeAt(data, i))
    {
      if i >= 5 {
        return Err(TooLong);
      }
      var value := LowBits(data[i]);
      if i == 4 && value > 0x0F {
        return Err(Overflow);
      }
      if data[i] >= 0x80 {
        Resumed(data, i, result);
      }
      result := Merge(result, value, i);
      var more := Continues(data[i]);
      if !more {
        if i > 0 && value == 0 {
          return Err(NonCanonical);
        }
        return Ok((result, i + 1));
      }
      i := i + 1;
    }
    return Err(Unterminated);
  }

  lemma TopBit(b: uint8)
    ensures And(b, 0x80) == 0 <==> b < 0x80
  {
    AndMask(b, 7);
    Pow2Words();
    BitStep(b, 6);
    BitStep(b / 2, 5);
    BitStep(b / 2 / 2, 4);
    BitStep(b / 2 / 2 / 2, 3);
    BitStep(b / 2 / 2 / 2 / 2, 2);
    BitStep(b / 2 / 2 / 2 / 2 / 2, 1);
    BitStep(b / 2 / 2 / 2 / 2 / 2 / 2, 0);
  }

  lemma BitStep(w: nat, k: nat)
    ensures Bit(w, k + 1) == Bit(w / 2, k)
  {
  }

  /** result |= value << (7 * i) in 32 bits, which adds value * 2^(7i) without loss. */
  method Merge(result: uint32, value: uint32, i: nat) returns (r: uint32)
    requires i < 5 && result < Pow2(7 * i) && value < 0x80 && (i == 4 ==> value <= 0x0F)
    ensures r == result + value * Pow2(7 * i)
    ensures r < Pow2(7 * (i + 1))
  {
    MergeFits(i, result, value);
    r := Or(result, Shl(value, 7 * i, 32));
  }

  lemma MergeFits(i: nat, acc: nat, value: nat)
    requires i < 5 && acc < Pow2(7 * i) && value < 0x80 && (i == 4 ==> value <= 0x0F)
    ensures Or(acc, Shl(value, 7 * i, 32)) == acc + value * Pow2(7 * i)
    ensures acc + value * Pow2(7 * i) < 0x1_0000_0000
    ensures acc + value * Pow2(7 * i) < Pow2(7 * (i + 1))
  {
    var p := Pow2(7 * i);
    MergeRoom(i);
    Pow2Words();
    var limit := if i == 4 then 0x10 else 0x80;
    MulMono(value + 1, limit, p);
    assert acc + value * p < (value + 1) * p <= limit * p;
    ModUnique(value * p, Pow2(32), 0, value * p);
    OrDisjoint(acc, value, 7 * i);
  }

  lemma MulMono(a: nat, b: nat, p: nat)
    requires a <= b
    ensures a * p <= b * p
  {
  }

  lemma MergeRoom(i: nat)
    requires i < 5
    ensures Pow2(7 * (i + 1)) == 0x80 * Pow2(7 * i)
    ensures (if i == 4 then 0x10 else 0x80) * Pow2(7 * i) <= 0x1_0000_0000
  {
    Pow2Words();
    Pow2Add(7, 7 * i);
    Pow2Add(4, 28);
    Pow2Sixteen();
    if i < 4 {
      Pow2Monotone(7 * (i + 1), 28);
      Pow2Monotone(28, 32);
    }
  }

  lemma Pow2Sixteen()
    ensures Pow2(4) == 16
  {
  }

  /** What decoding yields once the earlier bytes gave acc and the next one has weight p. */
  function Resume(acc: nat, p: nat, rest: Result<(nat, nat), UlebError>): Result<(nat, nat), UlebError> {
    match rest
    case Err(e) => Err(e)
    case Ok((w, n)) => Ok((acc + w * p, n))
  }

  lemma Resumed(data: bytes, i: nat, acc: nat)
    requires i < |data| && i < 5 && data[i] >= 0x80 && (i == 4 ==> data[i] % 0x80 <= 0x0F)
    ensures Resume(acc, Pow2(7 * i), DecodeAt(data, i))
         == Resume(acc + (data[i] % 0x80) * Pow2(7 * i), Pow2(7 * (i + 1)), DecodeAt(data, i + 1))
  {
    MergeRoom(i);
    if DecodeAt(data, i + 1).Ok? {
      Distribute(acc, data[i] % 0x80, DecodeAt(data, i + 1).value.0, Pow2(7 * i));
    }
  }

  lemma Distribute(acc: nat, value: nat, w: nat, p: nat)
    ensures acc + (value + 0x80 * w) * p == (acc + value * p) + w * (p * 0x80)
  {
  }
}
