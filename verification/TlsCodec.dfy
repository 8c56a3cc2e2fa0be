/**
 The TLS codec of the MLS messages (mls/mls_internal.go): a writer that appends fields, a reader that takes them off the
 front, and the parse of a GroupInfo up to its GroupContext.
 */
module TlsCodec {
  import opened Base
  import opened Words

  datatype Field = U8(u8: uint8) | U16(u16: uint16) | U64(u64: uint64) | Varint(v: uint64) | Vec(data: bytes)

  datatype Kind = KU8 | KU16 | KU64 | KVarint | KVec

  function KindOf(f: Field): Kind {
    match f
    case U8(_) => KU8
    case U16(_) => KU16
    case U64(_) => KU64
    case Varint(_) => KVarint
    case Vec(_) => KVec
  }

  // ---- Encodings ---------------------------------------------------------------------------------

  /** How many bytes a varint takes. */
  function VarintSize(v: uint64): nat {
    if v <= 63 then 1 else if v <= 16383 then 2 else if v <= 1073741823 then 4 else 8
  }

  /** The two top bits that stand for a size. */
  function Prefix(size: nat): uint8 {
    if size == 1 then 0 else if size == 2 then 0x40 else if size == 4 then 0x80 else 0xC0
  }

  /** A big-endian word with the prefix set in its first byte; the two bits that were there are lost. */
  function Tagged(size: nat, word: bytes): bytes
    requires word != []
  {
    [Prefix(size) + word[0] % 0x40] + word[1..]
  }

  function EncodeVarint(v: uint64): (r: bytes)
    ensures |r| == VarintSize(v)
  {
    Tagged(VarintSize(v), BigEndian(v, VarintSize(v)))
  }

  function Encode(f: Field): bytes {
    match f
    case U8(v) => [v]
    case U16(v) => BigEndian(v, 2)
    case U64(v) => BigEndian(v, 8)
    case Varint(v) => EncodeVarint(v)
    case Vec(data) => EncodeVarint(|data| % 0x1_0000_0000_0000_0000) + data
  }

  function EncodeAll(fs: seq<Field>): bytes {
    if fs == [] then [] else EncodeAll(fs[..|fs| - 1]) + Encode(fs[|fs| - 1])
  }

  /** The bytes of the fields of fixed size; a vector is its length and its data. */
  lemma FieldLayout(a: uint8, b: uint16, d: uint64, data: bytes)
    requires |data| < 0x1_0000_0000_0000_0000
    ensures Encode(U8(a)) == [a] && Encode(U16(b)) == [b / 0x100, b % 0x100]
    ensures |Encode(U64(d))| == 8 && Number(Encode(U64(d))) == d
    ensures Encode(Vec(data)) == Encode(Varint(|data|)) + data
  {
    hide BigEndian, Number, Pow256, EncodeVarint;
    ByteOrder(b);
    Pow256Values();
    NumberOfBigEndian(d, 8);
  }

  /** The bytes of a varint: two bits for the size, then the value, most significant byte first. */
  lemma VarintLayout(v: uint64)
    ensures v <= 63 ==> Encode(Varint(v)) == [v]
    ensures 64 <= v <= 16383 ==> Encode(Varint(v)) == [0x40 + v / 0x100, v % 0x100]
    ensures 16384 <= v <= 1073741823 ==>
              Encode(Varint(v)) == [0x80 + v / 0x100_0000, v / 0x1_0000 % 0x100, v / 0x100 % 0x100, v % 0x100]
    ensures v > 1073741823 ==> Encode(Varint(v)) == [0xC0 + BigEndian(v, 8)[0] % 0x40] + BigEndian(v, 8)[1..]
  {
    if v <= 63 {
      assert BigEndian(v, 1) == [v];
    } else if v <= 16383 {
      TwoByteVarint(v);
    } else if v <= 1073741823 {
      FourByteVarint(v);
    }
  }

  lemma TwoByteVarint(v: uint64)
    requires 64 <= v <= 16383
    ensures EncodeVarint(v) == [0x40 + v / 0x100, v % 0x100]
  {
    ByteOrder(v);
    hide BigEndian;
    assert v / 0x100 % 0x100 % 0x40 == v / 0x100;
  }

  lemma FourByteVarint(v: uint64)
    requires 16384 <= v <= 1073741823
    ensures EncodeVarint(v) == [0x80 + v / 0x100_0000, v / 0x1_0000 % 0x100, v / 0x100 % 0x100, v % 0x100]
  {
    ByteOrder(v);
    hide BigEndian;
    assert v / 0x100_0000 % 0x100 % 0x40 == v / 0x100_0000;
  }

  class Writer {
    var buf: bytes

    constructor ()
      ensures buf == []
    {
      buf := [];
    }

    method WriteUint8(v: uint8)
      modifies this
      ensures buf == old(buf) + Encode(U8(v))
    {
      buf := buf + [v];
    }

    method WriteUint16(v: uint16)
      modifies this
      ensures buf == old(buf) + Encode(U16(v))
    {
      assert BigEndian(v / 0x100, 1) == [v / 0x100];
      buf := buf + [v / 0x100, v % 0x100];
    }

    method WriteUint64(v: uint64)
      modifies this
      ensures buf == old(buf) + Encode(U64(v))
    {
      buf := buf + BigEndian(v, 8);
    }

    method WriteVarint(v: uint64)
      modifies this
      ensures buf == old(buf) + Encode(Varint(v))
    {
      var word;
      if v <= 63 {
        word := Tagged(1, BigEndian(v, 1));
      } else if v <= 16383 {
        word := Tagged(2, BigEndian(v, 2));
      } else if v <= 1073741823 {
        word := Tagged(4, BigEndian(v, 4));
      } else {
        word := Tagged(8, BigEndian(v, 8));
      }
      buf := buf + word;
    }

    method WriteVec(data: bytes)
      requires |data| < 0x1_0000_0000_0000_0000
      modifies this
      ensures buf == old(buf) + Encode(Vec(data))
    {
      var length := EncodeVarint(|data|);
      assert old(buf) + (length + data) == (old(buf) + length) + data;
      WriteVarint(|data|);
      buf := buf + data;
    }

    method Write(f: Field)
      requires f.Vec? ==> |f.data| < 0x1_0000_0000_0000_0000
      modifies this
      ensures buf == old(buf) + Encode(f)
    {
      match f
      case U8(v) => WriteUint8(v);
      case U16(v) => WriteUint16(v);
      case U64(v) => WriteUint64(v);
      case Varint(v) => WriteVarint(v);
      case Vec(data) => WriteVec(data);
    }
  }

  // ---- Decodings -----------------------------------------------------------------------------------

  /** What is read off the front of some bytes, and how many of them it takes. */
  datatype Taken<+T> = Short | Taken(value: T, size: nat)

  function SizeOfTag(first: uint8): nat {
    if first < 0x40 then 1 else if first < 0x80 then 2 else if first < 0xC0 then 4 else 8
  }

  /** A word whose first byte is masked. */
  function Masked(word: bytes): (r: bytes)
    requires word != []
    ensures |r| == |word|
  {
    [word[0] % 0x40] + word[1..]
  }

  function DecodeVarint(s: bytes): (r: Taken<uint64>)
    ensures r.Taken? ==> 0 < r.size <= |s| && r.value < 0x4000_0000_0000_0000
  {
    if s == [] || SizeOfTag(s[0]) > |s| then Short
    else
      var size := SizeOfTag(s[0]);
      UntaggedBelow(s, size);
      Taken(Number(Masked(s[..size])), size)
  }

  lemma UntaggedBelow(s: bytes, size: nat)
    requires 1 <= size <= |s| && size in {1, 2, 4, 8}
    ensures Number(Masked(s[..size])) < 0x40 * Pow256(size - 1) <= 0x4000_0000_0000_0000
  {
    var word := Masked(s[..size]);
    NumberByHead(word);
    NumberInRange(word[1..]);
    Pow256Values();
    assert Pow256(0) == 1;
    var p := Pow256(size - 1);
    assert (s[0] % 0x40) * p <= 0x3F * p;
  }

  function Decode(k: Kind, s: bytes): (r: Taken<Field>)
    ensures r.Taken? ==> KindOf(r.value) == k && r.size <= |s|
  {
    match k
    case KU8 => if |s| < 1 then Short else Taken(U8(s[0]), 1)
    case KU16 => if |s| < 2 then Short else NumberBelow(s[..2]); Taken(U16(Number(s[..2])), 2)
    case KU64 => if |s| < 8 then Short else NumberBelow(s[..8]); Taken(U64(Number(s[..8])), 8)
    case KVarint =>
      var v := DecodeVarint(s);
      if v.Short? then Short else Taken(Varint(v.value), v.size)
    case KVec =>
      var v := DecodeVarint(s);
      if v.Short? || v.size + v.value > |s| then Short else Taken(Vec(s[v.size..v.size + v.value]), v.size + v.value)
  }

  lemma NumberBelow(s: bytes)
    ensures |s| == 2 ==> Number(s) < 0x1_0000
    ensures |s| == 8 ==> Number(s) < 0x1_0000_0000_0000_0000
  {
    Pow256Values();
    NumberInRange(s);
  }

  function DecodeAll(ks: seq<Kind>, s: bytes): (r: Taken<seq<Field>>)
    ensures r.Taken? ==> r.size <= |s| && |r.value| == |ks|
  {
    if ks == [] then Taken([], 0)
    else
      var before := DecodeAll(ks[..|ks| - 1], s);
      if before.Short? then Short
      else
        var last := Decode(ks[|ks| - 1], s[before.size..]);
        if last.Short? then Short else Taken(before.value + [last.value], before.size + last.size)
  }

  // ---- The reader -----------------------------------------------------------------------------------

  /** The value of a varint, from its bytes shifted into place. */
  function VarintValue(word: bytes): (v: nat)
    requires |word| in {1, 2, 4, 8}
    ensures v == Number(Masked(word))
  {
    var first, w: seq<int> := word[0] as int % 0x40, word;
    if |word| == 1 then
      assert Masked(word) == [word[0] % 0x40];
      first
    else if |word| == 2 then
      NumberOf2(word[0] % 0x40, word[1]);
      assert Masked(word) == [word[0] % 0x40, word[1]];
      first * 0x100 + w[1]
    else if |word| == 4 then
      NumberOf4(word[0] % 0x40, word[1], word[2], word[3]);
      assert Masked(word) == [word[0] % 0x40, word[1], word[2], word[3]];
      first * 0x100_0000 + w[1] * 0x1_0000 + w[2] * 0x100 + w[3]
    else
      Number(Masked(word))
  }

  class Reader {
    const data: bytes
    var pos: nat
    var failed: bool

    constructor (data: bytes)
      ensures this.data == data && pos == 0 && !failed
    {
      this.data, pos, failed := data, 0, false;
    }

    /** The position never leaves the buffer. */
    predicate Valid()
      reads this
    {
      pos <= |data|
    }

    function Rest(): bytes
      requires Valid()
      reads this
    {
      data[pos..]
    }

    /**
     What a read that finds some value must leave behind: a short read, or any read after one, fails without moving,
     and failure stays; else the position moves by what was taken.
     */
    twostate predicate Moved<T>(taken: Taken<T>)
      requires old(Valid())
      reads this
    {
      && Valid()
      && (failed <==> old(failed) || taken.Short?)
      && pos == if failed then old(pos) else old(pos) + taken.size
    }

    method ReadUint8() returns (v: uint8)
      requires Valid()
      modifies this
      ensures Moved(Decode(KU8, old(Rest())))
      ensures v == if failed then 0 else Decode(KU8, old(Rest())).value.u8
    {
      if failed || pos + 1 > |data| {
        failed := true;
        return 0;
      }
      v := data[pos];
      pos := pos + 1;
    }

    method ReadUint16() returns (v: uint16)
      requires Valid()
      modifies this
      ensures Moved(Decode(KU16, old(Rest())))
      ensures v == if failed then 0 else Decode(KU16, old(Rest())).value.u16
    {
      if failed || pos + 2 > |data| {
        failed := true;
        return 0;
      }
      NumberOf2(data[pos], data[pos + 1]);
      assert data[pos..][..2] == [data[pos], data[pos + 1]];
      v := data[pos] as int * 0x100 + data[pos + 1];
      pos := pos + 2;
    }

    method ReadUint64() returns (v: uint64)
      requires Valid()
      modifies this
      ensures Moved(Decode(KU64, old(Rest())))
      ensures v == if failed then 0 else Decode(KU64, old(Rest())).value.u64
    {
      if failed || pos + 8 > |data| {
        failed := true;
        return 0;
      }
      assert data[pos..][..8] == data[pos..pos + 8];
      NumberBelow(data[pos..pos + 8]);
      v := Number(data[pos..pos + 8]);
      pos := pos + 8;
    }

    method ReadVarint() returns (v: uint64)
      requires Valid()
      modifies this
      ensures Moved(DecodeVarint(old(Rest())))
      ensures v == if failed then 0 else DecodeVarint(old(Rest())).value
    {
      if failed || pos >= |data| {
        failed := true;
        return 0;
      }
      var kind := data[pos] / 0x40;
      var size := if kind == 0 then 1 else if kind == 1 then 2 else if kind == 2 then 4 else 8;
      if pos + size > |data| {
        failed := true;
        return 0;
      }
      var word := data[pos..pos + size];
      assert Rest()[..size] == word == word[..size] && Rest()[0] == word[0];
      UntaggedBelow(word, size);
      v := VarintValue(word);
      pos := pos + size;
    }

    method ReadVec() returns (v: bytes)
      requires Valid()
      modifies this
      ensures failed <==> old(failed) || Decode(KVec, old(Rest())).Short?
      ensures !failed ==> Moved(Decode(KVec, old(Rest()))) && v == Decode(KVec, old(Rest())).value.data
      ensures failed ==> v == [] && Valid()
      ensures failed ==> pos == old(pos) + if old(failed) || DecodeVarint(old(Rest())).Short? then 0
                                           else DecodeVarint(old(Rest())).size
    {
      if failed {
        return [];
      }
      var length := ReadVarint();
      if failed {
        return [];
      }
      if pos + length > |data| {
        failed := true;
        return [];
      }
      v := data[pos..pos + length];
      Within(data, old(pos), pos, length);
      pos := pos + length;
    }
  }

  // ---- Round trips ------------------------------------------------------------------------------------

  /** The number a varint can carry: the top two bits are the size. */
  const VARINT_RANGE := 0x4000_0000_0000_0000

  lemma SplitHead(b: int, p: int)
    ensures b * p == 0x40 * p * (b / 0x40) + (b % 0x40) * p
  {
    var q, r := b / 0x40, b % 0x40;
    assert b == 0x40 * q + r;
    assert (0x40 * q + r) * p == 0x40 * p * q + r * p;
  }

  /** Masking takes away a multiple of what the two top bits count for. */
  lemma MaskedNumber(word: bytes)
    requires word != []
    ensures Number(Masked(word)) == Number(word) - 0x40 * Pow256(|word| - 1) * (word[0] as int / 0x40)
  {
    NumberByHead(word);
    NumberByHead(Masked(word));
    assert Masked(word)[1..] == word[1..];
    SplitHead(word[0], Pow256(|word| - 1));
  }

  lemma KeptBits(v: uint64, q: int, r: int)
    requires var m := 0x40 * Pow256(VarintSize(v) - 1); r == v - m * q && 0 <= r < m
    ensures r == v % VARINT_RANGE
  {
    Pow256Values();
    assert Pow256(0) == 1;
  }

  /** In a varint's own size the masked word keeps the value, up to the two bits that 8 bytes have no room for. */
  lemma MaskedVarint(v: uint64)
    ensures Number(Masked(BigEndian(v, VarintSize(v)))) == v % VARINT_RANGE
  {
    hide BigEndian, Number;
    var size := VarintSize(v);
    var word := BigEndian(v, size);
    assert v < Pow256(size) by {
      Pow256Values();
    }
    NumberOfBigEndian(v, size);
    MaskedNumber(word);
    assert word[..size] == word;
    UntaggedBelow(word, size);
    KeptBits(v, word[0] as int / 0x40, Number(Masked(word)));
  }

  lemma TaggedDecodes(size: nat, word: bytes, t: bytes)
    requires size in {1, 2, 4, 8} && |word| == size
    ensures DecodeVarint(Tagged(size, word) + t) == Taken(Number(Masked(word)), size)
  {
    var s := Tagged(size, word) + t;
    assert s[0] == Prefix(size) + word[0] % 0x40;
    assert Masked(s[..size]) == Masked(word);
  }

  /** A varint is read back whatever follows, but for the two bits that an 8-byte encoding has no room for. */
  lemma VarintRoundTrip(v: uint64, t: bytes)
    ensures DecodeVarint(EncodeVarint(v) + t) == Taken(v % VARINT_RANGE, VarintSize(v))
  {
    TaggedDecodes(VarintSize(v), BigEndian(v, VarintSize(v)), t);
    MaskedVarint(v);
  }

  /** The round trip of a varint is exact just below 2^62. */
  lemma VarintRoundTripsIff(v: uint64, t: bytes)
    ensures Decode(KVarint, Encode(Varint(v)) + t) == Taken(Varint(v), |Encode(Varint(v))|) <==> v < VARINT_RANGE
  {
    VarintRoundTrip(v, t);
  }

  /** A field that has an encoding of its own. */
  predicate Fits(f: Field) {
    match f
    case Varint(v) => v < VARINT_RANGE
    case Vec(data) => |data| < VARINT_RANGE
    case _ => true
  }

  lemma RoundTrip(f: Field, t: bytes)
    requires Fits(f)
    ensures Decode(KindOf(f), Encode(f) + t) == Taken(f, |Encode(f)|)
  {
    match f
    case U8(v) =>
    case U16(v) =>
      Pow256Values();
      WordRoundTrip(v, 2, t);
    case U64(v) =>
      Pow256Values();
      WordRoundTrip(v, 8, t);
    case Varint(v) => VarintRoundTrip(v, t);
    case Vec(data) => VecRoundTrip(data, t);
  }

  lemma WordRoundTrip(v: nat, width: nat, t: bytes)
    requires v < Pow256(width)
    ensures Number((BigEndian(v, width) + t)[..width]) == v
  {
    Pow256Values();
    NumberOfBigEndian(v, width);
    assert (BigEndian(v, width) + t)[..width] == BigEndian(v, width);
  }

  lemma VecRoundTrip(data: bytes, t: bytes)
    requires |data| < VARINT_RANGE
    ensures Decode(KVec, Encode(Vec(data)) + t) == Taken(Vec(data), |Encode(Vec(data))|)
  {
    hide EncodeVarint, DecodeVarint;
    var length := EncodeVarint(|data|);
    assert Encode(Vec(data)) == length + data;
    VarintRoundTrip(|data|, data + t);
    var s := length + (data + t);
    assert Encode(Vec(data)) + t == s;
    assert s[|length|..|length| + |data|] == data;
  }

  function KindsOf(fs: seq<Field>): (r: seq<Kind>)
    ensures |r| == |fs| && forall i | 0 <= i < |fs| :: r[i] == KindOf(fs[i])
  {
    seq(|fs|, i requires 0 <= i < |fs| => KindOf(fs[i]))
  }

  /** Any sequence of fields is read back exactly, whatever follows. */
  lemma {:induction false} RoundTripAll(fs: seq<Field>, t: bytes)
    requires forall i | 0 <= i < |fs| :: Fits(fs[i])
    ensures DecodeAll(KindsOf(fs), EncodeAll(fs) + t) == Taken(fs, |EncodeAll(fs)|)
  {
    hide Decode, Encode, KindOf, Fits;
    if fs == [] {
      assert [] + t == t;
    } else {
      hide DecodeAll;
      var init, last := fs[..|fs| - 1], fs[|fs| - 1];
      RoundTripAll(init, Encode(last) + t);
      RoundTrip(last, t);
      OneMore(KindsOf(init), KindOf(last), EncodeAll(init), Encode(last), t, init, last);
      assert KindsOf(fs) == KindsOf(init) + [KindOf(last)];
      assert init + [last] == fs;
    }
  }

  /** A field read after others. */
  lemma OneMore(ks: seq<Kind>, k: Kind, a: bytes, b: bytes, t: bytes, fs: seq<Field>, f: Field)
    requires DecodeAll(ks, a + (b + t)) == Taken(fs, |a|) && Decode(k, b + t) == Taken(f, |b|)
    ensures DecodeAll(ks + [k], (a + b) + t) == Taken(fs + [f], |a + b|)
  {
    hide Decode;
    Assoc(a, b, t);
    Halves(a, b + t);
    assert (ks + [k])[..|ks|] == ks;
  }

  lemma Halves(a: bytes, b: bytes)
    ensures (a + b)[..|a|] == a && (a + b)[|a|..] == b
  {
  }

  lemma Assoc(a: bytes, b: bytes, c: bytes)
    ensures a + (b + c) == (a + b) + c
  {
  }

  method WriteAll(fs: seq<Field>) returns (buf: bytes)
    requires forall i | 0 <= i < |fs| :: Fits(fs[i])
    ensures buf == EncodeAll(fs)
  {
    var w := new Writer();
    for i := 0 to |fs|
      invariant w.buf == EncodeAll(fs[..i])
    {
      assert fs[..i + 1][..i] == fs[..i];
      w.Write(fs[i]);
    }
    assert fs[..|fs|] == fs;
    buf := w.buf;
  }

  /** Reading field after field takes what DecodeAll does. */
  method ReadAll(r: Reader, ks: seq<Kind>) returns (read: seq<Field>)
    requires r.Valid() && !r.failed && DecodeAll(ks, r.Rest()).Taken?
    modifies r
    ensures r.Valid() && !r.failed && r.pos == old(r.pos) + DecodeAll(ks, old(r.Rest())).size
    ensures read == DecodeAll(ks, old(r.Rest())).value
  {
    hide Decode, DecodeAll;
    read := [];
    ghost var s, at := r.Rest(), 0;
    NothingTaken(s);
    for i := 0 to |ks|
      invariant r.Valid() && !r.failed && 0 <= at <= |s| && r.pos == old(r.pos) + at && r.Rest() == s[at..]
      invariant DecodeAll(ks[..i], s) == Taken(read, at)
    {
      PrefixesTaken(ks, s, i + 1);
      TakenNext(ks, s, i, read, at);
      ghost var size := Decode(ks[i], s[at..]).size;
      var f := ReadField(r, ks[i]);
      Onward(s, at, size);
      read := read + [f];
      at := at + size;
    }
    assert ks[..|ks|] == ks;
  }

  lemma NothingTaken(s: bytes)
    ensures DecodeAll([], s) == Taken([], 0)
  {
  }

  lemma TakenNext(ks: seq<Kind>, s: bytes, i: nat, read: seq<Field>, at: nat)
    requires i < |ks| && at <= |s| && DecodeAll(ks[..i], s) == Taken(read, at) && DecodeAll(ks[..i + 1], s).Taken?
    ensures var next := Decode(ks[i], s[at..]);
            next.Taken? && DecodeAll(ks[..i + 1], s) == Taken(read + [next.value], at + next.size)
  {
    assert ks[..i + 1][..i] == ks[..i];
  }

  lemma Within(s: bytes, m: nat, i: nat, n: nat)
    requires m <= i && i + n <= |s|
    ensures s[i..i + n] == s[m..][i - m..i - m + n]
  {
  }

  lemma Onward(s: bytes, m: nat, n: nat)
    requires m + n <= |s|
    ensures s[m..][n..] == s[m + n..]
  {
  }

  lemma Joined(s: bytes, m: nat, n: nat)
    requires m + n <= |s|
    ensures s[..m + n] == s[..m] + s[m..][..n]
  {
  }

  /** What takes all the fields takes the first ones. */
  lemma {:induction false} PrefixesTaken(ks: seq<Kind>, s: bytes, i: nat)
    requires DecodeAll(ks, s).Taken? && i <= |ks|
    ensures DecodeAll(ks[..i], s).Taken?
    decreases |ks|
  {
    if i < |ks| {
      PrefixesTaken(ks[..|ks| - 1], s, i);
      assert ks[..|ks| - 1][..i] == ks[..i];
    } else {
      assert ks[..i] == ks;
    }
  }

  /** A writer and a reader agree on every sequence of fields: the reader ends where the writer did, without error. */
  method WriteThenRead(fs: seq<Field>, t: bytes) returns (read: seq<Field>, rest: bytes)
    requires forall i | 0 <= i < |fs| :: Fits(fs[i])
    ensures read == fs && rest == t
  {
    var buf := WriteAll(fs);
    RoundTripAll(fs, t);
    var r := new Reader(buf + t);
    assert r.Rest() == buf + t;
    var ks := KindsOf(fs);
    read := ReadAll(r, ks);
    rest := r.data[r.pos..];
  }

  method ReadField(r: Reader, k: Kind) returns (f: Field)
    requires r.Valid() && !r.failed && Decode(k, r.Rest()).Taken?
    modifies r
    ensures r.Valid() && !r.failed && f == Decode(k, old(r.Rest())).value
    ensures r.Rest() == old(r.Rest())[Decode(k, old(r.Rest())).size..]
    ensures r.pos == old(r.pos) + Decode(k, old(r.Rest())).size
  {
    match k {
      case KU8 => var v := r.ReadUint8(); f := U8(v);
      case KU16 => var v := r.ReadUint16(); f := U16(v);
      case KU64 => var v := r.ReadUint64(); f := U64(v);
      case KVarint => var v := r.ReadVarint(); f := Varint(v);
      case KVec => var v := r.ReadVec(); f := Vec(v);
    }
  }

  // ---- What a reader accepts ------------------------------------------------------------------------------

  /**
   The reader accepts a varint that is longer than it need be: the bytes it took are the encoding of the value it gave
   exactly when there are as many as the value needs.
   */
  lemma VarintAcceptedIsCanonicalIff(s: bytes)
    requires DecodeVarint(s).Taken?
    ensures var r := DecodeVarint(s); EncodeVarint(r.value) == s[..r.size] <==> r.size == VarintSize(r.value)
  {
    hide Number, BigEndian;
    var r := DecodeVarint(s);
    var masked := Masked(s[..r.size]);
    BigEndianOfNumber(masked);
    assert Tagged(r.size, masked) == s[..r.size];
  }

  /** The number 5 in two bytes. */
  lemma LongVarintIsAccepted()
    ensures DecodeVarint([0x40, 5]) == Taken(5, 2) && EncodeVarint(5) == [5]
  {
    NumberOf2(0, 5);
    var s: bytes := [0x40, 5];
    assert Masked(s[..2]) == [0, 5];
    assert BigEndian(5, 1) == [5];
  }

  /** A field depends on the bytes it takes, not on those after. */
  lemma DecodePrefix(k: Kind, s: bytes, t: bytes)
    requires Decode(k, s).Taken?
    ensures Decode(k, s[..Decode(k, s).size] + t) == Decode(k, s)
  {
    var n := Decode(k, s).size;
    var s' := s[..n] + t;
    match k
    case KU8 =>
    case KU16 => assert s'[..2] == s[..2];
    case KU64 => assert s'[..8] == s[..8];
    case KVarint => VarintPrefix(s, s');
    case KVec =>
      VarintPrefix(s, s');
      var v := DecodeVarint(s);
      assert s'[v.size..v.size + v.value] == s[v.size..v.size + v.value];
  }

  lemma VarintPrefix(s: bytes, s': bytes)
    requires DecodeVarint(s).Taken?
    requires DecodeVarint(s).size <= |s'| && s'[..DecodeVarint(s).size] == s[..DecodeVarint(s).size]
    ensures DecodeVarint(s') == DecodeVarint(s)
  {
    var n := DecodeVarint(s).size;
    assert s'[0] == s'[..n][0] && s[0] == s[..n][0];
  }

  lemma {:induction false} DecodeAllPrefix(ks: seq<Kind>, s: bytes, t: bytes)
    requires DecodeAll(ks, s).Taken?
    ensures DecodeAll(ks, s[..DecodeAll(ks, s).size] + t) == DecodeAll(ks, s)
  {
    hide Decode;
    if ks != [] {
      var init, last := ks[..|ks| - 1], ks[|ks| - 1];
      var m := DecodeAll(init, s).size;
      var n := Decode(last, s[m..]).size;
      var a, b := s[..m], s[m..][..n];
      DecodeAllPrefix(init, s, b + t);
      DecodePrefix(last, s[m..], t);
      OneMore(init, last, a, b, t, DecodeAll(init, s).value, Decode(last, s[m..]).value);
      assert init + [last] == ks;
      Joined(s, m, n);
    }
  }

  // ---- GroupInfo -------------------------------------------------------------------------------------------

  /** A layout with a group ID and an epoch in the places of a GroupContext's. */
  predicate NamesGroup(ks: seq<Kind>) {
    |ks| == 7 && ks[2] == KVec && ks[3] == KU64
  }

  /** Version, cipher suite, group ID, epoch, tree hash, confirmed transcript hash, extensions. */
  function ContextLayout(): (ks: seq<Kind>)
    ensures NamesGroup(ks)
  {
    [KU16, KU16, KVec, KU64, KVec, KVec, KVec]
  }

  datatype GroupInfo = GroupInfo(context: bytes, epoch: uint64, groupID: bytes)

  function ParseLayout(ks: seq<Kind>, data: bytes): Option<GroupInfo>
    requires NamesGroup(ks)
  {
    var r := DecodeAll(ks, data);
    if r.Short? then None
    else
      KindsTaken(ks, data);
      Some(GroupInfo(data[..r.size], r.value[3].u64, r.value[2].data))
  }

  /** The fields of a GroupContext at the front of some bytes. */
  function ParseContext(data: bytes): Option<GroupInfo> {
    ParseLayout(ContextLayout(), data)
  }

  lemma {:induction false} KindsTaken(ks: seq<Kind>, s: bytes)
    requires DecodeAll(ks, s).Taken?
    ensures forall i | 0 <= i < |ks| :: KindOf(DecodeAll(ks, s).value[i]) == ks[i]
  {
    if ks != [] {
      KindsTaken(ks[..|ks| - 1], s);
    }
  }

  /** The context is a prefix of the data, and reading it alone, or before anything else, gives the same again. */
  lemma ContextReparses(data: bytes, t: bytes)
    requires ParseContext(data).Some?
    ensures var g := ParseContext(data).value;
            g.context <= data && ParseContext(g.context + t) == Some(g)
  {
    hide ContextLayout;
    DecodeAllPrefix(ContextLayout(), data, t);
    var n := DecodeAll(ContextLayout(), data).size;
    assert (data[..n] + t)[..n] == data[..n];
  }

  /** A context that a writer composed is recovered whatever follows. */
  lemma WrittenContextParses(fs: seq<Field>, t: bytes)
    requires KindsOf(fs) == ContextLayout() && forall i | 0 <= i < |fs| :: Fits(fs[i])
    ensures KindOf(fs[2]) == KVec && KindOf(fs[3]) == KU64
    ensures ParseContext(EncodeAll(fs) + t) == Some(GroupInfo(EncodeAll(fs), fs[3].u64, fs[2].data))
  {
    hide ContextLayout, ParseLayout, EncodeAll;
    WrittenLayoutParses(ContextLayout(), fs, t);
  }

  lemma WrittenLayoutParses(ks: seq<Kind>, fs: seq<Field>, t: bytes)
    requires NamesGroup(ks) && KindsOf(fs) == ks && forall i | 0 <= i < |fs| :: Fits(fs[i])
    ensures KindOf(fs[2]) == KVec && KindOf(fs[3]) == KU64
    ensures ParseLayout(ks, EncodeAll(fs) + t) == Some(GroupInfo(EncodeAll(fs), fs[3].u64, fs[2].data))
  {
    hide DecodeAll, EncodeAll;
    assert KindsOf(fs)[2] == KVec && KindsOf(fs)[3] == KU64;
    RoundTripAll(fs, t);
    Halves(EncodeAll(fs), t);
  }

  /** A new reader has read the first i fields: it has failed exactly when they are not there. */
  ghost predicate HasRead(r: Reader, ks: seq<Kind>, i: nat)
    requires i <= |ks|
    reads r
  {
    var taken := DecodeAll(ks[..i], r.data);
    r.Valid() && (r.failed <==> taken.Short?) && (!r.failed ==> r.pos == taken.size)
  }

  /** The next field; a zero value after a failure. */
  method Take(r: Reader, ks: seq<Kind>, i: nat) returns (f: Field)
    requires i < |ks| && HasRead(r, ks, i)
    modifies r
    ensures HasRead(r, ks, i + 1) && KindOf(f) == ks[i]
    ensures !r.failed ==> DecodeAll(ks[..i], r.data).Taken?
    ensures !r.failed ==> DecodeAll(ks[..i + 1], r.data).value == DecodeAll(ks[..i], r.data).value + [f]
  {
    assert ks[..i + 1][..i] == ks[..i];
    match ks[i] {
      case KU8 => var v := r.ReadUint8(); f := U8(v);
      case KU16 => var v := r.ReadUint16(); f := U16(v);
      case KU64 => var v := r.ReadUint64(); f := U64(v);
      case KVarint => var v := r.ReadVarint(); f := Varint(v);
      case KVec => var v := r.ReadVec(); f := Vec(v);
    }
  }

  lemma NothingRead(data: bytes)
    ensures DecodeAll([], data) == Taken([], 0)
  {
  }

  method ReadLayout(data: bytes, ks: seq<Kind>) returns (r: Option<GroupInfo>)
    requires NamesGroup(ks)
    ensures r == ParseLayout(ks, data)
  {
    hide DecodeAll;
    assert ks[..0] == [];
    NothingRead(data);
    var reader := new Reader(data);
    var version := Take(reader, ks, 0);
    var suite := Take(reader, ks, 1);
    var groupID := Take(reader, ks, 2);
    var epoch := Take(reader, ks, 3);
    var tree := Take(reader, ks, 4);
    var transcript := Take(reader, ks, 5);
    var extensions := Take(reader, ks, 6);
    assert ks[..7] == ks;
    if reader.failed {
      return None;
    }
    r := Some(GroupInfo(data[..reader.pos], epoch.u64, groupID.data));
  }

  /** parseGroupInfoForContext reads all fields and looks for an error once, at the end. */
  method ParseGroupInfo(data: bytes) returns (r: Option<GroupInfo>)
    ensures r == ParseContext(data)
  {
    r := ReadLayout(data, ContextLayout());
  }
}
