/**
 Voice packets over RTP (voice.go): what the sender builds, what the receiver makes of any datagram, and the order of
 16-bit voice sequence numbers. The transport cipher is a value with the laws of an AEAD.
 */
module VoicePacket {
  import opened Base
  import opened Words

  const FIXED_HEADER := 12
  const NONCE_SUFFIX := 4

  /** seal and open take a nonce, a text and the header that is authenticated with it. */
  datatype Aead = Aead(
    nonceSize: nat, overhead: nat, seal: (bytes, bytes, bytes) -> bytes, open: (bytes, bytes, bytes) -> Option<bytes>)

  /** What is sealed opens to the same text; a sealed text is longer by the overhead. */
  ghost predicate Lawful(a: Aead) {
    && (forall n, p, h {:trigger a.seal(n, p, h)} :: |a.seal(n, p, h)| == |p| + a.overhead)
    && (forall n, p, h {:trigger a.seal(n, p, h)} :: a.open(n, a.seal(n, p, h), h) == Some(p))
  }

  datatype Packet = Packet(
    flags: uint8, payloadType: uint8, sequence: uint16, timestamp: uint32, ssrc: uint32, csrc: seq<uint32>,
    extension: Option<bytes>, opus: bytes)

  datatype Error =
    | NoCipher | SmallNonce | TooShort | BadVersion | TruncatedCsrc | TruncatedExtension | NoCiphertext | OpenFailed
    | LongExtension

  // ---- Headers --------------------------------------------------------------------------------------

  function Fixed(p: Packet): (r: bytes)
    ensures |r| == FIXED_HEADER
  {
    [p.flags, p.payloadType] + BigEndian(p.sequence, 2) + BigEndian(p.timestamp, 4) + BigEndian(p.ssrc, 4)
  }

  function CsrcBytes(csrc: seq<uint32>): (r: bytes)
    ensures |r| == 4 * |csrc|
  {
    if csrc == [] then [] else CsrcBytes(csrc[..|csrc| - 1]) + BigEndian(csrc[|csrc| - 1], 4)
  }

  function CsrcOf(s: bytes): (r: seq<uint32>)
    requires |s| % 4 == 0
    ensures 4 * |r| == |s|
  {
    if s == [] then []
    else
      var n := |s| - 4;
      NumberBelow4(s[n..]);
      CsrcOf(s[..n]) + [Number(s[n..])]
  }

  lemma NumberBelow4(s: bytes)
    ensures |s| == 4 ==> Number(s) < 0x1_0000_0000
    ensures |s| == 2 ==> Number(s) < 0x1_0000
  {
    NumberInRange(s);
    Pow256Values();
  }

  lemma {:induction false} CsrcRoundTrip(csrc: seq<uint32>)
    ensures CsrcOf(CsrcBytes(csrc)) == csrc
  {
    if csrc != [] {
      var init, last := csrc[..|csrc| - 1], csrc[|csrc| - 1];
      CsrcRoundTrip(init);
      var s, n := CsrcBytes(csrc), |CsrcBytes(init)|;
      assert s[..n] == CsrcBytes(init) && s[n..] == BigEndian(last, 4);
      Pow256Values();
      NumberOfBigEndian(last, 4);
    }
  }

  lemma {:induction false} CsrcUnique(s: bytes)
    requires |s| % 4 == 0
    ensures CsrcBytes(CsrcOf(s)) == s
  {
    if s != [] {
      var n := |s| - 4;
      CsrcUnique(s[..n]);
      NumberBelow4(s[n..]);
      BigEndianOfNumber(s[n..]);
      var csrc := CsrcOf(s);
      assert csrc[..|csrc| - 1] == CsrcOf(s[..n]);
      assert s == s[..n] + s[n..];
    }
  }

  function HasExtension(flags: uint8): bool {
    (flags / 0x10) % 2 == 1
  }

  function CsrcCount(flags: uint8): nat {
    flags % 0x10
  }

  /** A packet whose flags say what it holds. */
  predicate WellFormed(p: Packet) {
    && p.flags / 0x40 == 2 && CsrcCount(p.flags) == |p.csrc|
    && (HasExtension(p.flags) <==> p.extension.Some?)
    && (p.extension.Some? ==> 4 <= |p.extension.value| == 4 + 4 * Number(p.extension.value[2..4]))
  }

  /** What is authenticated but not encrypted: the fixed header, the CSRCs, and the extension's own header. */
  function Header(p: Packet): bytes
    requires p.extension.Some? ==> |p.extension.value| >= 4
  {
    Fixed(p) + CsrcBytes(p.csrc) + if p.extension.Some? then p.extension.value[..4] else []
  }

  /** What is encrypted: the extension's words and the payload. */
  function Plain(p: Packet): bytes
    requires p.extension.Some? ==> |p.extension.value| >= 4
  {
    (if p.extension.Some? then p.extension.value[4..] else []) + p.opus
  }

  /** Together they are the packet in order; the first is as long as its CSRCs and its extension's header make it. */
  lemma PacketLayout(p: Packet)
    requires WellFormed(p)
    ensures |Header(p)| == 12 + 4 * |p.csrc| + if p.extension.Some? then 4 else 0
    ensures Header(p) + Plain(p) == Fixed(p) + CsrcBytes(p.csrc) + (if p.extension.Some? then p.extension.value else []) + p.opus
  {
    if p.extension.Some? {
      var x := p.extension.value;
      assert x[..4] + x[4..] == x;
    }
  }

  /** The nonce for a 4-byte suffix. */
  function Nonce(a: Aead, suffix: bytes): bytes
    requires a.nonceSize >= |suffix|
  {
    suffix + seq(a.nonceSize - |suffix|, i => 0)
  }

  /** The suffix comes first, and zeros fill the rest. */
  lemma NonceLayout(a: Aead, suffix: bytes)
    requires a.nonceSize >= |suffix| == NONCE_SUFFIX
    ensures |Nonce(a, suffix)| == a.nonceSize && Nonce(a, suffix)[..4] == suffix
    ensures forall i | 4 <= i < a.nonceSize :: Nonce(a, suffix)[i] == 0
  {
  }

  /** The low four bits of the first byte count the CSRCs, and the bit above them tells of an extension. */
  lemma FlagBits(version: nat, padding: nat, extension: nat, count: nat)
    requires version < 4 && padding < 2 && extension < 2 && count < 16
    ensures var flags := 0x40 * version + 0x20 * padding + 0x10 * extension + count;
            && flags < 0x100 && flags / 0x40 == version && CsrcCount(flags) == count
            && (HasExtension(flags) <==> extension == 1)
  {
  }

  /** Every CSRC is the number of its four bytes. */
  lemma {:induction false} CsrcIsNumber(s: bytes, k: nat)
    requires |s| % 4 == 0 && 4 * k < |s|
    ensures |CsrcOf(s)| > k && CsrcOf(s)[k] == Number(s[4 * k..4 * k + 4])
  {
    hide Number;
    var n := |s| - 4;
    if 4 * k < n {
      CsrcIsNumber(s[..n], k);
      assert s[..n][4 * k..4 * k + 4] == s[4 * k..4 * k + 4];
    } else {
      assert s[4 * k..4 * k + 4] == s[n..];
    }
  }

  /** Most significant first. */
  lemma CsrcAt(s: bytes, k: nat)
    requires |s| % 4 == 0 && 4 * k < |s|
    ensures |CsrcOf(s)| > k
    ensures CsrcOf(s)[k] == s[4 * k] as int * 0x100_0000 + s[4 * k + 1] as int * 0x1_0000 + s[4 * k + 2] as int * 0x100
                            + s[4 * k + 3]
  {
    hide Number, CsrcOf;
    CsrcIsNumber(s, k);
    var i := 4 * k;
    NumberOf4(s[i], s[i + 1], s[i + 2], s[i + 3]);
    assert s[i..i + 4] == [s[i], s[i + 1], s[i + 2], s[i + 3]];
  }

  /** The fixed header, byte by byte. */
  lemma FixedLayout(p: Packet)
    ensures var t, x := p.timestamp, p.ssrc;
            Fixed(p) == [p.flags, p.payloadType, p.sequence / 0x100, p.sequence % 0x100,
                         t / 0x100_0000, t / 0x1_0000 % 0x100, t / 0x100 % 0x100, t % 0x100,
                         x / 0x100_0000, x / 0x1_0000 % 0x100, x / 0x100 % 0x100, x % 0x100]
  {
    hide BigEndian;
    ByteOrder(p.sequence);
    WordBytes(p.timestamp);
    WordBytes(p.ssrc);
  }

  lemma WordBytes(v: uint32)
    ensures BigEndian(v, 4) == [v / 0x100_0000, v / 0x1_0000 % 0x100, v / 0x100 % 0x100, v % 0x100]
  {
    ByteOrder(v);
  }

  // ---- The receiver ---------------------------------------------------------------------------------

  function HeaderLength(flags: uint8): nat {
    FIXED_HEADER + 4 * CsrcCount(flags) + if HasExtension(flags) then 4 else 0
  }

  /** The checks before the cipher is used. */
  function Precheck(data: bytes, a: Aead): Option<Error> {
    if a.nonceSize < NONCE_SUFFIX then Some(SmallNonce)
    else if |data| < FIXED_HEADER then Some(TooShort)
    else if data[0] / 0x40 != 2 then Some(BadVersion)
    else if |data| < FIXED_HEADER + 4 * CsrcCount(data[0]) then Some(TruncatedCsrc)
    else if |data| < HeaderLength(data[0]) then Some(TruncatedExtension)
    else if |data| < HeaderLength(data[0]) + a.overhead + NONCE_SUFFIX then Some(NoCiphertext)
    else None
  }

  /** The packet of a header and an opened text. */
  function Assemble(data: bytes, plain: bytes): Result<Packet, Error>
    requires |data| >= FIXED_HEADER && |data| >= HeaderLength(data[0])
  {
    NumberBelow4(data[2..4]);
    NumberBelow4(data[4..8]);
    NumberBelow4(data[8..12]);
    var start := FIXED_HEADER + 4 * CsrcCount(data[0]);
    var p := Packet(data[0], data[1], Number(data[2..4]), Number(data[4..8]), Number(data[8..12]),
                    CsrcOf(data[12..start]), None, plain);
    if !HasExtension(data[0]) then Ok(p)
    else
      var length := 4 * Number(data[start + 2..start + 4]);
      if length > |plain| then Err(LongExtension)
      else Ok(p.(extension := Some(data[start..start + 4] + plain[..length]), opus := plain[length..]))
  }

  function Decode(data: bytes, cipher: Option<Aead>): Result<Packet, Error> {
    if cipher.None? then Err(NoCipher)
    else
      var a := cipher.value;
      var e := Precheck(data, a);
      if e.Some? then Err(e.value)
      else
        var h, n := HeaderLength(data[0]), |data| - NONCE_SUFFIX;
        var plain := a.open(Nonce(a, data[n..]), data[h..n], data[..h]);
        if plain.None? then Err(OpenFailed) else Assemble(data, plain.value)
  }

  /** Why a datagram is refused before the cipher is used, in the order of the checks. */
  lemma RefusedBeforeOpening(data: bytes, cipher: Option<Aead>)
    ensures Decode(data, cipher) == Err(NoCipher) <==> cipher == None
    ensures cipher.Some? ==>
              var a, r, n := cipher.value, Decode(data, cipher), |data|;
              && (r == Err(SmallNonce) <==> a.nonceSize < 4)
              && (a.nonceSize >= 4 ==>
                    && (r == Err(TooShort) <==> n < 12)
                    && (n >= 12 ==>
                          && (r == Err(BadVersion) <==> data[0] / 0x40 != 2)
                          && (data[0] / 0x40 == 2 ==>
                                var h := 12 + 4 * CsrcCount(data[0]);
                                var x := if HasExtension(data[0]) then 4 else 0;
                                && (r == Err(TruncatedCsrc) <==> n < h)
                                && (r == Err(TruncatedExtension) <==> h <= n < h + x)
                                && (r == Err(NoCiphertext) <==> h + x <= n < h + x + a.overhead + 4))))
  {
  }

  /** decodeVoicePacket, on any bytes: every index it uses is in range. */
  method DecodeVoicePacket(data: bytes, cipher: Option<Aead>) returns (r: Result<Packet, Error>)
    ensures r == Decode(data, cipher)
  {
    if cipher.None? {
      return Err(NoCipher);
    }
    var a := cipher.value;
    if a.nonceSize < NONCE_SUFFIX {
      return Err(SmallNonce);
    }
    if |data| < FIXED_HEADER {
      return Err(TooShort);
    }
    if data[0] / 0x40 != 2 {
      return Err(BadVersion);
    }
    var csrcCount := CsrcCount(data[0]);
    var headerLength := FIXED_HEADER + 4 * csrcCount;
    if |data| < headerLength {
      return Err(TruncatedCsrc);
    }
    var extensionStart := headerLength;
    if HasExtension(data[0]) {
      headerLength := headerLength + 4;
      if |data| < headerLength {
        return Err(TruncatedExtension);
      }
    }
    if |data| < headerLength + a.overhead + NONCE_SUFFIX {
      return Err(NoCiphertext);
    }
    var suffix := |data| - NONCE_SUFFIX;
    var text := a.open(Nonce(a, data[suffix..]), data[headerLength..suffix], data[..headerLength]);
    if text.None? {
      return Err(OpenFailed);
    }
    var csrc := ReadCsrc(data, csrcCount);
    NumberBelow4(data[2..4]);
    NumberBelow4(data[4..8]);
    NumberBelow4(data[8..12]);
    var p := Packet(data[0], data[1], Number(data[2..4]), Number(data[4..8]), Number(data[8..12]), csrc, None, text.value);
    if HasExtension(data[0]) {
      var length := 4 * Number(data[extensionStart + 2..extensionStart + 4]);
      if length > |text.value| {
        return Err(LongExtension);
      }
      p := p.(extension := Some(data[extensionStart..extensionStart + 4] + text.value[..length]));
      p := p.(opus := text.value[length..]);
    }
    return Ok(p);
  }

  method ReadCsrc(data: bytes, count: nat) returns (csrc: seq<uint32>)
    requires |data| >= FIXED_HEADER + 4 * count
    ensures csrc == CsrcOf(data[12..12 + 4 * count])
  {
    csrc := [];
    for i := 0 to count
      invariant csrc == CsrcOf(data[12..12 + 4 * i])
    {
      var offset := FIXED_HEADER + 4 * i;
      var s := data[12..12 + 4 * (i + 1)];
      assert s[..4 * i] == data[12..12 + 4 * i] && s[4 * i..] == data[offset..offset + 4];
      NumberBelow4(data[offset..offset + 4]);
      csrc := csrc + [Number(data[offset..offset + 4])];
    }
  }

  // ---- What decoding means ----------------------------------------------------------------------------

  /** A datagram that carries a packet: its header, a ciphertext that opens to its content, and the nonce suffix. */
  ghost predicate Carries(data: bytes, a: Aead, p: Packet, c: bytes, suffix: bytes) {
    && a.nonceSize >= NONCE_SUFFIX == |suffix| && |c| >= a.overhead
    && WellFormed(p) && data == Header(p) + c + suffix
    && a.open(Nonce(a, suffix), c, Header(p)) == Some(Plain(p))
  }

  lemma Slices(a: bytes, b: bytes, c: bytes)
    ensures (a + b + c)[..|a|] == a && (a + b + c)[|a|..|a| + |b|] == b && (a + b + c)[|a| + |b|..] == c
  {
  }

  /** The header of a packet, at the front of a datagram, spells the packet's fields. */
  lemma FixedParses(p: Packet, s: bytes)
    requires |s| >= FIXED_HEADER && s[..FIXED_HEADER] == Fixed(p)
    ensures s[0] == p.flags && s[1] == p.payloadType && Number(s[2..4]) == p.sequence
    ensures Number(s[4..8]) == p.timestamp && Number(s[8..12]) == p.ssrc
  {
    hide BigEndian, Number;
    var f := Fixed(p);
    assert f[0] == p.flags && f[1] == p.payloadType;
    assert s[2..4] == f[2..4] == BigEndian(p.sequence, 2);
    assert s[4..8] == f[4..8] == BigEndian(p.timestamp, 4);
    assert s[8..12] == f[8..12] == BigEndian(p.ssrc, 4);
    Pow256Values();
    NumberOfBigEndian(p.sequence, 2);
    NumberOfBigEndian(p.timestamp, 4);
    NumberOfBigEndian(p.ssrc, 4);
  }

  /** The fields read from a header spell the header. */
  lemma FixedSpells(p: Packet, s: bytes)
    requires |s| >= FIXED_HEADER && s[0] == p.flags && s[1] == p.payloadType && Number(s[2..4]) == p.sequence
    requires Number(s[4..8]) == p.timestamp && Number(s[8..12]) == p.ssrc
    ensures s[..FIXED_HEADER] == Fixed(p)
  {
    hide BigEndian, Number;
    BigEndianOfNumber(s[2..4]);
    BigEndianOfNumber(s[4..8]);
    BigEndianOfNumber(s[8..12]);
    assert s[..FIXED_HEADER] == [s[0], s[1]] + s[2..4] + s[4..8] + s[8..12];
  }

  lemma PrefixSlice(s: bytes, n: nat, i: nat, j: nat)
    requires i <= j <= n <= |s|
    ensures s[..n][i..j] == s[i..j]
  {
  }

  /** A header and a content that belong to a well-formed packet are assembled to that packet. */
  lemma AssembleInverts(p: Packet, data: bytes)
    requires WellFormed(p) && |Header(p)| <= |data| && data[..|Header(p)|] == Header(p)
    ensures data[0] == p.flags && HeaderLength(p.flags) == |Header(p)|
    ensures Assemble(data, Plain(p)) == Ok(p)
  {
    hide Number, CsrcOf, CsrcBytes, Fixed;
    var h, start := Header(p), FIXED_HEADER + 4 * |p.csrc|;
    var e := if p.extension.Some? then p.extension.value[..4] else [];
    assert h == Fixed(p) + CsrcBytes(p.csrc) + e;
    Slices(Fixed(p), CsrcBytes(p.csrc), e);
    PrefixSlice(data, |h|, 0, FIXED_HEADER);
    PrefixSlice(data, |h|, FIXED_HEADER, start);
    assert h[0..FIXED_HEADER] == h[..FIXED_HEADER];
    FixedParses(p, data);
    CsrcRoundTrip(p.csrc);
    if p.extension.Some? {
      var x := p.extension.value;
      assert data[start..start + 4] == h[start..] == x[..4];
      assert data[start + 2..start + 4] == data[start..start + 4][2..] && x[..4][2..] == x[2..4];
      assert x[..4] + x[4..] == x;
      assert Plain(p)[..|x| - 4] == x[4..] && Plain(p)[|x| - 4..] == p.opus;
    } else {
      assert Plain(p) == p.opus;
    }
  }

  /** And every assembled packet is well formed, with that header and that content. */
  lemma AssembledIsWellFormed(data: bytes, plain: bytes)
    requires |data| >= FIXED_HEADER && |data| >= HeaderLength(data[0]) && data[0] / 0x40 == 2
    requires Assemble(data, plain).Ok?
    ensures var p := Assemble(data, plain).value;
            WellFormed(p) && data[..HeaderLength(data[0])] == Header(p) && Plain(p) == plain
  {
    hide Number, CsrcOf, CsrcBytes, Fixed;
    var p := Assemble(data, plain).value;
    var start, end := FIXED_HEADER + 4 * CsrcCount(data[0]), HeaderLength(data[0]);
    FixedSpells(p, data);
    CsrcUnique(data[12..start]);
    assert data[..start] == data[..12] + data[12..start];
    if HasExtension(data[0]) {
      var x, length := p.extension.value, 4 * Number(data[start + 2..start + 4]);
      assert x[..4] == data[start..start + 4] && x[4..] == plain[..length];
      assert x[2..4] == data[start..start + 4][2..] == data[start + 2..start + 4];
      assert data[..end] == data[..start] + data[start..end];
    } else {
      assert data[..end] == data[..start] + [];
    }
  }

  /** The parts of a datagram that passed the checks. */
  lemma Parts(data: bytes, h: nat)
    requires h + NONCE_SUFFIX <= |data|
    ensures var n := |data| - NONCE_SUFFIX; data == data[..h] + data[h..n] + data[n..]
  {
  }

  /** A datagram is accepted exactly when it carries the packet it is decoded to. */
  lemma DecodesExactly(data: bytes, a: Aead, p: Packet)
    ensures Decode(data, Some(a)) == Ok(p) <==> exists c, suffix :: Carries(data, a, p, c, suffix)
  {
    if Decode(data, Some(a)) == Ok(p) {
      DecodedCarries(data, a, p);
    }
    if c, suffix :| Carries(data, a, p, c, suffix) {
      CarriedDecodes(data, a, p, c, suffix);
    }
  }

  lemma DecodedCarries(data: bytes, a: Aead, p: Packet)
    requires Decode(data, Some(a)) == Ok(p)
    ensures exists c, suffix :: Carries(data, a, p, c, suffix)
  {
    hide Assemble, WellFormed, Header, Plain;
    var h, n := HeaderLength(data[0]), |data| - NONCE_SUFFIX;
    var plain := a.open(Nonce(a, data[n..]), data[h..n], data[..h]).value;
    AssembledIsWellFormed(data, plain);
    Parts(data, h);
    assert Carries(data, a, p, data[h..n], data[n..]);
  }

  lemma CarriedDecodes(data: bytes, a: Aead, p: Packet, c: bytes, suffix: bytes)
    requires Carries(data, a, p, c, suffix)
    ensures Decode(data, Some(a)) == Ok(p)
  {
    hide Assemble, Plain;
    var h := Header(p);
    Slices(h, c, suffix);
    AssembleInverts(p, data);
    assert |data| == |h| + |c| + NONCE_SUFFIX;
  }

  // ---- The sender ---------------------------------------------------------------------------------------

  /** The datagram of a packet under a nonce suffix. */
  function Build(p: Packet, a: Aead, suffix: bytes): bytes
    requires p.extension.Some? ==> |p.extension.value| >= 4
    requires a.nonceSize >= |suffix|
  {
    Header(p) + a.seal(Nonce(a, suffix), Plain(p), Header(p)) + suffix
  }

  /** Every packet that is built is decoded to itself: CSRCs, extension words and payload are told apart exactly. */
  lemma DecodeInvertsBuild(p: Packet, a: Aead, suffix: bytes)
    requires Lawful(a) && WellFormed(p) && a.nonceSize >= NONCE_SUFFIX == |suffix|
    ensures Decode(Build(p, a, suffix), Some(a)) == Ok(p)
  {
    hide Header, Plain, Nonce;
    var c := a.seal(Nonce(a, suffix), Plain(p), Header(p));
    CarriedDecodes(Build(p, a, suffix), a, p, c, suffix);
  }

  /** A frame to send, as the media encryption leaves it: None when it cannot encrypt. */
  type Frame = Option<bytes>

  /** A packet and the counter that its nonce is made of. */
  datatype Outgoing = Outgoing(packet: Packet, counter: uint32)

  /** A frame with the numbers it gets after so many sent and so many met. */
  function Numbered(frame: bytes, sent: nat, met: nat, ssrc: uint32, size: nat): (o: Outgoing)
    ensures WellFormed(o.packet)
  {
    Outgoing(Packet(0x80, 0x78, sent % 0x1_0000, (size * sent) % 0x1_0000_0000, ssrc, [], None, frame),
             met % 0x1_0000_0000)
  }

  /** What is sent of the frames: a frame that cannot be encrypted takes a counter but no sequence number. */
  function Stream(frames: seq<Frame>, ssrc: uint32, size: nat): (r: seq<Outgoing>)
    ensures |r| <= |frames| && forall k | 0 <= k < |r| :: WellFormed(r[k].packet)
  {
    if frames == [] then []
    else
      var rest, last := Stream(frames[..|frames| - 1], ssrc, size), frames[|frames| - 1];
      if last.None? then rest else rest + [Numbered(last.value, |rest|, |frames| - 1, ssrc, size)]
  }

  /** The k-th packet of a stream: plain Opus, numbered k, its time stamp k frames of the given size along. */
  lemma {:induction false} StreamNumbers(frames: seq<Frame>, ssrc: uint32, size: nat, k: nat)
    requires k < |Stream(frames, ssrc, size)|
    ensures var p := Stream(frames, ssrc, size)[k].packet;
            && p.flags == 0x80 && p.payloadType == 0x78 && p.csrc == [] && p.extension == None && p.ssrc == ssrc
            && p.sequence == k % 0x1_0000 && p.timestamp == (size * k) % 0x1_0000_0000
  {
    var init := frames[..|frames| - 1];
    if k < |Stream(init, ssrc, size)| {
      StreamNumbers(init, ssrc, size, k);
    }
  }

  function Datagram(o: Outgoing, a: Aead): bytes
    requires WellFormed(o.packet) && a.nonceSize >= NONCE_SUFFIX
  {
    Build(o.packet, a, LittleEndian(o.counter, 4))
  }

  function Datagrams(stream: seq<Outgoing>, a: Aead): (r: seq<bytes>)
    requires a.nonceSize >= NONCE_SUFFIX && forall k | 0 <= k < |stream| :: WellFormed(stream[k].packet)
    ensures |r| == |stream| && forall k | 0 <= k < |r| :: r[k] == Datagram(stream[k], a)
  {
    seq(|stream|, k requires 0 <= k < |stream| => Datagram(stream[k], a))
  }

  class OpusSender {
    const aead: Aead
    const ssrc: uint32
    const size: nat
    var sequence: uint16
    var timestamp: uint32
    var counter: uint32

    constructor (aead: Aead, ssrc: uint32, size: nat)
      ensures this.aead == aead && this.ssrc == ssrc && this.size == size
      ensures Counts(0, 0)
    {
      this.aead, this.ssrc, this.size := aead, ssrc, size;
      sequence, timestamp, counter := 0, 0, 0;
    }

    /** The datagram of one frame. */
    method Pack(frame: bytes) returns (datagram: bytes)
      requires aead.nonceSize >= NONCE_SUFFIX
      ensures var p := Packet(0x80, 0x78, sequence, timestamp, ssrc, [], None, frame);
              WellFormed(p) && datagram == Datagram(Outgoing(p, counter), aead)
    {
      var suffix := LittleEndian(counter, 4);
      var header := [0x80, 0x78] + BigEndian(sequence, 2) + BigEndian(timestamp, 4) + BigEndian(ssrc, 4);
      datagram := header + aead.seal(Nonce(aead, suffix), frame, header) + suffix;
      ghost var p := Packet(0x80, 0x78, sequence, timestamp, ssrc, [], None, frame);
      assert Header(p) == header && Plain(p) == frame;
    }

    /** The counters after so many frames, of which so many were sent. */
    predicate Counts(frames: nat, sent: nat)
      reads this
    {
      && counter == frames % 0x1_0000_0000 && sequence == sent % 0x1_0000
      && timestamp == (size * sent) % 0x1_0000_0000
    }

    /** One round of the loop: a frame that cannot be encrypted only moves the nonce counter. */
    method SendOne(frame: Frame, ghost frames: nat, sent: seq<bytes>) returns (sent': seq<bytes>)
      requires aead.nonceSize >= NONCE_SUFFIX && Counts(frames, |sent|)
      modifies this
      ensures Counts(frames + 1, |sent'|)
      ensures sent' == if frame.None? then sent
                       else sent + [Datagram(Numbered(frame.value, |sent|, frames, ssrc, size), aead)]
    {
      sent' := sent;
      if frame.Some? {
        var datagram := Pack(frame.value);
        sent' := sent + [datagram];
        SequenceStep(|sent|);
        TimestampStep(size, |sent|);
        sequence := (sequence + 1) % 0x1_0000;
        timestamp := (timestamp + size) % 0x1_0000_0000;
      }
      CounterStep(frames);
      counter := (counter + 1) % 0x1_0000_0000;
    }

    /** opusSender, for the frames until its channel closes. The counters wrap as their widths do. */
    method SendAll(frames: seq<Frame>) returns (sent: seq<bytes>)
      requires aead.nonceSize >= NONCE_SUFFIX && Counts(0, 0)
      modifies this
      ensures sent == Datagrams(Stream(frames, ssrc, size), aead)
    {
      hide Datagram, WellFormed, Counts, Numbered;
      sent := [];
      for n := 0 to |frames|
        invariant sent == Datagrams(Stream(frames[..n], ssrc, size), aead) && Counts(n, |sent|)
      {
        assert frames[..n + 1][..n] == frames[..n];
        sent := SendOne(frames[n], n, sent);
      }
      assert frames[..|frames|] == frames;
    }
  }

  lemma SequenceStep(n: nat)
    ensures (n % 0x1_0000 + 1) % 0x1_0000 == (n + 1) % 0x1_0000
  {
  }

  lemma CounterStep(n: nat)
    ensures (n % 0x1_0000_0000 + 1) % 0x1_0000_0000 == (n + 1) % 0x1_0000_0000
  {
  }

  lemma TimestampStep(size: nat, n: nat)
    ensures ((size * n) % 0x1_0000_0000 + size) % 0x1_0000_0000 == (size * (n + 1)) % 0x1_0000_0000
  {
    assert size * (n + 1) == size * n + size;
  }

  /** The receiver gets every packet of a stream as it was sent. */
  lemma StreamIsReceived(frames: seq<Frame>, ssrc: uint32, size: nat, a: Aead, k: nat)
    requires Lawful(a) && a.nonceSize >= NONCE_SUFFIX && k < |Stream(frames, ssrc, size)|
    ensures var stream := Stream(frames, ssrc, size);
            Decode(Datagrams(stream, a)[k], Some(a)) == Ok(stream[k].packet)
  {
    var o := Stream(frames, ssrc, size)[k];
    DecodeInvertsBuild(o.packet, a, LittleEndian(o.counter, 4));
  }

  /** Of the first 2^32 frames no two are sent under one nonce. */
  lemma {:induction false} NoncesDiffer(frames: seq<Frame>, ssrc: uint32, size: nat, j: nat, k: nat)
    requires |frames| <= 0x1_0000_0000 && j < k < |Stream(frames, ssrc, size)|
    ensures LittleEndian(Stream(frames, ssrc, size)[j].counter, 4) != LittleEndian(Stream(frames, ssrc, size)[k].counter, 4)
  {
    CountersRise(frames, ssrc, size, j, k);
    Pow256Values();
    if LittleEndian(Stream(frames, ssrc, size)[j].counter, 4) == LittleEndian(Stream(frames, ssrc, size)[k].counter, 4) {
      LittleEndianUnique(Stream(frames, ssrc, size)[j].counter, Stream(frames, ssrc, size)[k].counter, 4);
    }
  }

  /** So no two of them are sealed under one full nonce. */
  lemma SealNoncesDiffer(frames: seq<Frame>, ssrc: uint32, size: nat, a: Aead, j: nat, k: nat)
    requires |frames| <= 0x1_0000_0000 && j < k < |Stream(frames, ssrc, size)| && a.nonceSize >= NONCE_SUFFIX
    ensures var m, n := LittleEndian(Stream(frames, ssrc, size)[j].counter, 4), LittleEndian(Stream(frames, ssrc, size)[k].counter, 4);
            && Nonce(a, m) != Nonce(a, n)
            && SealedUnder(Stream(frames, ssrc, size)[j], a, Nonce(a, m)) && SealedUnder(Stream(frames, ssrc, size)[k], a, Nonce(a, n))
  {
    hide Stream, LittleEndian;
    var m, n := LittleEndian(Stream(frames, ssrc, size)[j].counter, 4), LittleEndian(Stream(frames, ssrc, size)[k].counter, 4);
    NoncesDiffer(frames, ssrc, size, j, k);
    NonceLayout(a, m);
    NonceLayout(a, n);
  }

  /** The datagram is the packet's header, its content sealed under this nonce with that header, and a 4-byte suffix. */
  ghost predicate SealedUnder(o: Outgoing, a: Aead, nonce: bytes)
    requires WellFormed(o.packet) && a.nonceSize >= NONCE_SUFFIX
  {
    var h, d := Header(o.packet), Datagram(o, a);
    |d| >= 4 && d[..|d| - 4] == h + a.seal(nonce, Plain(o.packet), h)
  }

  lemma SameRemainder(a: nat, b: nat)
    ensures a % 0x1_0000_0000 == b % 0x1_0000_0000 <==> (a - b) % 0x1_0000_0000 == 0
  {
  }

  /** Where in the frames the sent ones stand. */
  function Positions(frames: seq<Frame>): (r: seq<nat>)
    ensures forall k | 0 <= k < |r| :: r[k] < |frames|
  {
    if frames == [] then []
    else
      var rest := Positions(frames[..|frames| - 1]);
      if frames[|frames| - 1].None? then rest else rest + [|frames| - 1]
  }

  /** Every datagram carries the frame at its position, numbered by how many frames were met before it. */
  lemma {:induction false} StreamPositions(frames: seq<Frame>, ssrc: uint32, size: nat)
    ensures var stream, at := Stream(frames, ssrc, size), Positions(frames);
            && |at| == |stream|
            && forall k | 0 <= k < |stream| :: Carried(frames, stream[k], at[k])
  {
    hide WellFormed;
    if frames != [] {
      var init := frames[..|frames| - 1];
      StreamPositions(init, ssrc, size);
      var stream, at := Stream(init, ssrc, size), Positions(init);
      forall k | 0 <= k < |stream| ensures Carried(frames, stream[k], at[k]) {
        assert Carried(init, stream[k], at[k]);
      }
    }
  }

  predicate Carried(frames: seq<Frame>, o: Outgoing, at: nat)
    requires at < |frames|
  {
    o.counter == at % 0x1_0000_0000 && frames[at] == Some(o.packet.opus)
  }

  /** Two datagrams of a stream have one nonce exactly when their frames are a multiple of 2^32 frames apart. */
  lemma NonceRepeatsExactly(frames: seq<Frame>, ssrc: uint32, size: nat, j: nat, k: nat)
    requires j < |Stream(frames, ssrc, size)| && k < |Stream(frames, ssrc, size)|
    ensures |Positions(frames)| == |Stream(frames, ssrc, size)|
    ensures LittleEndian(Stream(frames, ssrc, size)[j].counter, 4) == LittleEndian(Stream(frames, ssrc, size)[k].counter, 4)
            <==> (Positions(frames)[j] as int - Positions(frames)[k]) % 0x1_0000_0000 == 0
  {
    hide LittleEndian, Stream, Positions;
    StreamPositions(frames, ssrc, size);
    var at := Positions(frames);
    assert Carried(frames, Stream(frames, ssrc, size)[j], at[j]) && Carried(frames, Stream(frames, ssrc, size)[k], at[k]);
    SameRemainder(at[j], at[k]);
    var u, v := at[j] % 0x1_0000_0000, at[k] % 0x1_0000_0000;
    assert u < Pow256(4) && v < Pow256(4) by {
      Pow256Values();
    }
    if LittleEndian(u, 4) == LittleEndian(v, 4) {
      LittleEndianUnique(u, v, 4);
    }
  }

  lemma {:induction false} CountersRise(frames: seq<Frame>, ssrc: uint32, size: nat, j: nat, k: nat)
    requires |frames| <= 0x1_0000_0000 && j < |Stream(frames, ssrc, size)|
    ensures Stream(frames, ssrc, size)[j].counter < |frames|
    ensures j < k < |Stream(frames, ssrc, size)| ==>
              Stream(frames, ssrc, size)[j].counter < Stream(frames, ssrc, size)[k].counter
  {
    hide WellFormed;
    var init := frames[..|frames| - 1];
    if j < |Stream(init, ssrc, size)| {
      CountersRise(init, ssrc, size, j, k);
    }
  }

  lemma {:induction false} LittleEndianUnique(u: nat, v: nat, width: nat)
    requires u < Pow256(width) && v < Pow256(width) && LittleEndian(u, width) == LittleEndian(v, width)
    ensures u == v
  {
    if width > 0 {
      var s, t := LittleEndian(u, width), LittleEndian(v, width);
      assert s[0] == u % 0x100 && t[0] == v % 0x100;
      assert s[1..] == LittleEndian(u / 0x100, width - 1) && t[1..] == LittleEndian(v / 0x100, width - 1);
      LittleEndianUnique(u / 0x100, v / 0x100, width - 1);
    }
  }

  // ---- Sequence numbers of the voice gateway -----------------------------------------------------------------

  /** A number is ahead of another by 1 to 2^15 - 1, around the wrap. */
  predicate Ahead(last: uint16, sequence: uint16) {
    0 < (sequence - last) % 0x1_0000 < 0x8000
  }

  class VoiceSequence {
    var last: Option<uint16>
    var seqAck: int

    constructor ()
      ensures last == None
    {
      last, seqAck := None, -1;
    }

    /** acceptVoiceSequence */
    method Accept(sequence: uint16) returns (ok: bool)
      modifies this
      ensures ok <==> old(last).None? || Ahead(old(last).value, sequence)
      ensures if ok then last == Some(sequence) && seqAck == sequence else last == old(last) && seqAck == old(seqAck)
    {
      if last.Some? {
        var delta := (sequence - last.value) % 0x1_0000;
        if delta == 0 || delta >= 0x8000 {
          return false;
        }
      }
      last := Some(sequence);
      seqAck := sequence;
      return true;
    }
  }

  /** For messages less than 2^15 apart the 16-bit test is the order of the full counters. */
  lemma AheadIsOrder(a: nat, b: nat)
    requires -0x8000 <= b - a < 0x8000
    ensures Ahead(a % 0x1_0000, b % 0x1_0000) <==> b > a
  {
    DifferenceWraps(a, b);
  }

  lemma DifferenceWraps(a: nat, b: nat)
    ensures (b % 0x1_0000 - a % 0x1_0000) % 0x1_0000 == (b - a) % 0x1_0000
  {
  }
}
