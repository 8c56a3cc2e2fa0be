/**
 DAVE secure frames (dave_crypto.go): the frame trailer, frame encryption and decryption, and the hash
 ratchet. AES-CTR, AES-GCM, HKDF expansion and the MLS exporter are arbitrary functions; Lawful states the
 two facts about them that the code relies on.
 */
module SecureFrames {
  import opened Base
  import opened Uleb128

  const TAG_SIZE := 8
  const MIN_SUPPLEMENTAL_SIZE := 12
  const MARKER: uint8 := 0xFA

  /** The cryptographic functions the library calls. */
  datatype Crypto = Crypto(
    ctr: (bytes, bytes, bytes) -> bytes,          // key, initial counter block, data
    seal: (bytes, bytes, bytes) -> bytes,         // key, nonce, plaintext
    expand: (bytes, string, bytes, nat) -> bytes, // secret, label, context, length
    exporter: (nat, uint64) -> bytes                // MLS install, user ID
  )

  /** CTR keeps lengths and undoes itself; GCM output is the CTR ciphertext from counter 2 and a 16-byte tag. */
  ghost predicate Lawful(c: Crypto) {
    && (forall k, iv, p {:trigger |c.ctr(k, iv, p)|} :: |c.ctr(k, iv, p)| == |p|)
    && (forall k, iv, p {:trigger c.ctr(k, iv, c.ctr(k, iv, p))} :: c.ctr(k, iv, c.ctr(k, iv, p)) == p)
    && (forall k, n, p :: |c.seal(k, n, p)| == |p| + 16 && c.seal(k, n, p)[..|p|] == c.ctr(k, n + [0, 0, 0, 2], p))
  }

  function BuildNonce(counter: uint32): bytes {
    [0, 0, 0, 0, 0, 0, 0, 0] + LittleEndian(counter, 4)
  }

  /** Twelve bytes: eight zeros, then the counter, least significant byte first. */
  lemma NonceLayout(counter: uint32)
    ensures var n := BuildNonce(counter);
            && |n| == 12 && (forall i | 0 <= i < 8 :: n[i] == 0)
            && n[8] as int + 0x100 * n[9] as int + 0x1_0000 * n[10] as int + 0x100_0000 * n[11] as int == counter
  {
    ByteOrder(counter);
    assert counter / 0x100 == 0x100 * (counter / 0x1_0000) + counter / 0x100 % 0x100;
    assert counter / 0x1_0000 == 0x100 * (counter / 0x100_0000) + counter / 0x1_0000 % 0x100;
  }

  /** Different counters make different nonces. */
  lemma NoncesUnique(a: uint32, b: uint32)
    ensures BuildNonce(a) == BuildNonce(b) <==> a == b
  {
    NonceLayout(a);
    NonceLayout(b);
  }

  // ---- The frame layout ----------------------------------------------------------------------

  /** Ciphertext, truncated tag, nonce, supplemental size, marker. */
  function Frame(ciphertext: bytes, tag: bytes, nonce: uint32): bytes
    requires |tag| == TAG_SIZE
  {
    UlebShort(nonce);
    var n := Uleb(nonce);
    ciphertext + tag + n + [TAG_SIZE + |n| + 1 + 2] + [MARKER, MARKER]
  }

  function EncryptSecureFrame(c: Crypto, key: bytes, nonce: uint32, opusData: bytes): bytes
    requires Lawful(c)
  {
    var sealed := c.seal(key, BuildNonce(nonce), opusData);
    Frame(sealed[..|opusData|], sealed[|opusData|..][..TAG_SIZE], nonce)
  }

  datatype Parsed = Parsed(ciphertext: bytes, tag: bytes, nonce: uint32)

  datatype FrameError = TooShort | NotDave | BadSupplementalSize | BadNonce(why: UlebError) | TrailingNonceBytes

  function ParseSecureFrame(data: bytes): (r: Result<Parsed, FrameError>)
    ensures r.Ok? ==> |r.value.tag| == TAG_SIZE
  {
    var n := |data|;
    if n < 2 + 1 + 1 + TAG_SIZE then Err(TooShort)
    else if data[n - 1] != MARKER || data[n - 2] != MARKER then Err(NotDave)
    else
      var size := data[n - 3];
      var start := n - size;
      if start < 0 || size < MIN_SUPPLEMENTAL_SIZE then Err(BadSupplementalSize)
      else
        var nonceBytes := data[start + TAG_SIZE..n - 3];
        match DecodeUleb(nonceBytes)
        case Err(e) => Err(BadNonce(e))
        case Ok((nonce, consumed)) =>
          if consumed != |nonceBytes| then Err(TrailingNonceBytes)
          else Ok(Parsed(data[..start], data[start..start + TAG_SIZE], nonce))
  }

  /** Where the parts of a frame lie, and the bytes that end it. */
  lemma FrameLayout(ciphertext: bytes, tag: bytes, nonce: uint32)
    requires |tag| == 8
    ensures var f, u, k := Frame(ciphertext, tag, nonce), |Uleb(nonce)|, |ciphertext|;
            && |f| == k + 8 + u + 3 && 1 <= u <= 5
            && f[..k] == ciphertext && f[k..k + 8] == tag && f[k + 8..k + 8 + u] == Uleb(nonce)
            && f[|f| - 3] == 8 + u + 3 && f[|f| - 2] == 0xFA && f[|f| - 1] == 0xFA
  {
    UlebShort(nonce);
  }

  /** Which byte strings are not frames at all, and which are frames that end wrongly. */
  lemma ParseRefusals(data: bytes)
    ensures var r, n := ParseSecureFrame(data), |data|;
            && (r == Err(TooShort) <==> n < 12)
            && (r == Err(NotDave) <==> n >= 12 && !(data[n - 2] == data[n - 1] == 0xFA))
            && (r == Err(BadSupplementalSize) <==>
                  n >= 12 && data[n - 2] == data[n - 1] == 0xFA && !(12 <= data[n - 3] <= n))
  {
  }

  /** Parsing and building are inverse: a byte string parses to p exactly when it is the frame of p. */
  lemma ParseIsInverseOfFrame(data: bytes, p: Parsed)
    ensures ParseSecureFrame(data) == Ok(p) <==> |p.tag| == TAG_SIZE && data == Frame(p.ciphertext, p.tag, p.nonce)
  {
    if ParseSecureFrame(data) == Ok(p) {
      FrameOfParsed(data, p);
    }
    if |p.tag| == TAG_SIZE && data == Frame(p.ciphertext, p.tag, p.nonce) {
      ParsedFrame(p);
    }
  }

  lemma FrameOfParsed(data: bytes, p: Parsed)
    requires ParseSecureFrame(data) == Ok(p)
    ensures data == Frame(p.ciphertext, p.tag, p.nonce)
  {
    var n := |data|;
    var start := n - data[n - 3];
    var nonceBytes := data[start + TAG_SIZE..n - 3];
    DecodeAcceptsExactlyMinimal(nonceBytes, p.nonce, |nonceBytes|);
    assert nonceBytes[..|nonceBytes|] == nonceBytes;
    assert data == data[..start] + data[start..start + TAG_SIZE] + nonceBytes + [data[n - 3]] + data[n - 2..];
    assert data[n - 2..] == [MARKER, MARKER];
  }

  lemma ParsedFrame(p: Parsed)
    requires |p.tag| == TAG_SIZE
    ensures ParseSecureFrame(Frame(p.ciphertext, p.tag, p.nonce)) == Ok(p)
  {
    var data := Frame(p.ciphertext, p.tag, p.nonce);
    var nonceBytes := Uleb(p.nonce);
    UlebShort(p.nonce);
    var n := |data|;
    assert data[n - 3] == TAG_SIZE + |nonceBytes| + 3;
    var start := n - data[n - 3];
    assert start == |p.ciphertext|;
    assert data[start + TAG_SIZE..n - 3] == nonceBytes;
    assert data[..start] == p.ciphertext;
    assert data[start..start + TAG_SIZE] == p.tag;
    DecodeAcceptsExactlyMinimal(nonceBytes, p.nonce, |nonceBytes|);
    assert nonceBytes[..|nonceBytes|] == nonceBytes;
  }

  /** What parsing an encrypted frame gives back, for every payload and every nonce. */
  lemma EncryptedFrameParses(c: Crypto, key: bytes, nonce: uint32, payload: bytes)
    requires Lawful(c)
    ensures var sealed := c.seal(key, BuildNonce(nonce), payload);
            ParseSecureFrame(EncryptSecureFrame(c, key, nonce, payload))
            == Ok(Parsed(sealed[..|payload|], sealed[|payload|..|payload| + TAG_SIZE], nonce))
  {
    var sealed := c.seal(key, BuildNonce(nonce), payload);
    ParsedFrame(Parsed(sealed[..|payload|], sealed[|payload|..][..TAG_SIZE], nonce));
    assert sealed[|payload|..][..TAG_SIZE] == sealed[|payload|..|payload| + TAG_SIZE];
  }

  datatype DecryptError = TagMismatch

  function DecryptSecureFrame(c: Crypto, key: bytes, p: Parsed): Result<bytes, DecryptError>
    requires Lawful(c)
  {
    var gcmNonce := BuildNonce(p.nonce);
    var ctrIV := gcmNonce + BigEndian(2, 4);
    var plaintext := c.ctr(key, ctrIV, p.ciphertext);
    var fullTag := c.seal(key, gcmNonce, plaintext)[|plaintext|..];
    if fullTag[..TAG_SIZE] != p.tag then Err(TagMismatch) else Ok(plaintext)
  }

  /** Under one key a frame decrypts to the payload it was made from, and only such frames decrypt. */
  lemma DecryptInvertsEncrypt(c: Crypto, key: bytes, p: Parsed, payload: bytes)
    requires Lawful(c) && |p.tag| == TAG_SIZE
    ensures DecryptSecureFrame(c, key, p) == Ok(payload)
       <==> Frame(p.ciphertext, p.tag, p.nonce) == EncryptSecureFrame(c, key, p.nonce, payload)
  {
    var gcmNonce := BuildNonce(p.nonce);
    var iv := gcmNonce + BigEndian(2, 4);
    assert iv == gcmNonce + [0, 0, 0, 2];
    var sealed := c.seal(key, gcmNonce, payload);
    var q := Parsed(sealed[..|payload|], sealed[|payload|..][..TAG_SIZE], p.nonce);
    if DecryptSecureFrame(c, key, p) == Ok(payload) {
      assert q == p by {
        assert c.ctr(key, iv, payload) == p.ciphertext;
      }
    }
    if Frame(p.ciphertext, p.tag, p.nonce) == EncryptSecureFrame(c, key, p.nonce, payload) {
      ParsedFrame(p);
      ParsedFrame(q);
      assert q == p;
    }
  }

  // ---- The hash ratchet ----------------------------------------------------------------------

  /** The ratchet secret of a generation. */
  function RatchetSecret(c: Crypto, baseSecret: bytes, generation: uint32): bytes {
    if generation == 0 then baseSecret
    else c.expand(RatchetSecret(c, baseSecret, generation - 1), "secret", BigEndian(generation - 1, 4), 32)
  }

  function RatchetKey(c: Crypto, baseSecret: bytes, generation: uint32): bytes {
    c.expand(RatchetSecret(c, baseSecret, generation), "key", BigEndian(generation, 4), 16)
  }

  /** The chain of secrets behind a key: each is expanded from the one before with its number, most significant byte first. */
  lemma {:induction false} RatchetChain(c: Crypto, baseSecret: bytes, generation: uint32) returns (secrets: seq<bytes>)
    ensures |secrets| == generation + 1 && secrets[0] == baseSecret
    ensures secrets[generation] == RatchetSecret(c, baseSecret, generation)
    ensures forall i: nat | i < generation ::
              secrets[i + 1] == c.expand(secrets[i], "secret", FourBytes(i), 32)
    ensures RatchetKey(c, baseSecret, generation) == c.expand(secrets[generation], "key", FourBytes(generation), 16)
  {
    ByteOrder(generation);
    if generation == 0 {
      secrets := [baseSecret];
    } else {
      var earlier := RatchetChain(c, baseSecret, generation - 1);
      ByteOrder(generation - 1);
      secrets := earlier + [RatchetSecret(c, baseSecret, generation)];
    }
  }

  function FourBytes(v: nat): bytes {
    [v / 0x100_0000 % 0x100, v / 0x1_0000 % 0x100, v / 0x100 % 0x100, v % 0x100]
  }

  method HashRatchetGetKey(c: Crypto, baseSecret: bytes, generation: uint32) returns (key: bytes)
    ensures key == RatchetKey(c, baseSecret, generation)
  {
    var secret := baseSecret;
    var i: uint32 := 0;
    while i < generation
      invariant i <= generation
      invariant secret == RatchetSecret(c, baseSecret, i)
    {
      secret := c.expand(secret, "secret", BigEndian(i, 4), 32);
      i := i + 1;
    }
    key := c.expand(secret, "key", BigEndian(generation, 4), 16);
  }
}
