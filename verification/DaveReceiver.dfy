/**
 One DAVE receiver (daveReceiver in dave.go): the 64-nonce sliding replay window, the key ratchet that
 follows the sender's generation, and the receiving part of DecryptFrame.
 */
module DaveReceiver {
  import opened Base
  import opened Bits
  import opened Uleb128
  import opened SecureFrames

  const WINDOW := 64
  const FRAMES_PER_GENERATION := 0x100_0000

  datatype DaveError =
    | GroupUnavailable | BadChannelID | NotConfigured | GroupFailure | BadUserID
    | ZeroEpoch | UnsupportedVersion | AlreadyExecuted | AlreadyPending | NoPendingEpoch
    | UnexpectedTransition | NoPendingKey
    | NotActive | NoCipher | NonceExhausted
    | Unencrypted | BadFrame(why: FrameError) | UnknownSSRC | Replayed | BadGeneration | TagFailure

  /** The state of a receiver. Its block cipher and its GCM cipher are both determined by key. */
  datatype Recv = Recv(
    baseSecret: bytes,
    currentGeneration: uint32,
    key: bytes,
    highestNonce: uint32,
    replayWindow: uint64,
    hasNonce: bool)

  function Generation(nonce: uint32): uint32 {
    nonce / FRAMES_PER_GENERATION
  }

  /** A generation is 2^24 nonces long. */
  lemma GenerationSpans(nonce: uint32, generation: nat)
    ensures Generation(nonce) == generation <==> 0x100_0000 * generation <= nonce < 0x100_0000 * (generation + 1)
  {
  }

  /** 1 << d in 64 bits: zero once d leaves the word. */
  function Mask(d: nat): (m: uint64)
    ensures d < WINDOW ==> m == Pow2(d)
    ensures d >= WINDOW ==> m == 0
  {
    MaskValue(d);
    Shl(1, d, 64)
  }

  lemma MaskValue(d: nat)
    ensures Shl(1, d, 64) < 0x1_0000_0000_0000_0000
    ensures Shl(1, d, 64) == if d < WINDOW then Pow2(d) else 0
  {
    Pow2Words();
    if d < 64 {
      Pow2Strict(d, 64);
      ModUnique(Pow2(d), Pow2(64), 0, Pow2(d));
    } else {
      Pow2Add(64, d - 64);
      ModUnique(Pow2(d), Pow2(64), Pow2(d - 64), 0);
    }
  }

  lemma Pow2Strict(a: nat, b: nat)
    requires a < b
    ensures Pow2(a) < Pow2(b)
  {
    Pow2Monotone(a, b - 1);
  }

  /** The nonce lies below the highest one and is either too far below it or already recorded. */
  predicate IsReplay(r: Recv, nonce: uint32) {
    && r.hasNonce
    && nonce <= r.highestNonce
    && (r.highestNonce - nonce >= WINDOW || And(r.replayWindow, Mask(r.highestNonce - nonce)) != 0)
  }

  function Accept(r: Recv, nonce: uint32): Recv {
    if !r.hasNonce then
      r.(highestNonce := nonce, replayWindow := 1, hasNonce := true)
    else if nonce > r.highestNonce then
      var delta := nonce - r.highestNonce;
      r.(highestNonce := nonce, replayWindow := if delta >= WINDOW then 1 else Slide(r.replayWindow, delta))
    else
      r.(replayWindow := Record(r.replayWindow, r.highestNonce - nonce))
  }

  /** replayWindow << delta | 1 */
  function Slide(window: uint64, delta: nat): uint64 {
    SlideFits(window, delta);
    Or(Shl(window, delta, 64), 1)
  }

  lemma SlideFits(window: uint64, delta: nat)
    ensures Or(Shl(window, delta, 64), 1) < 0x1_0000_0000_0000_0000
  {
    Pow2Words();
    OrBound(Shl(window, delta, 64), 1, 64);
  }

  /** replayWindow | 1 << delta */
  function Record(window: uint64, delta: nat): uint64 {
    RecordFits(window, delta);
    Or(window, Mask(delta))
  }

  lemma RecordFits(window: uint64, delta: nat)
    ensures Or(window, Mask(delta)) < 0x1_0000_0000_0000_0000
  {
    Pow2Words();
    OrBound(window, Mask(delta), 64);
  }

  /** The part of DecryptFrame after the receiver is found: replay check, ratchet, decryption, recording. */
  function Receive(c: Crypto, r: Recv, p: Parsed): (Recv, Result<bytes, DaveError>)
    requires Lawful(c)
  {
    var generation := Generation(p.nonce);
    if IsReplay(r, p.nonce) then (r, Err(Replayed))
    else if generation < r.currentGeneration || generation > r.currentGeneration + 1 then (r, Err(BadGeneration))
    else
      var r1 := if generation == r.currentGeneration then r
                else r.(key := RatchetKey(c, r.baseSecret, generation), currentGeneration := generation);
      match DecryptSecureFrame(c, r1.key, p)
      case Err(_) => (r1, Err(TagFailure))
      case Ok(plaintext) => (Accept(r1, p.nonce), Ok(plaintext))
  }

  function NewRecv(c: Crypto, baseSecret: bytes): Recv {
    Recv(baseSecret, 0, RatchetKey(c, baseSecret, 0), 0, 0, false)
  }

  class Receiver {
    const baseSecret: bytes
    var currentGeneration: uint32
    var key: bytes
    var highestNonce: uint32
    var replayWindow: uint64
    var hasNonce: bool

    ghost function View(): Recv
      reads this
    {
      Recv(baseSecret, currentGeneration, key, highestNonce, replayWindow, hasNonce)
    }

    constructor (c: Crypto, baseSecret: bytes)
      ensures View() == NewRecv(c, baseSecret)
    {
      this.baseSecret := baseSecret;
      currentGeneration, highestNonce, replayWindow, hasNonce := 0, 0, 0, false;
      var k := HashRatchetGetKey(c, baseSecret, 0);
      key := k;
    }

    method AcceptNonce(nonce: uint32)
      modifies this
      ensures View() == Accept(old(View()), nonce)
    {
      if !hasNonce {
        highestNonce := nonce;
        replayWindow := 1;
        hasNonce := true;
        return;
      }
      if nonce > highestNonce {
        var delta := nonce - highestNonce;
        if delta >= WINDOW {
          replayWindow := 1;
        } else {
          replayWindow := Slide(replayWindow, delta);
        }
        highestNonce := nonce;
        return;
      }
      replayWindow := Record(replayWindow, highestNonce - nonce);
    }

    /** The replay check at the head of the receiving path. */
    method Replays(nonce: uint32) returns (b: bool)
      ensures b == IsReplay(View(), nonce)
    {
      if hasNonce {
        if nonce <= highestNonce {
          var delta := highestNonce - nonce;
          return delta >= WINDOW || And(replayWindow, Mask(delta)) != 0;
        }
      }
      return false;
    }

    method Decrypt(c: Crypto, p: Parsed) returns (r: Result<bytes, DaveError>)
      requires Lawful(c)
      modifies this
      ensures (View(), r) == Receive(c, old(View()), p)
    {
      var generation := Generation(p.nonce);
      var replayed := Replays(p.nonce);
      if replayed {
        return Err(Replayed);
      }
      if generation != currentGeneration {
        if generation < currentGeneration || generation > currentGeneration + 1 {
          return Err(BadGeneration);
        }
        key := HashRatchetGetKey(c, baseSecret, generation);
        currentGeneration := generation;
      }
      var plaintext := DecryptSecureFrame(c, key, p);
      if plaintext.Err? {
        return Err(TagFailure);
      }
      AcceptNonce(p.nonce);
      return Ok(plaintext.value);
    }
  }
}
