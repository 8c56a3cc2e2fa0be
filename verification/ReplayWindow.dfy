/**
 The replay window refines the full set of nonces the receiver has ever accepted, over every stream of frames.
 */
module ReplayWindow {
  import opened Base
  import opened Bits
  import opened SecureFrames
  import opened DaveReceiver

  /** The window describes the history: the highest nonce, and which of the 64 nonces up to it were accepted. */
  ghost predicate Refines(r: Recv, history: seq<uint32>) {
    && (r.hasNonce <==> history != [])
    && (r.hasNonce ==> r.highestNonce in history)
    && (forall n | n in history :: n <= r.highestNonce)
    && (forall d: nat | d < WINDOW ::
          Bit(r.replayWindow, d) <==> d <= r.highestNonce && r.highestNonce - d in history)
  }

  /** A frame is refused as a replay exactly when its nonce was accepted before or lies 64 or more behind. */
  lemma RefusedExactly(r: Recv, history: seq<uint32>, nonce: uint32)
    requires Refines(r, history)
    ensures IsReplay(r, nonce) <==> nonce in history || (history != [] && nonce + WINDOW <= r.highestNonce)
  {
    if r.hasNonce && nonce <= r.highestNonce && r.highestNonce - nonce < WINDOW {
      var d := r.highestNonce - nonce;
      AndMask(r.replayWindow, d);
      assert Bit(r.replayWindow, d) <==> nonce in history;
    }
  }

  lemma AcceptRecords(r: Recv, history: seq<uint32>, nonce: uint32)
    requires Refines(r, history)
    ensures Refines(Accept(r, nonce), history + [nonce])
  {
    var r' := Accept(r, nonce);
    forall d: nat | d < WINDOW
      ensures Bit(r'.replayWindow, d) <==> d <= r'.highestNonce && r'.highestNonce - d in history + [nonce]
    {
      Pow2Words();
      BitPow2(0, d);
      if r.hasNonce {
        if nonce > r.highestNonce {
          var delta := nonce - r.highestNonce;
          BitOr(Shl(r.replayWindow, delta, 64), 1, d);
          BitShl(r.replayWindow, delta, 64, d);
          if delta <= d {
            assert r.highestNonce - (d - delta) == nonce - d;
          }
        } else {
          var delta := r.highestNonce - nonce;
          BitOr(r.replayWindow, Mask(delta), d);
          if delta < WINDOW {
            BitPow2(delta, d);
          } else {
            ZeroBit(d);
          }
        }
      }
    }
  }

  lemma FreshRefines(c: Crypto, baseSecret: bytes)
    ensures Refines(NewRecv(c, baseSecret), [])
  {
    forall d: nat | d < WINDOW ensures !Bit(0, d) {
      ZeroBit(d);
    }
  }

  /** One frame keeps the refinement, and is accepted only if its nonce is new. */
  lemma ReceiveRefines(c: Crypto, r: Recv, history: seq<uint32>, p: Parsed)
    requires Lawful(c) && Refines(r, history)
    ensures var (r', result) := Receive(c, r, p);
            && Refines(r', if result.Ok? then history + [p.nonce] else history)
            && (result.Ok? ==> p.nonce !in history)
  {
    var (r', result) := Receive(c, r, p);
    RefusedExactly(r, history, p.nonce);
    if result.Ok? {
      var r1 := r.(currentGeneration := r'.currentGeneration, key := r'.key);
      assert r' == Accept(r1, p.nonce);
      AcceptRecords(r1, history, p.nonce);
    }
  }

  /** A receiver fed a stream of parsed frames, with the nonces it accepted in order. */
  function Stream(c: Crypto, r: Recv, frames: seq<Parsed>): (Recv, seq<uint32>)
    requires Lawful(c)
  {
    if frames == [] then (r, [])
    else
      var (before, accepted) := Stream(c, r, frames[..|frames| - 1]);
      var last := frames[|frames| - 1];
      var (after, result) := Receive(c, before, last);
      (after, if result.Ok? then accepted + [last.nonce] else accepted)
  }

  /** After every stream the window refines the nonces accepted, and no nonce was accepted twice. */
  lemma {:induction false} NoNonceAcceptedTwice(c: Crypto, baseSecret: bytes, frames: seq<Parsed>)
    requires Lawful(c)
    ensures var (r, accepted) := Stream(c, NewRecv(c, baseSecret), frames);
            && Refines(r, accepted)
            && (forall i, j | 0 <= i < j < |accepted| :: accepted[i] != accepted[j])
  {
    if frames == [] {
      FreshRefines(c, baseSecret);
    } else {
      var earlier := frames[..|frames| - 1];
      NoNonceAcceptedTwice(c, baseSecret, earlier);
      var (before, accepted) := Stream(c, NewRecv(c, baseSecret), earlier);
      ReceiveRefines(c, before, accepted, frames[|frames| - 1]);
    }
  }

  /** The next frame of any stream is refused as a replay exactly when the accepted set says so. */
  lemma ReplayRefusalIsExact(c: Crypto, baseSecret: bytes, frames: seq<Parsed>, p: Parsed)
    requires Lawful(c)
    ensures var (r, accepted) := Stream(c, NewRecv(c, baseSecret), frames);
            Receive(c, r, p).1 == Err(Replayed)
            <==> p.nonce in accepted || exists n | n in accepted :: p.nonce + WINDOW <= n
  {
    var (r, accepted) := Stream(c, NewRecv(c, baseSecret), frames);
    NoNonceAcceptedTwice(c, baseSecret, frames);
    RefusedExactly(r, accepted, p.nonce);
  }
}
