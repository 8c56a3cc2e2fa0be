/**
 Sender and receiver end to end: what one DAVE session encrypts, another that knows the same base secret decrypts,
 across every change of key generation.
 */
module DaveInStep {
  import opened Base
  import opened Uleb128
  import opened SecureFrames
  import opened DaveReceiver
  import opened ReplayWindow
  import opened DaveState
  import opened DaveRuns

  type Answers = seq<Result<bytes, DaveError>>

  /** A session encrypting payloads one after another: the states it goes through and what comes out. */
  ghost predicate Sends(c: Crypto, states: seq<Session>, payloads: seq<bytes>, frames: Answers)
    requires Lawful(c)
  {
    && |states| == |payloads| + 1 && |frames| == |payloads|
    && (forall i {:trigger EncryptFrame(c, states[i], payloads[i])} | 0 <= i < |payloads| ::
          EncryptFrame(c, states[i], payloads[i]) == (states[i + 1], frames[i]))
  }

  /** A session decrypting frames of one stream in the order they arrive. */
  ghost predicate Receives(c: Crypto, states: seq<Session>, ssrc: uint32, frames: seq<bytes>, results: Answers)
    requires Lawful(c)
  {
    && |states| == |frames| + 1 && |results| == |frames|
    && (forall k {:trigger DecryptFrame(c, states[k], ssrc, frames[k])} | 0 <= k < |frames| ::
          DecryptFrame(c, states[k], ssrc, frames[k]) == (states[k + 1], results[k]))
  }

  /** The frame of the n-th nonce on a base secret. */
  function FrameFor(c: Crypto, baseSecret: bytes, nonce: uint32, payload: bytes): bytes
    requires Lawful(c)
  {
    EncryptSecureFrame(c, RatchetKey(c, baseSecret, Generation(nonce)), nonce, payload)
  }

  /** A sender whose last nonce on a base secret was n, ready with the key of that generation. */
  predicate SentUpTo(c: Crypto, s: Session, baseSecret: bytes, n: uint32) {
    var m := s.sender;
    && m.active && m.senderNonce == n && m.currentGeneration == Generation(n)
    && m.ratchetBaseSecret == Some(baseSecret) && m.frameCipher == Some(RatchetKey(c, baseSecret, Generation(n)))
  }

  /** In every run without a direct DeriveSenderKey an active session is such a sender, on the secret of its install. */
  lemma ActiveSenderIsOnItsInstall(c: Crypto, userID: string, groupWorks: bool, calls: seq<Call>)
    requires Lawful(c) && CallDeriveSenderKey !in calls
    ensures var r := RunAll(c, Start(userID, groupWorks), calls);
            r.s.sender.active ==>
              && ParseUint64(userID).Some?
              && SentUpTo(c, r.s, c.exporter(r.keyInstall, ParseUint64(userID).value), r.s.sender.senderNonce)
  {
    RunDisciplined(c, userID, groupWorks, calls);
    SameUser(c, Start(userID, groupWorks), calls);
  }

  lemma NextFrame(c: Crypto, s: Session, baseSecret: bytes, n: uint32, payload: bytes)
    requires Lawful(c) && SentUpTo(c, s, baseSecret, n) && n < MAX_NONCE
    ensures var (s', frame) := EncryptFrame(c, s, payload);
            SentUpTo(c, s', baseSecret, n + 1) && frame == Ok(FrameFor(c, baseSecret, n + 1, payload))
  {
  }

  /** The i-th frame carries nonce i + 1 and the ratchet key of its generation, through the last nonce there is. */
  lemma {:induction false} SentFrames(c: Crypto, states: seq<Session>, payloads: seq<bytes>, frames: Answers, baseSecret: bytes, n: nat)
    requires Lawful(c) && Sends(c, states, payloads, frames) && SentUpTo(c, states[0], baseSecret, 0)
    requires n <= |payloads| <= MAX_NONCE
    ensures SentUpTo(c, states[n], baseSecret, n)
    ensures forall i | 0 <= i < n :: frames[i] == Ok(FrameFor(c, baseSecret, i + 1, payloads[i]))
  {
    hide EncryptFrame, FrameFor;
    if n > 0 {
      SentFrames(c, states, payloads, frames, baseSecret, n - 1);
      NextFrame(c, states[n - 1], baseSecret, n - 1, payloads[n - 1]);
      assert EncryptFrame(c, states[n - 1], payloads[n - 1]) == (states[n], frames[n - 1]);
    }
  }

  // ---- The receiving side --------------------------------------------------------------------

  /** The receiver sits on the ratchet of the base secret and has accepted nothing above its highest nonce. */
  predicate Follows(c: Crypto, r: Recv, baseSecret: bytes, nonce: nat) {
    && r.baseSecret == baseSecret
    && r.key == RatchetKey(c, baseSecret, r.currentGeneration)
    && (r.hasNonce <==> nonce > 0)
    && (r.hasNonce ==> r.highestNonce == nonce)
    && (nonce < 0x1_0000_0000 ==> r.currentGeneration == Generation(nonce))
  }

  /** A later frame decrypts to its payload exactly when its generation is the receiver's or the next. */
  lemma ReceiveInOrder(c: Crypto, r: Recv, baseSecret: bytes, last: uint32, nonce: uint32, payload: bytes, p: Parsed)
    requires Lawful(c) && Follows(c, r, baseSecret, last) && last < nonce
    requires ParseSecureFrame(FrameFor(c, baseSecret, nonce, payload)) == Ok(p)
    ensures var (r', result) := Receive(c, r, p);
            if Generation(nonce) <= Generation(last) + 1
            then result == Ok(payload) && Follows(c, r', baseSecret, nonce)
            else result == Err(BadGeneration)
  {
    var key := RatchetKey(c, baseSecret, Generation(nonce));
    EncryptedFrameParses(c, key, nonce, payload);
    ParseIsInverseOfFrame(FrameFor(c, baseSecret, nonce, payload), p);
    DecryptInvertsEncrypt(c, key, p, payload);
  }

  /** A session ready to receive a stream of a user whose base secret it can export. */
  predicate Listening(c: Crypto, s: Session, ssrc: uint32, baseSecret: bytes) {
    && s.sender.active
    && ssrc !in s.receivers
    && ssrc in s.ssrcToUserID
    && ParseUint64(s.ssrcToUserID[ssrc]).Some?
    && s.group.Some? && s.group.value.established
    && c.exporter(s.group.value.install, ParseUint64(s.ssrcToUserID[ssrc]).value) == baseSecret
  }

  /** The session after frames up to the given nonce: its receiver follows the sender. */
  predicate Tracking(c: Crypto, s: Session, ssrc: uint32, baseSecret: bytes, nonce: uint32) {
    if nonce == 0 then Listening(c, s, ssrc, baseSecret)
    else s.sender.active && ssrc in s.receivers && Follows(c, s.receivers[ssrc], baseSecret, nonce)
  }

  lemma DecryptInOrder(c: Crypto, s: Session, ssrc: uint32, baseSecret: bytes, last: uint32, nonce: uint32, payload: bytes)
    requires Lawful(c) && Tracking(c, s, ssrc, baseSecret, last) && last < nonce
    ensures var (s', result) := DecryptFrame(c, s, ssrc, FrameFor(c, baseSecret, nonce, payload));
            if Generation(nonce) <= Generation(last) + 1
            then result == Ok(payload) && Tracking(c, s', ssrc, baseSecret, nonce)
            else result == Err(BadGeneration)
  {
    var data := FrameFor(c, baseSecret, nonce, payload);
    EncryptedFrameParses(c, RatchetKey(c, baseSecret, Generation(nonce)), nonce, payload);
    var p := ParseSecureFrame(data).value;
    var (s1, err) := FindReceiver(c, s, ssrc);
    assert err.None? && Follows(c, s1.receivers[ssrc], baseSecret, last);
    ReceiveInOrder(c, s1.receivers[ssrc], baseSecret, last, nonce, payload, p);
    assert DecryptFrame(c, s, ssrc, data) == Deliver(c, s, ssrc, p);
  }

  // ---- End to end ----------------------------------------------------------------------------

  /** Strictly increasing frame numbers below n: the frames that arrive. */
  predicate Arrivals(picked: seq<nat>, n: nat) {
    && (forall k | 0 <= k < |picked| :: picked[k] < n)
    && (forall k | 0 <= k < |picked| - 1 :: picked[k] < picked[k + 1])
  }

  /** The nonce of the k-th arrival; nonce 0 stands for the state before the first. */
  function ArrivalNonce(picked: seq<nat>, k: nat): nat
    requires k <= |picked|
  {
    if k == 0 then 0 else picked[k - 1] + 1
  }

  /** The k-th arrival is at most one generation after the one before it; the first is in generation 0 or 1. */
  predicate SteadyAt(picked: seq<nat>, k: nat)
    requires k < |picked| && Arrivals(picked, MAX_NONCE)
  {
    Generation(ArrivalNonce(picked, k + 1)) <= Generation(ArrivalNonce(picked, k)) + 1
  }

  predicate Steady(picked: seq<nat>)
    requires Arrivals(picked, MAX_NONCE)
  {
    forall k | 0 <= k < |picked| :: SteadyAt(picked, k)
  }

  /** The frames of the picked payloads, as the sender made them. */
  ghost predicate Arrived(c: Crypto, baseSecret: bytes, payloads: seq<bytes>, picked: seq<nat>, arrived: seq<bytes>)
    requires Lawful(c) && |payloads| <= MAX_NONCE && Arrivals(picked, |payloads|)
  {
    && |arrived| == |picked|
    && (forall k {:trigger arrived[k]} | 0 <= k < |picked| ::
          arrived[k] == FrameFor(c, baseSecret, picked[k] + 1, payloads[picked[k]]))
  }

  /** While arrivals stay steady they decrypt, and the receiver stays on the sender's key. */
  lemma {:induction false} TracksUpTo(c: Crypto, states: seq<Session>, ssrc: uint32, baseSecret: bytes, payloads: seq<bytes>,
                                      picked: seq<nat>, arrived: seq<bytes>, results: Answers, n: nat)
    requires Lawful(c) && |payloads| <= MAX_NONCE && Arrivals(picked, |payloads|)
    requires Arrived(c, baseSecret, payloads, picked, arrived)
    requires Receives(c, states, ssrc, arrived, results) && Listening(c, states[0], ssrc, baseSecret)
    requires n <= |picked| && forall k | 0 <= k < n :: SteadyAt(picked, k)
    ensures forall k | 0 <= k < n :: results[k] == Ok(payloads[picked[k]])
    ensures Tracking(c, states[n], ssrc, baseSecret, ArrivalNonce(picked, n))
  {
    hide DecryptFrame, FrameFor;
    if n > 0 {
      TracksUpTo(c, states, ssrc, baseSecret, payloads, picked, arrived, results, n - 1);
      ArrivalStep(c, states, ssrc, baseSecret, payloads, picked, arrived, results, n - 1);
      assert SteadyAt(picked, n - 1);
    }
  }

  /** A steady arrival decrypts; a jump of two generations is refused. */
  lemma ArrivalStep(c: Crypto, states: seq<Session>, ssrc: uint32, baseSecret: bytes, payloads: seq<bytes>,
                    picked: seq<nat>, arrived: seq<bytes>, results: Answers, k: nat)
    requires Lawful(c) && |payloads| <= MAX_NONCE && Arrivals(picked, |payloads|) && k < |picked|
    requires Arrived(c, baseSecret, payloads, picked, arrived)
    requires Receives(c, states, ssrc, arrived, results)
    requires Tracking(c, states[k], ssrc, baseSecret, ArrivalNonce(picked, k))
    ensures SteadyAt(picked, k) ==>
              results[k] == Ok(payloads[picked[k]])
              && Tracking(c, states[k + 1], ssrc, baseSecret, ArrivalNonce(picked, k + 1))
    ensures !SteadyAt(picked, k) ==> results[k] == Err(BadGeneration)
  {
    assert ArrivalNonce(picked, k) < picked[k] + 1 by {
      assert k > 0 ==> picked[k - 1] < picked[k - 1 + 1];
    }
    assert DecryptFrame(c, states[k], ssrc, arrived[k]) == (states[k + 1], results[k]);
    DecryptInOrder(c, states[k], ssrc, baseSecret, ArrivalNonce(picked, k), picked[k] + 1, payloads[picked[k]]);
  }

  /** The first arrival that jumps, if there is one. */
  lemma {:induction false} FirstJump(picked: seq<nat>, n: nat) returns (k: nat)
    requires Arrivals(picked, MAX_NONCE) && n <= |picked|
    ensures k <= n && (forall j | 0 <= j < k :: SteadyAt(picked, j))
    ensures k < n ==> !SteadyAt(picked, k)
  {
    if n == 0 {
      k := 0;
    } else {
      k := FirstJump(picked, n - 1);
      if k == n - 1 && SteadyAt(picked, n - 1) {
        k := n;
      }
    }
  }

  /**
   Whatever increasing selection of a sender's frames reaches a listening receiver, all of them decrypt to their
   payloads exactly when consecutive ones are never two generations apart.
   */
  lemma EndToEnd(c: Crypto, baseSecret: bytes, payloads: seq<bytes>, senders: seq<Session>, frames: Answers,
                 picked: seq<nat>, arrived: seq<bytes>, ssrc: uint32, receivers: seq<Session>, results: Answers)
    requires Lawful(c) && |payloads| <= MAX_NONCE && Arrivals(picked, |payloads|)
    requires Sends(c, senders, payloads, frames) && SentUpTo(c, senders[0], baseSecret, 0)
    requires |arrived| == |picked| && forall k | 0 <= k < |picked| :: frames[picked[k]] == Ok(arrived[k])
    requires Receives(c, receivers, ssrc, arrived, results) && Listening(c, receivers[0], ssrc, baseSecret)
    ensures (forall k | 0 <= k < |picked| :: results[k] == Ok(payloads[picked[k]])) <==> Steady(picked)
  {
    SentFrames(c, senders, payloads, frames, baseSecret, |payloads|);
    assert Arrived(c, baseSecret, payloads, picked, arrived);
    var k := FirstJump(picked, |picked|);
    TracksUpTo(c, receivers, ssrc, baseSecret, payloads, picked, arrived, results, k);
    if k < |picked| {
      ArrivalStep(c, receivers, ssrc, baseSecret, payloads, picked, arrived, results, k);
    }
  }

  /** Every payload sequence has such frames: below the last nonce an active sender never fails. */
  lemma SendersNeverFail(c: Crypto, baseSecret: bytes, payloads: seq<bytes>, senders: seq<Session>, frames: Answers)
    requires Lawful(c) && |payloads| <= MAX_NONCE
    requires Sends(c, senders, payloads, frames) && SentUpTo(c, senders[0], baseSecret, 0)
    ensures forall i | 0 <= i < |payloads| :: frames[i].Ok?
  {
    SentFrames(c, senders, payloads, frames, baseSecret, |payloads|);
  }

  // ---- Any order, with duplicates ------------------------------------------------------------

  /** The highest of some nonces; 0 of none. */
  function Highest(history: seq<uint32>): (h: uint32)
    ensures forall n | n in history :: n <= h
    ensures history != [] ==> h in history
  {
    if history == [] then 0
    else
      var rest, last := Highest(history[..|history| - 1]), history[|history| - 1];
      assert history == history[..|history| - 1] + [last];
      if last > rest || |history| == 1 then last else rest
  }

  /** New, not 64 or more behind, and of the generation of the highest nonce accepted or the next one. */
  predicate Admissible(history: seq<uint32>, nonce: uint32) {
    && nonce !in history && Highest(history) < nonce + WINDOW
    && Generation(Highest(history)) <= Generation(nonce) <= Generation(Highest(history)) + 1
  }

  /** The receiver has accepted these nonces and is on the ratchet key of the highest one. */
  ghost predicate Knows(c: Crypto, r: Recv, baseSecret: bytes, history: seq<uint32>) {
    && Refines(r, history)
    && r.baseSecret == baseSecret && r.key == RatchetKey(c, baseSecret, r.currentGeneration)
    && r.currentGeneration == Generation(Highest(history))
  }

  lemma KnownHighest(r: Recv, history: seq<uint32>)
    requires Refines(r, history) && history != []
    ensures r.hasNonce && r.highestNonce == Highest(history)
  {
    assert r.highestNonce in history && Highest(history) in history;
  }

  /** A genuine frame decrypts exactly when its nonce is admissible; a refused one leaves the receiver as it was. */
  lemma ReceiveAnyOrder(c: Crypto, r: Recv, baseSecret: bytes, history: seq<uint32>, nonce: uint32, payload: bytes, p: Parsed)
    requires Lawful(c) && Knows(c, r, baseSecret, history)
    requires ParseSecureFrame(FrameFor(c, baseSecret, nonce, payload)) == Ok(p)
    ensures var (r', result) := Receive(c, r, p);
            if Admissible(history, nonce)
            then result == Ok(payload) && Knows(c, r', baseSecret, history + [nonce])
            else result.Err? && r' == r
  {
    hide Refines, FrameFor, EncryptSecureFrame, ParseSecureFrame, DecryptSecureFrame;
    var key := RatchetKey(c, baseSecret, Generation(nonce));
    GenuineFrame(c, baseSecret, nonce, payload, p);
    RefusedExactly(r, history, nonce);
    if history != [] {
      KnownHighest(r, history);
    }
    var (r', result) := Receive(c, r, p);
    if Admissible(history, nonce) {
      ReceiveRefines(c, r, history, p);
      HighestNext(history, nonce);
    }
  }

  /** What the parser makes of a genuine frame decrypts under the key of its generation. */
  lemma GenuineFrame(c: Crypto, baseSecret: bytes, nonce: uint32, payload: bytes, p: Parsed)
    requires Lawful(c) && ParseSecureFrame(FrameFor(c, baseSecret, nonce, payload)) == Ok(p)
    ensures p.nonce == nonce && DecryptSecureFrame(c, RatchetKey(c, baseSecret, Generation(nonce)), p) == Ok(payload)
  {
    var key := RatchetKey(c, baseSecret, Generation(nonce));
    EncryptedFrameParses(c, key, nonce, payload);
    ParseIsInverseOfFrame(FrameFor(c, baseSecret, nonce, payload), p);
    DecryptInvertsEncrypt(c, key, p, payload);
  }

  lemma HighestNext(history: seq<uint32>, nonce: uint32)
    requires Admissible(history, nonce)
    ensures Generation(Highest(history + [nonce])) == Generation(nonce)
  {
    assert (history + [nonce])[..|history|] == history;
  }

  /** The nonces accepted of those that arrive, in order of arrival. */
  function Accepted(nonces: seq<uint32>): seq<uint32> {
    if nonces == [] then []
    else
      var rest, last := Accepted(nonces[..|nonces| - 1]), nonces[|nonces| - 1];
      if Admissible(rest, last) then rest + [last] else rest
  }

  /** The session's receiver for a stream, or the one it would make, knows these nonces. */
  ghost predicate StreamKnows(c: Crypto, s: Session, ssrc: uint32, baseSecret: bytes, history: seq<uint32>) {
    s.sender.active
    && if ssrc in s.receivers then Knows(c, s.receivers[ssrc], baseSecret, history)
       else history == [] && Listening(c, s, ssrc, baseSecret)
  }

  lemma NewReceiverKnows(c: Crypto, baseSecret: bytes)
    ensures Knows(c, NewRecv(c, baseSecret), baseSecret, [])
  {
    FreshRefines(c, baseSecret);
  }

  lemma DecryptAnyOrder(c: Crypto, s: Session, ssrc: uint32, baseSecret: bytes, history: seq<uint32>, nonce: uint32,
                        payload: bytes)
    requires Lawful(c) && StreamKnows(c, s, ssrc, baseSecret, history)
    ensures var (s', result) := DecryptFrame(c, s, ssrc, FrameFor(c, baseSecret, nonce, payload));
            && StreamKnows(c, s', ssrc, baseSecret, if Admissible(history, nonce) then history + [nonce] else history)
            && (if Admissible(history, nonce) then result == Ok(payload) else result.Err?)
  {
    hide Knows, Admissible, Receive, ParseSecureFrame, EncryptSecureFrame;
    var data := FrameFor(c, baseSecret, nonce, payload);
    EncryptedFrameParses(c, RatchetKey(c, baseSecret, Generation(nonce)), nonce, payload);
    var p := ParseSecureFrame(data).value;
    NewReceiverKnows(c, baseSecret);
    var (s1, err) := FindReceiver(c, s, ssrc);
    assert err.None? && Knows(c, s1.receivers[ssrc], baseSecret, history);
    ReceiveAnyOrder(c, s1.receivers[ssrc], baseSecret, history, nonce, payload, p);
    assert DecryptFrame(c, s, ssrc, data) == Deliver(c, s, ssrc, p);
  }

  /**
   Whatever genuine frames reach a listening receiver, in any order and any number of times: each decrypts to its
   payload exactly when its nonce is admissible after those accepted before it.
   */
  lemma {:induction false} AnyOrder(c: Crypto, baseSecret: bytes, ssrc: uint32, nonces: seq<uint32>, payloads: seq<bytes>,
                                    arrived: seq<bytes>, states: seq<Session>, results: Answers, n: nat)
    requires Lawful(c) && |payloads| == |arrived| == |nonces| && n <= |nonces|
    requires forall k | 0 <= k < |nonces| :: arrived[k] == FrameFor(c, baseSecret, nonces[k], payloads[k])
    requires Receives(c, states, ssrc, arrived, results) && StreamKnows(c, states[0], ssrc, baseSecret, [])
    ensures StreamKnows(c, states[n], ssrc, baseSecret, Accepted(nonces[..n]))
    ensures forall k | 0 <= k < n ::
              if Admissible(Accepted(nonces[..k]), nonces[k]) then results[k] == Ok(payloads[k]) else results[k].Err?
  {
    hide StreamKnows, Admissible, DecryptFrame, FrameFor;
    if n > 0 {
      var m := n - 1;
      AnyOrder(c, baseSecret, ssrc, nonces, payloads, arrived, states, results, m);
      assert DecryptFrame(c, states[m], ssrc, arrived[m]) == (states[n], results[m]);
      DecryptAnyOrder(c, states[m], ssrc, baseSecret, Accepted(nonces[..m]), nonces[m], payloads[m]);
      assert nonces[..n][..m] == nonces[..m];
    }
  }

  // ---- Frames that are not genuine -------------------------------------------------------------

  /** A refused frame changes the receiver exactly when it is no replay and claims the next generation. */
  lemma RefusedFrameMovesExactly(c: Crypto, r: Recv, p: Parsed)
    requires Lawful(c) && Receive(c, r, p).1.Err?
    ensures Receive(c, r, p).0 != r <==> !IsReplay(r, p.nonce) && Generation(p.nonce) == r.currentGeneration + 1
  {
  }

  /** No frame moves a receiver back. */
  lemma {:induction false} GenerationsRise(c: Crypto, r: Recv, frames: seq<Parsed>)
    requires Lawful(c)
    ensures Stream(c, r, frames).0.currentGeneration >= r.currentGeneration
  {
    if frames != [] {
      GenerationsRise(c, r, frames[..|frames| - 1]);
    }
  }

  /** From then on, whatever else arrives, every frame of the generation it was on is refused, genuine or not. */
  lemma MovedReceiverLeavesGeneration(c: Crypto, r: Recv, p: Parsed, later: seq<Parsed>, q: Parsed)
    requires Lawful(c) && Receive(c, r, p).1.Err? && Receive(c, r, p).0 != r
    requires Generation(q.nonce) == r.currentGeneration
    ensures Receive(c, Stream(c, Receive(c, r, p).0, later).0, q).1.Err?
  {
    GenerationsRise(c, Receive(c, r, p).0, later);
  }
}
