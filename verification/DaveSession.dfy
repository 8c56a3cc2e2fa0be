/** The DAVE session object (DAVESession in dave.go). Every method does what its function in DaveState says. */
module DaveSession {
  import opened Base
  import opened SecureFrames
  import opened DaveReceiver
  import S = DaveState

  class DAVESession {
    const c: Crypto

    var epoch: uint64
    var pending: S.Pending
    var lastTransition: Option<uint16>

    var sender: S.Sender
    const userID: string

    var ssrcToUserID: map<uint32, string>
    var receivers: map<uint32, Receiver>
    ghost var streams: map<uint32, Recv> // what the receivers hold

    var groupID: Option<uint64>
    var protocolVersion: int
    var group: Option<S.Group>

    ghost predicate Valid()
      reads this, receivers.Values
    {
      && (groupID.Some? ==> group.Some?)
      && streams.Keys == receivers.Keys
      && (forall k | k in receivers :: receivers[k].View() == streams[k])
      && (forall a, b | a in receivers && b in receivers && a != b :: receivers[a] != receivers[b])
    }

    ghost function View(): S.Session
      reads this
    {
      S.Session(epoch, pending, lastTransition, sender, streams, userID, ssrcToUserID, groupID, protocolVersion, group)
    }

    constructor (c: Crypto, userID: string, groupWorks: bool)
      ensures Valid() && View() == S.NewSession(userID, groupWorks)
    {
      this.c := c;
      epoch, pending, lastTransition := 0, S.NO_PENDING, None;
      sender := S.NO_SENDER;
      this.userID := userID;
      ssrcToUserID, receivers, streams := map[], map[], map[];
      groupID, protocolVersion := None, 0;
      group := if ParseUint64(userID).Some? && groupWorks then Some(S.Group(0, false)) else None;
    }

    method ClearMediaState()
      requires Valid()
      modifies `sender, `receivers, `streams
      ensures Valid() && sender == S.NO_SENDER && receivers == map[] && streams == map[]
    {
      sender := S.NO_SENDER;
      receivers, streams := map[], map[];
    }

    method ClearPendingTransition()
      modifies `pending
      ensures pending == S.NO_PENDING
    {
      pending := S.NO_PENDING;
    }

    method Configure(channel: string, version: int, outcome: S.ResetOutcome) returns (err: Option<DaveError>)
      requires Valid()
      modifies this
      ensures Valid() && (View(), err) == S.Configure(old(View()), channel, version, outcome)
    {
      if group.None? {
        return Some(GroupUnavailable);
      }
      var groupIDNum := ParseUint64(channel);
      if groupIDNum.None? {
        return Some(BadChannelID);
      }
      groupID := groupIDNum;
      protocolVersion := version;
      var end := S.ResetEnds(version, outcome);
      group := Some(S.ResetGroup(group.value, end));
      if !end.Done? {
        return Some(GroupFailure);
      }
      ClearMediaState();
      ClearPendingTransition();
      return None;
    }

    method ResetForReWelcome(outcome: S.ResetOutcome, keyPackage: Option<bytes>) returns (r: Result<bytes, DaveError>)
      requires Valid()
      modifies this
      ensures Valid() && (View(), r) == S.ResetForReWelcome(old(View()), outcome, keyPackage)
    {
      if group.None? {
        return Err(GroupUnavailable);
      }
      if groupID.None? {
        return Err(NotConfigured);
      }
      var end := S.ResetEnds(protocolVersion, outcome);
      group := Some(S.ResetGroup(group.value, end));
      if !end.Done? {
        return Err(GroupFailure);
      }
      ClearMediaState();
      ClearPendingTransition();
      return S.KeyPackage(keyPackage);
    }

    method HandleWelcome(accepted: bool, newEpoch: uint64) returns (err: Option<DaveError>)
      requires Valid()
      modifies this
      ensures Valid() && (View(), err) == S.HandleWelcome(old(View()), accepted, newEpoch)
    {
      if group.None? {
        return Some(GroupUnavailable);
      }
      if !accepted || group.value.established {
        return Some(GroupFailure);
      }
      group := Some(S.Group(group.value.install + 1, true));
      epoch := newEpoch;
      sender := sender.(hasPendingKey := true);
      receivers, streams := map[], map[];
      return None;
    }

    method HandleCommit(accepted: bool, newEpoch: uint64) returns (err: Option<DaveError>)
      requires Valid()
      modifies this
      ensures Valid() && (View(), err) == S.HandleCommit(old(View()), accepted, newEpoch)
    {
      if group.None? {
        return Some(GroupUnavailable);
      }
      if !accepted {
        return Some(GroupFailure);
      }
      group := Some(S.Group(group.value.install + 1, true));
      epoch := newEpoch;
      sender := sender.(hasPendingKey := true);
      receivers, streams := map[], map[];
      return None;
    }

    method HandlePrepareTransition(transitionID: uint16, version: int) returns (err: Option<DaveError>)
      requires Valid()
      modifies this
      ensures Valid() && (View(), err) == S.HandlePrepareTransition(old(View()), transitionID, version)
    {
      if version != 0 && version != 1 {
        return Some(UnsupportedVersion);
      }
      if lastTransition == Some(transitionID) {
        return Some(AlreadyExecuted);
      }
      if pending.outstanding && transitionID != pending.transitionID {
        return Some(AlreadyPending);
      }
      if version > 0 && !sender.hasPendingKey {
        return Some(NoPendingEpoch);
      }
      pending := S.Pending(transitionID, version, true);
      return None;
    }

    method HandleExecuteTransition(transitionID: uint16) returns (err: Option<DaveError>)
      requires Valid()
      modifies this
      ensures Valid() && (View(), err) == S.HandleExecuteTransition(c, old(View()), transitionID)
    {
      if !pending.outstanding || transitionID != pending.transitionID {
        return Some(UnexpectedTransition);
      }
      if pending.version > 0 {
        if !sender.hasPendingKey {
          return Some(NoPendingKey);
        }
        err := DeriveSenderKey();
        if err.Some? {
          return;
        }
        sender := sender.(hasPendingKey := false, active := true);
      } else {
        ClearMediaState();
      }
      protocolVersion := pending.version;
      pending := pending.(outstanding := false);
      lastTransition := Some(transitionID);
      return None;
    }

    method HandlePrepareEpoch(newEpoch: uint64, version: int, outcome: S.ResetOutcome, keyPackage: Option<bytes>)
      returns (r: Result<bytes, DaveError>)
      requires Valid()
      modifies this
      ensures Valid() && (View(), r) == S.HandlePrepareEpoch(old(View()), newEpoch, version, outcome, keyPackage)
    {
      if newEpoch == 0 {
        return Err(ZeroEpoch);
      }
      if version != 0 && version != 1 {
        return Err(UnsupportedVersion);
      }
      epoch := newEpoch;
      protocolVersion := version;
      if newEpoch != 1 {
        return Ok([]);
      }
      if version == 0 {
        ClearMediaState();
        ClearPendingTransition();
        return Ok([]);
      }
      if groupID.None? {
        return Err(NotConfigured);
      }
      var end := S.ResetEnds(version, outcome);
      group := Some(S.ResetGroup(group.value, end));
      if !end.Done? {
        return Err(GroupFailure);
      }
      ClearMediaState();
      ClearPendingTransition();
      return S.KeyPackage(keyPackage);
    }

    method DeriveSenderKey() returns (err: Option<DaveError>)
      requires Valid()
      modifies this
      ensures Valid() && (View(), err) == S.DeriveSenderKey(c, old(View()))
    {
      if group.None? {
        return Some(GroupUnavailable);
      }
      var userIDNum := ParseUint64(userID);
      if userIDNum.None? {
        return Some(BadUserID);
      }
      if !group.value.established {
        return Some(GroupFailure);
      }
      var baseSecret := c.exporter(group.value.install, userIDNum.value);
      sender := sender.(ratchetBaseSecret := Some(baseSecret), currentGeneration := 0, senderNonce := 0);
      var key := HashRatchetGetKey(c, baseSecret, 0);
      sender := sender.(senderKey := Some(key), frameCipher := Some(key));
      return None;
    }

    method EncryptFrame(opusData: bytes) returns (r: Result<bytes, DaveError>)
      requires Valid() && Lawful(c)
      modifies this
      ensures Valid() && (View(), r) == S.EncryptFrame(c, old(View()), opusData)
    {
      if !sender.active {
        return Err(NotActive);
      }
      if sender.frameCipher.None? {
        return Err(NoCipher);
      }
      if sender.senderNonce == S.MAX_NONCE {
        ClearMediaState();
        return Err(NonceExhausted);
      }
      sender := sender.(senderNonce := sender.senderNonce + 1);
      var generation := Generation(sender.senderNonce);
      if generation != sender.currentGeneration {
        var secret := if sender.ratchetBaseSecret.Some? then sender.ratchetBaseSecret.value else [];
        var key := HashRatchetGetKey(c, secret, generation);
        sender := sender.(currentGeneration := generation, senderKey := Some(key), frameCipher := Some(key));
      }
      return Ok(EncryptSecureFrame(c, sender.frameCipher.value, sender.senderNonce, opusData));
    }

    method SetSSRC(ssrc: uint32, user: string)
      requires Valid()
      modifies this
      ensures Valid() && View() == S.SetSSRC(old(View()), ssrc, user)
    {
      ssrcToUserID := ssrcToUserID[ssrc := user];
    }

    method DecryptFrame(ssrc: uint32, data: bytes) returns (r: Result<bytes, DaveError>)
      requires Valid() && Lawful(c)
      modifies this, receivers.Values
      ensures Valid() && (View(), r) == S.DecryptFrame(c, old(View()), ssrc, data)
    {
      if !sender.active {
        return Ok(data);
      }
      var parsed := ParseSecureFrame(data);
      if parsed == Err(NotDave) {
        return Err(Unencrypted);
      }
      if parsed.Err? {
        return Err(BadFrame(parsed.error));
      }
      r := Deliver(ssrc, parsed.value);
    }

    /** The rest of DecryptFrame: find or make the stream's receiver, and let it decrypt. */
    method Deliver(ssrc: uint32, p: Parsed) returns (r: Result<bytes, DaveError>)
      requires Valid() && Lawful(c)
      modifies this, receivers.Values
      ensures Valid() && (View(), r) == S.Deliver(c, old(View()), ssrc, p)
    {
      var err := FindReceiver(ssrc);
      if err.Some? {
        return Err(err.value);
      }
      r := Decrypt(ssrc, p);
    }

    /** Decryption by the stream's receiver, which no other stream shares. */
    method Decrypt(ssrc: uint32, p: Parsed) returns (r: Result<bytes, DaveError>)
      requires Valid() && Lawful(c) && ssrc in receivers
      modifies `streams, receivers[ssrc]
      ensures Valid() && View() == S.WithReceiver(old(View()), ssrc, Receive(c, old(streams[ssrc]), p).0)
      ensures r == Receive(c, old(streams[ssrc]), p).1
    {
      r := receivers[ssrc].Decrypt(c, p);
      streams := streams[ssrc := receivers[ssrc].View()];
    }

    /** The stream's receiver is in place afterwards, made by createReceiverLocked on first use. */
    method FindReceiver(ssrc: uint32) returns (err: Option<DaveError>)
      requires Valid()
      modifies `receivers, `streams
      ensures Valid() && (View(), err) == S.FindReceiver(c, old(View()), ssrc)
      ensures forall k | k in receivers :: receivers[k] in old(receivers.Values) || fresh(receivers[k])
    {
      if ssrc in receivers {
        return None;
      }
      if ssrc !in ssrcToUserID {
        return Some(UnknownSSRC);
      }
      if group.None? {
        return Some(GroupUnavailable);
      }
      var userIDNum := ParseUint64(ssrcToUserID[ssrc]);
      if userIDNum.None? {
        return Some(BadUserID);
      }
      if !group.value.established {
        return Some(GroupFailure);
      }
      var recv := new Receiver(c, c.exporter(group.value.install, userIDNum.value));
      receivers, streams := receivers[ssrc := recv], streams[ssrc := recv.View()];
      return None;
    }

    method Reset()
      requires Valid()
      modifies this
      ensures Valid() && View() == S.Reset(old(View()))
    {
      ClearMediaState();
      ClearPendingTransition();
      lastTransition := None;
      ssrcToUserID := map[];
    }
  }
}
