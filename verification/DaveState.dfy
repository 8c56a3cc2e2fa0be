/**
 The DAVE session as a value, and one function per session call (dave.go): MLS installs, the
 prepare/execute transition state machine, sender key derivation, and frame encryption and decryption.
 The MLS group is reduced to a count of successful installs and whether the last one still stands; what the
 MLS library answers is a parameter of each call.
 */
module DaveState {
  import opened Base
  import opened SecureFrames
  import opened DaveReceiver

  const MAX_NONCE: uint32 := 0xFFFF_FFFF

  /** install counts successful Welcomes and Commits; the exporter works only while established. */
  datatype Group = Group(install: nat, established: bool)

  /** How a group reset ends: refused before it starts, failed half-way, or completed. */
  datatype ResetOutcome = Refused | Broken | Done

  /** The sending half: the current key and cipher, the last nonce used, and whether a newer MLS key is waiting. */
  datatype Sender = Sender(
    senderKey: Option<bytes>,
    senderNonce: uint32,
    frameCipher: Option<bytes>,
    active: bool,
    ratchetBaseSecret: Option<bytes>,
    currentGeneration: uint32,
    hasPendingKey: bool)

  const NO_SENDER := Sender(None, 0, None, false, None, 0, false)

  /** A prepared transition: its ID, the protocol version it moves to, and whether it is outstanding. */
  datatype Pending = Pending(transitionID: uint16, version: int, outstanding: bool)

  const NO_PENDING := Pending(0, 0, false)

  datatype Session = Session(
    epoch: uint64,
    pending: Pending,
    lastTransition: Option<uint16>,
    sender: Sender,
    receivers: map<uint32, Recv>,
    userID: string,
    ssrcToUserID: map<uint32, string>,
    groupID: Option<uint64>,
    protocolVersion: int,
    group: Option<Group>)

  function NewSession(userID: string, groupWorks: bool): Session {
    Session(0, NO_PENDING, None, NO_SENDER, map[], userID, map[], None, 0,
            if ParseUint64(userID).Some? && groupWorks then Some(Group(0, false)) else None)
  }

  function ClearMedia(s: Session): Session {
    s.(sender := NO_SENDER, receivers := map[])
  }

  function ClearPending(s: Session): Session {
    s.(pending := NO_PENDING)
  }

  const DAVE_VERSION := 1

  /** A reset to any other version than DAVE's is refused; otherwise the MLS library answers. */
  function ResetEnds(version: int, outcome: ResetOutcome): ResetOutcome {
    if version != DAVE_VERSION then Refused else outcome
  }

  function ResetGroup(g: Group, outcome: ResetOutcome): Group {
    if outcome.Refused? then g else g.(established := false)
  }

  function Configure(s: Session, groupID: string, version: int, outcome: ResetOutcome): (Session, Option<DaveError>) {
    if s.group.None? then (s, Some(GroupUnavailable))
    else if ParseUint64(groupID).None? then (s, Some(BadChannelID))
    else
      var end := ResetEnds(version, outcome);
      var s1 := s.(groupID := ParseUint64(groupID), protocolVersion := version,
                   group := Some(ResetGroup(s.group.value, end)));
      if end.Done? then (ClearPending(ClearMedia(s1)), None) else (s1, Some(GroupFailure))
  }

  function ResetForReWelcome(s: Session, outcome: ResetOutcome, keyPackage: Option<bytes>)
    : (Session, Result<bytes, DaveError>)
  {
    if s.group.None? then (s, Err(GroupUnavailable))
    else if s.groupID.None? then (s, Err(NotConfigured))
    else
      var end := ResetEnds(s.protocolVersion, outcome);
      var s1 := s.(group := Some(ResetGroup(s.group.value, end)));
      if end.Done? then (ClearPending(ClearMedia(s1)), KeyPackage(keyPackage)) else (s1, Err(GroupFailure))
  }

  function KeyPackage(keyPackage: Option<bytes>): Result<bytes, DaveError> {
    if keyPackage.Some? then Ok(keyPackage.value) else Err(GroupFailure)
  }

  /** A Welcome installs a new key schedule only into a group that is not established. */
  function HandleWelcome(s: Session, accepted: bool, epoch: uint64): (Session, Option<DaveError>) {
    if s.group.None? then (s, Some(GroupUnavailable))
    else if !accepted || s.group.value.established then (s, Some(GroupFailure))
    else (Installed(s, epoch), None)
  }

  function HandleCommit(s: Session, accepted: bool, epoch: uint64): (Session, Option<DaveError>) {
    if s.group.None? then (s, Some(GroupUnavailable))
    else if !accepted then (s, Some(GroupFailure))
    else (Installed(s, epoch), None)
  }

  function Installed(s: Session, epoch: uint64): Session
    requires s.group.Some?
  {
    s.(group := Some(Group(s.group.value.install + 1, true)), epoch := epoch,
       sender := s.sender.(hasPendingKey := true), receivers := map[])
  }

  function HandlePrepareTransition(s: Session, transitionID: uint16, version: int): (Session, Option<DaveError>) {
    if version != 0 && version != 1 then (s, Some(UnsupportedVersion))
    else if s.lastTransition == Some(transitionID) then (s, Some(AlreadyExecuted))
    else if s.pending.outstanding && transitionID != s.pending.transitionID then (s, Some(AlreadyPending))
    else if version > 0 && !s.sender.hasPendingKey then (s, Some(NoPendingEpoch))
    else (s.(pending := Pending(transitionID, version, true)), None)
  }

  function HandleExecuteTransition(c: Crypto, s: Session, transitionID: uint16): (Session, Option<DaveError>) {
    if !s.pending.outstanding || transitionID != s.pending.transitionID then (s, Some(UnexpectedTransition))
    else if s.pending.version > 0 then
      if !s.sender.hasPendingKey then (s, Some(NoPendingKey))
      else
        var (s1, err) := DeriveSenderKey(c, s);
        if err.Some? then (s1, err)
        else (Executed(s1.(sender := s1.sender.(hasPendingKey := false, active := true)), transitionID), None)
    else (Executed(ClearMedia(s), transitionID), None)
  }

  function Executed(s: Session, transitionID: uint16): Session {
    s.(protocolVersion := s.pending.version, pending := s.pending.(outstanding := false),
       lastTransition := Some(transitionID))
  }

  function HandlePrepareEpoch(s: Session, epoch: uint64, version: int, outcome: ResetOutcome, keyPackage: Option<bytes>)
    : (Session, Result<bytes, DaveError>)
    requires s.groupID.Some? ==> s.group.Some?
  {
    if epoch == 0 then (s, Err(ZeroEpoch))
    else if version != 0 && version != 1 then (s, Err(UnsupportedVersion))
    else
      var s1 := s.(epoch := epoch, protocolVersion := version);
      if epoch != 1 then (s1, Ok([]))
      else if version == 0 then (ClearPending(ClearMedia(s1)), Ok([]))
      else if s.groupID.None? then (s1, Err(NotConfigured))
      else
        var end := ResetEnds(version, outcome);
        var s2 := s1.(group := Some(ResetGroup(s1.group.value, end)));
        if end.Done? then (ClearPending(ClearMedia(s2)), KeyPackage(keyPackage)) else (s2, Err(GroupFailure))
  }

  /** The sender starts over at nonce 0 on the secret exported from the current install. */
  function DeriveSenderKey(c: Crypto, s: Session): (Session, Option<DaveError>) {
    if s.group.None? then (s, Some(GroupUnavailable))
    else if ParseUint64(s.userID).None? then (s, Some(BadUserID))
    else if !s.group.value.established then (s, Some(GroupFailure))
    else
      var baseSecret := c.exporter(s.group.value.install, ParseUint64(s.userID).value);
      var key := RatchetKey(c, baseSecret, 0);
      (s.(sender := s.sender.(ratchetBaseSecret := Some(baseSecret), currentGeneration := 0, senderNonce := 0,
                              senderKey := Some(key), frameCipher := Some(key))), None)
  }

  function EncryptFrame(c: Crypto, s: Session, opusData: bytes): (Session, Result<bytes, DaveError>)
    requires Lawful(c)
  {
    var m := s.sender;
    if !m.active then (s, Err(NotActive))
    else if m.frameCipher.None? then (s, Err(NoCipher))
    else if m.senderNonce == MAX_NONCE then (ClearMedia(s), Err(NonceExhausted))
    else
      var nonce := m.senderNonce + 1;
      var m1 := Ratchet(c, m.(senderNonce := nonce), Generation(nonce));
      (s.(sender := m1), Ok(EncryptSecureFrame(c, m1.frameCipher.value, nonce, opusData)))
  }

  /** The sender's cipher moves to the given generation if it is not there yet; a nil secret reads as empty. */
  function Ratchet(c: Crypto, m: Sender, generation: uint32): (r: Sender)
    requires m.frameCipher.Some?
    ensures r.frameCipher.Some?
  {
    if generation == m.currentGeneration then m
    else
      var secret := if m.ratchetBaseSecret.Some? then m.ratchetBaseSecret.value else [];
      var key := RatchetKey(c, secret, generation);
      m.(currentGeneration := generation, senderKey := Some(key), frameCipher := Some(key))
  }

  function SetSSRC(s: Session, ssrc: uint32, userID: string): Session {
    s.(ssrcToUserID := s.ssrcToUserID[ssrc := userID])
  }

  function DecryptFrame(c: Crypto, s: Session, ssrc: uint32, data: bytes): (Session, Result<bytes, DaveError>)
    requires Lawful(c)
  {
    if !s.sender.active then (s, Ok(data))
    else
      match ParseSecureFrame(data)
      case Err(NotDave) => (s, Err(Unencrypted))
      case Err(e) => (s, Err(BadFrame(e)))
      case Ok(p) => Deliver(c, s, ssrc, p)
  }

  /** A parsed frame goes to its stream's receiver. */
  function Deliver(c: Crypto, s: Session, ssrc: uint32, p: Parsed): (Session, Result<bytes, DaveError>)
    requires Lawful(c)
  {
    var (s1, err) := FindReceiver(c, s, ssrc);
    if err.Some? then (s1, Err(err.value))
    else
      var (recv, result) := Receive(c, s1.receivers[ssrc], p);
      (WithReceiver(s1, ssrc, recv), result)
  }

  function WithReceiver(s: Session, ssrc: uint32, recv: Recv): Session {
    s.(receivers := s.receivers[ssrc := recv])
  }

  /** The receiver of a stream is in place afterwards, created on first use from the current install. */
  function FindReceiver(c: Crypto, s: Session, ssrc: uint32): (r: (Session, Option<DaveError>))
    ensures r.1.None? ==> ssrc in r.0.receivers
  {
    if ssrc in s.receivers then (s, None)
    else if ssrc !in s.ssrcToUserID then (s, Some(UnknownSSRC))
    else if s.group.None? then (s, Some(GroupUnavailable))
    else if ParseUint64(s.ssrcToUserID[ssrc]).None? then (s, Some(BadUserID))
    else if !s.group.value.established then (s, Some(GroupFailure))
    else
      var baseSecret := c.exporter(s.group.value.install, ParseUint64(s.ssrcToUserID[ssrc]).value);
      (WithReceiver(s, ssrc, NewRecv(c, baseSecret)), None)
  }

  function Reset(s: Session): Session {
    ClearPending(ClearMedia(s)).(lastTransition := None, ssrcToUserID := map[])
  }
}
