/**
 What each session call (dave.go) takes and what it leaves behind, in terms a caller can see: exactly when it succeeds,
 and what the calls after it then do.
 */
module DaveTransitions {
  import opened Base
  import opened SecureFrames
  import opened DaveReceiver
  import opened DaveState

  /** Nothing is sent encrypted, no key waits, no stream has a receiver, and no transition is outstanding. */
  predicate Quiet(s: Session) {
    && !s.sender.active && s.sender.frameCipher == None && !s.sender.hasPendingKey && s.sender.senderNonce == 0
    && s.receivers == map[] && !s.pending.outstanding
  }

  /** A quiet session passes media through, refuses to encrypt, and has nothing to execute. */
  lemma QuietPassesThrough(c: Crypto, s: Session, ssrc: uint32, data: bytes, payload: bytes, id: uint16)
    requires Lawful(c) && Quiet(s)
    ensures EncryptFrame(c, s, payload) == (s, Err(NotActive))
    ensures DecryptFrame(c, s, ssrc, data) == (s, Ok(data))
    ensures HandleExecuteTransition(c, s, id) == (s, Some(UnexpectedTransition))
    ensures HandlePrepareTransition(s, id, 1).1 == Some(if s.lastTransition == Some(id) then AlreadyExecuted else NoPendingEpoch)
  {
  }

  /** A new session is quiet, and has a group if its user is numeric and the library makes one. */
  lemma StartsQuiet(userID: string, groupWorks: bool)
    ensures var s := NewSession(userID, groupWorks);
            && Quiet(s) && s.userID == userID && s.lastTransition == None && s.groupID == None && s.ssrcToUserID == map[]
            && s.group == if ParseUint64(userID).Some? && groupWorks then Some(Group(0, false)) else None
  {
  }

  // ---- Group resets ----------------------------------------------------------------------------

  /** Configure wants a group, a numeric channel and version 1; then the group starts over and the session is quiet. */
  lemma ConfigureExactly(s: Session, channel: string, version: int, outcome: ResetOutcome)
    ensures var (s', err) := Configure(s, channel, version, outcome);
            && (err == None <==> s.group.Some? && ParseUint64(channel).Some? && version == 1 && outcome == Done)
            && (err == Some(GroupUnavailable) <==> s.group == None)
            && (err == Some(BadChannelID) <==> s.group.Some? && ParseUint64(channel) == None)
            && (err == None ==>
                  && Quiet(s') && s'.groupID == ParseUint64(channel) && s'.protocolVersion == 1
                  && s'.group == Some(Group(s.group.value.install, false)))
            && (err.Some? ==> s'.sender == s.sender && s'.receivers == s.receivers && s'.pending == s.pending)
  {
  }

  lemma ReWelcomeExactly(s: Session, outcome: ResetOutcome, keyPackage: Option<bytes>)
    ensures var (s', r) := ResetForReWelcome(s, outcome, keyPackage);
            var resets := s.group.Some? && s.groupID.Some? && s.protocolVersion == 1 && outcome == Done;
            && (forall k :: r == Ok(k) <==> resets && keyPackage == Some(k))
            && (r == Err(GroupUnavailable) <==> s.group == None)
            && (r == Err(NotConfigured) <==> s.group.Some? && s.groupID == None)
            && (if resets then Quiet(s') && s'.group == Some(Group(s.group.value.install, false))
                else s'.sender == s.sender && s'.receivers == s.receivers && s'.pending == s.pending)
  {
  }

  /** Epoch 1 of version 1 resets the group, epoch 1 of version 0 silences the session, any other epoch is noted. */
  lemma EpochExactly(s: Session, epoch: uint64, version: int, outcome: ResetOutcome, keyPackage: Option<bytes>)
    requires s.groupID.Some? ==> s.group.Some?
    ensures var (s', r) := HandlePrepareEpoch(s, epoch, version, outcome, keyPackage);
            && (r == Err(ZeroEpoch) <==> epoch == 0)
            && (r == Err(UnsupportedVersion) <==> epoch != 0 && version !in {0, 1})
            && (r.Err? && r.error in {ZeroEpoch, UnsupportedVersion} ==> s' == s)
            && (epoch != 0 && version in {0, 1} ==>
                  && s'.epoch == epoch && s'.protocolVersion == version
                  && (epoch != 1 ==> r == Ok([]) && s' == s.(epoch := epoch, protocolVersion := version))
                  && (epoch == 1 && version == 0 ==> r == Ok([]) && Quiet(s') && s'.group == s.group)
                  && (epoch == 1 && version == 1 ==>
                        && (r == Err(NotConfigured) <==> s.groupID == None)
                        && (forall k :: r == Ok(k) <==> s.groupID.Some? && outcome == Done && keyPackage == Some(k))
                        && (s.groupID.Some? && outcome == Done ==>
                              Quiet(s') && s'.group == Some(Group(s.group.value.install, false)))))
  {
  }

  // ---- Installs --------------------------------------------------------------------------------

  /** A Welcome needs a group that is not established, a Commit any; each is then a new install that waits to be used. */
  lemma InstallExactly(s: Session, accepted: bool, epoch: uint64)
    ensures var (s', err) := HandleWelcome(s, accepted, epoch);
            && (err == None <==> s.group.Some? && accepted && !s.group.value.established)
            && (if err == None then NewInstall(s, s', epoch) else s' == s)
    ensures var (s', err) := HandleCommit(s, accepted, epoch);
            && (err == None <==> s.group.Some? && accepted)
            && (if err == None then NewInstall(s, s', epoch) else s' == s)
  {
  }

  /** The sender goes on with its key, the new one waits, and every receiver is gone. */
  predicate NewInstall(s: Session, s': Session, epoch: uint64) {
    && s.group.Some? && s'.group == Some(Group(s.group.value.install + 1, true)) && s'.epoch == epoch
    && s'.sender.hasPendingKey && s'.sender.(hasPendingKey := s.sender.hasPendingKey) == s.sender
    && s'.receivers == map[] && s'.pending == s.pending && s'.lastTransition == s.lastTransition
    && s'.ssrcToUserID == s.ssrcToUserID && s'.userID == s.userID
  }

  /** After an install every stream of a known user starts over, on that user's export of the new install. */
  lemma InstallRestartsReceivers(c: Crypto, s: Session, s': Session, epoch: uint64, ssrc: uint32)
    requires NewInstall(s, s', epoch) && ssrc in s.ssrcToUserID && ParseUint64(s.ssrcToUserID[ssrc]).Some?
    ensures var (s2, err) := FindReceiver(c, s', ssrc);
            var secret := c.exporter(s.group.value.install + 1, ParseUint64(s.ssrcToUserID[ssrc]).value);
            err == None && ssrc in s2.receivers && s2.receivers[ssrc] == Recv(secret, 0, RatchetKey(c, secret, 0), 0, 0, false)
  {
  }

  /** Exactly when a stream has a receiver, or can be given one. */
  lemma ReceiverExactly(c: Crypto, s: Session, ssrc: uint32)
    ensures FindReceiver(c, s, ssrc).1 == None <==>
              || ssrc in s.receivers
              || (ssrc in s.ssrcToUserID && s.group.Some? && s.group.value.established
                  && ParseUint64(s.ssrcToUserID[ssrc]).Some?)
    ensures FindReceiver(c, s, ssrc).1 == Some(UnknownSSRC) <==> ssrc !in s.receivers && ssrc !in s.ssrcToUserID
  {
  }

  // ---- Transitions -----------------------------------------------------------------------------

  /** Exactly when a transition is prepared; what is prepared is then outstanding, and nothing else changes. */
  lemma PrepareExactly(s: Session, id: uint16, version: int)
    ensures var (s', err) := HandlePrepareTransition(s, id, version);
            && (err == None <==>
                  && version in {0, 1} && s.lastTransition != Some(id)
                  && (s.pending.outstanding ==> s.pending.transitionID == id)
                  && (version == 1 ==> s.sender.hasPendingKey))
            && s' == (if err == None then s.(pending := Pending(id, version, true)) else s)
            && (err == Some(UnsupportedVersion) <==> version !in {0, 1})
            && (err == Some(AlreadyExecuted) <==> version in {0, 1} && s.lastTransition == Some(id))
  {
  }

  predicate CanExport(s: Session) {
    s.group.Some? && s.group.value.established && ParseUint64(s.userID).Some?
  }

  /** Exactly when a transition is executed: it is the outstanding one, and a keyed one has its key. */
  lemma ExecuteExactly(c: Crypto, s: Session, id: uint16)
    ensures var (s', err) := HandleExecuteTransition(c, s, id);
            && (err == None <==>
                  && s.pending.outstanding && s.pending.transitionID == id
                  && (s.pending.version > 0 ==> s.sender.hasPendingKey && CanExport(s)))
            && (err == None ==>
                  s'.lastTransition == Some(id) && !s'.pending.outstanding && s'.protocolVersion == s.pending.version)
            && (err.Some? ==> s' == s)
            && (err == Some(UnexpectedTransition) <==> !(s.pending.outstanding && s.pending.transitionID == id))
  {
  }

  /** A transition to version 0 ends all encryption: nothing is left of sender and receivers, and media passes through. */
  lemma PlainTransition(c: Crypto, s: Session, id: uint16, ssrc: uint32, data: bytes, payload: bytes)
    requires Lawful(c) && s.pending.version <= 0 && HandleExecuteTransition(c, s, id).1 == None
    ensures var s' := HandleExecuteTransition(c, s, id).0;
            && Quiet(s') && s'.group == s.group
            && EncryptFrame(c, s', payload) == (s', Err(NotActive)) && DecryptFrame(c, s', ssrc, data) == (s', Ok(data))
  {
  }

  /** A keyed transition uses up the waiting key: the next frame is the first under the export of the standing install. */
  lemma KeyedTransition(c: Crypto, s: Session, id: uint16, payload: bytes)
    requires Lawful(c) && s.pending.version > 0 && HandleExecuteTransition(c, s, id).1 == None
    ensures var s' := HandleExecuteTransition(c, s, id).0;
            var secret := c.exporter(s.group.value.install, ParseUint64(s.userID).value);
            && s'.sender.active && !s'.sender.hasPendingKey && s'.receivers == s.receivers
            && EncryptFrame(c, s', payload).1 == Ok(EncryptSecureFrame(c, RatchetKey(c, secret, 0), 1, payload))
  {
    assert Generation(1) == 0;
  }

  /** An executed transition is over: it is not executed or prepared again, and nothing is until another is prepared. */
  lemma ExecutedIsOver(c: Crypto, s: Session, id: uint16, other: uint16, version: int)
    requires HandleExecuteTransition(c, s, id).1 == None && version in {0, 1}
    ensures var s' := HandleExecuteTransition(c, s, id).0;
            && HandleExecuteTransition(c, s', other) == (s', Some(UnexpectedTransition))
            && HandlePrepareTransition(s', id, version) == (s', Some(AlreadyExecuted))
  {
  }

  /** An accepted Commit can always be followed through: its transition is prepared, executed, and sends under the new key. */
  lemma CommitFollowedThrough(c: Crypto, s: Session, epoch: uint64, id: uint16, payload: bytes)
    requires Lawful(c) && s.group.Some? && ParseUint64(s.userID).Some? && s.lastTransition != Some(id)
    requires s.pending.outstanding ==> s.pending.transitionID == id
    ensures var (s1, e1) := HandleCommit(s, true, epoch);
            var (s2, e2) := HandlePrepareTransition(s1, id, 1);
            var (s3, e3) := HandleExecuteTransition(c, s2, id);
            var secret := c.exporter(s.group.value.install + 1, ParseUint64(s.userID).value);
            && e1 == e2 == e3 == None
            && EncryptFrame(c, s3, payload).1 == Ok(EncryptSecureFrame(c, RatchetKey(c, secret, 0), 1, payload))
  {
    var s2 := HandlePrepareTransition(HandleCommit(s, true, epoch).0, id, 1).0;
    ExecuteExactly(c, s2, id);
    KeyedTransition(c, s2, id, payload);
  }

  // ---- Media -----------------------------------------------------------------------------------

  /** Exactly when a frame is encrypted, and why not. */
  lemma EncryptExactly(c: Crypto, s: Session, payload: bytes)
    requires Lawful(c)
    ensures var (s', r) := EncryptFrame(c, s, payload);
            var m := s.sender;
            && (r.Ok? <==> m.active && m.frameCipher.Some? && m.senderNonce < 0xFFFF_FFFF)
            && (r == Err(NotActive) <==> !m.active)
            && (r == Err(NonceExhausted) <==> m.active && m.frameCipher.Some? && m.senderNonce == 0xFFFF_FFFF)
            && (r.Ok? ==> s'.sender.senderNonce == m.senderNonce + 1 && s'.sender.hasPendingKey == m.hasPendingKey)
            && (r == Err(NonceExhausted) ==>
                  !s'.sender.active && s'.sender.frameCipher == None && s'.receivers == map[] && s'.pending == s.pending)
  {
  }

  /** What an active session makes of data that is no frame, of a malformed frame, and of one it knows no user for. */
  lemma DecryptRefusals(c: Crypto, s: Session, ssrc: uint32, data: bytes)
    requires Lawful(c) && s.sender.active
    ensures var (s', r) := DecryptFrame(c, s, ssrc, data);
            var p := ParseSecureFrame(data);
            && (p == Err(NotDave) ==> r == Err(Unencrypted) && s' == s)
            && (p.Err? && p.error != NotDave ==> r == Err(BadFrame(p.error)) && s' == s)
            && (p.Ok? && ssrc !in s.receivers && ssrc !in s.ssrcToUserID ==> r == Err(UnknownSSRC) && s' == s)
            && (r.Ok? ==> p.Ok? && ssrc in s'.receivers && s'.sender == s.sender)
  {
  }

  /** Exactly when the sender starts over; the waiting flag and the activity are left alone. */
  lemma DeriveExactly(c: Crypto, s: Session)
    ensures var (s', err) := DeriveSenderKey(c, s);
            && (err == None <==> CanExport(s))
            && (err.Some? ==> s' == s)
            && (err == None ==>
                  && s'.sender.senderNonce == 0 && s'.sender.active == s.sender.active
                  && s'.sender.hasPendingKey == s.sender.hasPendingKey && s'.receivers == s.receivers)
  {
  }

  /** A reset silences the session and forgets streams and the last transition, but keeps the group. */
  lemma ResetForgets(s: Session)
    ensures var s' := Reset(s);
            && Quiet(s') && s'.lastTransition == None && s'.ssrcToUserID == map[]
            && s'.group == s.group && s'.groupID == s.groupID && s'.epoch == s.epoch
            && s'.protocolVersion == s.protocolVersion && s'.userID == s.userID
  {
  }
}
