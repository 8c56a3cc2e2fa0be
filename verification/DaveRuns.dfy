/**
 Nonce discipline of the DAVE sender over whole runs of session calls: which MLS install and which nonce every
 encrypted frame used.
 */
module DaveRuns {
  import opened Base
  import opened SecureFrames
  import opened DaveReceiver
  import opened DaveState

  /** A session call with everything the outside world contributes to it. */
  datatype Call =
    | CallConfigure(groupID: string, version: int, outcome: ResetOutcome)
    | CallReWelcome(outcome: ResetOutcome, keyPackage: Option<bytes>)
    | CallWelcome(accepted: bool, epoch: uint64)
    | CallCommit(accepted: bool, epoch: uint64)
    | CallPrepareTransition(transitionID: uint16, version: int)
    | CallExecuteTransition(transitionID: uint16)
    | CallPrepareEpoch(epoch: uint64, version: int, outcome: ResetOutcome, keyPackage: Option<bytes>)
    | CallDeriveSenderKey
    | CallEncrypt(payload: bytes)
    | CallSetSSRC(ssrc: uint32, userID: string)
    | CallDecrypt(ssrc: uint32, data: bytes)
    | CallReset

  /** One encrypted frame: the install its key came from, its nonce, and the cipher key itself. */
  datatype Use = Use(install: nat, nonce: uint32, key: bytes)

  /** A session, the install its sender key was derived from, and the frames encrypted so far. */
  datatype Run = Run(s: Session, keyInstall: nat, log: seq<Use>)

  predicate Grouped(s: Session) {
    s.groupID.Some? ==> s.group.Some?
  }

  /** The install behind the sender key after a call that may have derived a new one. */
  function KeyInstall(r: Run, s': Session, derived: bool): nat {
    if derived && s'.group.Some? then s'.group.value.install else r.keyInstall
  }

  function Step(c: Crypto, r: Run, e: Call): (r': Run)
    requires Lawful(c) && Grouped(r.s)
    ensures Grouped(r'.s)
  {
    match e
    case CallConfigure(id, v, o) => r.(s := Configure(r.s, id, v, o).0)
    case CallReWelcome(o, kp) => r.(s := ResetForReWelcome(r.s, o, kp).0)
    case CallWelcome(a, epoch) => r.(s := HandleWelcome(r.s, a, epoch).0)
    case CallCommit(a, epoch) => r.(s := HandleCommit(r.s, a, epoch).0)
    case CallPrepareTransition(id, v) => r.(s := HandlePrepareTransition(r.s, id, v).0)
    case CallExecuteTransition(id) =>
      var (s', err) := HandleExecuteTransition(c, r.s, id);
      r.(s := s', keyInstall := KeyInstall(r, s', err.None? && r.s.pending.version > 0))
    case CallPrepareEpoch(epoch, v, o, kp) => r.(s := HandlePrepareEpoch(r.s, epoch, v, o, kp).0)
    case CallDeriveSenderKey =>
      var (s', err) := DeriveSenderKey(c, r.s);
      r.(s := s', keyInstall := KeyInstall(r, s', err.None?))
    case CallEncrypt(payload) =>
      var (s', result) := EncryptFrame(c, r.s, payload);
      var m := s'.sender;
      r.(s := s', log := if result.Ok? && m.frameCipher.Some?
                         then r.log + [Use(r.keyInstall, m.senderNonce, m.frameCipher.value)] else r.log)
    case CallSetSSRC(ssrc, user) => r.(s := SetSSRC(r.s, ssrc, user))
    case CallDecrypt(ssrc, data) => r.(s := DecryptFrame(c, r.s, ssrc, data).0)
    case CallReset => r.(s := Reset(r.s))
  }

  function RunAll(c: Crypto, r: Run, calls: seq<Call>): (r': Run)
    requires Lawful(c) && Grouped(r.s)
    ensures Grouped(r'.s)
  {
    if calls == [] then r else Step(c, RunAll(c, r, calls[..|calls| - 1]), calls[|calls| - 1])
  }

  function Start(userID: string, groupWorks: bool): Run {
    Run(NewSession(userID, groupWorks), 0, [])
  }

  // ---- The invariant -------------------------------------------------------------------------

  /** v continues u: the next nonce of the same install, or nonce 1 of a later one. */
  predicate Continues(u: Use, v: Use) {
    (v.install == u.install && v.nonce == u.nonce + 1) || (v.install > u.install && v.nonce == 1)
  }

  predicate Sequenced(log: seq<Use>) {
    && (log != [] ==> log[0].nonce == 1)
    && (forall i | 0 <= i < |log| - 1 :: Continues(log[i], log[i + 1]))
  }

  /** The key of a frame is the ratchet key of its install and nonce generation. */
  predicate RightKeys(c: Crypto, userID: string, log: seq<Use>) {
    && (log != [] ==> ParseUint64(userID).Some?)
    && (forall i | 0 <= i < |log| ::
          log[i].key == RatchetKey(c, c.exporter(log[i].install, ParseUint64(userID).value), Generation(log[i].nonce)))
  }

  /** An active session encrypts with the ratchet cipher of generation senderNonce >> 24. */
  predicate InStep(c: Crypto, r: Run) {
    var m := r.s.sender;
    m.active ==>
      && ParseUint64(r.s.userID).Some?
      && m.ratchetBaseSecret == Some(c.exporter(r.keyInstall, ParseUint64(r.s.userID).value))
      && m.currentGeneration == Generation(m.senderNonce)
      && m.senderKey == m.frameCipher
      && m.frameCipher == Some(RatchetKey(c, m.ratchetBaseSecret.value, m.currentGeneration))
  }

  /** Where the log stands against the sender's counter. */
  predicate Counted(r: Run) {
    var m := r.s.sender;
    && (r.log != [] ==> r.log[|r.log| - 1].install <= r.keyInstall)
    && (m.active && m.senderNonce == 0 && r.log != [] ==> r.log[|r.log| - 1].install < r.keyInstall)
    && (m.active && m.senderNonce > 0 ==>
          r.log != [] && r.log[|r.log| - 1].install == r.keyInstall && r.log[|r.log| - 1].nonce == m.senderNonce)
  }

  /**
   A pending key comes from an install that nothing was encrypted under; an active sender without one is on the
   standing install.
   */
  predicate Fresh(r: Run) {
    var m := r.s.sender;
    && (r.s.group.Some? ==> r.keyInstall <= r.s.group.value.install)
    && (r.s.group.None? ==> !m.active && !m.hasPendingKey)
    && (m.hasPendingKey ==>
          && (m.active ==> r.keyInstall < r.s.group.value.install)
          && (r.log != [] ==> r.log[|r.log| - 1].install < r.s.group.value.install))
    && (m.active && !m.hasPendingKey ==> r.keyInstall == r.s.group.value.install)
  }

  /** An outstanding transition is not the one executed last. */
  predicate Unexecuted(s: Session) {
    s.pending.outstanding ==> s.lastTransition != Some(s.pending.transitionID)
  }

  predicate Disciplined(c: Crypto, r: Run) {
    && Grouped(r.s) && Sequenced(r.log) && RightKeys(c, r.s.userID, r.log) && InStep(c, r) && Counted(r) && Fresh(r)
    && Unexecuted(r.s)
  }

  lemma StepDisciplined(c: Crypto, r: Run, e: Call)
    requires Lawful(c) && Disciplined(c, r) && !e.CallDeriveSenderKey?
    ensures Disciplined(c, Step(c, r, e))
  {
    match e
    case CallEncrypt(payload) => EncryptDisciplined(c, r, payload);
    case CallExecuteTransition(id) => ExecuteDisciplined(c, r, id);
    case CallDecrypt(ssrc, data) => DecryptKeepsSender(c, r.s, ssrc, data);
    case _ => OtherDisciplined(c, r, e);
  }

  lemma DecryptKeepsSender(c: Crypto, s: Session, ssrc: uint32, data: bytes)
    requires Lawful(c)
    ensures DecryptFrame(c, s, ssrc, data).0.(receivers := s.receivers) == s
  {
    match ParseSecureFrame(data)
    case Ok(p) =>
      var (s1, err) := FindReceiver(c, s, ssrc);
    case Err(_) =>
  }

  lemma OtherDisciplined(c: Crypto, r: Run, e: Call)
    requires Lawful(c) && Disciplined(c, r)
    requires !e.CallDeriveSenderKey? && !e.CallEncrypt? && !e.CallExecuteTransition? && !e.CallDecrypt?
    ensures Disciplined(c, Step(c, r, e))
  {
    var r' := Step(c, r, e);
    assert r'.log == r.log && r'.keyInstall == r.keyInstall && r'.s.userID == r.s.userID;
    assert r'.s.sender == NO_SENDER || r'.s.sender == r.s.sender || r'.s.sender == r.s.sender.(hasPendingKey := true);
  }

  /** Executing a transition moves the sender to an install nothing was encrypted under. */
  lemma ExecuteDisciplined(c: Crypto, r: Run, id: uint16)
    requires Lawful(c) && Disciplined(c, r)
    ensures Disciplined(c, Step(c, r, CallExecuteTransition(id)))
  {
  }

  lemma EncryptDisciplined(c: Crypto, r: Run, payload: bytes)
    requires Lawful(c) && Disciplined(c, r)
    ensures Disciplined(c, Step(c, r, CallEncrypt(payload)))
  {
    var m := r.s.sender;
    if m.active && m.senderNonce != MAX_NONCE {
      RatchetInStep(c, r);
      var nonce := m.senderNonce + 1;
      var m' := Ratchet(c, m.(senderNonce := nonce), Generation(nonce));
      AppendKeepsLog(c, r, Use(r.keyInstall, nonce, m'.frameCipher.value));
    }
  }

  /** The sender's cipher for the next nonce is the ratchet key of that nonce's generation. */
  lemma RatchetInStep(c: Crypto, r: Run)
    requires InStep(c, r) && r.s.sender.active && r.s.sender.senderNonce != MAX_NONCE
    ensures var nonce := r.s.sender.senderNonce + 1;
            var m' := Ratchet(c, r.s.sender.(senderNonce := nonce), Generation(nonce));
            && InStep(c, r.(s := r.s.(sender := m')))
            && m' == r.s.sender.(senderNonce := nonce, senderKey := m'.senderKey, frameCipher := m'.frameCipher,
                                 currentGeneration := Generation(nonce))
  {
  }

  lemma AppendKeepsLog(c: Crypto, r: Run, u: Use)
    requires Sequenced(r.log) && RightKeys(c, r.s.userID, r.log) && Counted(r) && r.s.sender.active
    requires ParseUint64(r.s.userID).Some?
    requires u.install == r.keyInstall && u.nonce == r.s.sender.senderNonce + 1
    requires u.key == RatchetKey(c, c.exporter(u.install, ParseUint64(r.s.userID).value), Generation(u.nonce))
    ensures Sequenced(r.log + [u]) && RightKeys(c, r.s.userID, r.log + [u])
  {
    if r.log != [] {
      assert Continues(r.log[|r.log| - 1], u);
    }
  }

  /** Calls other than a direct DeriveSenderKey keep the discipline from wherever it holds. */
  lemma {:induction false} RunKeepsDiscipline(c: Crypto, r: Run, calls: seq<Call>)
    requires Lawful(c) && Disciplined(c, r) && CallDeriveSenderKey !in calls
    ensures Disciplined(c, RunAll(c, r, calls))
  {
    if calls != [] {
      RunKeepsDiscipline(c, r, calls[..|calls| - 1]);
      StepDisciplined(c, RunAll(c, r, calls[..|calls| - 1]), calls[|calls| - 1]);
    }
  }

  lemma RunDisciplined(c: Crypto, userID: string, groupWorks: bool, calls: seq<Call>)
    requires Lawful(c) && CallDeriveSenderKey !in calls
    ensures Disciplined(c, RunAll(c, Start(userID, groupWorks), calls))
  {
    RunKeepsDiscipline(c, Start(userID, groupWorks), calls);
  }

  // ---- What the invariant means --------------------------------------------------------------

  /** The log rises in install first and nonce second. */
  lemma {:induction false} LogRises(log: seq<Use>, i: nat, j: nat)
    requires Sequenced(log) && i < j < |log|
    ensures log[i].install < log[j].install || (log[i].install == log[j].install && log[i].nonce < log[j].nonce)
    decreases j
  {
    assert Continues(log[j - 1], log[j]);
    if i < j - 1 {
      LogRises(log, i, j - 1);
    }
  }

  /**
   No run without a direct DeriveSenderKey encrypts twice with one install and nonce. Nonces start at 1 for every
   install and rise by one; the key is always the ratchet key of that install and generation.
   */
  lemma NoNonceReuse(c: Crypto, userID: string, groupWorks: bool, calls: seq<Call>)
    requires Lawful(c) && CallDeriveSenderKey !in calls
    ensures var log := RunAll(c, Start(userID, groupWorks), calls).log;
            && RepeatFree(log)
            && (log != [] ==> log[0].nonce == 1)
            && (forall i | 0 <= i < |log| - 1 :: Continues(log[i], log[i + 1]))
            && RightKeys(c, userID, log)
  {
    RunDisciplined(c, userID, groupWorks, calls);
    SameUser(c, Start(userID, groupWorks), calls);
    SequencedIsRepeatFree(RunAll(c, Start(userID, groupWorks), calls).log);
  }

  /** The payloads that a run encrypts, each with the frame it became. */
  function Output(c: Crypto, r: Run, calls: seq<Call>): seq<(bytes, bytes)>
    requires Lawful(c) && Grouped(r.s)
  {
    if calls == [] then []
    else
      var rest, before, e := Output(c, r, calls[..|calls| - 1]), RunAll(c, r, calls[..|calls| - 1]), calls[|calls| - 1];
      if e.CallEncrypt? && EncryptFrame(c, before.s, e.payload).1.Ok?
      then rest + [(e.payload, EncryptFrame(c, before.s, e.payload).1.value)] else rest
  }

  /** The frame carries the payload sealed under this key and this 12-byte nonce, and the counter of the log entry. */
  predicate SealedUnder(c: Crypto, u: Use, gcmNonce: bytes, sent: (bytes, bytes))
    requires Lawful(c)
  {
    var sealed := c.seal(u.key, gcmNonce, sent.0);
    ParseSecureFrame(sent.1) == Ok(Parsed(sealed[..|sent.0|], sealed[|sent.0|..|sent.0| + TAG_SIZE], u.nonce))
  }

  /** Each frame of a run is sealed under the key of its log entry and the nonce built from its counter. */
  lemma {:induction false} OutputIsLogged(c: Crypto, userID: string, groupWorks: bool, calls: seq<Call>)
    requires Lawful(c) && CallDeriveSenderKey !in calls
    ensures var log, sent := RunAll(c, Start(userID, groupWorks), calls).log, Output(c, Start(userID, groupWorks), calls);
            |log| == |sent| && forall i | 0 <= i < |log| :: SealedUnder(c, log[i], BuildNonce(log[i].nonce), sent[i])
  {
    hide SealedUnder, Step, EncryptFrame, BuildNonce, Disciplined;
    if calls != [] {
      var init, e := calls[..|calls| - 1], calls[|calls| - 1];
      OutputIsLogged(c, userID, groupWorks, init);
      RunDisciplined(c, userID, groupWorks, init);
      StepIsLogged(c, RunAll(c, Start(userID, groupWorks), init), e);
    }
  }

  lemma StepIsLogged(c: Crypto, r: Run, e: Call)
    requires Lawful(c) && Disciplined(c, r) && e != CallDeriveSenderKey
    ensures var log, log' := r.log, Step(c, r, e).log;
            if e.CallEncrypt? && EncryptFrame(c, r.s, e.payload).1.Ok?
            then |log'| == |log| + 1 && log'[..|log|] == log
                 && SealedUnder(c, log'[|log|], BuildNonce(log'[|log|].nonce), (e.payload, EncryptFrame(c, r.s, e.payload).1.value))
            else log' == log
  {
    if e.CallEncrypt? && EncryptFrame(c, r.s, e.payload).1.Ok? {
      var u := Step(c, r, e).log[|r.log|];
      EncryptedFrameParses(c, u.key, u.nonce, e.payload);
    }
  }

  /** In every such run two frames of one install are sealed under different 12-byte nonces. */
  lemma SealedApart(c: Crypto, userID: string, groupWorks: bool, calls: seq<Call>, i: nat, j: nat) returns (m: bytes, n: bytes)
    requires Lawful(c) && CallDeriveSenderKey !in calls
    requires i < j < |RunAll(c, Start(userID, groupWorks), calls).log|
    ensures var log, sent := RunAll(c, Start(userID, groupWorks), calls).log, Output(c, Start(userID, groupWorks), calls);
            && |m| == |n| == 12 && |sent| == |log|
            && SealedUnder(c, log[i], m, sent[i]) && SealedUnder(c, log[j], n, sent[j])
            && (log[i].install == log[j].install ==> m != n)
  {
    hide SealedUnder;
    var log := RunAll(c, Start(userID, groupWorks), calls).log;
    m, n := BuildNonce(log[i].nonce), BuildNonce(log[j].nonce);
    OutputIsLogged(c, userID, groupWorks, calls);
    NoNonceReuse(c, userID, groupWorks, calls);
    NoncesUnique(log[i].nonce, log[j].nonce);
    NonceLayout(log[i].nonce);
    NonceLayout(log[j].nonce);
    assert !SamePair(log[i], log[j]);
  }

  /** No two frames share install and nonce. */
  predicate RepeatFree(log: seq<Use>) {
    forall i, j | 0 <= i < j < |log| :: !SamePair(log[i], log[j])
  }

  predicate SamePair(u: Use, v: Use) {
    u.install == v.install && u.nonce == v.nonce
  }

  lemma SequencedIsRepeatFree(log: seq<Use>)
    requires Sequenced(log)
    ensures RepeatFree(log)
  {
    forall i, j | 0 <= i < j < |log| ensures !SamePair(log[i], log[j]) {
      LogRises(log, i, j);
    }
  }

  lemma {:induction false} SameUser(c: Crypto, r: Run, calls: seq<Call>)
    requires Lawful(c) && Grouped(r.s)
    ensures RunAll(c, r, calls).s.userID == r.s.userID
  {
    if calls != [] {
      SameUser(c, r, calls[..|calls| - 1]);
      StepSameUser(c, RunAll(c, r, calls[..|calls| - 1]), calls[|calls| - 1]);
    }
  }

  lemma StepSameUser(c: Crypto, r: Run, e: Call)
    requires Lawful(c) && Grouped(r.s)
    ensures Step(c, r, e).s.userID == r.s.userID
  {
    if e.CallDecrypt? {
      DecryptKeepsSender(c, r.s, e.ssrc, e.data);
    }
  }

  /** Encryption fails exactly at the last nonce, and then nothing more is encrypted until a transition is executed. */
  lemma ExhaustionStops(c: Crypto, r: Run, payload: bytes, later: seq<Call>)
    requires Lawful(c) && Grouped(r.s) && r.s.sender.active && r.s.sender.frameCipher.Some?
    requires forall e | e in later :: !e.CallExecuteTransition?
    ensures EncryptFrame(c, r.s, payload).1.Err? <==> r.s.sender.senderNonce == MAX_NONCE
    ensures r.s.sender.senderNonce == MAX_NONCE ==>
              var r' := RunAll(c, Step(c, r, CallEncrypt(payload)), later);
              r'.log == r.log && EncryptFrame(c, r'.s, payload).1 == Err(NotActive)
  {
    if r.s.sender.senderNonce == MAX_NONCE {
      InactiveStays(c, Step(c, r, CallEncrypt(payload)), later);
    }
  }

  /** Only an executed transition makes a session active. */
  lemma {:induction false} InactiveStays(c: Crypto, r: Run, calls: seq<Call>)
    requires Lawful(c) && Grouped(r.s) && !r.s.sender.active
    requires forall e | e in calls :: !e.CallExecuteTransition?
    ensures !RunAll(c, r, calls).s.sender.active && RunAll(c, r, calls).log == r.log
  {
    if calls != [] {
      InactiveStays(c, r, calls[..|calls| - 1]);
      InactiveStep(c, RunAll(c, r, calls[..|calls| - 1]), calls[|calls| - 1]);
    }
  }

  lemma InactiveStep(c: Crypto, r: Run, e: Call)
    requires Lawful(c) && Grouped(r.s) && !r.s.sender.active && !e.CallExecuteTransition?
    ensures !Step(c, r, e).s.sender.active && Step(c, r, e).log == r.log
  {
    if e.CallDecrypt? {
      DecryptKeepsSender(c, r.s, e.ssrc, e.data);
    }
  }

  /** The nonces of an install run from 1: n entries before the end stands its first. */
  lemma {:induction false} FirstNonceLogged(log: seq<Use>)
    requires Sequenced(log) && log != []
    ensures var last := log[|log| - 1];
            1 <= last.nonce <= |log| && log[|log| - last.nonce].install == last.install && log[|log| - last.nonce].nonce == 1
  {
    var last := log[|log| - 1];
    if |log| > 1 {
      var earlier := log[..|log| - 1];
      FirstNonceLogged(earlier);
      assert Continues(log[|log| - 2], log[|log| - 1]);
      assert earlier[|earlier| - 1] == log[|log| - 2];
    }
  }

  // ---- A direct DeriveSenderKey --------------------------------------------------------------

  /** After a direct DeriveSenderKey no continuation without another one repeats a pair. */
  ghost predicate SafeToDerive(c: Crypto, r: Run)
    requires Lawful(c) && Grouped(r.s)
  {
    forall more: seq<Call> | CallDeriveSenderKey !in more :: FreeAlong(c, r, more)
  }

  predicate FreeAlong(c: Crypto, r: Run, more: seq<Call>)
    requires Lawful(c) && Grouped(r.s)
  {
    RepeatFree(RunAll(c, Step(c, r, CallDeriveSenderKey), more).log)
  }

  /** What a caller can see: the call would fail, nothing is being sent, or the key in use is new and the last one. */
  predicate DeriveIsHarmless(c: Crypto, s: Session) {
    DeriveSenderKey(c, s).1.Some? || !s.sender.active || (!s.sender.hasPendingKey && s.sender.senderNonce == 0)
  }

  /**
   A direct DeriveSenderKey starts the nonces over. After any run without one, it is harmless for the whole rest of the
   run exactly when it fails, or the session is not active, or no frame has been encrypted with the key in use and no
   newer key is pending.
   */
  lemma DirectDeriveReusesExactly(c: Crypto, userID: string, groupWorks: bool, calls: seq<Call>)
    requires Lawful(c) && CallDeriveSenderKey !in calls
    ensures var r := RunAll(c, Start(userID, groupWorks), calls);
            SafeToDerive(c, r) <==> DeriveIsHarmless(c, r.s)
  {
    var r := RunAll(c, Start(userID, groupWorks), calls);
    RunDisciplined(c, userID, groupWorks, calls);
    if DeriveIsHarmless(c, r.s) {
      HarmlessDerive(c, r);
      forall more: seq<Call> | CallDeriveSenderKey !in more ensures FreeAlong(c, r, more) {
        RunKeepsDiscipline(c, Step(c, r, CallDeriveSenderKey), more);
        SequencedIsRepeatFree(RunAll(c, Step(c, r, CallDeriveSenderKey), more).log);
      }
    } else {
      var more := HarmfulRun(c, r);
      assert !FreeAlong(c, r, more);
    }
  }

  /** A harmless call leaves the session disciplined: it changes nothing, or only an idle sender. */
  lemma HarmlessDerive(c: Crypto, r: Run)
    requires Lawful(c) && Disciplined(c, r) && DeriveIsHarmless(c, r.s)
    ensures Disciplined(c, Step(c, r, CallDeriveSenderKey))
  {
    if r.s.sender.active {
      assert Step(c, r, CallDeriveSenderKey) == r;
    }
  }

  /** Any other call can be followed by a repeated pair: at once, or when the pending key is consumed. */
  lemma HarmfulRun(c: Crypto, r: Run) returns (more: seq<Call>)
    requires Lawful(c) && Disciplined(c, r) && !DeriveIsHarmless(c, r.s)
    ensures CallDeriveSenderKey !in more && !FreeAlong(c, r, more)
  {
    if r.s.sender.hasPendingKey {
      more := PendingKeyRepeats(c, r);
    } else {
      more := [CallEncrypt([])];
      NextFrameRepeatsExactly(c, r, []);
      var log := RunAll(c, Step(c, r, CallDeriveSenderKey), more).log;
      var i :| 0 <= i < |r.log| && SamePair(r.log[i], log[|r.log|]);
      assert log[i] == r.log[i];
    }
  }

  /** The frame right after the call repeats a pair exactly when the key in use is the last one and has sent a frame. */
  lemma NextFrameRepeatsExactly(c: Crypto, r: Run, payload: bytes)
    requires Lawful(c) && Disciplined(c, r) && r.s.sender.active && DeriveSenderKey(c, r.s).1.None?
    ensures var log := RunAll(c, Step(c, r, CallDeriveSenderKey), [CallEncrypt(payload)]).log;
            && |log| == |r.log| + 1 && log[..|r.log|] == r.log
            && (Repeats(r.log, log[|r.log|]) <==> !r.s.sender.hasPendingKey && r.s.sender.senderNonce > 0)
  {
    var r1 := Step(c, r, CallDeriveSenderKey);
    var calls := [CallEncrypt(payload)];
    assert calls[..0] == [];
    assert RunAll(c, r1, calls) == Step(c, r1, calls[0]);
    EncryptsOnce(c, r1, payload);
    RepeatsExactly(r, Step(c, r1, calls[0]).log[|r.log|]);
  }

  /** A transition identifier that can be prepared next. */
  function NextTransition(s: Session): uint16 {
    if s.pending.outstanding then s.pending.transitionID else if s.lastTransition == Some(0) then 1 else 0
  }

  /** With a key pending, the call uses it early; executing the transition then uses it again from nonce 1. */
  lemma PendingKeyRepeats(c: Crypto, r: Run) returns (more: seq<Call>)
    requires Lawful(c) && Disciplined(c, r) && r.s.sender.active && r.s.sender.hasPendingKey
    requires DeriveSenderKey(c, r.s).1.None?
    ensures CallDeriveSenderKey !in more && !FreeAlong(c, r, more)
  {
    var id := NextTransition(r.s);
    more := [CallEncrypt([]), CallPrepareTransition(id, 1), CallExecuteTransition(id), CallEncrypt([])];
    var r1 := Step(c, r, CallDeriveSenderKey);
    EncryptsOnce(c, r1, []);
    var r2 := Step(c, r1, more[0]);
    var r3 := Step(c, r2, more[1]);
    assert r3 == r2.(s := r2.s.(pending := Pending(id, 1, true)));
    var r4 := Step(c, r3, more[2]);
    assert r4.log == r2.log && r4.keyInstall == r1.keyInstall && r4.s.sender.active && r4.s.sender.senderNonce == 0;
    EncryptsOnce(c, r4, []);
    RunFour(c, r1, more[0], more[1], more[2], more[3]);
    var log := RunAll(c, r1, more).log;
    assert SamePair(log[|r.log|], log[|r.log| + 1]);
  }

  lemma RepeatsExactly(r: Run, u: Use)
    requires Sequenced(r.log) && Counted(r) && Fresh(r) && r.s.sender.active
    requires u.install == r.s.group.value.install && u.nonce == 1
    ensures Repeats(r.log, u) <==> !r.s.sender.hasPendingKey && r.s.sender.senderNonce > 0
  {
    if Repeats(r.log, u) {
      var i :| 0 <= i < |r.log| && SamePair(r.log[i], u);
      if i < |r.log| - 1 {
        LogRises(r.log, i, |r.log| - 1);
      }
    }
    if r.keyInstall == u.install && r.s.sender.senderNonce > 0 {
      FirstNonceLogged(r.log);
      assert SamePair(r.log[|r.log| - r.log[|r.log| - 1].nonce], u);
    }
  }

  /** Some earlier frame used the same install and nonce. */
  predicate Repeats(log: seq<Use>, u: Use) {
    exists i | 0 <= i < |log| :: SamePair(log[i], u)
  }

  /** A run in which the direct call does repeat a pair. */
  lemma DirectDeriveCanReuse(c: Crypto, payload: bytes)
    requires Lawful(c)
    ensures var log := RunAll(c, Start("1", true),
              [CallWelcome(true, 1), CallPrepareTransition(1, 1), CallExecuteTransition(1), CallEncrypt(payload),
               CallDeriveSenderKey, CallEncrypt(payload)]).log;
            |log| == 2 && log[0].install == log[1].install && log[0].nonce == log[1].nonce
  {
    var setup := [CallWelcome(true, 1), CallPrepareTransition(1, 1), CallExecuteTransition(1)];
    var use := [CallEncrypt(payload), CallDeriveSenderKey, CallEncrypt(payload)];
    assert setup + use == [CallWelcome(true, 1), CallPrepareTransition(1, 1), CallExecuteTransition(1),
                           CallEncrypt(payload), CallDeriveSenderKey, CallEncrypt(payload)];
    RunAppend(c, Start("1", true), setup, use);
    RunThree(c, Start("1", true), setup[0], setup[1], setup[2]);
    var r3 := Activated(c);
    RunThree(c, r3, use[0], use[1], use[2]);
    EncryptTwice(c, r3, payload);
  }

  /** A run in which the call itself is followed by a fresh pair, and the transition after it repeats that pair and key. */
  lemma DirectDeriveCanReuseLater(c: Crypto, x: bytes, y: bytes)
    requires Lawful(c)
    ensures var log := RunAll(c, Start("1", true),
              [CallWelcome(true, 1), CallPrepareTransition(1, 1), CallExecuteTransition(1), CallCommit(true, 2),
               CallDeriveSenderKey, CallEncrypt(x), CallPrepareTransition(2, 1), CallExecuteTransition(2), CallEncrypt(y)]).log;
            |log| == 2 && log[0] == log[1] && log[0].install == 2 && log[0].nonce == 1
  {
    hide RunAll, Step;
    var start := Start("1", true);
    var setup := [CallWelcome(true, 1), CallPrepareTransition(1, 1), CallExecuteTransition(1)];
    var use := [CallCommit(true, 2), CallDeriveSenderKey];
    var more := [CallEncrypt(x), CallPrepareTransition(2, 1), CallExecuteTransition(2), CallEncrypt(y)];
    var r3 := Activated(c);
    RunThree(c, start, setup[0], setup[1], setup[2]);
    var r5 := Recommitted(c, r3);
    RunAppend(c, start, setup, use);
    RunAppend(c, start, setup + use, more);
    assert setup + use + more == [CallWelcome(true, 1), CallPrepareTransition(1, 1), CallExecuteTransition(1),
      CallCommit(true, 2), CallDeriveSenderKey, CallEncrypt(x), CallPrepareTransition(2, 1), CallExecuteTransition(2),
      CallEncrypt(y)];
    PendingKeyIsUsedTwice(c, r5, x, y);
  }

  /** A second install is pending, and the direct call has put it to use. */
  predicate UsesPendingKey(c: Crypto, r: Run) {
    && Grouped(r.s) && r.log == [] && r.keyInstall == 2 && r.s.group == Some(Group(2, true))
    && ParseUint64(r.s.userID).Some? && r.s.lastTransition == Some(1) && !r.s.pending.outstanding
    && r.s.sender.active && r.s.sender.hasPendingKey && r.s.sender.senderNonce == 0
    && r.s.sender.currentGeneration == 0
    && r.s.sender.frameCipher == Some(RatchetKey(c, c.exporter(2, ParseUint64(r.s.userID).value), 0))
  }

  lemma Recommitted(c: Crypto, r: Run) returns (r': Run)
    requires Lawful(c) && Grouped(r.s) && r.log == [] && r.s.group == Some(Group(1, true)) && r.s.sender.active
    requires ParseUint64(r.s.userID).Some? && r.s.lastTransition == Some(1) && !r.s.pending.outstanding
    ensures r' == RunAll(c, r, [CallCommit(true, 2), CallDeriveSenderKey]) && UsesPendingKey(c, r')
  {
    var use := [CallCommit(true, 2), CallDeriveSenderKey];
    RunPrefix(c, r, use, 0);
    RunPrefix(c, r, use, 1);
    assert use[..2] == use;
    r' := RunAll(c, r, use);
  }

  lemma PendingKeyIsUsedTwice(c: Crypto, r: Run, x: bytes, y: bytes)
    requires Lawful(c) && UsesPendingKey(c, r)
    ensures var more := [CallEncrypt(x), CallPrepareTransition(2, 1), CallExecuteTransition(2), CallEncrypt(y)];
            var log := RunAll(c, r, more).log;
            |log| == 2 && log[0] == log[1] && log[0].install == 2 && log[0].nonce == 1
  {
    EncryptsOnce(c, r, x);
    var r1 := Step(c, r, CallEncrypt(x));
    var r2 := Step(c, r1, CallPrepareTransition(2, 1));
    assert r2 == r1.(s := r1.s.(pending := Pending(2, 1, true)));
    var r3 := Step(c, r2, CallExecuteTransition(2));
    assert r3.log == r1.log && r3.keyInstall == 2 && r3.s.sender.frameCipher == r.s.sender.frameCipher;
    EncryptsOnce(c, r3, y);
    RunFour(c, r, CallEncrypt(x), CallPrepareTransition(2, 1), CallExecuteTransition(2), CallEncrypt(y));
  }

  lemma RunThree(c: Crypto, r: Run, e1: Call, e2: Call, e3: Call)
    requires Lawful(c) && Grouped(r.s)
    ensures RunAll(c, r, [e1, e2, e3]) == Step(c, Step(c, Step(c, r, e1), e2), e3)
  {
    var calls := [e1, e2, e3];
    RunPrefix(c, r, calls, 0);
    RunPrefix(c, r, calls, 1);
    RunPrefix(c, r, calls, 2);
    assert calls[..3] == calls;
  }

  lemma RunFour(c: Crypto, r: Run, e1: Call, e2: Call, e3: Call, e4: Call)
    requires Lawful(c) && Grouped(r.s)
    ensures RunAll(c, r, [e1, e2, e3, e4]) == Step(c, Step(c, Step(c, Step(c, r, e1), e2), e3), e4)
  {
    var calls := [e1, e2, e3, e4];
    RunThree(c, r, e1, e2, e3);
    RunPrefix(c, r, calls, 3);
    assert calls[..3] == [e1, e2, e3] && calls[..4] == calls;
  }

  lemma {:induction false} RunAppend(c: Crypto, r: Run, a: seq<Call>, b: seq<Call>)
    requires Lawful(c) && Grouped(r.s)
    ensures RunAll(c, r, a + b) == RunAll(c, RunAll(c, r, a), b)
  {
    if b == [] {
      assert a + b == a;
    } else {
      assert (a + b)[..|a + b| - 1] == a + b[..|b| - 1];
      RunAppend(c, r, a, b[..|b| - 1]);
    }
  }

  lemma EncryptTwice(c: Crypto, r: Run, payload: bytes)
    requires Lawful(c) && Grouped(r.s) && r.log == [] && r.keyInstall == 1 && r.s.group == Some(Group(1, true))
    requires ParseUint64(r.s.userID).Some?
    requires r.s.sender.active && r.s.sender.frameCipher.Some? && r.s.sender.senderNonce == 0
    ensures var log := Step(c, Step(c, Step(c, r, CallEncrypt(payload)), CallDeriveSenderKey), CallEncrypt(payload)).log;
            |log| == 2 && log[0].install == log[1].install && log[0].nonce == log[1].nonce
  {
    EncryptsOnce(c, r, payload);
    EncryptsOnce(c, Step(c, Step(c, r, CallEncrypt(payload)), CallDeriveSenderKey), payload);
  }

  lemma Activated(c: Crypto) returns (r: Run)
    requires Lawful(c)
    ensures r == Step(c, Step(c, Step(c, Start("1", true), CallWelcome(true, 1)), CallPrepareTransition(1, 1)),
                      CallExecuteTransition(1))
    ensures r.log == [] && r.keyInstall == 1 && r.s.group == Some(Group(1, true)) && r.s.userID == "1"
    ensures ParseUint64("1") == Some(1) && r.s.lastTransition == Some(1) && !r.s.pending.outstanding
    ensures r.s.sender.active && r.s.sender.frameCipher.Some? && r.s.sender.senderNonce == 0
  {
    assert ParseUint64("1") == Some(1) by {
      assert "1"[1..] == [];
    }
    var r1 := Step(c, Start("1", true), CallWelcome(true, 1));
    assert r1.s.group == Some(Group(1, true)) && r1.s.sender.hasPendingKey;
    var r2 := Step(c, r1, CallPrepareTransition(1, 1));
    assert r2.s.pending == Pending(1, 1, true);
    r := Step(c, r2, CallExecuteTransition(1));
  }

  lemma EncryptsOnce(c: Crypto, r: Run, payload: bytes)
    requires Lawful(c) && Grouped(r.s)
    requires r.s.sender.active && r.s.sender.frameCipher.Some? && r.s.sender.senderNonce == 0
    ensures var r' := Step(c, r, CallEncrypt(payload));
            && |r'.log| == |r.log| + 1 && r'.log[..|r.log|] == r.log
            && r'.log[|r.log|].install == r.keyInstall && r'.log[|r.log|].nonce == 1
            && r'.s == r.s.(sender := r'.s.sender) && r'.s.sender.active && r'.keyInstall == r.keyInstall
            && r'.s.sender.hasPendingKey == r.s.sender.hasPendingKey && r'.s.sender.senderNonce == 1
            && (r.s.sender.currentGeneration == 0 ==> r'.log[|r.log|].key == r.s.sender.frameCipher.value)
  {
  }

  lemma RunPrefix(c: Crypto, r: Run, calls: seq<Call>, n: nat)
    requires Lawful(c) && Grouped(r.s) && n < |calls|
    ensures RunAll(c, r, calls[..n + 1]) == Step(c, RunAll(c, r, calls[..n]), calls[n])
  {
    assert calls[..n + 1][..n] == calls[..n];
  }
}
