# dgo: a verified model of its stateful core

dgo is a Discord client library for Go. This project models the parts of it that keep state over unbounded runs, or that
must be exact inverses of each other, and proves what they promise.

- **Media encryption** (`dave.go`, `dave_crypto.go`). `Uleb128` and `SecureFrames` hold the frame codec and the key
  ratchet, `DaveReceiver` and `ReplayWindow` the sliding replay window, `DaveState` and `DaveSession` the session with its
  transition state machine, `DaveTransitions` exactly when each call succeeds and what it leaves, `DaveRuns` the nonce discipline over whole runs of calls, and `DaveInStep` sender and receiver
  end to end. `Bits` defines the word operations on numbers.
- **Shard start-up** (`sharding.go`). `IdentifyCoordinator` is the session-start quota with its time gates.
  `ShardManager` is the protocol of concurrent Open and Close callers, one atomic step per critical section, goroutine
  event or channel event.
- **Rate limits** (`ratelimit.go`, `gateway_write.go`, `restapi.go`). `RateLimitCache` is the bounded bucket cache with
  its route index, `GlobalBudget` the fixed-window global budget, `BucketGrants` the lock grants of one bucket,
  `InvalidRequests` the rolling history of invalid responses, `GatewayWriter` the sliding-window writer, and `RestRetry`
  the retry loop. `Windows` counts events in time windows for all of them, and `Clocks` is a clock that never goes back.
- **State cache** (`state.go`). `Indexes` and `StateCache`: maps of objects that agree with the lists they index while
  objects are overwritten in place. `Images` and `StateRuns`: over whole runs of updates the cache follows a plain map of
  values.
- **Wire formats and permissions**. `Words` and `TlsCodec` are the MLS codec (`mls/mls_internal.go`), `VoicePacket` the
  RTP packets (`voice.go`), `Permissions` the permission calculation (`restapi.go`).

Objects whose methods update fields are classes. Where a run of calls is the subject, a method is proved equal to a
function of the old state (`View()` gives the state as a value), and the run is a sequence of those functions. Times and
durations are integers in nanoseconds; each operation takes the time it reads as a parameter, or from a clock.

Cryptography is abstract. `SecureFrames.Lawful` says that CTR undoes itself and that sealing is the CTR ciphertext
followed by a tag; `VoicePacket.Lawful` says that a sealed text opens to itself and is longer by the overhead; an MLS
export is a function of the install and the user; keys are derived by arbitrary functions.

## Where the code and what is said about it differ

- A direct `DeriveSenderKey` starts the nonces over. `DaveRuns.DirectDeriveReusesExactly` says exactly when no continuation
  of the run can then repeat an install and nonce: the call fails, or the session is not active, or no key is pending and
  no frame was sent with the key in use. `DirectDeriveCanReuse` is a run in which the next frame repeats a pair, and
  `DirectDeriveCanReuseLater` one in which it is the frame after the pending transition. All other calls keep the
  discipline.
- A receiver follows its sender by one generation at a time, so a loss of a whole generation stops it:
  `DaveInStep.EndToEnd` and `AnyOrder` are equivalences. A damaged frame that claims the next generation moves the receiver
  before its tag is checked: `RefusedFrameMovesExactly` and `MovedReceiverLeavesGeneration`.
- The global budget is a fixed window, not a sliding one. `GlobalBudget.TwiceTheLimitIsReached` shows that twice the limit
  inside one window length does happen.
- A Refresh that changes `max_concurrency` forgets all gates. `IdentifyCoordinator.ChangedConcurrencyOpensGates` says that
  nothing else lets a shard be granted twice within five seconds, and `GrantsAtOneTime` is a run in which that happens.
- Section 2.1.2 of RFC 9420 asks for the shortest encoding of a vector length and has no 8-byte form. The reader accepts
  longer forms and the 8-byte form: `TlsCodec.VarintAcceptedIsCanonicalIff` says exactly which accepted bytes are
  canonical, and `VarintRoundTripsIff` where the writer stops being exact.
- The searches of `memberPermissions` for @everyone and for the member stop at the first match, so each
  of these stages depends on order exactly when its matches disagree: `Permissions.OverwriteOrderMattersExactly` and
  `RoleOrderMattersExactly`. Where they agree the whole result does not depend on order (`OrderDoesNotMatter`);
  `OrderMattersForDuplicates` shows that otherwise it can.
- `GuildAdd` builds its maps from the incoming lists without looking for repeated identifiers. Maps and lists agree
  afterwards exactly when there are none: `StateCache.State.GuildAdd` and `Indexes.IndexAgreesIffDistinct`.
- Three branches of the source cannot be reached and are not in the model: the non-positive delay of `waitForSlot`
  (gateway_write.go:152-155, asserted in `GatewayWriter.WriteQueue.WaitForSlot`), the deletion of a route without a bucket
  in `getBucket` (ratelimit.go:160-161, excluded by `RateLimitCache.RateLimiter.Valid`), and the missing role map in
  `RoleAdd` (state.go:575-579, excluded by `StateCache.State.Valid`).

## Model

| member | source | states |
|---|---|---|
| Uleb128.UlebIsTheMinimalEncoding | dave_crypto.go:51-65 | The encoding of a value is the one minimal ULEB128 byte string that denotes it |
| Uleb128.EncodeULEB128 | dave_crypto.go:51-65 | The encoding loop produces that encoding |
| Uleb128.DecodeAcceptsExactlyMinimal | dave_crypto.go:67-92 | Decoding accepts exactly the minimal encodings of 32-bit values, whatever bytes follow, and says how many bytes it took |
| Uleb128.DecodeULEB128 | dave_crypto.go:67-92 | The decoding loop, with its five-byte, overflow and padding checks, answers what that specification says; no shift overflows |
| Uleb128.WhyRefused | dave_crypto.go:67-92 | Which data is refused with which error |
| SecureFrames.ParseIsInverseOfFrame | dave_crypto.go:94-130 | A byte string parses to ciphertext, tag and nonce exactly when it is ciphertext, tag, ULEB128 nonce, size, FA FA |
| SecureFrames.FrameLayout | dave_crypto.go:24-43 | Where ciphertext, tag, nonce and size lie, and the two marker bytes at the end |
| SecureFrames.ParseRefusals | dave_crypto.go:94-118 | Exactly which data is too short, no frame at all, or a frame of a wrong supplemental size |
| SecureFrames.NonceLayout | dave_crypto.go:45-49 | The GCM nonce is 12 bytes: eight zeros, and four that denote the counter, least significant first |
| SecureFrames.NoncesUnique | dave_crypto.go:45-49 | Two counters make one nonce exactly when they are equal |
| SecureFrames.EncryptedFrameParses | dave_crypto.go:24-43 | Parsing an encrypted frame gives back its ciphertext, truncated tag and nonce, for every payload and 32-bit nonce |
| SecureFrames.DecryptInvertsEncrypt | dave_crypto.go:132-150 | Under one key a parsed frame decrypts to a payload exactly when it is the encryption of that payload under its nonce |
| SecureFrames.HashRatchetGetKey | dave_crypto.go:160-174 | The ratchet loop computes the key of a generation |
| SecureFrames.RatchetChain | dave_crypto.go:160-174 | Each secret of the ratchet is expanded from the one before with its number, and the key from the last one |
| Base.ParsesDecimal | dave.go:77-80 | Exactly the non-empty digit strings below 2^64 parse as identifiers, each to its number |
| DaveReceiver.Receiver.AcceptNonce | dave.go:507-525 | The recorded nonce moves or marks the 64-bit window as specified |
| DaveReceiver.GenerationSpans | dave.go:340-341 | A generation spans 2^24 nonces |
| DaveReceiver.Receiver.Replays | dave.go:396-404 | The replay check at the head of the receiving path |
| DaveReceiver.Receiver.Decrypt | dave.go:396-437 | The whole receiving path: replay check, ratchet by at most one generation, decryption, and recording only on success |
| ReplayWindow.RefusedExactly | dave.go:396-404 | With a window that describes the accepted nonces, a frame is a replay exactly when its nonce was accepted or lies 64 or more behind |
| ReplayWindow.AcceptRecords | dave.go:507-525 | Recording a nonce keeps bit d set exactly for an accepted nonce d behind the highest |
| ReplayWindow.ReceiveRefines | dave.go:396-437 | One frame keeps that refinement, and only a new nonce is accepted |
| ReplayWindow.NoNonceAcceptedTwice | dave.go:396-435 | Over every stream of frames the window describes all accepted nonces and none is accepted twice |
| ReplayWindow.ReplayRefusalIsExact | dave.go:396-404 | After every stream the next frame is refused as a replay exactly when its nonce was accepted or some accepted nonce is 64 or more ahead |
| DaveSession.DAVESession.constructor | dave.go:59-68 | A new session, with a group only for a numeric user |
| DaveSession.DAVESession.Configure | dave.go:70-93 | Channel, version and group are set; a group reset, refused for a version other than 1, clears media and transition state when it completes |
| DaveSession.DAVESession.ResetForReWelcome | dave.go:109-125 | Group reset to the stored version, refused when that is not 1, and new key package; errors leave the rest as it was |
| DaveSession.DAVESession.HandleWelcome | dave.go:159-177 | A Welcome into a group that is not established installs keys, drops receivers and leaves a pending key |
| DaveSession.DAVESession.HandleCommit | dave.go:179-196 | A Commit does the same for any group |
| DaveSession.DAVESession.HandlePrepareTransition | dave.go:198-219 | The order of the checks, and the transition that is then pending |
| DaveSession.DAVESession.HandleExecuteTransition | dave.go:221-247 | Only the pending transition executes; it consumes the pending key or clears media state |
| DaveSession.DAVESession.HandlePrepareEpoch | dave.go:249-280 | Epoch and version checks; epoch 1 resets the group |
| DaveSession.DAVESession.DeriveSenderKey | dave.go:282-321 | The sender starts over at nonce 0 and generation 0 on the exported secret |
| DaveSession.DAVESession.EncryptFrame | dave.go:323-357 | Next nonce, ratchet to its generation, exhaustion at the last nonce |
| DaveSession.DAVESession.SetSSRC | dave.go:359-366 | The stream belongs to the user |
| DaveSession.DAVESession.DecryptFrame | dave.go:368-437 | Pass-through while inactive, parse errors, and delivery to the receiver of the stream |
| DaveSession.DAVESession.FindReceiver | dave.go:439-484 | A receiver is made on first use from the current install, or the reason there is none |
| DaveSession.DAVESession.ClearMediaState | dave.go:490-499 | All keys, the nonce, the pending key and every receiver are gone |
| DaveSession.DAVESession.ClearPendingTransition | dave.go:501-505 | No transition is pending |
| DaveSession.DAVESession.Reset | dave.go:539-548 | Media, transition and stream state is cleared |
| DaveTransitions.QuietPassesThrough | dave.go:221-404 | A quiet session passes media through, refuses to encrypt, and executes nothing |
| DaveTransitions.StartsQuiet | dave.go:59-68 | A new session is quiet |
| DaveTransitions.ConfigureExactly | dave.go:70-93 | Exactly when Configure succeeds; the group then starts over and the session is quiet, and otherwise media is untouched |
| DaveTransitions.ReWelcomeExactly | dave.go:109-125 | The same for ResetForReWelcome |
| DaveTransitions.EpochExactly | dave.go:249-280 | Exactly what each epoch and version does |
| DaveTransitions.InstallExactly | dave.go:159-196 | Exactly when a Welcome or a Commit is accepted, and the new install it leaves waiting |
| DaveTransitions.InstallRestartsReceivers | dave.go:159-196 | After an install every stream of a known user starts over on the export of that install |
| DaveTransitions.ReceiverExactly | dave.go:439-484 | Exactly when a stream has or gets a receiver |
| DaveTransitions.PrepareExactly | dave.go:198-219 | Exactly when a transition is prepared, and that nothing else changes |
| DaveTransitions.ExecuteExactly | dave.go:221-247 | Exactly when a transition is executed; an error changes nothing |
| DaveTransitions.PlainTransition | dave.go:221-247 | A transition to version 0 ends all encryption in both directions |
| DaveTransitions.KeyedTransition | dave.go:221-247 | After a keyed transition the next frame is the first under the export of the standing install |
| DaveTransitions.ExecutedIsOver | dave.go:198-247 | An executed transition is neither executed nor prepared again |
| DaveTransitions.CommitFollowedThrough | dave.go:179-247 | Commit, prepare and execute with a free identifier all succeed, and the next frame is sealed under the new install |
| DaveTransitions.EncryptExactly | dave.go:323-357 | Exactly when a frame is encrypted, and why not |
| DaveTransitions.DecryptRefusals | dave.go:368-395 | What an active session makes of data that is no frame, a malformed frame, or a frame of an unknown stream |
| DaveTransitions.DeriveExactly | dave.go:282-321 | Exactly when the sender starts over |
| DaveTransitions.ResetForgets | dave.go:539-548 | A reset leaves a quiet session that remembers its group only |
| DaveRuns.StepDisciplined | dave.go:159-357 | Every session call but a direct DeriveSenderKey keeps the nonce discipline |
| DaveRuns.RunKeepsDiscipline | dave.go:159-357 | The discipline is kept along every continuation of such calls |
| DaveRuns.RunDisciplined | dave.go:159-357 | The discipline holds after every run of such calls |
| DaveRuns.NoNonceReuse | dave.go:159-357 | In such a run no install and nonce is encrypted with twice; nonces start at 1 per install and rise by one; the key is the ratchet key of install and generation |
| DaveRuns.OutputIsLogged | dave.go:323-357 | Each frame of a run parses to its payload sealed under the key of its log entry and the 12-byte nonce of its counter |
| DaveRuns.SealedApart | dave.go:323-357 | In every such run two frames of one install are sealed under different 12-byte nonces |
| DaveRuns.ExhaustionStops | dave.go:333-336 | Encryption fails exactly at the last nonce; then nothing is encrypted, and every attempt fails, whatever calls follow until a transition is executed |
| DaveRuns.DirectDeriveReusesExactly | dave.go:282-321 | After any run without one, a direct DeriveSenderKey leaves every continuation free of repeated pairs exactly when it fails, or the session is not active, or no key is pending and no frame was sent with the key in use |
| DaveRuns.NextFrameRepeatsExactly | dave.go:282-321 | The frame right after it repeats a pair exactly when no key is pending and a frame was sent with the key in use |
| DaveRuns.DirectDeriveCanReuse | dave.go:282-321 | A concrete run in which the next frame repeats a pair |
| DaveRuns.DirectDeriveCanReuseLater | dave.go:229-321 | A concrete run in which the next frame is new, and the one after the pending transition repeats its install, nonce and key |
| DaveInStep.ActiveSenderIsOnItsInstall | dave.go:323-357 | An active session holds the ratchet cipher of generation senderNonce / 2^24 of its install |
| DaveInStep.SentFrames | dave.go:323-357 | The i-th frame carries nonce i + 1 under the ratchet key of its generation, up to the last nonce |
| DaveInStep.SendersNeverFail | dave.go:323-357 | Below the last nonce an active sender never fails |
| DaveInStep.ReceiveInOrder | dave.go:396-437 | A receiver in step decrypts a later frame exactly when its generation is the current or the next one |
| DaveInStep.EndToEnd | dave.go:323-437 | Any increasing selection of a sender's frames all decrypt to their payloads exactly when consecutive ones are never two generations apart |
| DaveInStep.ReceiveAnyOrder | dave.go:396-437 | A genuine frame decrypts exactly when its nonce is new, less than 64 behind the highest accepted, and of its generation or the next; a refused one changes nothing |
| DaveInStep.AnyOrder | dave.go:368-437 | The same for every frame of any sequence of genuine frames, in any order and with duplicates |
| DaveInStep.RefusedFrameMovesExactly | dave.go:406-433 | A frame that is refused changes the receiver exactly when it is no replay and claims the next generation |
| DaveInStep.MovedReceiverLeavesGeneration | dave.go:406-433 | From then on every frame of the generation it was on is refused, whatever arrives in between |
| IdentifyCoordinator.Coordinator.constructor | sharding.go:108-129 | A valid limit is loaded |
| IdentifyCoordinator.Coordinator.ResetQuotaLocked | sharding.go:255-261 | The quota is refilled at the reset time |
| IdentifyCoordinator.Coordinator.TryAcquire | sharding.go:162-196 | One critical section: reset, quota, gate, grant |
| IdentifyCoordinator.Coordinator.Interfere | sharding.go:154-243 | Critical sections of other callers extend the run of events that explains the state |
| IdentifyCoordinator.Coordinator.Acquire | sharding.go:154-201 | With any critical sections of others in each of its waits: every attempt but the last is turned away at a closed gate, the answer is the verdict of the last, it is cancelled exactly at the first look that finds the context done, and once the others are done it waits at most once more |
| IdentifyCoordinator.Coordinator.RefreshQuota | sharding.go:203-222 | New quota; gates stay unless max_concurrency changes; invalid limits change nothing |
| IdentifyCoordinator.Coordinator.ReadStatus | sharding.go:224-243 | The time to the next reset, after a due one |
| IdentifyCoordinator.MillisecondsCover | sharding.go:263-272 | The reported milliseconds are the least that cover the duration |
| IdentifyCoordinator.ValidExactly | sharding.go:131-152 | Exactly which limits are valid, and which field is complained of |
| IdentifyCoordinator.ReportedQuotaIsSpent | sharding.go:154-222 | From a Refresh to its reset time, grants and what remains add up to the reported remaining, and an attempt is refused for quota exactly when that many were granted |
| IdentifyCoordinator.LoadedQuotaIsSpent | sharding.go:108-201 | The same from the start of a coordinator |
| IdentifyCoordinator.ResetRestoresTotal | sharding.go:255-261 | From the reset time on the whole total is there, and the next reset is a window later |
| IdentifyCoordinator.RetryAfterIsExact | sharding.go:170-181 | A refused attempt is refused until the time it is told to come back at, and not then |
| IdentifyCoordinator.ReportedLimitIsValid | sharding.go:245-253 | What SessionStartLimit reports always passes validation |
| IdentifyCoordinator.GatesSpaceGrants | sharding.go:154-201 | Grants fewer than five seconds apart go to different buckets, so there are at most max_concurrency |
| IdentifyCoordinator.GrantsAreGated | sharding.go:154-222 | With max_concurrency unchanged: grants of one bucket five seconds apart, at most max_concurrency grants in any half-open five seconds, 0 <= remaining <= total |
| IdentifyCoordinator.WaitOpensGate | sharding.go:162-196 | An attempt is turned away only at a closed gate, and the wait it asks for is enough to open it |
| IdentifyCoordinator.ChangedConcurrencyOpensGates | sharding.go:203-222 | Within five seconds of a grant, whatever refreshes and status reads follow, an attempt for that shard which the quota allows is granted exactly when a refresh changed max_concurrency |
| IdentifyCoordinator.OneRefreshOpensGates | sharding.go:203-222 | The same for one refresh that leaves quota |
| IdentifyCoordinator.GrantsAtOneTime | sharding.go:203-222 | A concrete run with two grants of one bucket at one time |
| IdentifyCoordinator.GrantsStayInQuota | sharding.go:154-261 | Without Refresh at most total grants fall in a quota window from its start, and at most twice total in any interval of its length |
| ShardManager.Manager.BeginOpen | sharding.go:486-502 | Only a Closed manager starts an open cycle |
| ShardManager.Manager.DecideOpen | sharding.go:538-547 | Open succeeds when no shard failed and no Close has begun |
| ShardManager.Manager.FinishOpen | sharding.go:553-561 | A failed Open records its cleanup and leaves Closing to its owner |
| ShardManager.Manager.BeginClose | sharding.go:571-591 | Nothing to do, a closing to wait for, or ownership of the closing |
| ShardManager.Manager.FinishClose | sharding.go:609-616 | The manager is Closed and clean |
| ShardManager.InvStep | sharding.go:486-617 | Every step of every caller keeps the protocol invariant |
| ShardManager.InvTrace | sharding.go:486-617 | The invariant holds along every interleaving of any number of callers |
| ShardManager.CleanupOncePerCycle | sharding.go:486-617 | closeSessions runs at most once per open cycle, and exactly once, with no shard-open goroutine left, when the manager is Closed |
| ShardManager.OpenSucceedsExactly | sharding.go:486-566 | In every run the Opens that returned success are exactly those with no failed shard, no context cancelled before the shards were joined, and no Close called since they began |
| ShardManager.OpenDecidesExactly | sharding.go:507-553 | A deciding Open began a cycle while Closed and has every shard's answer; success leaves the manager Opened, anything else goes on to cleanup |
| ShardManager.EveryLifetimeEnds | sharding.go:486-617 | When the manager is Closed the lifetime of every cycle so far has been cancelled |
| ShardManager.ChannelsClosedOnce | sharding.go:486-617 | No openDone or closeDone is closed twice; one that is open belongs to the Open or Close still on its way |
| ShardManager.OneOwnerWhileClosing | sharding.go:571-617 | Closing means exactly one owning Close, and every waiting Close waits for the channel it will close |
| ShardManager.ClosingNeverStuck | sharding.go:571-617 | While Closing the owner, or the Open it waits for, can take a step |
| ShardManager.ClosingWorkShrinks | sharding.go:571-617 | Each such step leaves less work and no other step adds any, so the closing ends |
| ShardManager.NoWorkNoWaiters | sharding.go:571-617 | With no work left nobody is closing and every waiter can return |
| RateLimitCache.KeyShapes | ratelimit.go:654-660 | Route and discovered keys never coincide, and end in their major parameter |
| RateLimitCache.KeysDistinct | ratelimit.go:654-660 | Different routes, hashes or major parameters have different keys |
| RateLimitCache.RateLimiter.CleanupDueExactly | ratelimit.go:184-197 | With a TTL a cleanup is due at the first look, after a minute, or after half a TTL if that is sooner |
| RateLimitCache.RateLimiter.RemoveDanglingBucketHashes | ratelimit.go:234-241 | Exactly the routes whose bucket is gone are dropped |
| RateLimitCache.RateLimiter.OldestBucket | ratelimit.go:217-226 | The search loop finds a least recently used bucket |
| RateLimitCache.RateLimiter.EvictBuckets | ratelimit.go:216-231 | As many buckets go as must, and every one that goes was used no later than every one that stays |
| RateLimitCache.RateLimiter.MakeBucketRoom | ratelimit.go:212-232 | Room for one bucket within the bound, index kept sound |
| RateLimitCache.RateLimiter.CleanupBuckets | ratelimit.go:184-210 | A due cleanup drops exactly the buckets and routes older than the TTL, and the routes of dropped buckets: the oldest ones |
| RateLimitCache.RateLimiter.OldestRoute | ratelimit.go:246-253 | The search loop finds a least recently used route |
| RateLimitCache.RateLimiter.EvictRoutes | ratelimit.go:245-260 | The least recently used routes go when the index is full |
| RateLimitCache.RateLimiter.SetBucketHash | ratelimit.go:243-263 | The route leads to the bucket; other routes are only ever dropped |
| RateLimitCache.RateLimiter.GetRouteBucket | ratelimit.go:142-182 | The answer is what the route resolves to, has the route's major parameter, and is the bucket known before when no cleanup is due; a due cleanup happened first, and exactly what it kept was looked through; whatever goes was used no later than what stays, and a route that was followed is marked as used |
| RateLimitCache.RateLimiter.RegisterBucketHash | ratelimit.go:506-533 | The bucket's route leads to the one bucket of the hash and major parameter; other routes are unchanged or dropped; a due cleanup happened first, and another bucket that is joined is marked as used; apart from the bucket's own two keys, buckets that go were used no later than those that stay, and without a due cleanup no more go than the bound asks for |
| RateLimitCache.SharedBucket | ratelimit.go:506-533 | Two routes of one major parameter that learn one hash resolve to one bucket while both stay in the index |
| RateLimitCache.RateLimiter.FindBucket | ratelimit.go:154-168 | The lookups find exactly what the route resolves to |
| RateLimitCache.RateLimiter.FindOrMake | ratelimit.go:154-181 | The bucket the route resolves to, with nothing dropped, or else a new one after making room by age |
| RateLimitCache.RateLimiter.MakeBucket | ratelimit.go:170-181 | A new bucket for the route; the least recently used make room, no more than the bound asks for |
| RateLimitCache.RateLimiter.FileUnder | ratelimit.go:212-232 | A bucket takes a new key; the least recently used make room, no more than the bound asks for |
| RateLimitCache.RateLimiter.DropOldBuckets | ratelimit.go:198-202 | Exactly the buckets last used before the cutoff go |
| RateLimitCache.RateLimiter.DropOldRoutes | ratelimit.go:203-208 | Exactly the routes last used before the cutoff go |
| RateLimitCache.RateLimiter.LinkExisting | ratelimit.go:517-524 | The route joins the discovered bucket |
| RateLimitCache.RateLimiter.Reroute | ratelimit.go:511-533 | The same once the cleanup is done |
| RateLimitCache.RateLimiter.LeaveRoute | ratelimit.go:517-524 | The bucket made for a route goes from its key, unless it is the discovered one itself |
| RateLimitCache.RateLimiter.Promote | ratelimit.go:526-532 | The bucket moves to its discovered key; buckets that go for it were used no later than those that stay, and no more go than the bound asks for |
| RateLimitCache.RecentlyUsedStay | ratelimit.go:212-232 | An entry survives eviction when no more entries than stay were used as recently |
| RateLimitCache.Run | ratelimit.go:147-263 | After every sequence of lookups, registrations and uses the index is sound within both bounds, and every lookup was answered with its own major parameter |
| BucketGrants.Bucket.GetWaitTime | ratelimit.go:266-283 | The wait is the least after which bucket, global deadline and global budget all let the request pass |
| BucketGrants.Bucket.LockBucketObject | ratelimit.go:360-396 | The lock is granted in the first round that admits the request and takes one request; a done context takes none |
| BucketGrants.Bucket.ApplyHeaders | ratelimit.go:426-489 | Which fields each set of headers writes, up to the first header that cannot be read |
| BucketGrants.FirstUnreadable | ratelimit.go:433-489 | Which header is the first that cannot be read |
| BucketGrants.ResetIsAhead | ratelimit.go:454-481 | The reset time of the relative header, or else by the server's own clock and a quarter of a second; which limits are global |
| BucketGrants.Bucket.Release | ratelimit.go:426-504 | The same, and headers that are all readable and name a hash register it; the bucket of that hash then has all four fields |
| BucketGrants.Bucket.ApplyReset | ratelimit.go:454-481 | The reset time comes from the relative header, or else from the absolute one with its date; a global limit moves the deadline instead |
| BucketGrants.Bucket.CopyTo | ratelimit.go:491-502 | The bucket of the discovered hash gets scope, limit, remaining and reset |
| BucketGrants.GrantsWithinLimits | ratelimit.go:360-396 | From any point on, until a release writes the fields, at most the remaining requests are granted before the reset time |
| BucketGrants.HeldBackExactly | ratelimit.go:266-283 | The bucket holds a request back exactly when all that remained is granted and the reset has not come |
| BucketGrants.GrantsHeedDeadline | ratelimit.go:266-283 | Every grant was decided at or after the global deadline it read |
| BucketGrants.GlobalDeadline.ApplyGlobalLimit | ratelimit.go:536-547 | The compare-and-swap loop leaves a deadline at least as late as asked and never moves it back |
| GlobalBudget.GlobalLimiter.ResetGlobalWindow | ratelimit.go:317-323 | A window that is over makes way for one that opens now |
| GlobalBudget.GlobalLimiter.ProactiveGlobalWait | ratelimit.go:285-297 | The wait of a full budget; checks open windows too |
| GlobalBudget.GlobalLimiter.ReserveGlobalRequest | ratelimit.go:299-315 | A reservation is granted exactly when the rolled window has room |
| GlobalBudget.WaitIsExact | ratelimit.go:285-315 | A full budget asks for the least wait that makes room, at most a window; a wait of 0 means room |
| GlobalBudget.WindowLength | ratelimit.go:325-330 | The configured window when positive, a second otherwise |
| GlobalBudget.NoLimitNoBudget | ratelimit.go:285-303 | Without a limit nothing waits and everything is reserved |
| GlobalBudget.RefusedExactlyWhenSpent | ratelimit.go:299-315 | Over every run a reservation is refused exactly when the grants timed inside the current window have reached the limit |
| GlobalBudget.AtMostLimitPerWindow | ratelimit.go:285-330 | At most the limit is granted in any window, for every interleaving of checks and reservations |
| GlobalBudget.AtMostTwiceTheLimit | ratelimit.go:285-330 | At most twice the limit is granted in any half-open interval of one window length |
| GlobalBudget.TwiceTheLimitIsReached | ratelimit.go:285-330 | A run that reaches twice the limit, for every limit and window |
| InvalidRequests.InvalidRequestTracker.Prune | ratelimit.go:585-599 | The loop drops the old times from the front, and a list below the threshold rearms the warning |
| InvalidRequests.InvalidRequestTracker.StatusAt | ratelimit.go:601-624 | Count, reset time, warning and blocking of the current list |
| InvalidRequests.InvalidRequestTracker.RecordResponse | ratelimit.go:550-562 | Prune, append a 401, 403 or 429, report |
| InvalidRequests.InvalidRequestTracker.CurrentStatus | ratelimit.go:564-571 | Prune and report without touching the warning |
| InvalidRequests.Config.Threshold | ratelimit.go:626-635 | 0 when the breaker is off, else the configured threshold when it is between 1 and the limit, and the limit when it is not |
| InvalidRequests.PrunedIsRecentHistory | ratelimit.go:585-599 | The pruned list is the part of the whole response history inside the window |
| InvalidRequests.InvalidCodes | ratelimit.go:550-562 | 401, 403 and 429 count |
| InvalidRequests.WindowLength | ratelimit.go:637-642 | The configured window when positive, ten minutes otherwise |
| InvalidRequests.ResetIsExact | ratelimit.go:601-624 | With no new invalid response the count falls at the reported reset time and not before |
| InvalidRequests.ReportIsExact | ratelimit.go:550-624 | Every report counts exactly the invalid responses of the last window, and blocks exactly when they reach a positive limit |
| InvalidRequests.ResetUnblocks | ratelimit.go:601-624 | After the reported reset time a breaker that was just at its limit is open |
| InvalidRequests.TriggeredExactly | ratelimit.go:601-624 | The warning is triggered exactly at a response with the count at the threshold and no warning since the list was last low |
| InvalidRequests.OneWarningPerCrossing | ratelimit.go:585-624 | Between two triggered warnings some prune saw a count below the threshold |
| GatewayWriter.WriteQueue.Prune | gateway_write.go:138-147 | Exactly the stamps out of the window are dropped from the front |
| GatewayWriter.WriteQueue.WaitForSlot | gateway_write.go:137-160 | No wait when fewer than 120 writes are inside the window, else one wait of positive length, after which there is a slot if it completes |
| GatewayWriter.WriteQueue.TakeOne | gateway_write.go:112-133 | Exactly which answer a request gets: cancelled, no slot, written, or refused by the connection; one write more exactly for a written one |
| GatewayWriter.WriteQueue.FailPending | gateway_write.go:169-178 | The queue is drained, each request answered with the error |
| GatewayWriter.WriteQueue.Run | gateway_write.go:99-135 | For any events: what arrives before the end is accepted in order, and each request gets the answer it deserves in that order; a slot is denied only when 120 writes were inside the window and the wait was cut short; as many writes as answers that say so, at most 120 in any half-open 60 seconds |
| GatewayWriter.WriteStep | gateway_write.go:120-133 | A write in a slot keeps the 120th next write a full window later |
| GatewayWriter.RoomIsCounted | gateway_write.go:137-149 | There is room exactly when fewer than 120 stamps lie in the 60 seconds up to now |
| GatewayWriter.WriteQueue.Meet | gateway_write.go:107-133 | One turn of the loop |
| GatewayWriter.WriteQueue.Write | gateway_write.go:126-131 | A successful write is stamped after it reached the connection |
| GatewayWriter.SpreadBoundsWrites | gateway_write.go:107-160 | Writes 120 places apart are 60 seconds apart, on the wire and by their stamps, so any half-open 60 seconds hold at most 120 |
| RestRetry.RetryDelay | restapi.go:627-641 | 250 ms doubling to 2 s by retry, plus less than a quarter |
| RestRetry.RateLimitDelay | restapi.go:643-659 | Never sooner than the server asked, never past the accepted maximum, at most 50 ms and a tenth more |
| RestRetry.WaitForRetry | restapi.go:600-625 | A wait starts exactly when it is not negative and stays within the budget; a cancelled one counts |
| RestRetry.Decide | restapi.go:395-538 | Another attempt exactly when the reply allows one, retries are below the limit, the context is not done, the reply is intact and not blocked, and a 429 asks for an accepted wait; else exactly which error, or success |
| RestRetry.FollowedReplies | restapi.go:661-680 | Which replies another attempt may follow, by status and method |
| RestRetry.OneRound | restapi.go:374-538 | One round of the loop ends the request or makes exactly one attempt |
| RestRetry.AllAttemptsAreMade | restapi.go:370-540 | When nothing but the limit stands in the way, all attempts that it allows are made and it is what ends the request |
| RestRetry.WaitAndRelock | restapi.go:682-699 | The wait happens without a lock and within the budget; success holds the new bucket, failure none |
| RestRetry.Attempt | restapi.go:403-426 | An attempt is made with the bucket locked, and the bucket is released whatever the reply |
| RestRetry.GiveUp | restapi.go:375-393 | A request that cannot start releases the bucket without an attempt |
| RestRetry.RequestWithLockedBucket | restapi.go:370-540 | On every path: exactly the attempts that the replies, waits and locks call for, one round after another; no lock held at the end, at most 1 + max(0, MaxRestRetries - sequence) attempts, waits within MaxRetryWait, success exactly on a good last reply |
| RestRetry.LocksConserved | restapi.go:370-540 | Every bucket acquired, and the one held at the start, is released exactly once |
| RestRetry.AttemptsHoldWaitsDoNot | restapi.go:370-540 | Every attempt is made holding a bucket and every wait holding none |
| RestRetry.UnsafeResentOnlyAfter429 | restapi.go:661-671 | Without RetryUnsafeMethods a POST or PATCH is sent again only after a 429 |
| Indexes.IndexAgreesIffDistinct | state.go:86-100 | An index built from a list agrees with it exactly when the identifiers are distinct |
| Indexes.LastOneIsIndexed | state.go:86-100 | An identifier is indexed to the last object that has it |
| Indexes.LookupIsScan | state.go:539-559 | A lookup in an index that agrees is a scan of the list, and both are of one size |
| StateCache.State.CreateMemberMap | state.go:86-92 | The loop indexes the list by identifier, a later member over an earlier one; the index agrees with the list exactly when the members are distinct |
| StateCache.State.CreateRoleMap | state.go:94-100 | The same for roles |
| StateCache.State.GuildAdd | state.go:112-190 | A known guild is overwritten in place keeping what the update leaves out, a new one joins; other guilds' maps are unchanged; member count and other fields are those of the update, or the cached ones it leaves out; maps and lists agree afterwards exactly when the incoming lists name each member and role once |
| StateCache.State.GuildRemove | state.go:193-219 | The guild leaves list and maps, and only it; the others keep their order |
| StateCache.State.MemberAdd | state.go:464-501 | A known member is overwritten in place keeping the join time, a new one joins list and map; maps and lists agree |
| StateCache.State.MemberRemove | state.go:504-535 | Exactly that member leaves list and map, the others in their order; error exactly when not cached |
| StateCache.State.RoleAdd | state.go:562-592 | A known role is overwritten in place, a new one joins list and map |
| StateCache.State.RoleRemove | state.go:595-627 | Exactly that role leaves list and map, the others in their order; error exactly when not cached |
| StateCache.LookupsAgree | state.go:539-559 | In every valid state Member answers exactly what a scan of the guild's list finds |
| StateCache.Guild.FillFrom | state.go:152-181 | What the update leaves out is taken from the cached guild |
| StateCache.Guild.Overwrite | state.go:182-183 | The cached guild takes every field of the update |
| StateCache.Member.Overwrite | state.go:485 | The cached member takes every field of the update |
| StateCache.Role.Overwrite | state.go:583 | The cached role takes every field of the update |
| StateCache.State.IndexGuild | state.go:130-143 | A new list has a new index; without one the known index is kept |
| StateCache.State.UpdateKnown | state.go:152-184 | The known guild is overwritten in place, and its maps agree exactly when the update is well formed |
| StateCache.State.AddNew | state.go:186-187 | A new guild joins list and maps, which agree exactly when it is well formed |
| StateRuns.Run | state.go:112-627 | Every sequence of guild, member and role updates with new objects: maps and lists agree, each update is accepted or refused as a plain nested map of values says, and the cache shows that map |
| StateRuns.Perform | state.go:112-627 | One update keeps this |
| StateRuns.LookupsShow | state.go:539-559 | Every lookup of a member or role then finds exactly the value of the plain map |
| StateRuns.AddMember | state.go:464-501 | Overwriting a known object in place changes its one value and no other |
| StateRuns.AddGuild | state.go:112-190 | The lists of a guild update replace the values of that guild, or leave them when not given |
| Images.OverwrittenImage | state.go:464-592 | While no object is in two places, overwriting one changes the value of one place |
| Images.IndexedImage | state.go:86-100 | An index of new objects shows the index of their values, and no object is in two places |
| TlsCodec.Writer.WriteUint16 | mls/mls_internal.go:26-28 | Two bytes, most significant first |
| TlsCodec.Writer.WriteVarint | mls/mls_internal.go:41-56 | The smallest of four sizes, marked in the top two bits |
| TlsCodec.Writer.WriteVec | mls/mls_internal.go:36-39 | Length and data |
| TlsCodec.Reader.ReadUint8 | mls/mls_internal.go:76-84 | The field at the front, or a failure that stays and does not move |
| TlsCodec.Reader.ReadUint16 | mls/mls_internal.go:86-94 | The same for two bytes |
| TlsCodec.Reader.ReadUint64 | mls/mls_internal.go:96-104 | The same for eight bytes |
| TlsCodec.Reader.ReadVarint | mls/mls_internal.go:125-162 | The same for a varint of any of the four sizes |
| TlsCodec.Reader.ReadVec | mls/mls_internal.go:106-123 | The vector at the front, or a failure that stays; a short vector fails after its length was taken, and the position never leaves the buffer |
| TlsCodec.VarintRoundTrip | mls/mls_internal.go:41-162 | A varint is read back modulo 2^62, whatever follows |
| TlsCodec.Writer.WriteUint8 | mls/mls_internal.go:22-24 | One byte more |
| TlsCodec.Writer.WriteUint64 | mls/mls_internal.go:30-34 | Eight bytes more, most significant first |
| TlsCodec.VarintRoundTripsIff | mls/mls_internal.go:41-162 | Its round trip is exact just below 2^62 |
| TlsCodec.FieldLayout | mls/mls_internal.go:22-39 | The bytes of every other kind of field, most significant first |
| TlsCodec.VarintLayout | mls/mls_internal.go:41-56 | The bytes of a varint of each size |
| TlsCodec.VarintAcceptedIsCanonicalIff | mls/mls_internal.go:125-162 | The bytes of an accepted varint are its own encoding exactly when there are as many as it needs |
| TlsCodec.LongVarintIsAccepted | mls/mls_internal.go:125-162 | 5 in two bytes is accepted |
| TlsCodec.RoundTripAll | mls/mls_internal.go:18-162 | Every sequence of fields is read back exactly, whatever bytes follow |
| TlsCodec.WriteThenRead | mls/mls_internal.go:18-162 | The writer and the reader objects agree on every sequence of fields |
| TlsCodec.DecodeAllPrefix | mls/mls_internal.go:76-162 | What is read depends only on the bytes taken |
| TlsCodec.ContextReparses | mls/mls_internal.go:331-353 | The GroupContext is a prefix of the data, and parsing it again gives the same context, epoch and group ID |
| TlsCodec.WrittenContextParses | mls/mls_internal.go:331-353 | A written GroupContext is recovered with its epoch and group ID, whatever follows |
| TlsCodec.ParseGroupInfo | mls/mls_internal.go:331-353 | Seven reads with one error check at the end give that parse |
| VoicePacket.DecodeVoicePacket | voice.go:1662-1735 | On any bytes and any cipher the decoder answers as specified; no index is out of range |
| VoicePacket.DecodesExactly | voice.go:1662-1735 | A datagram decodes to a packet exactly when it is the packet's header, a ciphertext that opens to its extension words and payload, and a nonce suffix |
| VoicePacket.RefusedBeforeOpening | voice.go:1662-1700 | Exactly which error is given before the cipher is used |
| VoicePacket.FlagBits | voice.go:1676-1690 | Which bits of the first byte count CSRCs and tell of an extension |
| VoicePacket.FixedLayout | voice.go:1524-1532 | The fixed header byte by byte |
| VoicePacket.PacketLayout | voice.go:1662-1735 | Header and content together are the packet in order |
| VoicePacket.CsrcAt | voice.go:1716-1719 | Every CSRC is four bytes, most significant first |
| VoicePacket.NonceLayout | voice.go:1533-1539 | The suffix comes first and zeros fill the rest of the nonce |
| VoicePacket.ReadCsrc | voice.go:1716-1719 | The loop reads the CSRC list at its offsets |
| VoicePacket.DecodeInvertsBuild | voice.go:1533-1543 | Every built packet, with up to 15 CSRCs and any extension, decodes to itself |
| VoicePacket.OpusSender.SendAll | voice.go:1470-1566 | The send loop with its three wrapping counters produces the specified stream |
| VoicePacket.OpusSender.Pack | voice.go:1524-1543 | Header, sealed payload and nonce suffix are the datagram of the packet |
| VoicePacket.OpusSender.SendOne | voice.go:1497-1566 | A frame that cannot be encrypted moves only the nonce counter; a sent one moves all three |
| VoicePacket.StreamIsReceived | voice.go:1470-1735 | Sequence, timestamp, SSRC and payload of every packet of a stream arrive as sent |
| VoicePacket.StreamNumbers | voice.go:1470-1566 | The k-th packet of a stream is plain Opus with sequence k and timestamp k frames along, modulo their widths |
| VoicePacket.NoncesDiffer | voice.go:1533-1539 | No two of the first 2^32 frames share a nonce |
| VoicePacket.SealNoncesDiffer | voice.go:1533-1543 | So no two of them are sealed under one full nonce |
| VoicePacket.StreamPositions | voice.go:1497-1566 | Every datagram of a stream carries its frame, under the number of that frame modulo 2^32 |
| VoicePacket.NonceRepeatsExactly | voice.go:1533-1539 | Two datagrams of a stream share a nonce exactly when their frames are a multiple of 2^32 frames apart |
| VoicePacket.VoiceSequence.Accept | voice.go:1179-1192 | The first number, or one ahead by less than 2^15, is accepted and acknowledged; others change nothing |
| VoicePacket.AheadIsOrder | voice.go:1179-1192 | For messages less than 2^15 apart the 16-bit test is the order of the full counters |
| Permissions.AllIsAllChannelAndMore | structs.go:3193-3248 | PermissionAll is PermissionAllChannel and fifteen guild permissions, Administrator among them |
| Permissions.MemberPermissions | restapi.go:1193-1256 | The loops compute the staged result with first matches for @everyone and the member |
| Permissions.AddEveryoneRole | restapi.go:1199-1204 | The search for the role of @everyone |
| Permissions.AddMemberRoles | restapi.go:1206-1213 | The nested loops give the union over the roles of the member |
| Permissions.ApplyFirst | restapi.go:1219-1225 | The first overwrite that fits is applied |
| Permissions.FirstMatchCounts | restapi.go:1219-1249 | The overwrite that is applied is the first that fits |
| Permissions.FirstRoleCounts | restapi.go:1199-1204 | The role of @everyone that counts is the first with the guild identifier |
| Permissions.CollectRoles | restapi.go:1228-1238 | The loops give the unions of what role overwrites deny and allow |
| Permissions.CalculatedIsPermitted | restapi.go:1193-1256 | Where the matches that a search could stop at agree, that is the closed form: a union at each stage |
| Permissions.EveryBit | restapi.go:1193-1256 | Every bit of the result by who grants, denies and allows it: the last stage that speaks of it decides, and allowing wins within a stage |
| Permissions.OrderDoesNotMatter | restapi.go:1193-1256 | Then no permutation of roles, member roles or overwrites changes the result |
| Permissions.UniqueMatchesAgree | restapi.go:1193-1256 | With unique identifiers they do agree |
| Permissions.OverwriteOrderMattersExactly | restapi.go:1218-1249 | The stage of one overwrite has one result for all permissions and all orders exactly when all matching overwrites agree on allow and on deny less allow |
| Permissions.RoleOrderMattersExactly | restapi.go:1199-1204 | The search for @everyone has one result for all orders exactly when all its matches grant the same |
| Permissions.OrderMattersForDuplicates | restapi.go:1193-1256 | Two overwrites of @everyone that allow different things give two results of the whole calculation in the two orders |
| Permissions.AdministratorSurvivesExactly | restapi.go:1210-1253 | Administrator from roles survives the overwrites exactly when no later stage takes it away for good, and then brings all channel permissions |

## Left out

- Real cryptography: AES, GCM, HKDF, HPKE, signatures, and the inside of MLS groups (`mls/mls.go`, `mls/session.go`
  and the message builders). A successful Welcome or Commit is a fresh install; recognised users, proposals and external
  senders do not touch the modelled state.
- Network, websocket and UDP input and output, timers, logging, multipart bodies, HTTP header text, and float parsing:
  headers are already parsed values, and a wait is a clock step.
- Nil contexts and nil receivers, the joining of error messages, and everything that only changes the text of an error.
- Integer widths of durations and of `int`: times are unbounded integers, `int` is a 64-bit int whose range is not reached.
- Legacy `GetBucket` with a key of the caller's own, and with it the `Key` field of a bucket: an empty key would defeat the
  eviction search, so only route keys with hashed major parameters are modelled.
- The emoji map, the channel map, presences, voice states, messages, threads (`MessageAdd`, `ThreadListSync`) and `onReady`
  of the state cache: easy members, or agreements that the code does not keep.
- Generated event handlers, endpoint builders, JSON structs, validators and the example programs.
- The submitting side of the Gateway queue (`enqueue`, gateway_write.go:64-97): the caller's own waiting is not modelled;
  a request joins the queue or does not.
- Sharing of backing arrays between Go slices: lists are values, so an append that writes into a list of another owner is
  not captured. Aliasing of guild, member and role objects is.
- StateRuns.Run: every update brings new objects, as a decoded event does; a caller that adds one object to two guilds is
  outside it, and so are lists that repeat an identifier, after which `StateCache.State.GuildAdd` says maps and lists differ.
- StateCache.State.MemberRemove: takes the two identifiers instead of a member object, and like the other operations is one
  atomic step, although the source looks the guild up under an earlier, separate lock.
- BucketGrants.Bucket.LockBucketObject: the global deadline and budget that a round reads are inputs, because other
  goroutines change them between rounds; `GlobalBudget` covers what the budget answers over all interleavings.
- IdentifyCoordinator.Coordinator.Acquire: other callers take finitely many turns in its waits, each an attempt, a refresh
  or a status read; that it ends at all is shown for the time after those turns.
- RateLimitCache.RateLimiter.GetRouteBucket: says nothing about which of two equally old buckets goes first, because the
  source iterates over a map.
- Permission masks are sets of bit numbers rather than 64-bit words; only union, difference and membership are used.
