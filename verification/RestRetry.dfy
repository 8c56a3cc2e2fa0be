/**
 The retry loop of a REST request (restapi.go): every attempt is made with the rate-limit bucket locked, every wait with
 it released. Durations are nanoseconds; replies, cancellations and clock readings are inputs.
 */
module RestRetry {
  import opened Base

  const MILLISECOND := 1_000_000

  datatype Config = Config(
    httpMethod: string, maxRetries: int, retryUnsafe: bool, retryOnRateLimit: bool,
    maxRateLimitWait: int, maxRetryWait: int)

  predicate IsSafe(httpMethod: string) {
    httpMethod in ["GET", "HEAD", "PUT", "DELETE", "OPTIONS", "TRACE"]
  }

  predicate CanRetry(cfg: Config) {
    cfg.retryUnsafe || IsSafe(cfg.httpMethod)
  }

  predicate IsTransient(status: int) {
    status == 500 || status == 502 || status == 504 || status == 524
  }

  datatype RateLimit = RateLimit(retryAfter: int)

  /** How the server answers an attempt, if it does. */
  datatype Reply =
    | NetworkError
    | Response(status: int, readable: bool, closed: bool, released: bool, blocked: bool, rateLimit: Option<RateLimit>)

  /** Everything one round of the loop meets; relocked is the bucket that the next lock gives, if it gives one. */
  datatype Round = Round(
    prepared: bool, reply: Reply, contextDone: bool, nanos: nat, waitCancelled: bool, relocked: Option<nat>)

  datatype Outcome =
    | Success | NoLimiter | LimitReached | NotPrepared | ContextDone | NetworkFailed | BadResponse | Undecodable
    | RateLimited | WaitTooLong | WaitFailed | Exhausted | RelockFailed | RequestFailed

  // ---- What the loop does, as a history -----------------------------------------------------------

  datatype Event = Acquire(bucket: nat) | Release(bucket: nat) | Send(reply: Reply) | Wait(delay: int)

  datatype Lock = Holding(bucket: nat) | Free | Broken

  /** Only a held bucket is released, only a free hand acquires, attempts are made holding and waits empty-handed. */
  function Apply(l: Lock, e: Event): Lock {
    match e
    case Acquire(b) => if l == Free then Holding(b) else Broken
    case Release(b) => if l == Holding(b) then Free else Broken
    case Send(_) => if l.Holding? then l else Broken
    case Wait(_) => if l == Free then l else Broken
  }

  function LockAfter(l: Lock, events: seq<Event>): Lock {
    if events == [] then l else Apply(LockAfter(l, events[..|events| - 1]), events[|events| - 1])
  }

  function Sent(events: seq<Event>): seq<Reply> {
    if events == [] then []
    else
      var rest, e := Sent(events[..|events| - 1]), events[|events| - 1];
      if e.Send? then rest + [e.reply] else rest
  }

  function Waited(events: seq<Event>): int {
    if events == [] then 0
    else
      var e := events[|events| - 1];
      Waited(events[..|events| - 1]) + if e.Wait? then e.delay else 0
  }

  lemma Append(l: Lock, events: seq<Event>, e: Event)
    ensures LockAfter(l, events + [e]) == Apply(LockAfter(l, events), e)
    ensures Sent(events + [e]) == if e.Send? then Sent(events) + [e.reply] else Sent(events)
    ensures Waited(events + [e]) == Waited(events) + if e.Wait? then e.delay else 0
  {
    assert (events + [e])[..|events|] == events;
  }

  /** A reply that another attempt may follow. */
  predicate MayFollow(cfg: Config, reply: Reply) {
    match reply
    case NetworkError => CanRetry(cfg)
    case Response(status, _, _, _, _, _) =>
      (status == 429 && cfg.retryOnRateLimit) || (IsTransient(status) && CanRetry(cfg))
  }

  /** Which replies those are. */
  lemma FollowedReplies(cfg: Config, reply: Reply)
    ensures MayFollow(cfg, reply) <==>
              var free := cfg.retryUnsafe || cfg.httpMethod in {"GET", "HEAD", "PUT", "DELETE", "OPTIONS", "TRACE"};
              if reply.NetworkError? then free
              else (reply.status == 429 && cfg.retryOnRateLimit) || (reply.status in {500, 502, 504, 524} && free)
  {
  }

  lemma FollowedIsNoSuccess(cfg: Config, reply: Reply)
    requires MayFollow(cfg, reply)
    ensures !IsSuccess(reply)
  {
  }

  /** The answer came whole: read, closed, and its headers understood by the bucket. */
  predicate Intact(reply: Reply) {
    reply.Response? && reply.readable && reply.closed && reply.released
  }

  predicate IsSuccess(reply: Reply) {
    reply.Response? && 200 <= reply.status < 300 && reply.readable && reply.closed && reply.released
  }

  function MaxAttempts(cfg: Config, sequence: int): nat {
    if cfg.maxRetries > sequence then 1 + cfg.maxRetries - sequence else 1
  }

  // ---- Delays -------------------------------------------------------------------------------------

  /** Doubling from a quarter of a second, up to the fourth retry, plus less than a quarter of itself. */
  function RetryDelay(retries: int, nanos: nat): (delay: int)
    ensures retries <= 0 ==> 250 * MILLISECOND <= delay && 4 * delay < 1250 * MILLISECOND
    ensures retries == 1 ==> 500 * MILLISECOND <= delay < 625 * MILLISECOND
    ensures retries == 2 ==> 1000 * MILLISECOND <= delay < 1250 * MILLISECOND
    ensures retries >= 3 ==> 2000 * MILLISECOND <= delay < 2500 * MILLISECOND
  {
    var retry := if retries < 0 then 0 else if retries > 3 then 3 else retries;
    var base := 250 * MILLISECOND * if retry == 0 then 1 else if retry == 1 then 2 else if retry == 2 then 4 else 8;
    base + nanos % (base / 4)
  }

  /** Never sooner than the server asked, never beyond the maximum that the caller accepts. */
  function RateLimitDelay(delay: int, maximum: int, nanos: nat): (r: int)
    ensures r >= delay && (delay <= 0 ==> r == delay)
    ensures 0 < maximum && delay <= maximum ==> r <= maximum
    ensures r - delay <= 50 * MILLISECOND && (delay > 0 ==> 10 * (r - delay) <= delay)
  {
    if delay <= 0 then delay
    else
      var range := if delay / 10 > 50 * MILLISECOND then 50 * MILLISECOND else delay / 10;
      if range <= 0 then delay
      else
        var jitter := nanos % range;
        if maximum > 0 && delay + jitter > maximum then delay else delay + jitter
  }

  /** waitForRESTRetry: refuses a wait that would go past the budget; a wait that is cancelled still counts. */
  method WaitForRetry(delay: int, totalWait: int, maxTotalWait: int, cancelled: bool)
    returns (ok: bool, started: bool, total: int)
    ensures started <==> delay >= 0 && (maxTotalWait > 0 ==> totalWait + delay <= maxTotalWait)
    ensures ok <==> started && !cancelled
    ensures total == if started then totalWait + delay else totalWait
  {
    if delay < 0 {
      return false, false, totalWait;
    }
    if maxTotalWait > 0 && totalWait + delay > maxTotalWait {
      return false, false, totalWait;
    }
    return !cancelled, true, totalWait + delay;
  }

  /** A 429 whose body could be decoded. */
  predicate Limited(r: Reply) {
    r.Response? && r.status == 429 && r.rateLimit.Some?
  }

  // ---- The loop -----------------------------------------------------------------------------------

  /** Where the loop stands between two rounds, with the bucket locked. */
  ghost predicate AtHead(cfg: Config, entry: nat, sequence: int, events: seq<Event>, bucket: nat, retries: int, total: int) {
    && LockAfter(Holding(entry), events) == Holding(bucket)
    && Resendable(cfg, events, retries - sequence) && (retries == sequence || retries <= cfg.maxRetries)
    && Within(cfg, events, total)
  }

  /** So many attempts have been made, each with a reply that another may follow. */
  ghost predicate Resendable(cfg: Config, events: seq<Event>, attempts: int) {
    |Sent(events)| == attempts && forall i | 0 <= i < |Sent(events)| :: MayFollow(cfg, Sent(events)[i])
  }

  /** The waits add up, within the budget. */
  ghost predicate Within(cfg: Config, events: seq<Event>, total: int) {
    Waited(events) == total >= 0 && (cfg.maxRetryWait > 0 ==> total <= cfg.maxRetryWait)
  }

  /** What holds of every finished request. */
  ghost predicate Finished(cfg: Config, entry: nat, sequence: int, result: Outcome, events: seq<Event>) {
    var sent := Sent(events);
    && LockAfter(Holding(entry), events) == Free
    && |sent| <= MaxAttempts(cfg, sequence)
    && (forall i | 0 <= i < |sent| - 1 :: MayFollow(cfg, sent[i]))
    && Within(cfg, events, Waited(events))
    && (result == Success <==> sent != [] && IsSuccess(sent[|sent| - 1]) && !sent[|sent| - 1].blocked)
    && (result == Exhausted ==> |sent| == MaxAttempts(cfg, sequence) && MayFollow(cfg, sent[|sent| - 1]))
  }

  /** One more reply, with the bucket released, when no other attempt follows. */
  ghost predicate Answered(cfg: Config, entry: nat, sequence: int, events: seq<Event>, retries: int, total: int, reply: Reply) {
    && LockAfter(Holding(entry), events) == Free
    && Within(cfg, events, total)
    && 0 <= retries - sequence == |Sent(events)| - 1 && Sent(events)[retries - sequence] == reply
    && (forall i | 0 <= i < retries - sequence :: MayFollow(cfg, Sent(events)[i]))
    && (retries == sequence || retries <= cfg.maxRetries)
  }

  /** The wait and the new lock that lead to the next attempt. */
  method WaitAndRelock(cfg: Config, ghost entry: nat, ghost sequence: int, events: seq<Event>, retries: int, total: int,
                       delay: int, round: Round)
    returns (failure: Option<Outcome>, events': seq<Event>, bucket: nat, total': int)
    requires Answered(cfg, entry, sequence, events, retries, total, round.reply)
    requires MayFollow(cfg, round.reply) && retries < cfg.maxRetries
    ensures failure.None? ==> AtHead(cfg, entry, sequence, events', bucket, retries + 1, total')
    ensures Sent(events') == Sent(events)
    ensures failure.None? <==>
              && delay >= 0 && (cfg.maxRetryWait > 0 ==> total + delay <= cfg.maxRetryWait)
              && !round.waitCancelled && round.relocked.Some?
    ensures failure.None? ==> total' == total + delay && bucket == round.relocked.value
    ensures failure.Some? ==> failure.value in {WaitFailed, RelockFailed}
    ensures failure.Some? ==> Answered(cfg, entry, sequence, events', retries, total', round.reply)
  {
    failure, events', bucket := None, events, 0;
    var ok, started;
    ok, started, total' := WaitForRetry(delay, total, cfg.maxRetryWait, round.waitCancelled);
    if started {
      Append(Holding(entry), events', Wait(delay));
      events' := events' + [Wait(delay)];
    }
    if !ok {
      failure := Some(WaitFailed);
    } else if round.relocked.None? {
      failure := Some(RelockFailed);
    } else {
      bucket := round.relocked.value;
      Append(Holding(entry), events', Acquire(bucket));
      events' := events' + [Acquire(bucket)];
    }
  }

  /** An attempt with the locked bucket, which is released whatever the answer. */
  method Attempt(cfg: Config, ghost entry: nat, ghost sequence: int, events: seq<Event>, bucket: nat, ghost retries: int,
                 ghost total: int, reply: Reply) returns (events': seq<Event>)
    requires AtHead(cfg, entry, sequence, events, bucket, retries, total)
    ensures Answered(cfg, entry, sequence, events', retries, total, reply) && Sent(events') == Sent(events) + [reply]
  {
    Append(Holding(entry), events, Send(reply));
    events' := events + [Send(reply)];
    Append(Holding(entry), events', Release(bucket));
    events' := events' + [Release(bucket)];
  }

  method GiveUp(cfg: Config, ghost entry: nat, ghost sequence: int, events: seq<Event>, bucket: nat, ghost retries: int,
                ghost total: int) returns (events': seq<Event>)
    requires AtHead(cfg, entry, sequence, events, bucket, retries, total)
    ensures LockAfter(Holding(entry), events') == Free && Sent(events') == Sent(events) && Waited(events') == total
  {
    Append(Holding(entry), events, Release(bucket));
    events' := events + [Release(bucket)];
  }

  /** What follows an answer: the end of the request, or a delay before the next attempt. */
  datatype Verdict = Ends(outcome: Outcome) | Retries(delay: int)

  /** An answer lets another attempt follow, if the number of retries does. */
  predicate Allows(cfg: Config, round: Round) {
    && MayFollow(cfg, round.reply)
    && (round.reply.NetworkError? ==> !round.contextDone)
    && (round.reply.Response? ==> Intact(round.reply) && !round.reply.blocked)
    && (round.reply.Response? && round.reply.status == 429 ==>
          round.reply.rateLimit.Some? && 0 <= round.reply.rateLimit.value.retryAfter <= cfg.maxRateLimitWait)
  }

  predicate Follows(cfg: Config, retries: int, round: Round) {
    Allows(cfg, round) && retries < cfg.maxRetries
  }

  /** How long the loop then waits. */
  function DelayOf(cfg: Config, retries: int, round: Round): int {
    if round.reply.Response? && round.reply.status == 429 && round.reply.rateLimit.Some?
    then RateLimitDelay(round.reply.rateLimit.value.retryAfter, cfg.maxRateLimitWait, round.nanos)
    else RetryDelay(retries, round.nanos)
  }

  /** Why no other attempt follows an answer. */
  predicate Because(cfg: Config, retries: int, round: Round, outcome: Outcome) {
    var r, spent := round.reply, retries >= cfg.maxRetries;
    && (outcome == ContextDone <==> r.NetworkError? && round.contextDone)
    && (outcome == NetworkFailed <==> r.NetworkError? && !round.contextDone && (spent || !CanRetry(cfg)))
    && (outcome == BadResponse <==> r.Response? && !Intact(r))
    && (outcome == Success <==> IsSuccess(r) && !r.blocked)
    && (outcome == LimitReached <==> Intact(r) && r.blocked && (r.status == 429 ==> r.rateLimit.Some?))
    && (outcome == Undecodable <==> Intact(r) && r.status == 429 && r.rateLimit.None?)
    && (outcome == RateLimited <==> Intact(r) && Limited(r) && !r.blocked && !cfg.retryOnRateLimit)
    && (outcome == WaitTooLong <==>
          Intact(r) && Limited(r) && !r.blocked && cfg.retryOnRateLimit && !spent
          && !(0 <= r.rateLimit.value.retryAfter <= cfg.maxRateLimitWait))
    && (outcome == Exhausted <==>
          Intact(r) && !r.blocked && MayFollow(cfg, r) && spent && (r.status == 429 ==> r.rateLimit.Some?))
  }

  /** How a request ends with its last answer. */
  predicate Concludes(cfg: Config, retries: int, round: Round, result: Outcome) {
    if Follows(cfg, retries, round) then result in {WaitFailed, RelockFailed}
    else Because(cfg, retries, round, result) && result !in {NoLimiter, NotPrepared, WaitFailed, RelockFailed}
  }

  /** The decision of the loop on one answer: another attempt exactly when it may follow, and otherwise why not. */
  method Decide(cfg: Config, retries: int, round: Round) returns (v: Verdict)
    ensures v.Retries? <==> Follows(cfg, retries, round)
    ensures v.Retries? ==> v.delay == DelayOf(cfg, retries, round) && v.delay >= 0
    ensures v.Ends? ==> Concludes(cfg, retries, round, v.outcome)
    ensures v == Ends(Success) <==> IsSuccess(round.reply) && !round.reply.blocked
    ensures v == Ends(Exhausted) ==> MayFollow(cfg, round.reply) && retries >= cfg.maxRetries
    ensures v.Retries? ==> MayFollow(cfg, round.reply) && retries < cfg.maxRetries
  {
    if round.reply.NetworkError? {
      if round.contextDone {
        return Ends(ContextDone);
      }
      if retries >= cfg.maxRetries || !CanRetry(cfg) {
        return Ends(NetworkFailed);
      }
      return Retries(RetryDelay(retries, round.nanos));
    }
    var r := round.reply;
    if !r.readable || !r.closed || !r.released {
      return Ends(BadResponse);
    }
    if r.blocked && r.status != 429 {
      return Ends(LimitReached);
    }
    if 200 <= r.status < 300 {
      return Ends(Success);
    }
    if r.status == 429 {
      if r.rateLimit.None? {
        return Ends(Undecodable);
      }
      if r.blocked {
        return Ends(LimitReached);
      }
      if !cfg.retryOnRateLimit {
        return Ends(RateLimited);
      }
      if retries >= cfg.maxRetries {
        return Ends(Exhausted);
      }
      var retryAfter := r.rateLimit.value.retryAfter;
      if retryAfter < 0 || retryAfter > cfg.maxRateLimitWait {
        return Ends(WaitTooLong);
      }
      return Retries(RateLimitDelay(retryAfter, cfg.maxRateLimitWait, round.nanos));
    }
    if IsTransient(r.status) {
      if retries >= cfg.maxRetries || !CanRetry(cfg) {
        return Ends(if retries >= cfg.maxRetries && CanRetry(cfg) then Exhausted else RequestFailed);
      }
      return Retries(RetryDelay(retries, round.nanos));
    }
    return Ends(RequestFailed);
  }

  // ---- How many attempts there are --------------------------------------------------------------

  /** What the waits after the first n attempts would add up to. */
  function WaitTotal(cfg: Config, sequence: int, rounds: nat -> Round, n: nat): int {
    if n == 0 then 0 else WaitTotal(cfg, sequence, rounds, n - 1) + DelayOf(cfg, sequence + n - 1, rounds(n - 1))
  }

  /** The n-th attempt is followed by another: its answer allows it, the wait fits and completes, a bucket is locked. */
  predicate GoesOn(cfg: Config, sequence: int, rounds: nat -> Round, n: nat) {
    sequence + n < cfg.maxRetries && Unhindered(cfg, sequence, rounds, n)
  }

  /** Only the limit on retries could keep an attempt from being followed. */
  predicate Unhindered(cfg: Config, sequence: int, rounds: nat -> Round, n: nat) {
    && Allows(cfg, rounds(n))
    && (cfg.maxRetryWait > 0 ==> WaitTotal(cfg, sequence, rounds, n + 1) <= cfg.maxRetryWait)
    && !rounds(n).waitCancelled && rounds(n).relocked.Some?
  }

  /** The attempts so far are those of the first rounds, and each was followed by another. */
  ghost predicate Retried(cfg: Config, sequence: int, rounds: nat -> Round, sent: seq<Reply>) {
    forall k | 0 <= k < |sent| :: rounds(k).prepared && sent[k] == rounds(k).reply && GoesOn(cfg, sequence, rounds, k)
  }

  /** The attempts of a finished request: one round after another until one cannot be prepared or is not followed. */
  ghost predicate Exactly(cfg: Config, sequence: int, rounds: nat -> Round, result: Outcome, sent: seq<Reply>) {
    var n := |sent|;
    if result == NotPrepared then !rounds(n).prepared && Retried(cfg, sequence, rounds, sent)
    else
      && n > 0 && Retried(cfg, sequence, rounds, sent[..n - 1])
      && rounds(n - 1).prepared && sent[n - 1] == rounds(n - 1).reply && !GoesOn(cfg, sequence, rounds, n - 1)
      && Concludes(cfg, sequence + n - 1, rounds(n - 1), result)
  }

  /** One round of the loop: it ends the request, or leads to the next with one more attempt made. */
  method OneRound(cfg: Config, ghost entry: nat, ghost sequence: int, events: seq<Event>, bucket: nat, retries: int, total: int,
                  rounds: nat -> Round, n: nat)
    returns (ended: Option<Outcome>, events': seq<Event>, bucket': nat, total': int)
    requires AtHead(cfg, entry, sequence, events, bucket, retries, total)
    requires retries == sequence + n && |Sent(events)| == n && Retried(cfg, sequence, rounds, Sent(events))
    requires total == WaitTotal(cfg, sequence, rounds, n)
    ensures ended.None? ==>
              && AtHead(cfg, entry, sequence, events', bucket', retries + 1, total') && retries < cfg.maxRetries
              && |Sent(events')| == n + 1 && Retried(cfg, sequence, rounds, Sent(events'))
              && total' == WaitTotal(cfg, sequence, rounds, n + 1)
    ensures ended.Some? ==>
              && Finished(cfg, entry, sequence, ended.value, events')
              && Exactly(cfg, sequence, rounds, ended.value, Sent(events'))
  {
    hide Because, LockAfter, WaitTotal, Follows, DelayOf, Sent, Waited, GoesOn, MayFollow, Concludes, IsSuccess, Retried, AtHead,
      Answered, Finished;
    var round := rounds(n);
    ghost var sent := Sent(events);
    bucket', total' := bucket, total;
    if !round.prepared {
      events' := GiveUp(cfg, entry, sequence, events, bucket, retries, total);
      GivenUp(cfg, entry, sequence, events, events', bucket, retries, total);
      return Some(NotPrepared), events', bucket', total';
    }
    events' := Attempt(cfg, entry, sequence, events, bucket, retries, total, round.reply);
    assert Sent(events') == sent + [round.reply] && Sent(events')[..n] == sent;
    var v := Decide(cfg, retries, round);
    NextAttempt(cfg, sequence, rounds, n, total);
    if v.Ends? {
      Finishes(cfg, entry, sequence, events', retries, total, round, v.outcome);
      return Some(v.outcome), events', bucket', total';
    }
    ended, events', bucket', total' := WaitAndRelock(cfg, entry, sequence, events', retries, total, v.delay, round);
    CutShort(cfg, retries, round, ended);
    if ended.None? {
      RetriedNext(cfg, sequence, rounds, sent);
    } else {
      Finishes(cfg, entry, sequence, events', retries, total', round, ended.value);
    }
  }

  lemma GivenUp(cfg: Config, entry: nat, sequence: int, events: seq<Event>, events': seq<Event>, bucket: nat, retries: int,
                total: int)
    requires AtHead(cfg, entry, sequence, events, bucket, retries, total)
    requires LockAfter(Holding(entry), events') == Free && Sent(events') == Sent(events) && Waited(events') == total
    ensures Finished(cfg, entry, sequence, NotPrepared, events')
  {
    if Sent(events) != [] {
      FollowedIsNoSuccess(cfg, Sent(events)[|Sent(events)| - 1]);
    }
  }

  lemma Finishes(cfg: Config, entry: nat, sequence: int, events: seq<Event>, retries: int, total: int, round: Round,
                 result: Outcome)
    requires Answered(cfg, entry, sequence, events, retries, total, round.reply)
    requires result == Success <==> IsSuccess(round.reply) && !round.reply.blocked
    requires result == Exhausted ==> MayFollow(cfg, round.reply) && retries >= cfg.maxRetries
    ensures Finished(cfg, entry, sequence, result, events)
  {
  }

  lemma RetriedNext(cfg: Config, sequence: int, rounds: nat -> Round, sent: seq<Reply>)
    requires Retried(cfg, sequence, rounds, sent) && rounds(|sent|).prepared && GoesOn(cfg, sequence, rounds, |sent|)
    ensures Retried(cfg, sequence, rounds, sent + [rounds(|sent|).reply])
  {
  }

  lemma CutShort(cfg: Config, retries: int, round: Round, failure: Option<Outcome>)
    requires Follows(cfg, retries, round) && (failure.Some? ==> failure.value in {WaitFailed, RelockFailed})
    ensures failure.Some? ==> Concludes(cfg, retries, round, failure.value)
    ensures !(IsSuccess(round.reply) && !round.reply.blocked)
  {
  }

  lemma NextAttempt(cfg: Config, sequence: int, rounds: nat -> Round, n: nat, total: int)
    requires total == WaitTotal(cfg, sequence, rounds, n)
    ensures var delay := DelayOf(cfg, sequence + n, rounds(n));
            && WaitTotal(cfg, sequence, rounds, n + 1) == total + delay
            && (GoesOn(cfg, sequence, rounds, n) <==>
                  && Follows(cfg, sequence + n, rounds(n)) && (cfg.maxRetryWait > 0 ==> total + delay <= cfg.maxRetryWait)
                  && !rounds(n).waitCancelled && rounds(n).relocked.Some?)
  {
  }

  /**
   requestWithLockedBucket, entered with a bucket locked, for any replies and any failures. limiter is None when there
   is no limiter, else whether the invalid-request breaker lets the request start.
   */
  method RequestWithLockedBucket(cfg: Config, entry: nat, sequence: int, limiter: Option<bool>, rounds: nat -> Round)
    returns (result: Outcome, events: seq<Event>)
    ensures Finished(cfg, entry, sequence, result, events)
    ensures if limiter == Some(true) then Exactly(cfg, sequence, rounds, result, Sent(events))
            else Sent(events) == [] && result == if limiter.None? then NoLimiter else LimitReached
  {
    var bucket, retries, totalWait, n := entry, sequence, 0, 0;
    events := [];
    if limiter != Some(true) {
      events := GiveUp(cfg, entry, sequence, events, bucket, retries, totalWait);
      return if limiter.None? then NoLimiter else LimitReached, events;
    }
    while true
      invariant AtHead(cfg, entry, sequence, events, bucket, retries, totalWait)
      invariant retries == sequence + n && |Sent(events)| == n && Retried(cfg, sequence, rounds, Sent(events))
      invariant totalWait == WaitTotal(cfg, sequence, rounds, n)
      decreases cfg.maxRetries - retries
    {
      hide AtHead, Sent, Retried, Finished, Exactly, WaitTotal;
      var ended;
      ended, events, bucket, totalWait :=
        OneRound(cfg, entry, sequence, events, bucket, retries, totalWait, rounds, n);
      if ended.Some? {
        return ended.value, events;
      }
      n := n + 1;
      retries := retries + 1;
    }
  }

  /**
   When nothing else stands in the way (every request can be prepared, every answer allows another attempt but for the
   number made, every wait fits and completes, every bucket is locked again) all attempts that the limit allows are made,
   and the limit is what ends the request.
   */
  lemma AllAttemptsAreMade(cfg: Config, sequence: int, rounds: nat -> Round, result: Outcome, sent: seq<Reply>)
    requires |sent| <= MaxAttempts(cfg, sequence) && Exactly(cfg, sequence, rounds, result, sent)
    requires forall k: nat :: rounds(k).prepared && Unhindered(cfg, sequence, rounds, k)
    ensures |sent| == MaxAttempts(cfg, sequence)
    ensures result == if sent[|sent| - 1].NetworkError? then NetworkFailed else Exhausted
  {
    var k := |sent|;
    assert rounds(k).prepared;
    assert k > 0 && Unhindered(cfg, sequence, rounds, k - 1);
  }

  // ---- What a finished request has done --------------------------------------------------------------

  /** Without RetryUnsafeMethods a POST or PATCH was answered with a 429 every time but the last. */
  lemma UnsafeResentOnlyAfter429(cfg: Config, entry: nat, sequence: int, result: Outcome, events: seq<Event>, i: nat)
    requires Finished(cfg, entry, sequence, result, events) && i + 1 < |Sent(events)|
    requires !cfg.retryUnsafe && cfg.httpMethod in {"POST", "PATCH"}
    ensures Sent(events)[i].Response? && Sent(events)[i].status == 429 && cfg.retryOnRateLimit
  {
    assert MayFollow(cfg, Sent(events)[i]);
    assert !IsSafe(cfg.httpMethod) by {
      assert "POST"[0] == 'P' && "PATCH"[0] == 'P' && "PUT"[0] == 'P';
      assert "POST"[1] == 'O' && "PATCH"[1] == 'A' && "PUT"[1] == 'U';
    }
  }

  /** How often a bucket was released, less how often it was acquired. */
  function NetReleases(events: seq<Event>, bucket: nat): int {
    if events == [] then 0
    else
      var e := events[|events| - 1];
      NetReleases(events[..|events| - 1], bucket) + if e == Release(bucket) then 1 else if e == Acquire(bucket) then -1 else 0
  }

  function Held(l: Lock, bucket: nat): int {
    if l == Holding(bucket) then 1 else 0
  }

  lemma {:induction false} LocksBalance(l: Lock, events: seq<Event>, bucket: nat)
    requires l != Broken && LockAfter(l, events) != Broken
    ensures NetReleases(events, bucket) == Held(l, bucket) - Held(LockAfter(l, events), bucket)
  {
    if events != [] {
      NotBrokenBefore(l, events);
      LocksBalance(l, events[..|events| - 1], bucket);
    }
  }

  lemma NotBrokenBefore(l: Lock, events: seq<Event>)
    requires events != [] && LockAfter(l, events) != Broken
    ensures LockAfter(l, events[..|events| - 1]) != Broken
  {
  }

  /** Every bucket that was acquired, and the one held at the start, was released exactly once in all. */
  lemma LocksConserved(cfg: Config, entry: nat, sequence: int, result: Outcome, events: seq<Event>, bucket: nat)
    requires Finished(cfg, entry, sequence, result, events)
    ensures NetReleases(events, bucket) == if bucket == entry then 1 else 0
  {
    LocksBalance(Holding(entry), events, bucket);
  }

  /** Attempts were made with a bucket locked, waits with none. */
  lemma {:induction false} AttemptsHoldWaitsDoNot(l: Lock, events: seq<Event>, i: nat)
    requires l != Broken && LockAfter(l, events) != Broken && i < |events|
    ensures events[i].Send? ==> LockAfter(l, events[..i]).Holding?
    ensures events[i].Wait? ==> LockAfter(l, events[..i]) == Free
    decreases |events|
  {
    NotBrokenBefore(l, events);
    var rest := events[..|events| - 1];
    if i < |rest| {
      AttemptsHoldWaitsDoNot(l, rest, i);
      assert rest[..i] == events[..i];
    }
  }
}
