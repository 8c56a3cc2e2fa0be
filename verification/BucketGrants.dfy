/**
 Grants on one REST rate-limit bucket (ratelimit.go): the wait before a lock is granted, the loop that grants it, and
 the release that applies the response headers. What other goroutines share (the clock, the global deadline, the global
 budget) is read as input. Times are nanoseconds; header numbers are parsed already.
 */
module BucketGrants {
  import opened Base

  /** The two fields that hold requests back. */
  datatype Gate = Gate(remaining: int, reset: int)

  /** What one round of the lock loop reads of the shared state. */
  datatype Round = Round(now: int, deadline: int, proactiveWait: int, reserveWait: int, reserved: bool)

  datatype Header<+T> = Absent | Malformed | Value(value: T)

  datatype Headers = Headers(
    scope: string, limit: Header<int>, resetAfter: Header<int>, reset: Header<int>, date: Header<int>,
    global: bool, remaining: Header<int>, hash: string)

  datatype Field = LimitField | ResetField | RemainingField | NoField

  /** The first field whose header cannot be read; the fields before it have been applied by then. */
  function FirstBad(h: Headers): Field {
    if h.limit.Malformed? then LimitField
    else if h.resetAfter.Malformed? then ResetField
    else if h.resetAfter.Absent? && !h.reset.Absent? && !(h.date.Value? && h.reset.Value?) then ResetField
    else if h.remaining.Malformed? then RemainingField
    else NoField
  }

  /** The reset time that the headers give, if any, with the slack for the server's clock on absolute times. */
  function ResetTime(h: Headers, now: int): Option<int> {
    if h.resetAfter.Value? then Some(now + h.resetAfter.value)
    else if h.resetAfter.Absent? && h.reset.Value? && h.date.Value?
    then Some(now + (h.reset.value - h.date.value + 250_000_000))
    else None
  }

  /** The two fields that hold requests back, after a release. */
  function Released(g: Gate, headers: Option<Headers>, now: int): Gate {
    if headers.None? then g
    else
      var h := headers.value;
      Gate(if FirstBad(h) == NoField && h.remaining.Value? then h.remaining.value else g.remaining,
           if FirstBad(h) != LimitField && !IsGlobal(h) && ResetTime(h, now).Some? then ResetTime(h, now).value
           else g.reset)
  }

  predicate IsGlobal(h: Headers) {
    h.resetAfter.Value? && (h.global || h.scope == "global")
  }

  /** Which header is the first that cannot be read, in the order limit, reset, remaining. */
  lemma FirstUnreadable(h: Headers)
    ensures var badReset :=
              h.resetAfter.Malformed? || (h.resetAfter.Absent? && !h.reset.Absent? && !(h.reset.Value? && h.date.Value?));
            && (FirstBad(h) == LimitField <==> h.limit.Malformed?)
            && (FirstBad(h) == ResetField <==> !h.limit.Malformed? && badReset)
            && (FirstBad(h) == RemainingField <==> !h.limit.Malformed? && !badReset && h.remaining.Malformed?)
  {
  }

  /**
   The reset time: the relative header counts from now; the absolute one is taken by the server's own clock, a quarter
   of a second late, and only when there is no relative one.
   */
  lemma ResetIsAhead(h: Headers, now: int, resetAt: int)
    ensures ResetTime(h, now) == Some(resetAt) <==>
              || h.resetAfter == Value(resetAt - now)
              || (h.resetAfter == Absent && h.reset.Value? && h.date.Value?
                  && resetAt - now == h.reset.value - h.date.value + 250_000_000)
    ensures IsGlobal(h) <==> h.resetAfter.Value? && (h.global || h.scope == "global")
  {
  }

  // ---- What happened to a bucket ---------------------------------------------------------------

  /** A lock granted on what a round read, or a write of the fields by a release. */
  datatype Event = Grant(now: int, deadline: int) | Rewrite(gate: Gate)

  /** The bucket and the global deadline let a request pass at a given time. */
  predicate Passes(g: Gate, now: int, deadline: int) {
    (g.remaining >= 1 || g.reset <= now) && deadline <= now
  }

  function After(g: Gate, events: seq<Event>): Gate {
    if events == [] then g
    else
      match events[|events| - 1]
      case Grant(_, _) => var before := After(g, events[..|events| - 1]); before.(remaining := before.remaining - 1)
      case Rewrite(gate) => gate
  }

  /** Every grant was let through by the gate as the events before it left it. */
  predicate Legal(g: Gate, events: seq<Event>) {
    events != [] ==>
      var rest, e := events[..|events| - 1], events[|events| - 1];
      Legal(g, rest) && (e.Grant? ==> Passes(After(g, rest), e.now, e.deadline))
  }

  // ---- The bucket ------------------------------------------------------------------------------

  const NewGate := Gate(1, 0)

  class Bucket {
    var scope: string
    var limit: int
    var remaining: int
    var reset: int
    ghost var events: seq<Event>

    constructor ()
      ensures Valid() && View() == NewGate && events == []
    {
      scope, limit, remaining, reset, events := "", 0, 1, 0, [];
    }

    function View(): Gate
      reads this
    {
      Gate(remaining, reset)
    }

    /** The history is legal and explains the fields. */
    ghost predicate Valid()
      reads this
    {
      Legal(NewGate, events) && After(NewGate, events) == View()
    }

    /** Some time from now on, bucket, global deadline and global budget all let a request with the given need pass. */
    predicate ClearAfter(d: int, minRemaining: int, now: int, deadline: int, proactiveWait: int)
      reads this
    {
      (remaining >= minRemaining || reset <= now + d) && deadline <= now + d && proactiveWait <= d
    }

    /**
     GetWaitTime: the least wait after which all three let the request pass, if nothing changes.
     */
    method GetWaitTime(minRemaining: int, now: int, deadline: int, proactiveWait: int) returns (wait: int)
      ensures wait >= 0
      ensures forall d | d >= 0 :: ClearAfter(d, minRemaining, now, deadline, proactiveWait) <==> d >= wait
    {
      wait := 0;
      if remaining < minRemaining && reset > now {
        wait := reset - now;
      }
      var globalWait := deadline - now;
      if globalWait > wait {
        wait := globalWait;
      }
      if proactiveWait > wait {
        wait := proactiveWait;
      }
    }

    /** A round in which the lock is granted. */
    predicate Admits(r: Round)
      reads this
    {
      Passes(View(), r.now, r.deadline) && r.proactiveWait <= 0 && r.reserved
    }

    /**
     LockBucketObjectContext: waits round after round until one admits the request; the context is done when the rounds
     run out. The lock is granted in the first round that admits, and only there a request is taken.
     */
    method LockBucketObject(rounds: seq<Round>) returns (granted: bool, at: nat)
      requires Valid()
      modifies `remaining, `events
      ensures Valid()
      ensures granted <==> exists k | 0 <= k < |rounds| :: old(Admits(rounds[k]))
      ensures granted ==> at < |rounds| && old(Admits(rounds[at])) && forall k | 0 <= k < at :: !old(Admits(rounds[k]))
      ensures granted ==> events == old(events) + [Grant(rounds[at].now, rounds[at].deadline)]
      ensures granted ==> View() == old(View()).(remaining := old(remaining) - 1)
      ensures !granted ==> View() == old(View()) && events == old(events)
    {
      granted, at := false, 0;
      while at < |rounds|
        invariant at <= |rounds| && Valid() && View() == old(View()) && events == old(events)
        invariant forall k | 0 <= k < at :: !Admits(rounds[k])
      {
        var r := rounds[at];
        var wait := GetWaitTime(1, r.now, r.deadline, r.proactiveWait);
        assert ClearAfter(0, 1, r.now, r.deadline, r.proactiveWait) <==> wait <= 0;
        if wait <= 0 && r.reserved {
          granted := true;
          break;
        }
        at := at + 1;
      }
      if granted {
        Append(events, Grant(rounds[at].now, rounds[at].deadline));
        events := events + [Grant(rounds[at].now, rounds[at].deadline)];
        remaining := remaining - 1;
      }
    }

    /**
     The headers are applied up to the first that cannot be read, which is the error returned. A global limit moves the
     global deadline instead of this bucket's reset time.
     */
    method ApplyHeaders(headers: Option<Headers>, now: int) returns (error: Field, deadline: Option<int>)
      requires Valid()
      modifies this
      ensures Valid()
      ensures headers.None? ==> error == NoField && deadline == None && events == old(events) && View() == old(View())
      ensures headers.None? ==> scope == old(scope) && limit == old(limit)
      ensures headers.Some? ==> error == FirstBad(headers.value)
      ensures headers.Some? ==>
                var h := headers.value;
                && scope == (if h.scope != "" then h.scope else old(scope))
                && limit == (if h.limit.Value? then h.limit.value else old(limit))
                && deadline == (if error != LimitField && IsGlobal(h) then ResetTime(h, now) else None)
                && reset == (if error != LimitField && !IsGlobal(h) && ResetTime(h, now).Some? then ResetTime(h, now).value
                             else old(reset))
                && remaining == (if error == NoField && h.remaining.Value? then h.remaining.value else old(remaining))
      ensures events == if View() == old(View()) then old(events) else old(events) + [Rewrite(View())]
    {
      error, deadline := NoField, None;
      if headers.None? {
        return;
      }
      var h := headers.value;
      if h.scope != "" {
        scope := h.scope;
      }
      if h.limit != Absent {
        if h.limit.Malformed? {
          return LimitField, None;
        }
        limit := h.limit.value;
      }
      error, deadline := ApplyReset(h, now);
      if error == ResetField {
        return;
      }
      if h.remaining != Absent {
        if h.remaining.Malformed? {
          error := RemainingField;
        } else {
          remaining := h.remaining.value;
        }
      }
      if remaining != old(remaining) || reset != old(reset) {
        Append(events, Rewrite(View()));
        events := events + [Rewrite(View())];
      }
    }

    /** The headers have all been read and name the hash of a bucket. */
    static predicate Registers(headers: Option<Headers>) {
      headers.Some? && FirstBad(headers.value) == NoField && headers.value.hash != ""
    }

    /**
     Release, with the bucket that the registration of the hash answers, if the bucket has a limiter: the headers are
     applied, and when they name a hash whose bucket is another one, that bucket takes over all four fields.
     */
    method Release(headers: Option<Headers>, now: int, canonical: Option<Bucket>)
      returns (error: Field, deadline: Option<int>, registered: bool)
      requires Valid() && (canonical.Some? ==> canonical.value.Valid())
      modifies this, if canonical.Some? then {canonical.value} else {}
      ensures Valid() && (canonical.Some? ==> canonical.value.Valid())
      ensures headers.None? ==> error == NoField && deadline == None
      ensures headers.Some? ==>
                && error == FirstBad(headers.value)
                && deadline == (if error != LimitField && IsGlobal(headers.value) then ResetTime(headers.value, now) else None)
      ensures registered <==> Registers(headers) && canonical.Some?
      ensures View() == Released(old(View()), headers, now)
      ensures scope == (if headers.Some? && headers.value.scope != "" then headers.value.scope else old(scope))
      ensures limit == (if headers.Some? && headers.value.limit.Value? then headers.value.limit.value else old(limit))
      ensures events == if View() == old(View()) then old(events) else old(events) + [Rewrite(View())]
      ensures registered ==>
                var b := canonical.value;
                b.View() == View() && b.scope == scope && b.limit == limit
      ensures registered && canonical.value != this ==>
                canonical.value.events == old(canonical.value.events) + [Rewrite(View())]
      ensures canonical.Some? && !registered && canonical.value != this ==> unchanged(canonical.value)
    {
      error, deadline := ApplyHeaders(headers, now);
      registered := false;
      if headers.Some? && error == NoField && headers.value.hash != "" && canonical.Some? {
        registered := true;
        if canonical.value != this {
          CopyTo(canonical.value);
        }
      }
    }

    /** The reset time, from the relative header or else from the absolute one. */
    method ApplyReset(h: Headers, now: int) returns (error: Field, deadline: Option<int>)
      requires !h.limit.Malformed?
      modifies `reset
      ensures error == if FirstBad(h) == ResetField then ResetField else NoField
      ensures deadline == if IsGlobal(h) then ResetTime(h, now) else None
      ensures reset == if !IsGlobal(h) && ResetTime(h, now).Some? then ResetTime(h, now).value else old(reset)
    {
      if h.resetAfter != Absent {
        if h.resetAfter.Malformed? {
          return ResetField, None;
        }
        var resetAt := now + h.resetAfter.value;
        if h.global || h.scope == "global" {
          return NoField, Some(resetAt);
        }
        reset := resetAt;
      } else if h.reset != Absent {
        if !h.date.Value? || h.reset.Malformed? {
          return ResetField, None;
        }
        var delta := h.reset.value - h.date.value + 250_000_000;
        reset := now + delta;
      }
      return NoField, None;
    }

    /** What Release leaves to the bucket of the discovered hash, when that is another one. */
    method CopyTo(canonical: Bucket)
      requires canonical != this && canonical.Valid()
      modifies canonical
      ensures canonical.Valid() && canonical.View() == View()
      ensures canonical.scope == scope && canonical.limit == limit
      ensures canonical.events == old(canonical.events) + [Rewrite(View())]
    {
      canonical.scope := scope;
      canonical.limit := limit;
      canonical.remaining := remaining;
      canonical.reset := reset;
      Append(canonical.events, Rewrite(View()));
      canonical.events := canonical.events + [Rewrite(View())];
    }
  }

  lemma Append(events: seq<Event>, e: Event)
    ensures After(NewGate, events + [e]) ==
            if e.Rewrite? then e.gate
            else After(NewGate, events).(remaining := After(NewGate, events).remaining - 1)
    ensures Legal(NewGate, events + [e]) <==>
            Legal(NewGate, events) && (e.Grant? ==> Passes(After(NewGate, events), e.now, e.deadline))
  {
    assert (events + [e])[..|events|] == events;
  }

  // ---- How many grants there can be --------------------------------------------------------------

  /** No release writes the fields. */
  predicate OnlyGrants(events: seq<Event>) {
    forall i | 0 <= i < |events| :: events[i].Grant?
  }

  /** The grants decided before a time. */
  function GrantsBefore(events: seq<Event>, time: int): nat {
    if events == [] then 0
    else
      var e := events[|events| - 1];
      GrantsBefore(events[..|events| - 1], time) + if e.Grant? && e.now < time then 1 else 0
  }

  lemma {:induction false} OnlyGrantsCount(g: Gate, events: seq<Event>)
    requires OnlyGrants(events)
    ensures After(g, events) == Gate(g.remaining - |events|, g.reset)
  {
    if events != [] {
      OnlyGrantsCount(g, events[..|events| - 1]);
    }
  }

  /** Until the fields are written again, at most the remaining requests are granted before the reset time. */
  lemma {:induction false} AtMostRemaining(g: Gate, events: seq<Event>)
    requires Legal(g, events) && OnlyGrants(events)
    ensures GrantsBefore(events, g.reset) <= if g.remaining > 0 then g.remaining else 0
  {
    if events != [] {
      var rest := events[..|events| - 1];
      AtMostRemaining(g, rest);
      OnlyGrantsCount(g, rest);
      GrantsAreEvents(rest, g.reset);
    }
  }

  lemma {:induction false} GrantsAreEvents(events: seq<Event>, time: int)
    ensures GrantsBefore(events, time) <= |events|
  {
    if events != [] {
      GrantsAreEvents(events[..|events| - 1], time);
    }
  }

  /** A suffix of a legal history is legal from the gate where it starts. */
  lemma {:induction false} Suffix(g: Gate, events: seq<Event>, i: nat)
    requires i <= |events| && Legal(g, events)
    ensures Legal(g, events[..i]) && Legal(After(g, events[..i]), events[i..])
    ensures After(After(g, events[..i]), events[i..]) == After(g, events)
  {
    if i < |events| {
      var rest := events[..|events| - 1];
      Suffix(g, rest, i);
      assert rest[..i] == events[..i] && events[i..][..|events| - 1 - i] == rest[i..];
    } else {
      assert events[..i] == events;
    }
  }

  /**
   In every history of a bucket: from any point on, for as long as no release writes its fields, the grants decided
   before the reset time do not exceed what remained.
   */
  lemma GrantsWithinLimits(events: seq<Event>, i: nat, j: nat)
    requires Legal(NewGate, events) && i <= j <= |events| && OnlyGrants(events[i..j])
    ensures var g := After(NewGate, events[..i]);
            GrantsBefore(events[i..j], g.reset) <= if g.remaining > 0 then g.remaining else 0
  {
    Suffix(NewGate, events, j);
    Suffix(NewGate, events[..j], i);
    assert events[..j][..i] == events[..i] && events[..j][i..] == events[i..j];
    AtMostRemaining(After(NewGate, events[..i]), events[i..j]);
  }

  /** Every grant was decided no earlier than the global deadline it read. */
  lemma GrantsHeedDeadline(events: seq<Event>, i: nat)
    requires Legal(NewGate, events) && i < |events| && events[i].Grant?
    ensures events[i].deadline <= events[i].now
  {
    Suffix(NewGate, events, i + 1);
    assert events[..i + 1][..i] == events[..i];
  }

  /**
   The gate holds a request back for the bucket's sake exactly when all that remained has been granted since the fields
   were written and the reset time has not come.
   */
  lemma HeldBackExactly(g: Gate, events: seq<Event>, now: int, deadline: int)
    requires OnlyGrants(events) && deadline <= now
    ensures Passes(After(g, events), now, deadline) <==> |events| < g.remaining || g.reset <= now
  {
    OnlyGrantsCount(g, events);
  }

  // ---- The global deadline -----------------------------------------------------------------------

  class GlobalDeadline {
    var deadline: int

    constructor ()
      ensures deadline == 0
    {
      deadline := 0;
    }

    /**
     ApplyGlobalLimit: compare-and-swap until the deadline is as late as asked. Others may store values between a load
     and its swap. The deadline is never moved back by this call.
     */
    method ApplyGlobalLimit(retryAfter: int, now: int, others: seq<int>) returns (ghost swapped: Option<int>)
      modifies this
      ensures retryAfter <= 0 ==> deadline == old(deadline)
      ensures retryAfter > 0 ==> deadline >= now + retryAfter
      ensures swapped.Some? ==> swapped.value < deadline == now + retryAfter
      ensures swapped.None? ==> deadline == old(deadline) || deadline in others
      ensures retryAfter > 0 && others == [] ==>
                deadline == if old(deadline) > now + retryAfter then old(deadline) else now + retryAfter
    {
      swapped := None;
      if retryAfter <= 0 {
        return;
      }
      var target := now + retryAfter;
      var round := 0;
      while true
        invariant round <= |others| && (deadline == old(deadline) || deadline in others)
        invariant others == [] ==> deadline == old(deadline)
        decreases |others| - round
      {
        var current := deadline;
        if current >= target {
          return;
        }
        if round < |others| {
          deadline := others[round];
        }
        if deadline == current {
          swapped := Some(current);
          deadline := target;
          return;
        }
        round := round + 1;
      }
    }
  }
}
