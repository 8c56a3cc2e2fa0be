/**
 The writer of a Gateway connection (gateway_write.go): one loop takes requests from a queue, waits for a slot in a
 sliding window of 60 seconds, writes, and remembers when. Times are nanoseconds.
 */
module GatewayWriter {
  import opened Base
  import opened Clocks
  import opened Windows

  const SEND_LIMIT := 120
  const SEND_WINDOW := 60_000_000_000

  datatype Answer = Sent | WriteFailed | Cancelled | Closed

  /**
   What the loop meets next: a request joins the queue, the queue's context is done, or the first request is taken. Of
   the one taken: is its context done, would a wait for a slot complete, does the connection take the write.
   */
  datatype Select = Arrive(id: nat) | Done | Take(cancelled: bool, completes: bool, writes: bool)

  class WriteQueue {
    const clock: Clock
    var sentAt: seq<int>
    var pending: seq<nat>
    var closed: bool
    ghost var accepted: seq<nat>
    ghost var answers: seq<(nat, Answer)>
    /** When each successful write reached the connection, and the time noted after it. */
    ghost var wire: seq<int>
    ghost var stamps: seq<int>

    constructor (clock: Clock)
      ensures Valid() && this.clock == clock && pending == [] && answers == [] && accepted == [] && wire == [] && !closed
    {
      this.clock := clock;
      sentAt, pending, closed, accepted, answers, wire, stamps := [], [], false, [], [], [], [];
    }

    /** The list remembers the last stamps, and the writes so far are spread out. */
    ghost predicate Timely()
      reads `sentAt, `stamps, `wire, clock
    {
      && Remembers(sentAt, stamps, clock.now) && |sentAt| <= SEND_LIMIT
      && Spread(wire, stamps) && UpTo(stamps, clock.now)
    }

    ghost predicate Valid()
      reads this, clock
    {
      Timely() && Ids(answers) + pending == accepted
    }

    /** Stamps at the front that are not after the cutoff go. */
    method Prune(now: int)
      requires Remembers(sentAt, stamps, now)
      modifies `sentAt
      ensures Remembers(sentAt, stamps, now) && |sentAt| <= |old(sentAt)|
      ensures sentAt != [] ==> sentAt[0] + SEND_WINDOW > now
    {
      var cutoff := now - SEND_WINDOW;
      var firstActive := 0;
      while firstActive < |sentAt| && !(sentAt[firstActive] > cutoff)
        invariant firstActive <= |sentAt|
        invariant forall i | 0 <= i < firstActive :: sentAt[i] <= cutoff
      {
        firstActive := firstActive + 1;
      }
      if firstActive > 0 {
        ghost var k := |stamps| - |sentAt|;
        assert forall i | 0 <= i < firstActive :: stamps[k + i] == sentAt[i];
        assert stamps[k..][firstActive..] == stamps[k + firstActive..];
        sentAt := sentAt[firstActive..];
      }
    }

    /**
     waitForSlot, reading the clock at readAt first: no wait when there is room then, and otherwise one wait of positive
     length, after which there is room if it completes.
     */
    method WaitForSlot(completes: bool) returns (ok: bool, waits: nat, ghost readAt: int)
      requires Timely()
      modifies `sentAt, clock
      ensures Timely() && old(clock.now) <= readAt <= clock.now
      ensures waits == if RoomAt(stamps, readAt) then 0 else 1
      ensures ok <==> RoomAt(stamps, readAt) || completes
      ensures ok ==> |sentAt| < SEND_LIMIT
    {
      hide Remembers, Spread, UpTo, RoomAt;
      waits, readAt := 0, clock.now;
      while true
        invariant Timely()
        invariant old(clock.now) <= readAt <= clock.now && waits <= 1
        invariant waits == 1 ==> completes && !RoomAt(stamps, readAt)
        invariant waits == 1 ==> |sentAt| == SEND_LIMIT && sentAt[0] + SEND_WINDOW <= clock.now
        decreases 1 - waits
      {
        ghost var last := clock.now;
        var now := clock.Now();
        RememberedLater(sentAt, stamps, last, now);
        if waits == 0 {
          readAt := now;
        }
        Prune(now);
        RoomIsInList(sentAt, stamps, now);
        if |sentAt| < SEND_LIMIT {
          return true, waits, readAt;
        }
        assert waits == 0;
        var delay := sentAt[0] + SEND_WINDOW - now;
        assert delay > 0;
        clock.Wait(delay, completes);
        RememberedLater(sentAt, stamps, now, clock.now);
        waits := waits + 1;
        if !completes {
          return false, waits, readAt;
        }
      }
    }

    /** WriteJSON reaches the connection at some time, after which the clock is read for the stamp. */
    method Write(writes: bool)
      requires Timely() && |sentAt| < SEND_LIMIT
      modifies `sentAt, `wire, `stamps, clock
      ensures Timely() && old(clock.now) <= clock.now
      ensures !writes ==> wire == old(wire) && stamps == old(stamps)
      ensures writes ==>
                exists at, stamp :: OneMore(old(wire), wire, at) && OneMore(old(stamps), stamps, stamp)
                                    && old(clock.now) <= at <= stamp <= clock.now
    {
      var at := clock.Now();
      if writes {
        var stamp := clock.Now();
        WriteStep(sentAt, wire, stamps, at, stamp);
        sentAt := sentAt + [stamp];
        wire := wire + [at];
        stamps := stamps + [stamp];
        assert OneMore(old(wire), wire, at) && OneMore(old(stamps), stamps, stamp);
      }
    }

    /** The request at the front of the queue is answered. */
    ghost method Answered(answer: Answer)
      requires pending != []
      modifies `answers
      ensures answers == old(answers) + [(pending[0], answer)]
      ensures Ids(answers) + pending[1..] == Ids(old(answers)) + pending
    {
      answers := answers + [(pending[0], answer)];
      IdsAppend(old(answers), pending[0], answer);
    }

    /**
     One request. A cancelled one is answered without a write; else it gets a slot when there is room or its wait
     completes, and with a slot it is written if the connection takes it.
     */
    method TakeOne(cancelled: bool, completes: bool, writes: bool) returns (ghost readAt: int)
      requires Valid() && pending != []
      modifies this, clock
      ensures Valid() && old(clock.now) <= readAt <= clock.now && closed == old(closed) && accepted == old(accepted)
      ensures pending == old(pending)[1..] && old(stamps) <= stamps && |wire| >= |old(wire)| && wire[..|old(wire)|] == old(wire)
      ensures |answers| == |old(answers)| + 1 && answers[..|old(answers)|] == old(answers)
      ensures var (id, answer) := answers[|old(answers)|];
              var slot := RoomAt(old(stamps), readAt) || completes;
              && id == old(pending)[0]
              && (answer == Cancelled <==> cancelled)
              && (answer == Sent <==> !cancelled && slot && writes)
              && (answer == WriteFailed <==> !cancelled && slot && !writes)
              && (answer == Closed <==> !cancelled && !slot)
              && |wire| == |old(wire)| + if answer == Sent then 1 else 0
    {
      hide Timely;
      var answer := Cancelled;
      readAt := clock.now;
      if !cancelled {
        var ok, waits;
        ok, waits, readAt := WaitForSlot(completes);
        if ok {
          Write(writes);
          answer := if writes then Sent else WriteFailed;
        } else {
          answer := Closed;
        }
      }
      Answered(answer);
      pending := pending[1..];
    }

    /** failPending: everything in the queue is answered with the error. */
    method FailPending()
      requires Valid()
      modifies `pending, `answers
      ensures Valid() && pending == [] && answers == old(answers) + AllClosed(old(pending))
    {
      ghost var n := 0;
      while pending != []
        invariant Valid() && n <= |old(pending)| && pending == old(pending)[n..]
        invariant answers == old(answers) + AllClosed(old(pending)[..n])
        decreases |pending|
      {
        assert old(pending)[..n + 1] == old(pending)[..n] + [pending[0]];
        assert AllClosed(old(pending)[..n + 1]) == AllClosed(old(pending)[..n]) + [(pending[0], Closed)];
        Answered(Closed);
        pending := pending[1..];
        n := n + 1;
      }
      assert old(pending)[..n] == old(pending);
    }

    /** One turn of the loop. */
    method Meet(e: Select, ghost start: int) returns (ghost slot: bool)
      requires Valid() && !closed && start <= clock.now
      modifies this, clock
      ensures Valid() && start <= clock.now && old(stamps) <= stamps && (closed <==> e == Done) && (closed ==> pending == [])
      ensures Served(answers, pending, closed) == ServeOne(old(Served(answers, pending, false)), e, slot)
      ensures !slot ==> Denied(e, stamps, start)
      ensures accepted == if e.Arrive? then old(accepted) + [e.id] else old(accepted)
      ensures |wire| - |old(wire)| == CountSent(answers) - CountSent(old(answers))
    {
      hide Timely, RoomAt;
      slot := true;
      match e
      case Arrive(id) =>
        pending := pending + [id];
        accepted := accepted + [id];
      case Take(cancelled, completes, writes) =>
        if pending != [] {
          ghost var before, given := stamps, answers;
          ghost var readAt := TakeOne(cancelled, completes, writes);
          slot := cancelled || RoomAt(before, readAt) || completes;
          assert answers == given + [answers[|given|]];
          assert before == stamps[..|before|];
        }
      case Done =>
        NoneSent(answers, pending);
        FailPending();
        closed := true;
    }

    /**
     run, for any sequence of events. Whatever it meets, no half-open interval of 60 seconds holds more than 120 writes;
     the requests are answered once each, in the order they were accepted; and each answer is the one it deserves, where
     a slot is denied only to a request whose wait was cut short at a time when 120 writes were inside the window.
     */
    method Run(script: seq<Select>) returns (ghost slots: seq<bool>)
      requires Valid() && !closed
      modifies this, clock
      ensures Valid() && (closed <==> Done in script) && (closed ==> pending == [])
      ensures accepted == old(accepted) + Arrivals(script) && Ids(answers) <= accepted
      ensures forall from: int :: WithinLimit(wire, from)
      ensures |slots| == |script| && Served(answers, pending, closed) == Serve(old(answers), old(pending), script, slots)
      ensures forall k | 0 <= k < |script| && !slots[k] :: Denied(script[k], stamps, old(clock.now))
      ensures |wire| - |old(wire)| == CountSent(answers) - CountSent(old(answers))
    {
      hide Timely, ServeOne, Serve, Denied, CountSent;
      Unserved(answers, pending);
      slots := [];
      ghost var start := clock.now;
      for n := 0 to |script|
        invariant Valid() && !closed && Done !in script[..n] && start <= clock.now
        invariant old(accepted) + Arrivals(script) == accepted + Arrivals(script[n..])
        invariant |slots| == n && Served(answers, pending, false) == Serve(old(answers), old(pending), script[..n], slots)
        invariant forall k | 0 <= k < n && !slots[k] :: Denied(script[k], stamps, start)
        invariant |wire| - |old(wire)| == CountSent(answers) - CountSent(old(answers))
      {
        assert script[n..][1..] == script[n + 1..] && script[..n + 1] == script[..n] + [script[n]];
        ghost var before := stamps;
        ghost var slot := Meet(script[n], start);
        OneEvent(Served(answers, pending, closed), old(answers), old(pending), script[..n], slots, script[n], slot);
        DeniedStill(script, slots, before, stamps, start);
        slots := slots + [slot];
        if closed {
          slots := Padded(old(answers), old(pending), script, slots);
          break;
        }
      }
      assert !closed ==> script[..|script|] == script;
      forall from: int ensures WithinLimit(wire, from) {
        WritesWithinLimit(from);
      }
    }

    lemma WritesWithinLimit(from: int)
      requires Timely()
      ensures WithinLimit(wire, from)
    {
      SpreadBoundsWrites(wire, stamps, from);
    }
  }

  /** The requests that join the queue before it closes, in order. */
  function Arrivals(script: seq<Select>): seq<nat> {
    if script == [] || script[0].Done? then []
    else if script[0].Arrive? then [script[0].id] + Arrivals(script[1..])
    else Arrivals(script[1..])
  }

  // ---- Which answer each request deserves --------------------------------------------------------

  /** What the loop has answered, what waits, and whether the queue has closed. */
  datatype Served = Served(answers: seq<(nat, Answer)>, pending: seq<nat>, closed: bool)

  /** Every request in its turn, given which takes find a slot; at the end whoever waits is told so. */
  function Serve(answers: seq<(nat, Answer)>, queue: seq<nat>, script: seq<Select>, slots: seq<bool>): Served
    requires |slots| == |script|
  {
    if script == [] then Served(answers, queue, false)
    else
      var n := |script| - 1;
      var before := Serve(answers, queue, script[..n], slots[..n]);
      if before.closed then before else ServeOne(before, script[n], slots[n])
  }

  function ServeOne(s: Served, e: Select, slot: bool): Served {
    match e
    case Arrive(id) => s.(pending := s.pending + [id])
    case Done => Served(s.answers + AllClosed(s.pending), [], true)
    case Take(cancelled, _, writes) =>
      if s.pending == [] then s
      else
        var answer := if cancelled then Cancelled else if !slot then Closed else if writes then Sent else WriteFailed;
        Served(s.answers + [(s.pending[0], answer)], s.pending[1..], false)
  }

  function AllClosed(pending: seq<nat>): seq<(nat, Answer)> {
    seq(|pending|, i requires 0 <= i < |pending| => (pending[i], Closed))
  }

  /** A take finds no slot: its wait was cut short, at a time when 120 writes so far were inside the window. */
  ghost predicate Denied(e: Select, stamps: seq<int>, start: int) {
    e.Take? && !e.completes && exists m, t | 0 <= m <= |stamps| && start <= t :: !RoomAt(stamps[..m], t)
  }

  function CountSent(answers: seq<(nat, Answer)>): nat {
    if answers == [] then 0
    else
      var n := |answers| - 1;
      CountSent(answers[..n]) + if answers[n].1 == Sent then 1 else 0
  }

  lemma {:induction false} NoneSent(answers: seq<(nat, Answer)>, pending: seq<nat>)
    ensures CountSent(answers + AllClosed(pending)) == CountSent(answers)
  {
    if pending == [] {
      assert answers + AllClosed(pending) == answers;
    } else {
      var n := |pending| - 1;
      NoneSent(answers, pending[..n]);
      assert (answers + AllClosed(pending))[..|answers| + n] == answers + AllClosed(pending[..n]);
    }
  }

  lemma Unserved(answers: seq<(nat, Answer)>, queue: seq<nat>)
    ensures Serve(answers, queue, [], []) == Served(answers, queue, false)
  {
  }

  lemma OneEvent(after: Served, answers: seq<(nat, Answer)>, queue: seq<nat>, script: seq<Select>, slots: seq<bool>,
                 e: Select, slot: bool)
    requires |slots| == |script| && !Serve(answers, queue, script, slots).closed
    requires after == ServeOne(Serve(answers, queue, script, slots), e, slot)
    ensures after == Serve(answers, queue, script + [e], slots + [slot]) && (after.closed <==> e == Done)
  {
    assert (script + [e])[..|script|] == script && (slots + [slot])[..|slots|] == slots;
  }

  /** Nothing changes once the queue has closed. */
  lemma {:induction false} ServeClosed(answers: seq<(nat, Answer)>, queue: seq<nat>, script: seq<Select>, slots: seq<bool>, n: nat)
    requires n <= |script| == |slots| && Serve(answers, queue, script[..n], slots[..n]).closed
    ensures Serve(answers, queue, script, slots) == Serve(answers, queue, script[..n], slots[..n])
  {
    if n < |script| {
      var m := |script| - 1;
      assert script[..m][..n] == script[..n] && slots[..m][..n] == slots[..n];
      ServeClosed(answers, queue, script[..m], slots[..m], n);
    } else {
      assert script[..n] == script && slots[..n] == slots;
    }
  }

  lemma Padded(answers: seq<(nat, Answer)>, queue: seq<nat>, script: seq<Select>, slots: seq<bool>) returns (padded: seq<bool>)
    requires |slots| <= |script| && Serve(answers, queue, script[..|slots|], slots).closed
    ensures |padded| == |script| && slots <= padded && forall k | |slots| <= k < |padded| :: padded[k]
    ensures Serve(answers, queue, script, padded) == Serve(answers, queue, script[..|slots|], slots)
  {
    padded := slots + seq(|script| - |slots|, i => true);
    assert padded[..|slots|] == slots;
    ServeClosed(answers, queue, script, padded, |slots|);
  }

  /** Denials stand while more is written. */
  lemma DeniedStill(script: seq<Select>, slots: seq<bool>, before: seq<int>, after: seq<int>, start: int)
    requires |slots| <= |script| && before <= after
    requires forall k | 0 <= k < |slots| && !slots[k] :: Denied(script[k], before, start)
    ensures forall k | 0 <= k < |slots| && !slots[k] :: Denied(script[k], after, start)
  {
    forall k | 0 <= k < |slots| && !slots[k] ensures Denied(script[k], after, start) {
      var m, t :| 0 <= m <= |before| && start <= t && !RoomAt(before[..m], t);
      assert after[..m] == before[..m];
    }
  }

  function Ids(answers: seq<(nat, Answer)>): (r: seq<nat>)
    ensures |r| == |answers| && forall i | 0 <= i < |r| :: r[i] == answers[i].0
  {
    seq(|answers|, i requires 0 <= i < |answers| => answers[i].0)
  }

  lemma IdsAppend(answers: seq<(nat, Answer)>, id: nat, a: Answer)
    ensures Ids(answers + [(id, a)]) == Ids(answers) + [id]
  {
  }

  /** The list holds the last stamps, and every stamp before them is out of the window. */
  ghost predicate Remembers(sentAt: seq<int>, stamps: seq<int>, now: int) {
    && |sentAt| <= |stamps| && sentAt == stamps[|stamps| - |sentAt|..]
    && forall i | 0 <= i < |stamps| - |sentAt| :: stamps[i] + SEND_WINDOW <= now
  }

  /** That is fewer than 120 stamps in the 60 seconds up to now. */
  lemma RoomIsCounted(stamps: seq<int>, now: int)
    requires Nondecreasing(stamps) && UpTo(stamps, now)
    ensures RoomAt(stamps, now) <==> CountWithin(stamps, now - SEND_WINDOW + 1, now + 1) < SEND_LIMIT
  {
    var i, j := WithinIsContiguous(stamps, now - SEND_WINDOW + 1, now + 1);
    var n := |stamps|;
    if n >= SEND_LIMIT {
      assert now - SEND_WINDOW + 1 <= stamps[n - SEND_LIMIT] < now + 1 <==> i <= n - SEND_LIMIT < j;
      assert now - SEND_WINDOW + 1 <= stamps[n - 1] < now + 1 <==> i <= n - 1 < j;
      assert stamps[n - SEND_LIMIT] <= stamps[n - 1];
      if i < j {
        assert now - SEND_WINDOW + 1 <= stamps[j - 1] <= stamps[n - 1];
      }
    }
  }

  /** Once pruned, the list is full exactly when there is no room. */
  lemma RoomIsInList(sentAt: seq<int>, stamps: seq<int>, now: int)
    requires Remembers(sentAt, stamps, now) && |sentAt| <= SEND_LIMIT && (sentAt != [] ==> sentAt[0] + SEND_WINDOW > now)
    ensures RoomAt(stamps, now) <==> |sentAt| < SEND_LIMIT
  {
    if |sentAt| == SEND_LIMIT {
      assert sentAt[0] == stamps[|stamps| - SEND_LIMIT];
    }
  }

  lemma RememberedLater(sentAt: seq<int>, stamps: seq<int>, before: int, now: int)
    requires Remembers(sentAt, stamps, before) && UpTo(stamps, before) && before <= now
    ensures Remembers(sentAt, stamps, now) && UpTo(stamps, now)
  {
  }

  predicate OneMore(before: seq<int>, after: seq<int>, t: int) {
    after == before + [t]
  }

  predicate UpTo(stamps: seq<int>, now: int) {
    forall i | 0 <= i < |stamps| :: stamps[i] <= now
  }

  lemma RememberOneMore(sentAt: seq<int>, stamps: seq<int>, now: int, stamp: int)
    requires Remembers(sentAt, stamps, now)
    ensures Remembers(sentAt + [stamp], stamps + [stamp], now)
  {
    var k := |stamps| - |sentAt|;
    assert stamps[k..] + [stamp] == (stamps + [stamp])[k..];
  }

  /** A write comes a whole window after the stamp of the write 120 places back. */
  ghost predicate Spread(wire: seq<int>, stamps: seq<int>) {
    && |wire| == |stamps|
    && (forall i | 0 <= i < |wire| :: wire[i] <= stamps[i])
    && (forall i, j | 0 <= i < j < |wire| :: stamps[i] <= wire[j])
    && forall j | SEND_LIMIT <= j < |wire| :: Later(wire, stamps, j)
  }

  predicate Later(wire: seq<int>, stamps: seq<int>, j: int)
    requires SEND_LIMIT <= j < |wire| == |stamps|
  {
    stamps[j - SEND_LIMIT] + SEND_WINDOW <= wire[j]
  }

  /** Fewer than 120 writes were stamped inside the window that ends now. */
  predicate RoomAt(stamps: seq<int>, now: int) {
    |stamps| >= SEND_LIMIT ==> stamps[|stamps| - SEND_LIMIT] + SEND_WINDOW <= now
  }

  /** At most 120 writes in the 60 seconds that begin at a time. */
  predicate WithinLimit(wire: seq<int>, from: int) {
    CountWithin(wire, from, from + SEND_WINDOW) <= SEND_LIMIT
  }

  lemma SpreadStep(wire: seq<int>, stamps: seq<int>, at: int, stamp: int)
    requires Spread(wire, stamps) && at <= stamp
    requires forall i | 0 <= i < |stamps| :: stamps[i] <= at
    requires |stamps| >= SEND_LIMIT ==> stamps[|stamps| - SEND_LIMIT] + SEND_WINDOW <= at
    ensures Spread(wire + [at], stamps + [stamp])
  {
    var wire', stamps' := wire + [at], stamps + [stamp];
    forall j | SEND_LIMIT <= j < |wire'| ensures Later(wire', stamps', j) {
      assert j < |wire| ==> Later(wire, stamps, j);
    }
  }

  /** A write in a slot keeps the history spread and the list faithful to it. */
  lemma WriteStep(sentAt: seq<int>, wire: seq<int>, stamps: seq<int>, at: int, stamp: int)
    requires Remembers(sentAt, stamps, at) && |sentAt| < SEND_LIMIT && Spread(wire, stamps) && UpTo(stamps, at)
    requires at <= stamp
    ensures Remembers(sentAt + [stamp], stamps + [stamp], stamp)
    ensures Spread(wire + [at], stamps + [stamp]) && UpTo(stamps + [stamp], stamp)
  {
    SpreadStep(wire, stamps, at, stamp);
    RememberOneMore(sentAt, stamps, at, stamp);
  }

  /** Writes 120 places apart are 60 seconds apart, so an interval of 60 seconds holds at most 120. */
  lemma SpreadBoundsWrites(wire: seq<int>, stamps: seq<int>, from: int)
    requires Spread(wire, stamps)
    ensures Spaced(wire, SEND_LIMIT, SEND_WINDOW) && Spaced(stamps, SEND_LIMIT, SEND_WINDOW)
    ensures WithinLimit(wire, from)
  {
    forall i: nat | i + SEND_LIMIT < |wire|
      ensures SpacedAt(wire, i, SEND_LIMIT, SEND_WINDOW) && SpacedAt(stamps, i, SEND_LIMIT, SEND_WINDOW)
    {
      assert Later(wire, stamps, i + SEND_LIMIT);
    }
    assert Nondecreasing(wire);
    SpacingBoundsCount(wire, SEND_LIMIT, SEND_WINDOW, from);
  }
}
