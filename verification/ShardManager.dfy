/**
 Opening and closing the shard manager (sharding.go) by any number of concurrent callers. Each critical section,
 goroutine event and channel event is one atomic step; a channel is a number, new ones count up, and the
 number of an open cycle is its openDone channel.
 */
module ShardManager {
  import opened Base

  datatype Status = Closed | Opening | Opened | Closing

  /** The fields of ShardManager that its mutex protects; cancel names the cycle whose lifetime it ends. */
  datatype Shared = Shared(
    status: Status,
    cancel: Option<nat>,
    openDone: Option<nat>,
    closeDone: Option<nat>,
    cleanupCompleted: bool)

  const CREATED := Shared(Closed, None, None, None, false)

  // ---- The critical sections -----------------------------------------------------------------

  function OpenBegin(m: Shared, ch: nat): Shared
    requires m.status.Closed?
  {
    m.(status := Opening, cancel := Some(ch), openDone := Some(ch), cleanupCompleted := false)
  }

  /** Whether Open succeeds once its shards have all answered. */
  predicate OpenSucceeds(m: Shared, failed: bool) {
    !failed && m.status != Closing
  }

  function OpenSucceeded(m: Shared): Shared {
    m.(status := Opened, openDone := None)
  }

  function OpenFinish(m: Shared): Shared {
    m.(cleanupCompleted := true, cancel := None, openDone := None,
       status := if m.status == Opening then Closed else m.status)
  }

  function CloseBegin(m: Shared, ch: nat): Shared
    requires m.status.Opening? || m.status.Opened?
  {
    m.(status := Closing, closeDone := Some(ch))
  }

  function CloseFinish(m: Shared): Shared {
    Shared(Closed, None, None, None, true)
  }

  datatype CloseStart = Nothing | WaitFor(closeDone: Option<nat>) | Own(cancel: Option<nat>, openDone: Option<nat>)

  /** The manager itself: one method per critical section of Open and Close. */
  class Manager {
    var status: Status
    var cancel: Option<nat>
    var openDone: Option<nat>
    var closeDone: Option<nat>
    var cleanupCompleted: bool

    function View(): Shared
      reads this
    {
      Shared(status, cancel, openDone, closeDone, cleanupCompleted)
    }

    constructor ()
      ensures View() == CREATED
    {
      status, cancel, openDone, closeDone, cleanupCompleted := Closed, None, None, None, false;
    }

    method BeginOpen(ch: nat) returns (began: bool)
      modifies this
      ensures began <==> old(status) == Closed
      ensures View() == if old(status) == Closed then OpenBegin(old(View()), ch) else old(View())
      ensures began ==> status == Opening && cancel == openDone == Some(ch) && !cleanupCompleted
    {
      if status != Closed {
        return false;
      }
      status := Opening;
      cancel := Some(ch);
      openDone := Some(ch);
      cleanupCompleted := false;
      return true;
    }

    method DecideOpen(failed: bool) returns (succeeded: bool)
      modifies this
      ensures succeeded <==> !failed && old(status) != Closing
      ensures View() == if succeeded then old(View()).(status := Opened, openDone := None) else old(View())
    {
      var closing := status == Closing;
      if !failed && !closing {
        status := Opened;
        openDone := None;
        return true;
      }
      return false;
    }

    method FinishOpen()
      modifies this
      ensures View() == OpenFinish(old(View()))
      ensures cleanupCompleted && cancel == openDone == None && closeDone == old(closeDone)
      ensures status == if old(status) == Opening then Closed else old(status)
    {
      cleanupCompleted := true;
      cancel := None;
      openDone := None;
      if status == Opening {
        status := Closed;
      }
    }

    method BeginClose(ch: nat) returns (r: CloseStart)
      modifies this
      ensures old(status) == Closed ==> r == Nothing && View() == old(View())
      ensures old(status) == Closing ==> r == WaitFor(old(closeDone)) && View() == old(View())
      ensures old(status) in {Opening, Opened} ==>
                r == Own(old(cancel), old(openDone)) && View() == CloseBegin(old(View()), ch) && status == Closing
                && closeDone == Some(ch) && cancel == old(cancel) && openDone == old(openDone)
    {
      match status
      case Closed => return Nothing;
      case Closing => return WaitFor(closeDone);
      case _ =>
        status := Closing;
        closeDone := Some(ch);
        return Own(cancel, openDone);
    }

    method ReadCleanup() returns (done: bool)
      ensures done == cleanupCompleted
    {
      done := cleanupCompleted;
    }

    method FinishClose()
      modifies this
      ensures View() == CloseFinish(old(View()))
      ensures status == Closed && cleanupCompleted && cancel == openDone == closeDone == None
    {
      status := Closed;
      cancel := None;
      openDone := None;
      cleanupCompleted := true;
      closeDone := None;
    }
  }

  // ---- Callers -------------------------------------------------------------------------------

  /**
   Where a caller stands. An Open joins its shard goroutines (live of them still running), decides, and on failure
   cleans up and finishes. A Close that owns the closing cancels, waits for a pending Open, reads the cleanup flag,
   cleans up if need be, and finishes; other Closes wait for the owner.
   */
  datatype Caller =
    | Joining(ch: nat, live: nat, failed: bool)
    | Deciding(ch: nat, failed: bool)
    | OpenCleanup(ch: nat)
    | OpenCleaning(ch: nat)
    | OpenFinishing(ch: nat)
    | OpenReturned(succeeded: bool)
    | Cancelling(ch: nat, cancel: Option<nat>, openDone: Option<nat>)
    | AwaitingOpen(ch: nat, openDone: Option<nat>)
    | ReadingFlag(ch: nat)
    | CloseCleanup(ch: nat)
    | CloseCleaning(ch: nat)
    | CloseFinishing(ch: nat)
    | AwaitingClose(closeDone: Option<nat>)
    | CloseReturned
  {
    predicate Opens() {
      Joining? || Deciding? || OpenCleanup? || OpenCleaning? || OpenFinishing?
    }

    predicate Closes() {
      Cancelling? || AwaitingOpen? || ReadingFlag? || CloseCleanup? || CloseCleaning? || CloseFinishing?
    }
  }

  /**
   Everything there is: the manager's fields, every caller so far, the cancelled lifetimes, the closed channels, and
   for the record which caller is opening, which owns the closing, the current cycle, how often closeSessions was
   started for each cycle, and whether a closed channel was ever closed again.
   */
  datatype World = World(
    m: Shared,
    callers: map<nat, Caller>,
    channels: nat,
    closed: set<nat>,
    cancelled: set<nat>,
    opener: Option<nat>,
    closer: Option<nat>,
    cycle: Option<nat>,
    cycles: set<nat>,
    cleanups: multiset<nat>,
    panicked: bool)

  const START := World(CREATED, map[], 0, {}, {}, None, None, None, {}, multiset{}, false)

  function CloseChannel(w: World, ch: nat): World {
    w.(closed := w.closed + {ch}, panicked := w.panicked || ch in w.closed)
  }

  function Move(w: World, i: nat, c: Caller): World {
    w.(callers := w.callers[i := c])
  }

  function Cancel(w: World, lifetime: Option<nat>): World {
    if lifetime.Some? then w.(cancelled := w.cancelled + {lifetime.value}) else w
  }

  datatype Action =
    | CallOpen(i: nat)
    | ShardAnswers(i: nat, ok: bool)
    | JoinShards(i: nat)
    | Decide(i: nat)
    | StartCleanup(i: nat)
    | EndCleanup(i: nat)
    | FinishOpening(i: nat)
    | CallClose(i: nat)
    | CancelLifetime(i: nat)
    | SeeOpenDone(i: nat)
    | ReadFlag(i: nat)
    | FinishClosing(i: nat)
    | SeeCloseDone(i: nat)
    | ParentCancelled(lifetime: nat)

  /** When a step can be taken; a receive from a channel needs it closed. */
  predicate Enabled(w: World, a: Action) {
    match a
    case CallOpen(i) => i !in w.callers
    case ShardAnswers(i, _) => i in w.callers && w.callers[i].Joining? && w.callers[i].live > 0
    case JoinShards(i) => i in w.callers && w.callers[i].Joining? && w.callers[i].live == 0
    case Decide(i) => i in w.callers && w.callers[i].Deciding?
    case StartCleanup(i) => i in w.callers && (w.callers[i].OpenCleanup? || w.callers[i].CloseCleanup?)
    case EndCleanup(i) => i in w.callers && (w.callers[i].OpenCleaning? || w.callers[i].CloseCleaning?)
    case FinishOpening(i) => i in w.callers && w.callers[i].OpenFinishing?
    case CallClose(i) => i !in w.callers
    case CancelLifetime(i) => i in w.callers && w.callers[i].Cancelling?
    case SeeOpenDone(i) =>
      && i in w.callers && w.callers[i].AwaitingOpen?
      && (w.callers[i].openDone.Some? ==> w.callers[i].openDone.value in w.closed)
    case ReadFlag(i) => i in w.callers && w.callers[i].ReadingFlag?
    case FinishClosing(i) => i in w.callers && w.callers[i].CloseFinishing?
    case SeeCloseDone(i) =>
      && i in w.callers && w.callers[i].AwaitingClose?
      && w.callers[i].closeDone.Some? && w.callers[i].closeDone.value in w.closed
    case ParentCancelled(_) => true
  }

  /** One step, with the given number of shard sessions. */
  function Apply(w: World, shards: nat, a: Action): World
    requires Enabled(w, a)
  {
    match a
    case CallOpen(i) =>
      if w.m.status != Closed then Move(w, i, OpenReturned(false))
      else
        var ch := w.channels;
        Move(w, i, Joining(ch, shards, false)).(m := OpenBegin(w.m, ch), channels := ch + 1,
                                               opener := Some(i), cycle := Some(ch), cycles := w.cycles + {ch})
    case ShardAnswers(i, ok) =>
      var c := w.callers[i];
      var w1 := Move(w, i, c.(live := c.live - 1, failed := c.failed || !ok));
      if ok then w1 else Cancel(w1, Some(c.ch))
    case JoinShards(i) =>
      var c := w.callers[i];
      Move(w, i, Deciding(c.ch, c.failed || c.ch in w.cancelled))
    case Decide(i) =>
      var c := w.callers[i];
      if OpenSucceeds(w.m, c.failed)
      then CloseChannel(Move(w, i, OpenReturned(true)).(m := OpenSucceeded(w.m), opener := None), c.ch)
      else Move(w, i, OpenCleanup(c.ch))
    case StartCleanup(i) =>
      var c := w.callers[i];
      var w1 := Move(w, i, if c.OpenCleanup? then OpenCleaning(c.ch) else CloseCleaning(c.ch));
      w1.(cleanups := w.cleanups + (if w.cycle.Some? then multiset{w.cycle.value} else multiset{}))
    case EndCleanup(i) =>
      var c := w.callers[i];
      Move(w, i, if c.OpenCleaning? then OpenFinishing(c.ch) else CloseFinishing(c.ch))
    case FinishOpening(i) =>
      CloseChannel(Move(w, i, OpenReturned(false)).(m := OpenFinish(w.m), opener := None), w.callers[i].ch)
    case CallClose(i) =>
      if w.m.status.Closed? then Move(w, i, CloseReturned)
      else if w.m.status.Closing? then Move(w, i, AwaitingClose(w.m.closeDone))
      else
        var ch := w.channels;
        Move(w, i, Cancelling(ch, w.m.cancel, w.m.openDone)).(m := CloseBegin(w.m, ch), channels := ch + 1,
                                                             closer := Some(i))
    case CancelLifetime(i) =>
      var c := w.callers[i];
      Cancel(Move(w, i, AwaitingOpen(c.ch, c.openDone)), c.cancel)
    case SeeOpenDone(i) => Move(w, i, ReadingFlag(w.callers[i].ch))
    case ReadFlag(i) =>
      Move(w, i, if w.m.cleanupCompleted then CloseFinishing(w.callers[i].ch) else CloseCleanup(w.callers[i].ch))
    case FinishClosing(i) =>
      CloseChannel(Move(w, i, CloseReturned).(m := CloseFinish(w.m), closer := None), w.callers[i].ch)
    case SeeCloseDone(i) => Move(w, i, CloseReturned)
    case ParentCancelled(lifetime) => Cancel(w, Some(lifetime))
  }

  /** A run of any callers in any interleaving: the worlds it goes through, one step at a time. */
  ghost predicate Trace(shards: nat, worlds: seq<World>, actions: seq<Action>) {
    && |worlds| == |actions| + 1 && worlds[0] == START
    && (forall k {:trigger actions[k]} | 0 <= k < |actions| ::
          Enabled(worlds[k], actions[k]) && worlds[k + 1] == Apply(worlds[k], shards, actions[k]))
  }

  // ---- The invariant -------------------------------------------------------------------------

  /** Exactly the recorded opener and closer are inside their protocols. */
  ghost predicate Roles(w: World) {
    && (forall i | i in w.callers :: w.callers[i].Opens() <==> w.opener == Some(i))
    && (forall i | i in w.callers :: w.callers[i].Closes() <==> w.closer == Some(i))
    && (w.opener.Some? ==> w.opener.value in w.callers)
    && (w.closer.Some? ==> w.closer.value in w.callers)
  }

  predicate StatusAgrees(w: World) {
    match w.m.status
    case Closed => w.opener.None? && w.closer.None?
    case Opening => w.opener.Some? && w.closer.None?
    case Opened => w.opener.None? && w.closer.None? && w.cycle.Some? && w.cleanups[w.cycle.value] == 0
                   && !w.m.cleanupCompleted && w.m.openDone.None?
    case Closing => w.closer.Some?
  }

  /** The opener holds the current cycle, whose channel is open and whose cleanup it has started or not. */
  predicate OpenerAgrees(w: World) {
    w.opener.Some? && w.opener.value in w.callers && w.callers[w.opener.value].Opens() ==>
      var c := w.callers[w.opener.value];
      && w.cycle == Some(c.ch) && w.m.openDone == Some(c.ch) && c.ch !in w.closed
      && (w.m.status.Opening? || w.m.status.Closing?)
      && !w.m.cleanupCompleted
      && w.cleanups[c.ch] == if c.OpenCleaning? || c.OpenFinishing? then 1 else 0
  }

  /** The owner of the closing waits exactly for the pending Open, and cleans up only if no Open did. */
  predicate CloserAgrees(w: World) {
    w.closer.Some? && w.closer.value in w.callers && w.callers[w.closer.value].Closes() ==>
      var c := w.callers[w.closer.value];
      && w.m.status.Closing? && w.m.closeDone == Some(c.ch) && c.ch !in w.closed && w.cycle.Some?
      && (w.opener.None? ==>
            match c
            case CloseCleaning(_) => w.cleanups[w.cycle.value] == 1
            case CloseFinishing(_) => w.cleanups[w.cycle.value] == 1
            case CloseCleanup(_) => w.cleanups[w.cycle.value] == 0
            case _ => w.cleanups[w.cycle.value] == if w.m.cleanupCompleted then 1 else 0)
      && (c.Cancelling? || c.AwaitingOpen? ==>
            if c.openDone.Some? then c.openDone == w.cycle && (w.opener.None? <==> c.openDone.value in w.closed)
            else w.opener.None?)
      && (!c.Cancelling? && !c.AwaitingOpen? ==> w.opener.None?)
  }

  /** Every channel made is closed, or belongs to the opener or the closer. */
  ghost predicate ChannelsAgree(w: World) {
    && !w.panicked
    && (forall ch | ch in w.closed :: ch < w.channels)
    && (forall i | i in w.callers && (w.callers[i].Opens() || w.callers[i].Closes()) :: w.callers[i].ch < w.channels)
    && (forall ch | 0 <= ch < w.channels && ch !in w.closed :: HeldBy(w, w.opener, ch) || HeldBy(w, w.closer, ch))
    && (w.opener.Some? && w.closer.Some? && w.opener.value in w.callers && w.closer.value in w.callers
        && w.callers[w.opener.value].Opens() && w.callers[w.closer.value].Closes()
        ==> w.callers[w.opener.value].ch != w.callers[w.closer.value].ch)
    && (forall i | i in w.callers && w.callers[i].AwaitingClose? :: WaiterServed(w, w.callers[i].closeDone))
  }

  predicate HeldBy(w: World, owner: Option<nat>, ch: nat) {
    && owner.Some? && owner.value in w.callers
    && (w.callers[owner.value].Opens() || w.callers[owner.value].Closes())
    && w.callers[owner.value].ch == ch
  }

  /** A waiter's channel is closed already or is the one the owner of the closing will close. */
  predicate WaiterServed(w: World, ch: Option<nat>) {
    ch.Some? && (ch.value in w.closed || (w.m.status.Closing? && w.m.closeDone == ch))
  }

  /** closeSessions ran once for every finished cycle and at most once for the current one. */
  ghost predicate CyclesAgree(w: World) {
    && (forall ch | ch in w.cycles :: ch < w.channels)
    && (w.cycle.Some? ==> w.cycle.value in w.cycles)
    && (forall ch | ch in w.cycles && w.cycle != Some(ch) :: w.cleanups[ch] == 1)
    && (forall ch | ch in w.cleanups :: ch in w.cycles)
    && (w.m.status.Closed? && w.cycle.Some? ==> w.cleanups[w.cycle.value] == 1)
  }

  ghost predicate Inv(w: World) {
    Roles(w) && StatusAgrees(w) && OpenerAgrees(w) && CloserAgrees(w) && ChannelsAgree(w) && CyclesAgree(w)
  }

  lemma InvStart()
    ensures Inv(START)
  {
  }

  /** A caller outside both protocols may move freely, as long as it does not wait for a channel nobody will close. */
  lemma InvBystander(w: World, i: nat, c: Caller)
    requires Inv(w) && !c.Opens() && !c.Closes()
    requires i in w.callers ==> !w.callers[i].Opens() && !w.callers[i].Closes()
    requires c.AwaitingClose? ==> WaiterServed(w, c.closeDone)
    ensures Inv(Move(w, i, c))
  {
    assert w.opener != Some(i) && w.closer != Some(i);
  }

  /** Cancelling a lifetime changes nothing else. */
  lemma InvCancel(w: World, lifetime: Option<nat>)
    requires Inv(w)
    ensures Inv(Cancel(w, lifetime))
  {
  }

  /** The opener moves on without touching the manager, its cycle, or its cleanup. */
  lemma InvOpenerMoves(w: World, i: nat, c: Caller)
    requires Inv(w) && w.opener == Some(i) && c.Opens() && c.ch == w.callers[i].ch
    requires c.OpenCleaning? || c.OpenFinishing? <==> w.callers[i].OpenCleaning? || w.callers[i].OpenFinishing?
    ensures Inv(Move(w, i, c))
  {
    assert w.callers[i].Opens();
    assert w.closer != Some(i);
  }

  lemma InvBeginOpen(w: World, shards: nat, i: nat)
    requires Inv(w) && i !in w.callers && w.m.status.Closed?
    ensures Inv(Apply(w, shards, CallOpen(i)))
  {
    assert w.channels !in w.cleanups;
  }

  lemma InvDecide(w: World, shards: nat, i: nat)
    requires Inv(w) && Enabled(w, Decide(i))
    ensures Inv(Apply(w, shards, Decide(i)))
  {
    if !OpenSucceeds(w.m, w.callers[i].failed) {
      InvOpenerMoves(w, i, OpenCleanup(w.callers[i].ch));
    }
  }

  lemma InvStartCleanup(w: World, shards: nat, i: nat)
    requires Inv(w) && Enabled(w, StartCleanup(i))
    ensures Inv(Apply(w, shards, StartCleanup(i)))
  {
  }

  lemma InvEndCleanup(w: World, shards: nat, i: nat)
    requires Inv(w) && Enabled(w, EndCleanup(i))
    ensures Inv(Apply(w, shards, EndCleanup(i)))
  {
    if w.callers[i].OpenCleaning? {
      InvOpenerMoves(w, i, OpenFinishing(w.callers[i].ch));
    }
  }

  lemma InvFinishOpening(w: World, shards: nat, i: nat)
    requires Inv(w) && Enabled(w, FinishOpening(i))
    ensures Inv(Apply(w, shards, FinishOpening(i)))
  {
  }

  lemma InvBeginClose(w: World, shards: nat, i: nat)
    requires Inv(w) && i !in w.callers && (w.m.status.Opening? || w.m.status.Opened?)
    ensures Inv(Apply(w, shards, CallClose(i)))
  {
  }

  lemma InvCancelLifetime(w: World, shards: nat, i: nat)
    requires Inv(w) && Enabled(w, CancelLifetime(i))
    ensures Inv(Apply(w, shards, CancelLifetime(i)))
  {
    var c := w.callers[i];
    var w1 := Move(w, i, AwaitingOpen(c.ch, c.openDone));
    assert Inv(w1);
    InvCancel(w1, c.cancel);
  }

  lemma InvSeeOpenDone(w: World, shards: nat, i: nat)
    requires Inv(w) && Enabled(w, SeeOpenDone(i))
    ensures Inv(Apply(w, shards, SeeOpenDone(i)))
  {
  }

  lemma InvReadFlag(w: World, shards: nat, i: nat)
    requires Inv(w) && Enabled(w, ReadFlag(i))
    ensures Inv(Apply(w, shards, ReadFlag(i)))
  {
  }

  lemma InvFinishClosing(w: World, shards: nat, i: nat)
    requires Inv(w) && Enabled(w, FinishClosing(i))
    ensures Inv(Apply(w, shards, FinishClosing(i)))
  {
  }

  lemma InvCallOpen(w: World, shards: nat, i: nat)
    requires Inv(w) && i !in w.callers
    ensures Inv(Apply(w, shards, CallOpen(i)))
  {
    if w.m.status.Closed? {
      InvBeginOpen(w, shards, i);
    } else {
      InvBystander(w, i, OpenReturned(false));
    }
  }

  lemma InvShardAnswers(w: World, shards: nat, i: nat, ok: bool)
    requires Inv(w) && Enabled(w, ShardAnswers(i, ok))
    ensures Inv(Apply(w, shards, ShardAnswers(i, ok)))
  {
    var c := w.callers[i];
    var c' := c.(live := c.live - 1, failed := c.failed || !ok);
    InvOpenerMoves(w, i, c');
    InvCancel(Move(w, i, c'), Some(c.ch));
  }

  lemma InvJoinShards(w: World, shards: nat, i: nat)
    requires Inv(w) && Enabled(w, JoinShards(i))
    ensures Inv(Apply(w, shards, JoinShards(i)))
  {
    var c := w.callers[i];
    InvOpenerMoves(w, i, Deciding(c.ch, c.failed || c.ch in w.cancelled));
  }

  lemma InvCallClose(w: World, shards: nat, i: nat)
    requires Inv(w) && i !in w.callers
    ensures Inv(Apply(w, shards, CallClose(i)))
  {
    if w.m.status.Closed? {
      InvBystander(w, i, CloseReturned);
    } else if w.m.status.Closing? {
      assert WaiterServed(w, w.m.closeDone) by {
        assert w.callers[w.closer.value].Closes();
      }
      InvBystander(w, i, AwaitingClose(w.m.closeDone));
    } else {
      InvBeginClose(w, shards, i);
    }
  }

  /** Every step of every caller keeps the invariant. */
  lemma InvStep(w: World, shards: nat, a: Action)
    requires Inv(w) && Enabled(w, a)
    ensures Inv(Apply(w, shards, a))
  {
    if a.CallOpen? { InvCallOpen(w, shards, a.i); }
    else if a.ShardAnswers? { InvShardAnswers(w, shards, a.i, a.ok); }
    else if a.JoinShards? { InvJoinShards(w, shards, a.i); }
    else if a.Decide? { InvDecide(w, shards, a.i); }
    else if a.StartCleanup? { InvStartCleanup(w, shards, a.i); }
    else if a.EndCleanup? { InvEndCleanup(w, shards, a.i); }
    else if a.FinishOpening? { InvFinishOpening(w, shards, a.i); }
    else { InvCloseStep(w, shards, a); }
  }

  lemma InvCloseStep(w: World, shards: nat, a: Action)
    requires Inv(w) && Enabled(w, a)
    requires a.CallClose? || a.CancelLifetime? || a.SeeOpenDone? || a.ReadFlag? || a.FinishClosing? || a.SeeCloseDone?
             || a.ParentCancelled?
    ensures Inv(Apply(w, shards, a))
  {
    match a
    case CallClose(i) => InvCallClose(w, shards, i);
    case CancelLifetime(i) => InvCancelLifetime(w, shards, i);
    case SeeOpenDone(i) => InvSeeOpenDone(w, shards, i);
    case ReadFlag(i) => InvReadFlag(w, shards, i);
    case FinishClosing(i) => InvFinishClosing(w, shards, i);
    case SeeCloseDone(i) => InvBystander(w, i, CloseReturned);
    case ParentCancelled(lifetime) => InvCancel(w, Some(lifetime));
  }

  lemma {:induction false} InvTrace(shards: nat, worlds: seq<World>, actions: seq<Action>, k: nat)
    requires Trace(shards, worlds, actions) && k < |worlds|
    ensures Inv(worlds[k])
  {
    if k == 0 {
      InvStart();
    } else {
      InvTrace(shards, worlds, actions, k - 1);
      assert Enabled(worlds[k - 1], actions[k - 1]);
      InvStep(worlds[k - 1], shards, actions[k - 1]);
    }
  }

  // ---- What holds in every run ---------------------------------------------------------------

  /**
   closeSessions runs at most once for each open cycle; by the time the manager is Closed it has run exactly once for
   every cycle, and no Open is left anywhere in its protocol, so no shard-open goroutine still runs.
   */
  lemma CleanupOncePerCycle(shards: nat, worlds: seq<World>, actions: seq<Action>, k: nat)
    requires Trace(shards, worlds, actions) && k < |worlds|
    ensures var w := worlds[k];
            && (forall ch | ch in w.cycles :: w.cleanups[ch] <= 1)
            && (w.m.status.Closed? ==>
                  && (forall ch | ch in w.cycles :: w.cleanups[ch] == 1)
                  && (forall i | i in w.callers :: !w.callers[i].Joining?))
  {
    InvTrace(shards, worlds, actions, k);
    var w := worlds[k];
    if w.cycle.Some? {
      CurrentCleanupOnce(w);
    }
  }

  lemma CurrentCleanupOnce(w: World)
    requires Inv(w) && w.cycle.Some?
    ensures w.cleanups[w.cycle.value] <= 1
  {
    if w.opener.Some? {
      assert w.callers[w.opener.value].Opens();
    } else if w.closer.Some? {
      assert w.callers[w.closer.value].Closes();
    }
  }

  /**
   No channel is ever closed twice, and every openDone or closeDone ever made is closed unless the one Open or Close it
   belongs to is still on its way.
   */
  lemma ChannelsClosedOnce(shards: nat, worlds: seq<World>, actions: seq<Action>, k: nat)
    requires Trace(shards, worlds, actions) && k < |worlds|
    ensures var w := worlds[k];
            && !w.panicked
            && (forall ch | 0 <= ch < w.channels ::
                  ch !in w.closed <==> HeldBy(w, w.opener, ch) || HeldBy(w, w.closer, ch))
  {
    InvTrace(shards, worlds, actions, k);
    var w := worlds[k];
    forall ch | 0 <= ch < w.channels && (HeldBy(w, w.opener, ch) || HeldBy(w, w.closer, ch)) ensures ch !in w.closed {
      if HeldBy(w, w.opener, ch) {
        assert w.callers[w.opener.value].Opens();
      } else {
        assert w.callers[w.closer.value].Closes();
      }
    }
  }

  /** While Closing there is exactly one owning Close, and every waiting Close waits for a channel it will close. */
  lemma OneOwnerWhileClosing(shards: nat, worlds: seq<World>, actions: seq<Action>, k: nat)
    requires Trace(shards, worlds, actions) && k < |worlds|
    ensures var w := worlds[k];
            && (w.m.status.Closing? <==> exists i :: i in w.callers && w.callers[i].Closes())
            && (forall i, j | i in w.callers && j in w.callers && w.callers[i].Closes() && w.callers[j].Closes() :: i == j)
            && (forall i, j | i in w.callers && j in w.callers && w.callers[i].Opens() && w.callers[j].Opens() :: i == j)
            && (forall i | i in w.callers && w.callers[i].AwaitingClose? :: WaiterServed(w, w.callers[i].closeDone))
            && (w.closer.Some? ==> w.closer.value in w.callers && w.callers[w.closer.value].Closes()
                                   && w.m.closeDone == Some(w.callers[w.closer.value].ch))
  {
    InvTrace(shards, worlds, actions, k);
    var w := worlds[k];
    if w.closer.Some? {
      assert w.callers[w.closer.value].Closes();
    }
  }

  // ---- When an Open succeeds -----------------------------------------------------------------

  /** Some step in a stretch of the run. */
  predicate Happens(actions: seq<Action>, from: nat, to: nat, a: Action)
    requires to <= |actions|
  {
    exists n | from <= n < to :: actions[n] == a
  }

  predicate CloseCalled(actions: seq<Action>, from: nat, to: nat)
    requires to <= |actions|
  {
    exists n | from <= n < to :: actions[n].CallClose?
  }

  /** How many of a caller's shards have answered in a stretch of the run. */
  function Answers(actions: seq<Action>, i: nat, from: nat, to: nat): nat
    requires from <= to <= |actions|
  {
    if from == to then 0
    else
      var a := actions[to - 1];
      Answers(actions, i, from, to - 1) + if a.ShardAnswers? && a.i == i then 1 else 0
  }

  /** Lifetimes are numbered as channels are; that of a cycle to come can be cancelled only from outside. */
  ghost predicate LifetimesAgree(w: World, actions: seq<Action>, k: nat)
    requires k <= |actions|
  {
    && (w.m.cancel.Some? ==> w.m.cancel.value < w.channels)
    && (forall i | i in w.callers :: Numbered(w.callers[i], w.channels))
    && (forall x | x >= w.channels :: x in w.cancelled <==> Happens(actions, 0, k, ParentCancelled(x)))
  }

  /** A step keeps the numbers of lifetimes below the next, and cancels one of a cycle to come only from outside. */
  lemma NumbersStep(w: World, shards: nat, a: Action, x: nat)
    requires Enabled(w, a) && x >= w.channels
    requires a.ShardAnswers? ==> w.callers[a.i].ch < w.channels
    requires a.CancelLifetime? && w.callers[a.i].cancel.Some? ==> w.callers[a.i].cancel.value < w.channels
    ensures Apply(w, shards, a).channels >= w.channels
    ensures x in Apply(w, shards, a).cancelled <==> x in w.cancelled || a == ParentCancelled(x)
  {
  }

  predicate Numbered(c: Caller, channels: nat) {
    c.Cancelling? && c.cancel.Some? ==> c.cancel.value < channels
  }

  lemma NumberedStep(w: World, shards: nat, a: Action, i: nat)
    requires Enabled(w, a) && (w.m.cancel.Some? ==> w.m.cancel.value < w.channels)
    requires i in w.callers ==> Numbered(w.callers[i], w.channels)
    ensures var w' := Apply(w, shards, a);
            && (w'.m.cancel.Some? ==> w'.m.cancel.value < w'.channels)
            && (i in w'.callers ==> Numbered(w'.callers[i], w'.channels))
  {
  }

  lemma LifetimesStep(w: World, shards: nat, actions: seq<Action>, k: nat)
    requires k < |actions| && ChannelsAgree(w) && LifetimesAgree(w, actions, k) && Enabled(w, actions[k])
    ensures LifetimesAgree(Apply(w, shards, actions[k]), actions, k + 1)
  {
    var a := actions[k];
    assert a.ShardAnswers? ==> w.callers[a.i].Opens();
    hide Apply, Enabled, Happens, ChannelsAgree;
    var w' := Apply(w, shards, a);
    NumberedStep(w, shards, a, 0);
    forall i | i in w'.callers ensures Numbered(w'.callers[i], w'.channels) {
      NumberedStep(w, shards, a, i);
    }
    NumbersStep(w, shards, a, w.channels);
    forall x | x >= w'.channels ensures x in w'.cancelled <==> Happens(actions, 0, k + 1, ParentCancelled(x)) {
      HappensNext(actions, 0, k, ParentCancelled(x));
      NumbersStep(w, shards, a, x);
    }
  }

  lemma HappensNext(actions: seq<Action>, from: nat, k: nat, a: Action)
    requires from <= k < |actions|
    ensures Happens(actions, from, k + 1, a) <==> Happens(actions, from, k, a) || actions[k] == a
  {
  }

  lemma CloseCalledNext(actions: seq<Action>, from: nat, k: nat)
    requires from <= k < |actions|
    ensures CloseCalled(actions, from, k + 1) <==> CloseCalled(actions, from, k) || actions[k].CallClose?
  {
  }

  lemma {:induction false} LifetimesTrace(shards: nat, worlds: seq<World>, actions: seq<Action>, k: nat)
    requires Trace(shards, worlds, actions) && k < |worlds|
    ensures LifetimesAgree(worlds[k], actions, k)
  {
    if k > 0 {
      LifetimesTrace(shards, worlds, actions, k - 1);
      InvTrace(shards, worlds, actions, k - 1);
      assert Enabled(worlds[k - 1], actions[k - 1]);
      LifetimesStep(worlds[k - 1], shards, actions, k - 1);
    }
  }

  /** Something went wrong with the shards of an open cycle: one failed, or its context was cancelled from outside. */
  predicate Spoiled(actions: seq<Action>, i: nat, ch: nat, b: nat, k: nat)
    requires k <= |actions|
  {
    Happens(actions, b, k, ShardAnswers(i, false)) || Happens(actions, 0, k, ParentCancelled(ch))
  }

  /** An Open that began at b and is still joining its shards, as its history tells it. */
  ghost predicate JoiningSince(shards: nat, w: World, actions: seq<Action>, i: nat, ch: nat, b: nat, k: nat)
    requires b < k <= |actions|
  {
    && w.opener == Some(i) && i in w.callers && w.callers[i].Joining? && w.callers[i].ch == ch
    && w.callers[i].live + Answers(actions, i, b, k) == shards
    && (w.callers[i].failed <==> Happens(actions, b, k, ShardAnswers(i, false)))
    && !Happens(actions, b, k, JoinShards(i))
    && StatusSince(w, actions, b, k)
    && (!CloseCalled(actions, b, k) ==> (ch in w.cancelled <==> Spoiled(actions, i, ch, b, k)))
  }

  /** Until it returns, an Open finds the manager Opening exactly if no Close was called since it began. */
  predicate StatusSince(w: World, actions: seq<Action>, b: nat, k: nat)
    requires k <= |actions|
  {
    w.m.status == if CloseCalled(actions, b, k) then Closing else Opening
  }

  /** One that has joined them at j, and decides next. */
  ghost predicate DecidingSince(shards: nat, w: World, actions: seq<Action>, i: nat, ch: nat, b: nat, j: nat, k: nat)
    requires b < k <= |actions|
  {
    && w.opener == Some(i) && i in w.callers && w.callers[i].Deciding? && w.callers[i].ch == ch
    && b < j < k && actions[j] == JoinShards(i) && Answers(actions, i, b, j) == shards
    && (forall n | b <= n < k && actions[n] == JoinShards(i) :: n == j)
    && (forall n | j <= n < k :: actions[n] != ShardAnswers(i, false))
    && StatusSince(w, actions, b, k)
    && (!CloseCalled(actions, b, j) ==> (w.callers[i].failed <==> Spoiled(actions, i, ch, b, j)))
  }

  lemma AnswersNext(actions: seq<Action>, i: nat, b: nat, k: nat)
    requires b <= k < |actions|
    ensures Answers(actions, i, b, k + 1) ==
            Answers(actions, i, b, k) + if actions[k].ShardAnswers? && actions[k].i == i then 1 else 0
  {
  }

  lemma BeginsJoining(shards: nat, w: World, actions: seq<Action>, i: nat, b: nat)
    requires b < |actions| && Enabled(w, actions[b]) && actions[b] == CallOpen(i) && w.m.status.Closed?
    requires LifetimesAgree(w, actions, b)
    ensures JoiningSince(shards, Apply(w, shards, actions[b]), actions, i, w.channels, b, b + 1)
  {
    AnswersNext(actions, i, b, b);
    HappensNext(actions, 0, b, ParentCancelled(w.channels));
    assert !CloseCalled(actions, b, b + 1);
  }

  /** Who else moves leaves the opener alone, and calls a Close if the status changes. */
  lemma OthersLeaveOpener(w: World, shards: nat, a: Action, i: nat)
    requires Inv(w) && Enabled(w, a) && w.opener == Some(i) && (a.ParentCancelled? || a.i != i)
    requires w.m.status.Opening? || w.m.status.Closing?
    ensures var w' := Apply(w, shards, a);
            && w'.opener == Some(i) && i in w'.callers && w'.callers[i] == w.callers[i]
            && w'.m.status == (if a.CallClose? then Closing else w.m.status)
            && (w.m.status.Opening? && !a.ParentCancelled? ==> w'.cancelled == w.cancelled)
  {
    assert w.callers[i].Opens();
    if !a.ParentCancelled? && a.i in w.callers {
      assert !w.callers[a.i].Opens();
      assert w.callers[a.i].Closes() ==> w.closer == Some(a.i);
    }
  }

  /** A step with one more action in the history. */
  lemma HistoryNext(actions: seq<Action>, i: nat, ch: nat, b: nat, k: nat)
    requires b <= k < |actions|
    ensures CloseCalled(actions, b, k + 1) <==> CloseCalled(actions, b, k) || actions[k].CallClose?
    ensures Spoiled(actions, i, ch, b, k + 1)
            <==> Spoiled(actions, i, ch, b, k) || actions[k] == ShardAnswers(i, false) || actions[k] == ParentCancelled(ch)
    ensures Happens(actions, b, k + 1, JoinShards(i)) <==> Happens(actions, b, k, JoinShards(i)) || actions[k] == JoinShards(i)
    ensures Happens(actions, b, k + 1, ShardAnswers(i, false))
            <==> Happens(actions, b, k, ShardAnswers(i, false)) || actions[k] == ShardAnswers(i, false)
    ensures Answers(actions, i, b, k + 1) ==
            Answers(actions, i, b, k) + if actions[k].ShardAnswers? && actions[k].i == i then 1 else 0
  {
    HappensNext(actions, b, k, ShardAnswers(i, false));
    HappensNext(actions, 0, k, ParentCancelled(ch));
    HappensNext(actions, b, k, JoinShards(i));
    AnswersNext(actions, i, b, k);
    CloseCalledNext(actions, b, k);
  }

  lemma OneJoin(actions: seq<Action>, i: nat, b: nat, k: nat)
    requires b < k < |actions| && !Happens(actions, b, k, JoinShards(i))
    ensures forall n | b <= n < k + 1 && actions[n] == JoinShards(i) :: n == k
  {
  }

  lemma JoiningStep(shards: nat, w: World, actions: seq<Action>, i: nat, ch: nat, b: nat, k: nat)
    requires b < k < |actions| && Inv(w) && Enabled(w, actions[k]) && JoiningSince(shards, w, actions, i, ch, b, k)
    ensures var w' := Apply(w, shards, actions[k]);
            if actions[k] == JoinShards(i) then DecidingSince(shards, w', actions, i, ch, b, k, k + 1)
            else JoiningSince(shards, w', actions, i, ch, b, k + 1)
  {
    hide Happens, CloseCalled, Answers;
    var a := actions[k];
    HistoryNext(actions, i, ch, b, k);
    if a == JoinShards(i) {
      OneJoin(actions, i, b, k);
    }
    if a.ParentCancelled? || a.i != i {
      OthersLeaveOpener(w, shards, a, i);
      hide Inv;
    }
  }

  lemma DecidingStep(shards: nat, w: World, actions: seq<Action>, i: nat, ch: nat, b: nat, j: nat, k: nat)
    requires b < k < |actions| && Inv(w) && Enabled(w, actions[k]) && DecidingSince(shards, w, actions, i, ch, b, j, k)
    requires actions[k] != Decide(i)
    ensures DecidingSince(shards, Apply(w, shards, actions[k]), actions, i, ch, b, j, k + 1)
  {
    var a := actions[k];
    CloseCalledNext(actions, b, k);
    OthersLeaveOpener(w, shards, a, i);
  }

  lemma NobodyPending(i: nat)
    ensures !Pending(START, i)
  {
  }

  predicate Pending(w: World, i: nat) {
    i in w.callers && (w.callers[i].Joining? || w.callers[i].Deciding?)
  }

  lemma OnlyOpenBegins(w: World, shards: nat, a: Action, i: nat)
    requires Enabled(w, a) && Pending(Apply(w, shards, a), i) && !Pending(w, i)
    ensures a == CallOpen(i) && w.m.status.Closed?
  {
  }

  /** An Open that began at b and is pending, as its history tells it. */
  ghost predicate PendingSince(shards: nat, w: World, actions: seq<Action>, i: nat, ch: nat, b: nat, j: nat, k: nat)
    requires b < k <= |actions|
  {
    if Pending(w, i) && w.callers[i].Deciding? then DecidingSince(shards, w, actions, i, ch, b, j, k)
    else JoiningSince(shards, w, actions, i, ch, b, k)
  }

  lemma PendingStep(shards: nat, w: World, actions: seq<Action>, i: nat, ch: nat, b: nat, j: nat, k: nat) returns (j': nat)
    requires b < k < |actions| && Inv(w) && Enabled(w, actions[k]) && PendingSince(shards, w, actions, i, ch, b, j, k)
    requires actions[k] != Decide(i)
    ensures PendingSince(shards, Apply(w, shards, actions[k]), actions, i, ch, b, j', k + 1)
  {
    if w.callers[i].Joining? {
      JoiningStep(shards, w, actions, i, ch, b, k);
      j' := k;
    } else {
      DecidingStep(shards, w, actions, i, ch, b, j, k);
      j' := j;
    }
    hide Apply;
  }

  lemma DecidedNoLonger(w: World, shards: nat, i: nat)
    requires Enabled(w, Decide(i))
    ensures !Pending(Apply(w, shards, Decide(i)), i)
  {
  }

  /** A pending Open began a cycle at some b, and has gone on from there. */
  lemma {:induction false} OpenHistory(shards: nat, worlds: seq<World>, actions: seq<Action>, i: nat, k: nat)
    returns (b: nat, j: nat)
    requires Trace(shards, worlds, actions) && k < |worlds| && Pending(worlds[k], i)
    ensures b < k && actions[b] == CallOpen(i) && worlds[b].m.status.Closed?
    ensures PendingSince(shards, worlds[k], actions, i, worlds[b].channels, b, j, k)
  {
    hide Apply, Inv, Pending, PendingSince, JoiningSince;
    NobodyPending(i);
    var n := k - 1;
    assert Enabled(worlds[n], actions[n]) && worlds[k] == Apply(worlds[n], shards, actions[n]);
    if Pending(worlds[n], i) {
      b, j := OpenHistory(shards, worlds, actions, i, n);
      InvTrace(shards, worlds, actions, n);
      if actions[n] == Decide(i) {
        DecidedNoLonger(worlds[n], shards, i);
      }
      j := PendingStep(shards, worlds[n], actions, i, worlds[b].channels, b, j, n);
    } else {
      b, j := n, n;
      OnlyOpenBegins(worlds[n], shards, actions[n], i);
      LifetimesTrace(shards, worlds, actions, n);
      BeginsPending(shards, worlds[n], actions, i, n);
    }
  }

  lemma BeginsPending(shards: nat, w: World, actions: seq<Action>, i: nat, b: nat)
    requires b < |actions| && Enabled(w, actions[b]) && actions[b] == CallOpen(i) && w.m.status.Closed?
    requires LifetimesAgree(w, actions, b)
    ensures PendingSince(shards, Apply(w, shards, actions[b]), actions, i, w.channels, b, b, b + 1)
  {
    BeginsJoining(shards, w, actions, i, b);
  }

  /** An Open that began a cycle at b and decides at d had no failed shard, no cancelled context and no Close. */
  predicate WentWell(worlds: seq<World>, actions: seq<Action>, i: nat, b: nat, d: nat)
    requires |worlds| == |actions| + 1
  {
    && b < d < |actions| && actions[b] == CallOpen(i) && actions[d] == Decide(i)
    && !Happens(actions, b, d, ShardAnswers(i, false))
    && !CloseCalled(actions, b, d)
    && forall j | b < j < d && actions[j] == JoinShards(i) :: !Happens(actions, 0, j, ParentCancelled(worlds[b].channels))
  }

  /**
   Every Open that decides began a cycle while the manager was Closed, and has joined its shards after every one of them
   answered. It succeeds exactly when none of them failed, the context was not cancelled by then, and no Close was called
   since it began. Then the manager is Opened; otherwise the manager stays as it is and this Open goes on to clean up.
   */
  lemma OpenDecidesExactly(shards: nat, worlds: seq<World>, actions: seq<Action>, i: nat, d: nat) returns (b: nat, j: nat)
    requires Trace(shards, worlds, actions) && d < |actions| && actions[d] == Decide(i)
    ensures b < j < d && actions[b] == CallOpen(i) && worlds[b].m.status.Closed? && actions[j] == JoinShards(i)
    ensures Answers(actions, i, b, j) == shards
    ensures i in worlds[d + 1].callers
    ensures if WentWell(worlds, actions, i, b, d)
            then worlds[d + 1].callers[i] == OpenReturned(true) && worlds[d + 1].m.status == Opened
            else worlds[d + 1].callers[i].OpenCleanup? && worlds[d + 1].m == worlds[d].m
  {
    assert Enabled(worlds[d], actions[d]) && worlds[d + 1] == Apply(worlds[d], shards, actions[d]);
    b, j := OpenHistory(shards, worlds, actions, i, d);
    assert j in set n | b < n < d && actions[n] == JoinShards(i);
  }

  predicate Succeeded(w: World, i: nat) {
    i in w.callers && w.callers[i] == OpenReturned(true)
  }

  /** Success comes from a decision alone, and is never taken back. */
  lemma SuccessStep(w: World, shards: nat, a: Action, i: nat)
    requires Enabled(w, a) && a != Decide(i)
    ensures Succeeded(Apply(w, shards, a), i) <==> Succeeded(w, i)
  {
  }

  lemma DecidesOnce(w: World, i: nat)
    requires Enabled(w, Decide(i))
    ensures !Succeeded(w, i)
  {
  }

  lemma {:induction false} CallersStay(shards: nat, worlds: seq<World>, actions: seq<Action>, i: nat, m: nat, n: nat)
    requires Trace(shards, worlds, actions) && m <= n < |worlds| && i in worlds[m].callers
    ensures i in worlds[n].callers
  {
    if m < n {
      CallersStay(shards, worlds, actions, i, m, n - 1);
      assert worlds[n] == Apply(worlds[n - 1], shards, actions[n - 1]);
    }
  }

  /** An identifier is used for one call. */
  lemma CalledOnce(shards: nat, worlds: seq<World>, actions: seq<Action>, i: nat, m: nat, n: nat)
    requires Trace(shards, worlds, actions) && m < n < |actions| && actions[m] == CallOpen(i)
    ensures actions[n] != CallOpen(i)
  {
    assert worlds[m + 1] == Apply(worlds[m], shards, actions[m]);
    CallersStay(shards, worlds, actions, i, m + 1, n);
    assert Enabled(worlds[n], actions[n]);
  }

  /** In every run the Opens that have returned success are exactly those that decided after all went well. */
  lemma {:induction false} OpenSucceedsExactly(shards: nat, worlds: seq<World>, actions: seq<Action>, i: nat, k: nat)
    requires Trace(shards, worlds, actions) && k < |worlds|
    ensures Succeeded(worlds[k], i) <==> exists b: nat, d: nat | d < k :: WentWell(worlds, actions, i, b, d)
  {
    if k > 0 {
      hide Apply, Succeeded, WentWell;
      var n := k - 1;
      OpenSucceedsExactly(shards, worlds, actions, i, n);
      assert Enabled(worlds[n], actions[n]) && worlds[k] == Apply(worlds[n], shards, actions[n]);
      if actions[n] == Decide(i) {
        DecidesOnce(worlds[n], i);
        DecisionExact(shards, worlds, actions, i, n);
      } else {
        SuccessStep(worlds[n], shards, actions[n], i);
        forall b: nat | WentWell(worlds, actions, i, b, n) ensures false {
          WentWellDecides(worlds, actions, i, b, n);
        }
      }
    }
  }

  lemma WentWellDecides(worlds: seq<World>, actions: seq<Action>, i: nat, b: nat, d: nat)
    requires |worlds| == |actions| + 1 && WentWell(worlds, actions, i, b, d)
    ensures b < d < |actions| && actions[d] == Decide(i) && actions[b] == CallOpen(i)
  {
  }

  lemma DecisionExact(shards: nat, worlds: seq<World>, actions: seq<Action>, i: nat, d: nat)
    requires Trace(shards, worlds, actions) && d < |actions| && actions[d] == Decide(i)
    ensures Succeeded(worlds[d + 1], i) <==> exists b: nat :: WentWell(worlds, actions, i, b, d)
  {
    var b, j := OpenDecidesExactly(shards, worlds, actions, i, d);
    hide WentWell;
    forall b': nat | WentWell(worlds, actions, i, b', d) ensures b' == b {
      WentWellDecides(worlds, actions, i, b', d);
      if b' < b {
        CalledOnce(shards, worlds, actions, i, b', b);
      } else if b < b' {
        CalledOnce(shards, worlds, actions, i, b, b');
      }
    }
  }

  // ---- Lifetimes -------------------------------------------------------------------------------

  /** A lifetime is cancelled by the time its cycle is over, and before that once something has failed or closes it. */
  ghost predicate LifetimesEnd(w: World) {
    && (forall ch | ch in w.cycles && (w.cycle != Some(ch) || w.m.status.Closed?) :: ch in w.cancelled)
    && (w.m.status.Opening? || w.m.status.Opened? ==> w.cycle.Some? && w.m.cancel == w.cycle)
    && (w.opener.Some? && w.opener.value in w.callers ==> Ended(w, w.callers[w.opener.value]))
    && (w.closer.Some? && w.closer.value in w.callers && w.cycle.Some? ==>
          var c := w.callers[w.closer.value];
          if c.Cancelling? then c.cancel == w.cycle else w.cycle.value in w.cancelled)
  }

  predicate Ended(w: World, c: Caller) {
    && ((c.Joining? || c.Deciding?) && c.failed ==> c.ch in w.cancelled)
    && ((c.OpenCleanup? || c.OpenCleaning? || c.OpenFinishing?) && w.m.status.Opening? ==> c.ch in w.cancelled)
  }

  lemma LifetimesEndStep(w: World, shards: nat, a: Action)
    requires Inv(w) && LifetimesEnd(w) && Enabled(w, a)
    ensures LifetimesEnd(Apply(w, shards, a))
  {
    if a.ParentCancelled? || a.i !in w.callers {
      OutsiderKeepsLifetimes(w, shards, a);
    } else if w.callers[a.i].Opens() {
      OpenerKeepsLifetimes(w, shards, a);
    } else {
      CloserKeepsLifetimes(w, shards, a);
    }
  }

  lemma OutsiderKeepsLifetimes(w: World, shards: nat, a: Action)
    requires Inv(w) && LifetimesEnd(w) && Enabled(w, a) && (a.ParentCancelled? || a.i !in w.callers)
    ensures LifetimesEnd(Apply(w, shards, a))
  {
  }

  lemma OpenerKeepsLifetimes(w: World, shards: nat, a: Action)
    requires Inv(w) && LifetimesEnd(w) && Enabled(w, a) && !a.ParentCancelled? && a.i in w.callers && w.callers[a.i].Opens()
    ensures LifetimesEnd(Apply(w, shards, a))
  {
    assert w.opener == Some(a.i) && w.closer != Some(a.i);
  }

  lemma CloserKeepsLifetimes(w: World, shards: nat, a: Action)
    requires Inv(w) && LifetimesEnd(w) && Enabled(w, a) && !a.ParentCancelled? && a.i in w.callers && !w.callers[a.i].Opens()
    ensures LifetimesEnd(Apply(w, shards, a))
  {
    assert w.opener != Some(a.i) && (w.callers[a.i].Closes() <==> w.closer == Some(a.i));
  }

  /** In every run: when the manager is Closed, the lifetime of every cycle so far has been cancelled. */
  lemma {:induction false} EveryLifetimeEnds(shards: nat, worlds: seq<World>, actions: seq<Action>, k: nat)
    requires Trace(shards, worlds, actions) && k < |worlds|
    ensures LifetimesEnd(worlds[k])
    ensures worlds[k].m.status.Closed? ==> worlds[k].cycles <= worlds[k].cancelled
  {
    if k > 0 {
      hide Apply, Inv;
      EveryLifetimeEnds(shards, worlds, actions, k - 1);
      InvTrace(shards, worlds, actions, k - 1);
      assert Enabled(worlds[k - 1], actions[k - 1]);
      LifetimesEndStep(worlds[k - 1], shards, actions[k - 1]);
    }
  }

  // ---- Progress ------------------------------------------------------------------------------

  /** Steps an owner still has to take. */
  function OwnerWork(c: Caller): nat {
    match c
    case Joining(_, live, _) => live + 5
    case Deciding(_, _) => 4
    case OpenCleanup(_) => 3
    case OpenCleaning(_) => 2
    case OpenFinishing(_) => 1
    case Cancelling(_, _, _) => 6
    case AwaitingOpen(_, _) => 5
    case ReadingFlag(_) => 4
    case CloseCleanup(_) => 3
    case CloseCleaning(_) => 2
    case CloseFinishing(_) => 1
    case _ => 0
  }

  function WorkOf(w: World, owner: Option<nat>): nat {
    if owner.Some? && owner.value in w.callers then OwnerWork(w.callers[owner.value]) else 0
  }

  function Work(w: World): nat {
    WorkOf(w, w.opener) + WorkOf(w, w.closer)
  }

  predicate ByOwner(w: World, a: Action) {
    !a.ParentCancelled? && (w.opener == Some(a.i) || w.closer == Some(a.i))
  }

  /** While Closing an owner can always take a step: a Close waiting for a pending Open finds that Open able to move. */
  lemma ClosingNeverStuck(w: World) returns (a: Action)
    requires Inv(w) && w.m.status.Closing?
    ensures Enabled(w, a) && ByOwner(w, a)
  {
    var i := w.closer.value;
    assert w.callers[i].Closes();
    if w.opener.Some? {
      var j := w.opener.value;
      assert w.callers[j].Opens();
      a := match w.callers[j]
           case Joining(_, live, _) => if live > 0 then ShardAnswers(j, true) else JoinShards(j)
           case Deciding(_, _) => Decide(j)
           case OpenCleanup(_) => StartCleanup(j)
           case OpenCleaning(_) => EndCleanup(j)
           case _ => FinishOpening(j);
    } else {
      a := match w.callers[i]
           case Cancelling(_, _, _) => CancelLifetime(i)
           case AwaitingOpen(_, _) => SeeOpenDone(i)
           case ReadingFlag(_) => ReadFlag(i)
           case CloseCleanup(_) => StartCleanup(i)
           case CloseCleaning(_) => EndCleanup(i)
           case _ => FinishClosing(i);
    }
  }

  /**
   While Closing every step of an owner leaves less work and no other step adds any, so after at most Work(w) owner
   steps the closing is over and all its waiters are released.
   */
  lemma ClosingWorkShrinks(w: World, shards: nat, a: Action)
    requires Inv(w) && Enabled(w, a) && w.m.status.Closing?
    ensures var w' := Apply(w, shards, a);
            && (ByOwner(w, a) ==> Work(w') < Work(w))
            && (!ByOwner(w, a) ==> Work(w') == Work(w) && w'.m == w.m)
  {
    assert w.callers[w.closer.value].Closes();
    if !ByOwner(w, a) {
      BystanderChangesNothing(w, shards, a);
    } else if w.closer == Some(a.i) {
      CloserWorks(w, shards, a);
    } else {
      OpenerWorks(w, shards, a);
    }
  }

  lemma CloserWorks(w: World, shards: nat, a: Action)
    requires Roles(w) && Enabled(w, a) && !a.ParentCancelled? && w.closer == Some(a.i)
    ensures Work(Apply(w, shards, a)) < Work(w)
  {
    var c := w.callers[a.i];
    assert c.Closes();
    assert w.opener != Some(a.i) && WorkOf(w, w.closer) == OwnerWork(c);
  }

  lemma OpenerWorks(w: World, shards: nat, a: Action)
    requires Roles(w) && Enabled(w, a) && !a.ParentCancelled? && w.opener == Some(a.i)
    ensures Work(Apply(w, shards, a)) < Work(w)
  {
    var c := w.callers[a.i];
    assert c.Opens();
    hide Roles;
    assert w.closer != Some(a.i) && WorkOf(w, w.opener) == OwnerWork(c);
  }

  lemma BystanderChangesNothing(w: World, shards: nat, a: Action)
    requires Inv(w) && Enabled(w, a) && w.m.status.Closing? && !ByOwner(w, a)
    ensures var w' := Apply(w, shards, a);
            Work(w') == Work(w) && w'.m == w.m
  {
    if !a.ParentCancelled? && a.i in w.callers {
      assert !w.callers[a.i].Opens() && !w.callers[a.i].Closes();
    }
  }

  lemma OwnerHasWork(w: World)
    requires Inv(w) && w.closer.Some?
    ensures Work(w) > 0
  {
    assert w.callers[w.closer.value].Closes();
  }

  /** No work left means the closing is over: the manager is not Closing and every waiter's channel is closed. */
  lemma NoWorkNoWaiters(w: World)
    requires Inv(w) && Work(w) == 0
    ensures !w.m.status.Closing?
    ensures forall i | i in w.callers && w.callers[i].AwaitingClose? :: Enabled(w, SeeCloseDone(i))
  {
    if w.closer.Some? {
      OwnerHasWork(w);
    }
  }
}
