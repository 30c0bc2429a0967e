/**
 * The queue that serializes ownership changes of the editor extension (editors/vscode/src/lifecycle.ts).
 *
 * A promise chain is a sequence of links, each waiting for the one that was the tail when it was made. The environment
 * decides when a link that may go on does, and when and how a running operation ends.
 */
module Lifecycle {
  import opened Text

  datatype Status = Waiting | Running | Finished(succeeded: bool) | Skipped

  /** `after` counts the links of the chain up to the one waited for: none is zero. */
  datatype Link = Link(cleanup: bool, after: nat, status: Status)

  datatype Event = Called | Closed | GoesOn(link: nat) | Ends(link: nat, succeeded: bool)

  datatype Effect = Started(link: nat) | Ended(link: nat) | CloseCalled

  /** `tail` counts like `after`; `closing` is the link of the cleanup. */
  datatype Queue = Queue(links: seq<Link>, tail: nat, closing: Option<nat>, log: seq<Effect>)

  const EMPTY := Queue([], 0, None, [])

  predicate Settled(link: Link) {
    link.status.Finished? || link.status.Skipped?
  }

  // ---------------------------------------------------------------------------
  // Steps
  // ---------------------------------------------------------------------------

  function AfterRun(q: Queue): Queue {
    if q.closing.Some? then q
    else q.(links := q.links + [Link(false, q.tail, Waiting)], tail := |q.links| + 1)
  }

  function AfterClose(q: Queue): Queue {
    if q.closing.Some? then q
    else
      q.(links := q.links + [Link(true, q.tail, Waiting)], closing := Some(|q.links|), log := q.log + [CloseCalled])
  }

  /** A link may go on once the one it waits for has settled, whichever way that went. */
  predicate MayGoOn(q: Queue, i: nat) {
    && i < |q.links| && q.links[i].status.Waiting?
    && (q.links[i].after == 0 || (q.links[i].after <= |q.links| && Settled(q.links[q.links[i].after - 1])))
  }

  function WithStatus(q: Queue, i: nat, status: Status): Queue
    requires i < |q.links|
  {
    q.(links := q.links[i := q.links[i].(status := status)])
  }

  function AfterGoingOn(q: Queue, i: nat): Queue {
    if !MayGoOn(q, i) then q
    else if !q.links[i].cleanup && q.closing.Some? then WithStatus(q, i, Skipped)
    else WithStatus(q, i, Running).(log := q.log + [Started(i)])
  }

  function AfterEnd(q: Queue, i: nat, succeeded: bool): Queue {
    if i >= |q.links| || !q.links[i].status.Running? then q
    else WithStatus(q, i, Finished(succeeded)).(log := q.log + [Ended(i)])
  }

  function Next(q: Queue, event: Event): Queue {
    match event
    case Called => AfterRun(q)
    case Closed => AfterClose(q)
    case GoesOn(link) => AfterGoingOn(q, link)
    case Ends(link, succeeded) => AfterEnd(q, link, succeeded)
  }

  function After(events: seq<Event>): Queue {
    if events == [] then EMPTY else Next(After(events[..|events| - 1]), events[|events| - 1])
  }

  /** The object itself; its two methods are the calls, the other two the turns of the promise chain. */
  class LifecycleQueue {
    var links: seq<Link>
    var tail: nat
    var closing: Option<nat>
    ghost var log: seq<Effect>

    ghost function State(): Queue
      reads this
    {
      Queue(links, tail, closing, log)
    }

    constructor ()
      ensures State() == EMPTY
    {
      links, tail, closing, log := [], 0, None, [];
    }

    method Run()
      modifies this
      ensures State() == AfterRun(old(State()))
    {
      if closing.Some? {
        return;
      }
      links := links + [Link(false, tail, Waiting)];
      tail := |links|;
    }

    method Close() returns (cleanup: nat)
      modifies this
      ensures State() == AfterClose(old(State())) && closing == Some(cleanup)
    {
      if closing.None? {
        closing := Some(|links|);
        links := links + [Link(true, tail, Waiting)];
        log := log + [CloseCalled];
      }
      cleanup := closing.value;
    }

    method GoOn(i: nat)
      modifies this
      ensures State() == AfterGoingOn(old(State()), i)
    {
      if i >= |links| || !links[i].status.Waiting? {
        return;
      }
      var after := links[i].after;
      if after > 0 && (after > |links| || !Settled(links[after - 1])) {
        return;
      }
      if links[i].cleanup || closing.None? {
        links := links[i := links[i].(status := Running)];
        log := log + [Started(i)];
      } else {
        links := links[i := links[i].(status := Skipped)];
      }
    }

    method End(i: nat, succeeded: bool)
      modifies this
      ensures State() == AfterEnd(old(State()), i, succeeded)
    {
      if i < |links| && links[i].status.Running? {
        links := links[i := links[i].(status := Finished(succeeded))];
        log := log + [Ended(i)];
      }
    }
  }

  /** A queue's whole life, whatever its callers and its operations do. */
  method Live(events: seq<Event>) returns (queue: LifecycleQueue)
    ensures fresh(queue) && queue.State() == After(events)
  {
    queue := new LifecycleQueue();
    for i := 0 to |events|
      invariant fresh(queue) && queue.State() == After(events[..i])
    {
      assert events[..i + 1][..i] == events[..i];
      match events[i]
      case Called => queue.Run();
      case Closed => var _ := queue.Close();
      case GoesOn(link) => queue.GoOn(link);
      case Ends(link, succeeded) => queue.End(link, succeeded);
    }
    assert events[..|events|] == events;
  }

  // ---------------------------------------------------------------------------
  // What holds of a log
  // ---------------------------------------------------------------------------

  /** Reading a log in order: what runs, the last link started, and whether the queue has been closed. */
  datatype Reading = Reading(running: Option<nat>, last: int, closed: bool, sound: bool)

  /** One at a time, in the order of the calls, and after a close nothing but the cleanup. */
  ghost function Read(log: seq<Effect>, cleanup: Option<nat>): Reading {
    if log == [] then Reading(None, -1, false, true)
    else
      var r := Read(log[..|log| - 1], cleanup);
      match log[|log| - 1]
      case Started(i) =>
        Reading(Some(i), i, r.closed, r.sound && r.running.None? && r.last < i && (r.closed ==> cleanup == Some(i)))
      case Ended(i) => r.(running := None, sound := r.sound && r.running == Some(i))
      case CloseCalled => r.(closed := true, sound := r.sound && !r.closed)
  }

  /** A queue without a cleanup link never started one, so what the log says does not depend on which link that is. */
  lemma {:induction false} ReadBeforeClose(log: seq<Effect>, cleanup: Option<nat>)
    requires !Read(log, None).closed
    ensures Read(log, cleanup) == Read(log, None)
  {
    if log != [] {
      ReadBeforeClose(log[..|log| - 1], cleanup);
    }
  }

  // ---------------------------------------------------------------------------
  // The invariant
  // ---------------------------------------------------------------------------

  /** Every link waits for the one before it, the cleanup being the last link. */
  ghost predicate Chained(q: Queue, i: nat)
    requires i < |q.links|
  {
    && q.links[i].after == i
    && (q.links[i].cleanup <==> q.closing == Some(i))
    && (i > 0 && !Settled(q.links[i - 1]) ==> q.links[i].status.Waiting?)
  }

  ghost predicate Inv(q: Queue) {
    && (forall i :: 0 <= i < |q.links| ==> Chained(q, i))
    && (match q.closing case None => q.tail == |q.links| case Some(c) => |q.links| == c + 1 && q.tail == c)
    && Reads(q)
  }

  /** The log tells exactly what the links say. */
  ghost predicate Reads(q: Queue) {
    var r := Read(q.log, q.closing);
    && r.sound && (r.closed <==> q.closing.Some?)
    && (forall i :: 0 <= i < |q.links| ==> (q.links[i].status.Running? <==> r.running == Some(i)))
    && (r.running.Some? ==> r.running.value < |q.links|)
    && -1 <= r.last < |q.links|
    && (forall i :: 0 <= i < |q.links| && q.links[i].status.Waiting? ==> r.last < i)
  }

  lemma {:induction false} WaitingIsSuffix(q: Queue, i: nat, j: nat)
    requires i < j < |q.links| && (forall k :: 0 <= k < |q.links| ==> Chained(q, k)) && !Settled(q.links[i])
    ensures q.links[j].status.Waiting?
  {
    assert Chained(q, j);
    if i < j - 1 {
      WaitingIsSuffix(q, i, j - 1);
    }
  }

  /** When a link goes on, everything before it has settled and nothing runs. */
  lemma NothingRunsBefore(q: Queue, i: nat)
    requires Inv(q) && MayGoOn(q, i)
    ensures Read(q.log, q.closing).running.None?
  {
    var r := Read(q.log, q.closing);
    assert Chained(q, i);
    if r.running.Some? {
      var k := r.running.value;
      assert q.links[k].status.Running?;
      if k < i {
        if k < i - 1 {
          WaitingIsSuffix(q, k, i - 1);
        }
      } else {
        WaitingIsSuffix(q, i, k);
      }
    }
  }

  lemma GoingOnKeeps(q: Queue, i: nat)
    requires Inv(q)
    ensures Inv(AfterGoingOn(q, i))
  {
    if MayGoOn(q, i) {
      NothingRunsBefore(q, i);
      var n := AfterGoingOn(q, i);
      assert Chained(q, i);
      assert |n.log| > |q.log| ==> n.log[..|q.log|] == q.log;
      forall k | 0 <= k < |n.links| ensures Chained(n, k) {
        assert Chained(q, k);
      }
      forall k | 0 <= k < |n.links| && n.links[k].status.Waiting? ensures Read(n.log, n.closing).last < k {
        if k < i {
          WaitingIsSuffix(q, k, i);
          if k < i - 1 {
            WaitingIsSuffix(q, k, i - 1);
          }
        }
      }
    }
  }

  lemma EndKeeps(q: Queue, i: nat, succeeded: bool)
    requires Inv(q)
    ensures Inv(AfterEnd(q, i, succeeded))
  {
    var n := AfterEnd(q, i, succeeded);
    if n != q {
      assert n.log[..|q.log|] == q.log;
      forall k | 0 <= k < |n.links| ensures Chained(n, k) {
        assert Chained(q, k);
      }
    }
  }

  lemma RunKeeps(q: Queue)
    requires Inv(q)
    ensures Inv(AfterRun(q))
  {
    var n := AfterRun(q);
    forall k | 0 <= k < |n.links| ensures Chained(n, k) {
      assert k < |q.links| ==> Chained(q, k);
    }
  }

  lemma CloseKeeps(q: Queue)
    requires Inv(q)
    ensures Inv(AfterClose(q))
  {
    var n := AfterClose(q);
    if q.closing.None? {
      ReadBeforeClose(q.log, n.closing);
      assert n.log[..|q.log|] == q.log;
      forall k | 0 <= k < |n.links| ensures Chained(n, k) {
        assert k < |q.links| ==> Chained(q, k);
      }
    }
  }

  lemma {:induction false} EveryRunKeeps(events: seq<Event>)
    ensures Inv(After(events))
  {
    if events != [] {
      var q := After(events[..|events| - 1]);
      EveryRunKeeps(events[..|events| - 1]);
      match events[|events| - 1]
      case Called => RunKeeps(q);
      case Closed => CloseKeeps(q);
      case GoesOn(link) => GoingOnKeeps(q, link);
      case Ends(link, succeeded) => EndKeeps(q, link, succeeded);
    }
  }

  // ---------------------------------------------------------------------------
  // Main results
  // ---------------------------------------------------------------------------

  /**
   * Over every run, what the log shows is sound: one at a time, in call order, nothing but the cleanup after a close.
   */
  lemma RunsOneAtATimeInOrder(events: seq<Event>)
    ensures Read(After(events).log, After(events).closing).sound
  {
    EveryRunKeeps(events);
  }

  function StartsOf(log: seq<Effect>, link: nat): nat {
    if log == [] then 0 else StartsOf(log[..|log| - 1], link) + if log[|log| - 1] == Started(link) then 1 else 0
  }

  lemma {:induction false} SoundLogsStartOnce(log: seq<Effect>, cleanup: Option<nat>, link: nat)
    requires Read(log, cleanup).sound
    ensures StartsOf(log, link) == (if Started(link) in log then 1 else 0)
    ensures Started(link) in log ==> link <= Read(log, cleanup).last
  {
    if log != [] {
      var front := log[..|log| - 1];
      SoundLogsStartOnce(front, cleanup, link);
      assert log == front + [log[|log| - 1]];
    }
  }

  /** No link starts twice: in particular the cleanup, however often close is called. */
  lemma NothingStartsTwice(events: seq<Event>, link: nat)
    ensures StartsOf(After(events).log, link) <= 1
  {
    EveryRunKeeps(events);
    SoundLogsStartOnce(After(events).log, After(events).closing, link);
  }

  /**
   * The queue never gets stuck, whatever failed before: as long as something is unsettled, there is a first unsettled
   * link, and it is running or may go on. So failures stop nothing, and after a close the cleanup's turn comes.
   */
  lemma SomethingCanHappen(events: seq<Event>, i: nat)
    requires i < |After(events).links| && !Settled(After(events).links[i])
    ensures exists first :: 0 <= first <= i && FirstUnsettled(After(events), first)
  {
    EveryRunKeeps(events);
    FindFirst(After(events), i);
  }

  ghost predicate FirstUnsettled(q: Queue, first: nat) {
    && first < |q.links| && (forall k :: 0 <= k < first ==> Settled(q.links[k]))
    && (q.links[first].status.Running? || MayGoOn(q, first))
  }

  lemma {:induction false} FindFirst(q: Queue, i: nat)
    requires Inv(q) && i < |q.links| && !Settled(q.links[i])
    ensures exists first :: 0 <= first <= i && FirstUnsettled(q, first)
  {
    assert Chained(q, i);
    if k: nat :| k < i && !Settled(q.links[k]) {
      FindFirst(q, k);
    } else {
      assert FirstUnsettled(q, i);
    }
  }

  /**
   * Once the queue is closed, a cleanup that starts finds every operation settled, and every one not started skipped.
   */
  lemma CleanupComesLast(events: seq<Event>, i: nat)
    requires var q := After(events);
      q.closing.Some? && i < q.closing.value < |q.links| && !q.links[q.closing.value].status.Waiting?
    ensures var q := After(events); i < |q.links| && Settled(q.links[i])
    ensures Started(i) !in After(events).log ==> After(events).links[i].status.Skipped?
  {
    EveryRunKeeps(events);
    var q := After(events);
    if !Settled(q.links[i]) {
      WaitingIsSuffix(q, i, q.closing.value);
    }
    FinishedHaveStarted(events, i);
  }

  lemma {:induction false} FinishedHaveStarted(events: seq<Event>, i: nat)
    ensures var links := After(events).links;
      i < |links| && (links[i].status.Running? || links[i].status.Finished?) ==> Started(i) in After(events).log
  {
    if events != [] {
      FinishedHaveStarted(events[..|events| - 1], i);
    }
  }

  lemma {:induction false} ClosingIsClosed(events: seq<Event>)
    ensures After(events).closing.Some? <==> Closed in events
  {
    if events != [] {
      var front := events[..|events| - 1];
      ClosingIsClosed(front);
      assert events == front + [events[|events| - 1]];
    }
  }

  /** An operation whose turn comes before any close starts, and so does the cleanup when its turn comes. */
  lemma TurnsStart(events: seq<Event>, i: nat)
    requires MayGoOn(After(events), i) && (Closed !in events || After(events).links[i].cleanup)
    ensures var q, next := After(events), Next(After(events), GoesOn(i));
      next.links[i].status.Running? && next.log == q.log + [Started(i)]
  {
    ClosingIsClosed(events);
  }

  /** Only operations are skipped, and only once the queue has been closed. */
  lemma {:induction false} NothingIsSkippedBeforeClose(events: seq<Event>, i: nat)
    requires i < |After(events).links| && After(events).links[i].status.Skipped?
    ensures Closed in events && !After(events).links[i].cleanup
  {
    var front, event := events[..|events| - 1], events[|events| - 1];
    assert events == front + [event];
    ClosingIsClosed(front);
    if i < |After(front).links| && After(front).links[i].status.Skipped? {
      NothingIsSkippedBeforeClose(front, i);
    }
  }

  /** How often an operation was given to the queue before it was closed. */
  function CallsBeforeClose(events: seq<Event>): nat {
    if events == [] then 0
    else
      var front := events[..|events| - 1];
      CallsBeforeClose(front) + if events[|events| - 1].Called? && Closed !in front then 1 else 0
  }

  /** Every one of them has its link, and the first close has the cleanup's; there are no others. */
  lemma {:induction false} LinksAreTheCalls(events: seq<Event>)
    ensures |After(events).links| == CallsBeforeClose(events) + if Closed in events then 1 else 0
  {
    if events != [] {
      var front := events[..|events| - 1];
      assert events == front + [events[|events| - 1]];
      LinksAreTheCalls(front);
      ClosingIsClosed(front);
    }
  }

  /** What runs ends as it is said to. */
  lemma RunningLinksEnd(events: seq<Event>, i: nat, succeeded: bool)
    requires i < |After(events).links| && After(events).links[i].status.Running?
    ensures var q, next := After(events), Next(After(events), Ends(i, succeeded));
      next.links[i].status == Finished(succeeded) && next.log == q.log + [Ended(i)]
  {
  }
}
