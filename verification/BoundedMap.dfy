/**
 * Visiting values with a bounded number of workers (packages/compiler/src/verification.ts, boundedMap).
 *
 * The workers share a cursor and an output. A worker takes its next turn either at its start or when its visit settles;
 * the environment decides which worker that is and how the visit ended. Each turn runs to the worker's next await.
 */
module BoundedMap {
  import opened Text

  datatype Worker = AtHead | Visiting(index: nat) | Finished | Failed

  /** `visited` lists the indexes visits were begun for, in order; `outcomes` what they came to. */
  datatype State<U> = State(
    n: nat, cursor: nat, workers: seq<Worker>, output: seq<Option<U>>, visited: seq<nat>, outcomes: map<nat, Option<U>>)

  /** A turn of one worker: it starts, or its visit has ended, with a value or by throwing. */
  datatype Event<U> = Turn(worker: nat, outcome: Option<U>)

  function Start<U>(n: nat, concurrency: int): State<U> {
    State(n, 0, seq(if Min(concurrency, n) < 0 then 0 else Min(concurrency, n), _ => AtHead), seq(n, _ => None), [],
          map[])
  }

  /** From the head of the worker's loop to its next await, or to its end. */
  function Take<U>(s: State<U>, w: nat): State<U>
    requires w < |s.workers|
  {
    if s.cursor < s.n then
      s.(cursor := s.cursor + 1, workers := s.workers[w := Visiting(s.cursor)], visited := s.visited + [s.cursor])
    else
      s.(workers := s.workers[w := Finished])
  }

  /** A visit has ended with a value: it is stored, and the worker is back at the head of its loop. */
  function Store<U>(s: State<U>, w: nat, index: nat, value: U): State<U>
    requires w < |s.workers| && index < |s.output|
  {
    s.(outcomes := s.outcomes[index := Some(value)], output := s.output[index := Some(value)],
       workers := s.workers[w := AtHead])
  }

  function Fail<U>(s: State<U>, w: nat, index: nat): State<U>
    requires w < |s.workers|
  {
    s.(outcomes := s.outcomes[index := None], workers := s.workers[w := Failed])
  }

  function Next<U>(s: State<U>, event: Event<U>): State<U> {
    var w := event.worker;
    if w >= |s.workers| then s
    else match s.workers[w]
      case AtHead => Take(s, w)
      case Visiting(index) =>
        if index >= |s.output| then s
        else if event.outcome.None? then Fail(s, w, index)
        else Take(Store(s, w, index, event.outcome.value), w)
      case _ => s
  }

  function Run<U>(n: nat, concurrency: int, events: seq<Event<U>>): State<U> {
    if events == [] then Start(n, concurrency)
    else Next(Run(n, concurrency, events[..|events| - 1]), events[|events| - 1])
  }

  function InFlight(workers: seq<Worker>): nat {
    if workers == [] then 0
    else InFlight(workers[..|workers| - 1]) + if workers[|workers| - 1].Visiting? then 1 else 0
  }

  lemma {:induction false} InFlightBound(workers: seq<Worker>)
    ensures InFlight(workers) <= |workers|
  {
    if workers != [] {
      InFlightBound(workers[..|workers| - 1]);
    }
  }

  /** All workers have ended well: the call resolves with the output. */
  predicate Succeeded<U>(s: State<U>) {
    forall w :: 0 <= w < |s.workers| ==> s.workers[w].Finished?
  }

  ghost predicate BeingVisited(workers: seq<Worker>, i: nat) {
    exists w :: 0 <= w < |workers| && workers[w] == Visiting(i)
  }

  ghost predicate AnyFailed(workers: seq<Worker>) {
    exists w :: 0 <= w < |workers| && workers[w].Failed?
  }

  /** Index i is not taken, or a worker is visiting it, or its visit has ended and the output has its value. */
  ghost predicate IndexIsSound<U>(s: State<U>, i: nat)
    requires |s.output| == s.n && i < s.n
  {
    if i !in s.outcomes then s.output[i].None? && (i < s.cursor ==> BeingVisited(s.workers, i))
    else i < s.cursor && s.output[i] == s.outcomes[i] && (s.outcomes[i].None? ==> AnyFailed(s.workers))
  }

  /** No index has two workers, nor a worker once its visit has ended. */
  ghost predicate WorkersAreSound<U>(s: State<U>) {
    && (forall w :: 0 <= w < |s.workers| && s.workers[w].Visiting? ==>
          s.workers[w].index < s.cursor && s.workers[w].index !in s.outcomes)
    && (forall v, w :: 0 <= v < w < |s.workers| && s.workers[v].Visiting? && s.workers[w].Visiting? ==>
          s.workers[v].index != s.workers[w].index)
    && (forall w :: 0 <= w < |s.workers| && s.workers[w].Finished? ==> s.cursor == s.n)
  }

  ghost predicate Inv<U>(s: State<U>) {
    && |s.output| == s.n && s.cursor <= s.n
    && |s.visited| == s.cursor && (forall k :: 0 <= k < s.cursor ==> s.visited[k] == k)
    && WorkersAreSound(s)
    && (forall i :: 0 <= i < s.n ==> IndexIsSound(s, i))
  }

  lemma OthersStay(workers: seq<Worker>, w: nat, worker: Worker, i: nat)
    requires w < |workers|
    ensures BeingVisited(workers, i) && workers[w] != Visiting(i) ==> BeingVisited(workers[w := worker], i)
    ensures AnyFailed(workers) && !workers[w].Failed? ==> AnyFailed(workers[w := worker])
  {
    if BeingVisited(workers, i) && workers[w] != Visiting(i) {
      var v :| 0 <= v < |workers| && workers[v] == Visiting(i);
      assert workers[w := worker][v] == Visiting(i);
    }
    if AnyFailed(workers) && !workers[w].Failed? {
      var v :| 0 <= v < |workers| && workers[v].Failed?;
      assert workers[w := worker][v].Failed?;
    }
  }

  lemma TakeKeeps<U>(s: State<U>, w: nat)
    requires Inv(s) && w < |s.workers| && s.workers[w].AtHead?
    ensures Inv(Take(s, w))
  {
    var t := Take(s, w);
    assert s.cursor < s.n ==> IndexIsSound(s, s.cursor);
    forall i | 0 <= i < t.n ensures IndexIsSound(t, i) {
      OthersStay(s.workers, w, t.workers[w], i);
      assert IndexIsSound(s, i);
      assert i == s.cursor ==> t.workers[w] == Visiting(i);
    }
  }

  lemma StoreKeeps<U>(s: State<U>, w: nat, index: nat, value: U)
    requires Inv(s) && w < |s.workers| && s.workers[w] == Visiting(index) && index < s.n
    ensures Inv(Store(s, w, index, value))
  {
    var t := Store(s, w, index, value);
    forall i | 0 <= i < t.n ensures IndexIsSound(t, i) {
      OthersStay(s.workers, w, AtHead, i);
      assert IndexIsSound(s, i);
    }
  }

  lemma FailKeeps<U>(s: State<U>, w: nat, index: nat)
    requires Inv(s) && w < |s.workers| && s.workers[w] == Visiting(index) && index < s.n
    ensures Inv(Fail(s, w, index))
  {
    var t := Fail(s, w, index);
    assert t.workers[w].Failed?;
    forall i | 0 <= i < t.n ensures IndexIsSound(t, i) {
      OthersStay(s.workers, w, Failed, i);
      assert IndexIsSound(s, i);
    }
  }

  lemma {:induction false} EveryRunKeeps<U>(n: nat, concurrency: int, events: seq<Event<U>>)
    ensures var s := Run(n, concurrency, events);
      Inv(s) && s.n == n && |s.workers| == |Start<U>(n, concurrency).workers|
  {
    if events != [] {
      EveryRunKeeps(n, concurrency, events[..|events| - 1]);
      var s, event := Run(n, concurrency, events[..|events| - 1]), events[|events| - 1];
      var w := event.worker;
      if w < |s.workers| {
        match s.workers[w]
        case AtHead => TakeKeeps(s, w);
        case Visiting(index) =>
          if event.outcome.None? {
            FailKeeps(s, w, index);
          } else {
            StoreKeeps(s, w, index, event.outcome.value);
            TakeKeeps(Store(s, w, index, event.outcome.value), w);
          }
        case _ =>
      }
    }
  }

  // ---------------------------------------------------------------------------
  // Main results
  // ---------------------------------------------------------------------------

  lemma {:induction false} InFlightChanges(workers: seq<Worker>, w: nat, worker: Worker)
    requires w < |workers|
    ensures InFlight(workers[w := worker]) + (if workers[w].Visiting? then 1 else 0)
      == InFlight(workers) + (if worker.Visiting? then 1 else 0)
    decreases |workers|
  {
    var last := |workers| - 1;
    if w < last {
      assert workers[w := worker][..last] == workers[..last][w := worker];
      InFlightChanges(workers[..last], w, worker);
    } else {
      assert workers[w := worker][..last] == workers[..last];
    }
  }

  lemma {:induction false} NoneInFlight(workers: seq<Worker>)
    requires forall w :: 0 <= w < |workers| ==> workers[w].AtHead?
    ensures InFlight(workers) == 0
  {
    if workers != [] {
      NoneInFlight(workers[..|workers| - 1]);
    }
  }

  /** The visits begun are those that have ended and those in flight. */
  lemma {:induction false} VisitsAreCounted<U>(n: nat, concurrency: int, events: seq<Event<U>>)
    ensures var s := Run(n, concurrency, events); |s.visited| == |s.outcomes| + InFlight(s.workers)
  {
    if events == [] {
      NoneInFlight(Start<U>(n, concurrency).workers);
    } else {
      var front, event := events[..|events| - 1], events[|events| - 1];
      VisitsAreCounted(n, concurrency, front);
      EveryRunKeeps(n, concurrency, front);
      var s, t, w := Run(n, concurrency, front), Run(n, concurrency, events), event.worker;
      if w < |s.workers| {
        InFlightChanges(s.workers, w, t.workers[w]);
        assert t.workers == s.workers[w := t.workers[w]];
      }
    }
  }

  /** Over every interleaving: indexes are visited once each, in order, and never more at a time than allowed. */
  lemma VisitsAreBoundedAndOnce<U>(n: nat, concurrency: int, events: seq<Event<U>>)
    ensures var s := Run(n, concurrency, events);
      && |s.visited| <= n && (forall k :: 0 <= k < |s.visited| ==> s.visited[k] == k)
      && |s.visited| - |s.outcomes| <= (if Min(concurrency, n) < 0 then 0 else Min(concurrency, n))
  {
    EveryRunKeeps(n, concurrency, events);
    VisitsAreCounted(n, concurrency, events);
    InFlightBound(Run(n, concurrency, events).workers);
  }

  /** Every index has been visited, and the output holds what its visit came to. */
  ghost predicate Complete<U>(s: State<U>) {
    && |s.output| == s.n && |s.visited| == s.n
    && forall i :: 0 <= i < s.n ==> i in s.outcomes && s.outcomes[i].Some? && s.output[i] == s.outcomes[i]
  }

  /** A call that resolves has a complete output. Its caller has made sure of at least one worker. */
  lemma ResolvedIsComplete<U>(n: nat, concurrency: int, events: seq<Event<U>>)
    requires concurrency >= 1 && Succeeded(Run(n, concurrency, events))
    ensures Complete(Run(n, concurrency, events))
  {
    EveryRunKeeps(n, concurrency, events);
    var s := Run(n, concurrency, events);
    if n > 0 {
      assert s.workers[0].Finished?;
      forall i | 0 <= i < n ensures i in s.outcomes && s.outcomes[i].Some? && s.output[i] == s.outcomes[i] {
        assert IndexIsSound(s, i);
      }
    }
  }

  /** What a visit has come to stays. */
  lemma {:induction false} OutcomesStay<U>(n: nat, concurrency: int, events: seq<Event<U>>, m: nat, i: nat)
    requires m <= |events| && i in Run(n, concurrency, events[..m]).outcomes
    ensures i in Run(n, concurrency, events).outcomes
    ensures Run(n, concurrency, events).outcomes[i] == Run(n, concurrency, events[..m]).outcomes[i]
    decreases |events|
  {
    if m == |events| {
      assert events[..m] == events;
    } else {
      var front := events[..|events| - 1];
      assert front[..m] == events[..m];
      OutcomesStay(n, concurrency, front, m, i);
      EveryRunKeeps(n, concurrency, front);
    }
  }

  /** A visit comes to what the event that ends it says, and a call one of whose visits throws does not resolve. */
  lemma VisitsComeToTheirEvents<U>(n: nat, concurrency: int, events: seq<Event<U>>, k: nat)
    requires k < |events|
    requires var before, w := Run(n, concurrency, events[..k]), events[k].worker;
      w < |before.workers| && before.workers[w].Visiting?
    ensures var s, i := Run(n, concurrency, events), Run(n, concurrency, events[..k]).workers[events[k].worker].index;
      && i in s.outcomes && s.outcomes[i] == events[k].outcome
      && (events[k].outcome.None? ==> !Succeeded(s))
  {
    var before, i := Run(n, concurrency, events[..k]), Run(n, concurrency, events[..k]).workers[events[k].worker].index;
    var here := events[..k + 1];
    assert here[..k] == events[..k] && here[k] == events[k];
    EveryRunKeeps(n, concurrency, events[..k]);
    OutcomesStay(n, concurrency, events, k + 1, i);
    EveryRunKeeps(n, concurrency, events);
    var s := Run(n, concurrency, events);
    if events[k].outcome.None? {
      assert i < s.n;
      assert IndexIsSound(s, i);
    }
  }

  /** What that check is for: without it a call would resolve as completely only if there were nothing to visit. */
  lemma ResolvedIsCompleteIffThereAreWorkers<U>(n: nat, concurrency: int, events: seq<Event<U>>)
    requires Succeeded(Run(n, concurrency, events))
    ensures Complete(Run(n, concurrency, events)) <==> concurrency >= 1 || n == 0
  {
    if concurrency >= 1 {
      ResolvedIsComplete(n, concurrency, events);
    } else if n > 0 {
      NoWorkersDoNothing(n, concurrency, events);
    } else {
      EveryRunKeeps(n, concurrency, events);
    }
  }

  lemma {:induction false} NoWorkersDoNothing<U>(n: nat, concurrency: int, events: seq<Event<U>>)
    requires concurrency < 1 && n > 0
    ensures Run(n, concurrency, events) == Start(n, concurrency)
  {
    if events != [] {
      NoWorkersDoNothing(n, concurrency, events[..|events| - 1]);
    }
  }

  // ---------------------------------------------------------------------------
  // Progress
  // ---------------------------------------------------------------------------

  predicate IsActive(worker: Worker) {
    worker.AtHead? || worker.Visiting?
  }

  function Active(workers: seq<Worker>): nat {
    if workers == [] then 0
    else Active(workers[..|workers| - 1]) + if IsActive(workers[|workers| - 1]) then 1 else 0
  }

  lemma {:induction false} ActiveChanges(workers: seq<Worker>, w: nat, worker: Worker)
    requires w < |workers| && IsActive(workers[w])
    ensures Active(workers[w := worker]) + 1 == Active(workers) + if IsActive(worker) then 1 else 0
    decreases |workers|
  {
    var last := |workers| - 1;
    if w < last {
      assert workers[w := worker][..last] == workers[..last][w := worker];
      ActiveChanges(workers[..last], w, worker);
    } else {
      assert workers[w := worker][..last] == workers[..last];
    }
  }

  /** Visits still to begin, and workers still to end. */
  function Remaining<U>(s: State<U>): int {
    s.n - s.cursor + Active(s.workers)
  }

  /**
   * Every turn that changes anything brings the call closer to its end, so every call ends; and every worker that has
   * not ended can take one.
   */
  lemma TurnsMakeProgress<U>(n: nat, concurrency: int, events: seq<Event<U>>, event: Event<U>)
    ensures var s, w := Run(n, concurrency, events), event.worker;
      && (Next(s, event) != s <==> w < |s.workers| && !s.workers[w].Finished? && !s.workers[w].Failed?)
      && (Next(s, event) != s ==> 0 <= Remaining(Next(s, event)) < Remaining(s))
  {
    EveryRunKeeps(n, concurrency, events);
    EveryRunKeeps(n, concurrency, events + [event]);
    assert (events + [event])[..|events|] == events;
    var s, w := Run(n, concurrency, events), event.worker;
    if w < |s.workers| && IsActive(s.workers[w]) {
      var next := Next(s, event);
      assert next.workers == s.workers[w := next.workers[w]];
      assert next.workers[w] != s.workers[w];
      ActiveChanges(s.workers, w, next.workers[w]);
    }
  }
}
