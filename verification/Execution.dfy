/**
 * One controlled execution (packages/core/src/execution.ts): an operation raced against an abort signal and a deadline.
 *
 * JavaScript runs one callback at a time, so a run is a start followed by a sequence of events, each run to its end:
 * the signal aborts, the deadline timer fires, the operation settles, or the waiting call is resumed. Nothing is
 * assumed about their order; an event that cannot happen in a state (a listener removed, a timer cleared) changes
 * nothing.
 */
module Execution {
  import opened Text

  /** The longest delay a timer takes, in milliseconds; a longer one would fire at once. */
  const MAXIMUM_TIMER_DELAY := 2147483647.0

  datatype Reason = Signal | Deadline

  datatype Settlement<V, E> = Fulfilled(value: V) | Rejected(error: E)

  datatype Outcome<V, E> = Returned(value: V) | Threw(error: E) | Cancelled(reason: Reason)

  datatype Operation<V, E> = NotDispatched | Pending | Settled(settlement: Settlement<V, E>)

  datatype Stage<V, E> = Racing | Draining | Done(outcome: Outcome<V, E>)

  datatype Timer = Timer(armedAt: real, due: real, rearms: bool)

  /** What an observer sees, in order. */
  datatype Effect<V, E> =
    | CancelCalled(reason: Reason, at: real)
    | Dispatched
    | OperationEnded
    | CallEnded(outcome: Outcome<V, E>)

  datatype State<V, E> = State(
    deadline: Option<real>, cancellation: Option<Reason>, listening: bool, timer: Option<Timer>,
    operation: Operation<V, E>, stage: Stage<V, E>, log: seq<Effect<V, E>>)

  /**
   * The circumstances of a call: the clock at its first check and when the deadline is armed, and what the operation
   * does before it first yields: it may abort the signal, and it either throws or leaves a promise.
   */
  datatype Call<E> = Call(
    deadline: Option<real>, abortedBefore: bool, now: real, armedAt: real, abortsAt: Option<real>, throws: Option<E>)

  datatype Event<V, E> =
    | Abort(at: real)
    | TimerFires(at: real)
    | OperationSettles(settlement: Settlement<V, E>)
    | Resume

  // ---------------------------------------------------------------------------
  // The callbacks
  // ---------------------------------------------------------------------------

  function RequestCancellation<V, E>(s: State<V, E>, reason: Reason, now: real): State<V, E> {
    if s.cancellation.Some? then s
    else s.(cancellation := Some(reason), log := s.log + [CancelCalled(reason, now)])
  }

  function ArmDeadline<V, E>(s: State<V, E>, now: real): State<V, E> {
    if s.deadline.None? then s
    else
      var remaining := s.deadline.value - now;
      if remaining <= 0.0 then RequestCancellation(s, Deadline, now)
      else
        var delay := if remaining < MAXIMUM_TIMER_DELAY then remaining else MAXIMUM_TIMER_DELAY;
        s.(timer := Some(Timer(now, now + delay, remaining > MAXIMUM_TIMER_DELAY)))
  }

  function Fire<V, E>(s: State<V, E>, rearms: bool, now: real): State<V, E> {
    if rearms then ArmDeadline(s, now) else RequestCancellation(s, Deadline, now)
  }

  /** The call settles; its listener and its timer go. */
  function End<V, E>(s: State<V, E>, outcome: Outcome<V, E>): State<V, E> {
    s.(stage := Done(outcome), listening := false, timer := None, log := s.log + [CallEnded(outcome)])
  }

  function OutcomeOf<V, E>(settlement: Settlement<V, E>): Outcome<V, E> {
    match settlement
    case Fulfilled(value) => Returned(value)
    case Rejected(error) => Threw(error)
  }

  function Initial<V, E>(call: Call<E>): State<V, E> {
    State(call.deadline, None, true, None, NotDispatched, Racing, [])
  }

  /** The checks a call makes before it controls anything. */
  predicate PassesChecks<E>(call: Call<E>) {
    !call.abortedBefore && (call.deadline.Some? ==> call.deadline.value > call.now)
  }

  function Dispatch<V, E>(s: State<V, E>, call: Call<E>): State<V, E> {
    var called := s.(operation := Pending, log := s.log + [Dispatched]);
    var after := if call.abortsAt.Some? then RequestCancellation(called, Signal, call.abortsAt.value) else called;
    if call.throws.None? then after
    else
      var settled := after.(operation := Settled(Rejected(call.throws.value)), log := after.log + [OperationEnded]);
      End(settled, Threw(call.throws.value))
  }

  /** Everything up to the first point where the call waits. */
  function Start<V, E>(call: Call<E>): State<V, E> {
    if call.abortedBefore then End(Initial(call), Cancelled(Signal))
    else if call.deadline.Some? && call.deadline.value <= call.now then End(Initial(call), Cancelled(Deadline))
    else
      var armed := ArmDeadline(Initial(call), call.armedAt);
      if armed.cancellation.Some? then End(armed, Cancelled(armed.cancellation.value)) else Dispatch(armed, call)
  }

  /**
   * The waiting call goes on once one of the promises it waits for has settled. Whichever of the two won the race, what
   * follows depends only on whether a cancellation has been requested by then.
   */
  function Continue<V, E>(s: State<V, E>): State<V, E> {
    match s.stage
    case Racing =>
      if s.cancellation.Some? then s.(stage := Draining)
      else if s.operation.Settled? then End(s, OutcomeOf(s.operation.settlement))
      else s
    case Draining =>
      if s.operation.Settled? && s.cancellation.Some? then End(s, Cancelled(s.cancellation.value)) else s
    case Done(_) => s
  }

  function Next<V, E>(s: State<V, E>, event: Event<V, E>): State<V, E> {
    match event
    case Abort(at) => if s.listening then RequestCancellation(s, Signal, at) else s
    case TimerFires(at) =>
      if s.timer.Some? && s.timer.value.due <= at then Fire(s.(timer := None), s.timer.value.rearms, at) else s
    case OperationSettles(settlement) =>
      if s.operation.Pending? then s.(operation := Settled(settlement), log := s.log + [OperationEnded]) else s
    case Resume => Continue(s)
  }

  function Run<V, E>(call: Call<E>, events: seq<Event<V, E>>): State<V, E> {
    if events == [] then Start(call) else Next(Run(call, events[..|events| - 1]), events[|events| - 1])
  }

  // ---------------------------------------------------------------------------
  // What holds of a log
  // ---------------------------------------------------------------------------

  function Cancels<V, E>(log: seq<Effect<V, E>>): nat {
    if log == [] then 0 else Cancels(log[..|log| - 1]) + if log[|log| - 1].CancelCalled? then 1 else 0
  }

  /** The call ends once, after everything else it does, and only when a dispatched operation has ended. */
  ghost predicate EndsLast<V, E>(log: seq<Effect<V, E>>) {
    forall i :: 0 <= i < |log| && log[i].CallEnded? ==> i == |log| - 1 && (Dispatched in log ==> OperationEnded in log)
  }

  /** The deadline never cancels before its time. */
  ghost predicate NeverEarly<V, E>(log: seq<Effect<V, E>>, deadline: Option<real>) {
    forall i :: 0 <= i < |log| && log[i].CancelCalled? && log[i].reason.Deadline? ==>
      deadline.Some? && deadline.value <= log[i].at
  }

  ghost predicate WasCancelled<V, E>(log: seq<Effect<V, E>>, reason: Reason) {
    exists i :: 0 <= i < |log| && log[i].CancelCalled? && log[i].reason == reason
  }

  // ---------------------------------------------------------------------------
  // The invariant
  // ---------------------------------------------------------------------------

  /** A timer waits no longer than a timer can, and is due at the deadline, or re-arms before it. */
  ghost predicate TimerIsSound(timer: Timer, deadline: real) {
    && timer.armedAt < timer.due <= timer.armedAt + MAXIMUM_TIMER_DELAY
    && (if timer.rearms then timer.due < deadline else timer.due == deadline)
  }

  ghost predicate LogMatches<V, E>(s: State<V, E>) {
    && Cancels(s.log) == (if s.cancellation.Some? then 1 else 0)
    && (s.cancellation.Some? ==> WasCancelled(s.log, s.cancellation.value))
    && (Dispatched in s.log <==> !s.operation.NotDispatched?)
    && (OperationEnded in s.log <==> s.operation.Settled?)
    && (s.stage.Done? <==> s.log != [] && s.log[|s.log| - 1].CallEnded?)
    && EndsLast(s.log) && NeverEarly(s.log, s.deadline)
  }

  /** What the state says of a call still under way. */
  ghost predicate Underway<V, E>(s: State<V, E>) {
    && !s.stage.Done? && s.listening && !s.operation.NotDispatched?
    && (s.stage.Draining? ==> s.cancellation.Some?)
    && (s.timer.Some? ==> s.deadline.Some? && TimerIsSound(s.timer.value, s.deadline.value))
    && (s.deadline.Some? && s.cancellation.None? ==> s.timer.Some?)
  }

  /** The call whose operation aborts the signal and then throws before it first yields. */
  predicate ThrowsAfterAborting<E>(call: Call<E>) {
    && PassesChecks(call) && (call.deadline.Some? ==> call.armedAt < call.deadline.value)
    && call.abortsAt.Some? && call.throws.Some?
  }

  /** How a call that has ended ended. */
  ghost predicate EndedWell<V, E>(s: State<V, E>, call: Call<E>) {
    && s.stage.Done? && !s.listening && s.timer.None? && !s.operation.Pending?
    && (PassesChecks(call) && !ThrowsAfterAborting(call) ==>
          s.stage.outcome == if s.cancellation.Some? then Cancelled(s.cancellation.value)
                             else if s.operation.Settled? then OutcomeOf(s.operation.settlement)
                             else s.stage.outcome)
    && (PassesChecks(call) && s.operation.NotDispatched? ==> s.cancellation.Some?)
    && (ThrowsAfterAborting(call) ==> s.cancellation == Some(Signal) && s.stage.outcome == Threw(call.throws.value))
    && (!PassesChecks(call) ==> s.cancellation.None? && s.stage.outcome.Cancelled? && s.operation.NotDispatched?)
  }

  ghost predicate Inv<V, E>(s: State<V, E>, call: Call<E>) {
    && s.deadline == call.deadline
    && LogMatches(s)
    && (s.stage.Done? ==> EndedWell(s, call))
    && (!s.stage.Done? ==> Underway(s) && PassesChecks(call) && !ThrowsAfterAborting(call))
  }

  lemma LogCancels<V, E>(s: State<V, E>, reason: Reason, now: real)
    requires LogMatches(s) && !s.stage.Done? && (reason.Deadline? ==> s.deadline.Some? && s.deadline.value <= now)
    ensures LogMatches(RequestCancellation(s, reason, now))
  {
    var log := s.log + [CancelCalled(reason, now)];
    assert log[..|s.log|] == s.log;
    assert log[|s.log|] == CancelCalled(reason, now);
    assert s.cancellation.None? ==> WasCancelled(log, reason);
  }

  lemma LogEnds<V, E>(s: State<V, E>, outcome: Outcome<V, E>)
    requires LogMatches(s) && !s.stage.Done? && !s.operation.Pending?
    ensures LogMatches(End(s, outcome))
  {
    LogExtends(s, CallEnded(outcome));
  }

  lemma LogExtends<V, E>(s: State<V, E>, effect: Effect<V, E>)
    requires !effect.CancelCalled?
    ensures var log := s.log + [effect];
      && Cancels(log) == Cancels(s.log)
      && (forall reason :: WasCancelled(s.log, reason) ==> WasCancelled(log, reason))
      && (forall deadline :: NeverEarly(s.log, deadline) ==> NeverEarly(log, deadline))
      && (forall e :: e in log <==> e in s.log || e == effect)
  {
    var log := s.log + [effect];
    assert log[..|s.log|] == s.log;
    forall reason | WasCancelled(s.log, reason) ensures WasCancelled(log, reason) {
      var i :| 0 <= i < |s.log| && s.log[i].CancelCalled? && s.log[i].reason == reason;
      assert log[i] == s.log[i];
    }
  }

  lemma LogSettles<V, E>(s: State<V, E>, settlement: Settlement<V, E>)
    requires LogMatches(s) && !s.stage.Done? && s.operation.Pending?
    ensures LogMatches(s.(operation := Settled(settlement), log := s.log + [OperationEnded]))
  {
    LogExtends(s, OperationEnded);
  }

  lemma LogDispatches<V, E>(s: State<V, E>)
    requires LogMatches(s) && !s.stage.Done? && s.operation.NotDispatched?
    ensures LogMatches(s.(operation := Pending, log := s.log + [Dispatched]))
  {
    LogExtends(s, Dispatched);
  }

  /** Arming keeps the log, and leaves a sound timer unless it cancels. */
  lemma Arms<V, E>(s: State<V, E>, now: real)
    requires LogMatches(s) && !s.stage.Done? && s.cancellation.None?
    ensures var armed := ArmDeadline(s, now);
      && LogMatches(armed) && armed.(timer := s.timer, cancellation := None, log := s.log) == s
      && (s.deadline.Some? && now < s.deadline.value ==>
            armed.cancellation.None? && armed.timer.Some? && TimerIsSound(armed.timer.value, s.deadline.value))
      && (s.deadline.Some? && now >= s.deadline.value ==> armed.cancellation == Some(Deadline))
      && (s.deadline.None? ==> armed == s)
  {
    if s.deadline.Some? && s.deadline.value <= now {
      LogCancels(s, Deadline, now);
    }
  }

  lemma DispatchKeeps<V, E>(s: State<V, E>, call: Call<E>)
    requires LogMatches(s) && s.stage.Racing? && s.listening && s.operation.NotDispatched? && s.cancellation.None?
    requires s.deadline == call.deadline && PassesChecks(call) && (s.deadline.None? ==> s.timer.None?)
    requires s.deadline.Some? ==>
      call.armedAt < s.deadline.value && s.timer.Some? && TimerIsSound(s.timer.value, s.deadline.value)
    ensures Inv(Dispatch(s, call), call)
  {
    LogDispatches(s);
    var called := s.(operation := Pending, log := s.log + [Dispatched]);
    var after := called;
    if call.abortsAt.Some? {
      LogCancels(called, Signal, call.abortsAt.value);
      after := RequestCancellation(called, Signal, call.abortsAt.value);
    }
    if call.throws.Some? {
      LogSettles(after, Rejected(call.throws.value));
      var settled := after.(operation := Settled(Rejected(call.throws.value)), log := after.log + [OperationEnded]);
      LogEnds(settled, Threw(call.throws.value));
    }
  }

  lemma InitialLog<V, E>(call: Call<E>)
    ensures LogMatches<V, E>(Initial(call))
  {
  }

  lemma RefusedKeeps<V, E>(call: Call<E>, reason: Reason)
    requires !PassesChecks(call)
    ensures Inv<V, E>(End(Initial(call), Cancelled(reason)), call)
  {
    InitialLog<V, E>(call);
    LogEnds<V, E>(Initial(call), Cancelled(reason));
  }

  lemma ExpiredKeeps<V, E>(s: State<V, E>, call: Call<E>)
    requires LogMatches(s) && s.stage.Racing? && s.operation.NotDispatched? && s.cancellation == Some(Deadline)
    requires s.deadline == call.deadline && PassesChecks(call) && s.deadline.Some? && s.deadline.value <= call.armedAt
    ensures Inv(End(s, Cancelled(Deadline)), call)
  {
    LogEnds(s, Cancelled(Deadline));
  }

  lemma StartKeeps<V, E>(call: Call<E>)
    ensures Inv<V, E>(Start(call), call)
  {
    if call.abortedBefore {
      RefusedKeeps<V, E>(call, Signal);
    } else if !PassesChecks(call) {
      RefusedKeeps<V, E>(call, Deadline);
    } else {
      var initial: State<V, E> := Initial(call);
      InitialLog<V, E>(call);
      Arms(initial, call.armedAt);
      var armed := ArmDeadline(initial, call.armedAt);
      if armed.cancellation.Some? {
        ExpiredKeeps(armed, call);
      } else {
        DispatchKeeps(armed, call);
      }
    }
  }

  lemma TimerKeeps<V, E>(s: State<V, E>, call: Call<E>, at: real)
    requires Inv(s, call)
    ensures Inv(Next(s, TimerFires(at)), call)
  {
    if s.timer.Some? && s.timer.value.due <= at {
      var fired := s.(timer := None);
      if s.cancellation.None? {
        if s.timer.value.rearms {
          Arms(fired, at);
        } else {
          LogCancels(fired, Deadline, at);
        }
      } else if s.timer.value.rearms {
        var remaining := s.deadline.value - at;
        assert remaining > 0.0 ==> TimerIsSound(ArmDeadline(fired, at).timer.value, s.deadline.value);
      }
    }
  }

  lemma EventKeeps<V, E>(s: State<V, E>, call: Call<E>, event: Event<V, E>)
    requires Inv(s, call)
    ensures Inv(Next(s, event), call)
  {
    match event
    case Abort(at) =>
      if s.listening {
        LogCancels(s, Signal, at);
      }
    case TimerFires(at) => TimerKeeps(s, call, at);
    case OperationSettles(settlement) =>
      if s.operation.Pending? {
        LogSettles(s, settlement);
      }
    case Resume =>
      if !s.stage.Done? && Continue(s).stage.Done? {
        LogEnds(s, Continue(s).stage.outcome);
      }
  }

  lemma {:induction false} EveryRunKeeps<V, E>(call: Call<E>, events: seq<Event<V, E>>)
    ensures Inv(Run(call, events), call)
  {
    if events == [] {
      StartKeeps<V, E>(call);
    } else {
      EveryRunKeeps(call, events[..|events| - 1]);
      EventKeeps(Run(call, events[..|events| - 1]), call, events[|events| - 1]);
    }
  }

  // ---------------------------------------------------------------------------
  // Main results
  // ---------------------------------------------------------------------------

  /**
   * Over every run: cancel is called at most once, never by the deadline before its time; the call ends at most once,
   * last of all, and never while a dispatched operation is still going.
   */
  lemma CancelsOnceAndEndsLast<V, E>(call: Call<E>, events: seq<Event<V, E>>)
    ensures var log := Run(call, events).log;
      Cancels(log) <= 1 && NeverEarly(log, call.deadline) && EndsLast(log)
  {
    EveryRunKeeps(call, events);
  }

  /**
   * Once the checks have passed, a call that has ended ended in the cancellation error exactly when cancel was called,
   * with the reason cancel was given, and otherwise as its operation did; this holds of every call except the one whose
   * operation aborts the signal and throws before it first yields, and of that one it is false.
   */
  lemma EndsCancelledIffCancelCalled<V, E>(call: Call<E>, events: seq<Event<V, E>>)
    requires PassesChecks(call) && Run(call, events).stage.Done?
    ensures var s := Run(call, events);
      && (s.stage.outcome.Cancelled? <==> Cancels(s.log) == 1) == !ThrowsAfterAborting(call)
      && (s.stage.outcome.Cancelled? ==> WasCancelled(s.log, s.stage.outcome.reason))
      && (Cancels(s.log) == 0 ==> s.operation.Settled? && s.stage.outcome == OutcomeOf(s.operation.settlement))
  {
    EveryRunKeeps(call, events);
  }

  /** A run in which cancel is called and the call ends in the operation's own error all the same. */
  lemma CancelledCallCanEndInItsOwnError()
    ensures var call := Call(None, false, 0.0, 0.0, Some(0.0), Some("refused"));
      var s: State<int, string> := Run(call, []);
      && s.log == [Dispatched, CancelCalled(Signal, 0.0), OperationEnded, CallEnded(Threw("refused"))]
      && s.stage == Done(Threw("refused"))
  {
    var call := Call(None, false, 0.0, 0.0, Some(0.0), Some("refused"));
    var s: State<int, string> := Start(call);
    assert s.log
      == ([] + [Dispatched] + [CancelCalled(Signal, 0.0)] + [OperationEnded]) + [CallEnded(Threw("refused"))];
  }

  /**
   * A call under way with a deadline always has a timer that will enforce it: one that fires at or after it cancels.
   */
  lemma DeadlineIsEnforced<V, E>(call: Call<E>, events: seq<Event<V, E>>, at: real)
    requires call.deadline.Some? && call.deadline.value <= at && !Run(call, events).stage.Done?
    ensures Run(call, events).cancellation.None? ==>
      && Run(call, events).timer.Some? && Run(call, events).timer.value.due <= call.deadline.value
      && Next(Run(call, events), TimerFires(at)).cancellation == Some(Deadline)
  {
    EveryRunKeeps(call, events);
  }

  /** And it always listens: an abort cancels it, unless something else has. */
  lemma AbortIsEnforced<V, E>(call: Call<E>, events: seq<Event<V, E>>, at: real)
    requires !Run(call, events).stage.Done?
    ensures var s, next := Run(call, events), Next(Run(call, events), Abort(at));
      && next.cancellation == (if s.cancellation.Some? then s.cancellation else Some(Signal))
      && (s.cancellation.None? ==> next.log == s.log + [CancelCalled(Signal, at)])
  {
    EveryRunKeeps(call, events);
  }

  /** A cancellation is never taken back, nor its reason changed. */
  lemma {:induction false} CancellationStays<V, E>(call: Call<E>, events: seq<Event<V, E>>, i: nat)
    requires i <= |events| && Run(call, events[..i]).cancellation.Some?
    ensures Run(call, events).cancellation == Run(call, events[..i]).cancellation
    decreases |events|
  {
    if i == |events| {
      assert events[..i] == events;
    } else {
      var front := events[..|events| - 1];
      assert front[..i] == events[..i];
      CancellationStays(call, front, i);
    }
  }

  /** So a call that was cancelled while under way, and has ended, ended cancelled, for the first reason there was. */
  lemma CancelledCallsEndCancelled<V, E>(call: Call<E>, events: seq<Event<V, E>>, i: nat)
    requires i <= |events| && !Run(call, events[..i]).stage.Done? && Run(call, events[..i]).cancellation.Some?
    requires Run(call, events).stage.Done?
    ensures Run(call, events).stage.outcome == Cancelled(Run(call, events[..i]).cancellation.value)
  {
    EveryRunKeeps(call, events[..i]);
    EveryRunKeeps(call, events);
    CancellationStays(call, events, i);
  }

  /** A call that is aborted before it is done, and has ended, ended cancelled: by the signal, if nothing was first. */
  lemma AbortedCallsEndCancelled<V, E>(call: Call<E>, events: seq<Event<V, E>>, i: nat)
    requires i < |events| && events[i].Abort? && !Run(call, events[..i]).stage.Done? && Run(call, events).stage.Done?
    ensures var before := Run(call, events[..i]).cancellation;
      Run(call, events).stage.outcome == Cancelled(if before.Some? then before.value else Signal)
  {
    var here := events[..i + 1];
    assert here[..i] == events[..i] && here[i] == events[i];
    AbortIsEnforced(call, events[..i], events[i].at);
    CancelledCallsEndCancelled(call, events, i + 1);
  }

  /** And so for a timer that fires at the deadline or after it. */
  lemma LateCallsEndCancelled<V, E>(call: Call<E>, events: seq<Event<V, E>>, i: nat)
    requires i < |events| && events[i].TimerFires?
    requires !Run(call, events[..i]).stage.Done? && Run(call, events).stage.Done?
    requires call.deadline.Some? && call.deadline.value <= events[i].at
    ensures var before := Run(call, events[..i]).cancellation;
      Run(call, events).stage.outcome == Cancelled(if before.Some? then before.value else Deadline)
  {
    var here := events[..i + 1];
    assert here[..i] == events[..i] && here[i] == events[i];
    if Run(call, events[..i]).cancellation.Some? {
      CancelledCallsEndCancelled(call, events, i);
    } else {
      DeadlineIsEnforced(call, events[..i], events[i].at);
      CancelledCallsEndCancelled(call, events, i + 1);
    }
  }

  /** An abort by the operation itself, before it first yields, cancels too. */
  lemma AbortWhileDispatchingCancels<V, E>(call: Call<E>, events: seq<Event<V, E>>)
    requires PassesChecks(call) && (call.deadline.Some? ==> call.armedAt < call.deadline.value) && call.abortsAt.Some?
    ensures Run(call, events).cancellation == Some(Signal)
    ensures Run(call, events).stage.Done? && call.throws.None? ==> Run(call, events).stage.outcome == Cancelled(Signal)
  {
    CancellationStays(call, events, 0);
    EveryRunKeeps(call, events);
  }

  /** A call that does not pass its checks ends at once, cancelled for the first that fails, nothing dispatched. */
  lemma {:induction false} RefusedCallsEndCancelled<V, E>(call: Call<E>, events: seq<Event<V, E>>)
    requires !PassesChecks(call)
    ensures var outcome: Outcome<V, E> := Cancelled(if call.abortedBefore then Signal else Deadline);
      Run(call, events).stage == Done(outcome) && Run(call, events).log == [CallEnded(outcome)]
    decreases |events|
  {
    if events == [] {
      var outcome: Outcome<V, E> := Cancelled(if call.abortedBefore then Signal else Deadline);
      assert [] + [CallEnded(outcome)] == [CallEnded(outcome)];
    } else {
      RefusedCallsEndCancelled(call, events[..|events| - 1]);
      EveryRunKeeps(call, events[..|events| - 1]);
    }
  }

  /** The operation settles once and for all, as it first does. */
  lemma {:induction false} SettlementStays<V, E>(call: Call<E>, events: seq<Event<V, E>>, i: nat)
    requires i < |events| && events[i].OperationSettles? && Run(call, events[..i]).operation.Pending?
    ensures Run(call, events).operation == Settled(events[i].settlement)
    decreases |events|
  {
    var front := events[..|events| - 1];
    if i < |front| {
      assert front[..i] == events[..i];
      SettlementStays(call, front, i);
    } else {
      assert front == events[..i];
    }
  }

  /** A call that nothing cancels ends as its operation settled. */
  lemma UndisturbedCallsEndAsSettled<V, E>(call: Call<E>, events: seq<Event<V, E>>, i: nat)
    requires i < |events| && events[i].OperationSettles? && Run(call, events[..i]).operation.Pending?
    requires PassesChecks(call) && Run(call, events).cancellation.None? && Run(call, events).stage.Done?
    ensures Run(call, events).stage.outcome == OutcomeOf(events[i].settlement)
  {
    EveryRunKeeps(call, events);
    SettlementStays(call, events, i);
  }

  lemma ResumesToItsEnd<V, E>(s: State<V, E>)
    requires !s.stage.Done? ==> s.operation.Settled? && (s.stage.Draining? ==> s.cancellation.Some?)
    ensures Continue(Continue(s)).stage.Done?
  {
  }

  lemma UnderwayUntilDone<V, E>(s: State<V, E>, call: Call<E>)
    requires Inv(s, call) && !s.stage.Done?
    ensures !s.operation.NotDispatched? && (s.stage.Draining? ==> s.cancellation.Some?)
  {
  }

  /** Nothing waits forever: once the operation has settled, resuming the call twice ends it. */
  lemma SettledCallsEnd<V, E>(call: Call<E>, events: seq<Event<V, E>>)
    requires !Run(call, events).operation.Pending?
    ensures Next(Next(Run(call, events), Resume), Resume).stage.Done?
  {
    var s := Run(call, events);
    EveryRunKeeps(call, events);
    if !s.stage.Done? {
      UnderwayUntilDone(s, call);
    }
    ResumesToItsEnd(s);
  }
}
