/**
 * What the events of a run say of a transaction, and what it may therefore commit
 * (packages/adapters/src/sqlite-wasm.ts, transaction-scope.ts). Nothing here looks at what a transaction has recorded
 * of itself.
 */
module LeaseRuns {
  import opened Text
  import opened Lease

  /** An operation of a callback: whether the connection ran it, whether it settles well, whether it has settled. */
  datatype Call = Call(op: Op, ran: bool, settlesWell: bool, settled: bool)

  predicate Worked(call: Call) {
    call.ran && call.settlesWell
  }

  /** The event by which a transaction begins and its callback is called. */
  ghost predicate Begins(s: State, event: Event, tx: Tx) {
    && event.Start? && event.tx == tx && event.works
    && tx !in s.transactions && EnsureOpen(s, event.wrapper, None)
  }

  /** The callback has been called and has not ended. */
  ghost predicate CallbackRuns(events: seq<Event>, tx: Tx) {
    if events == [] then false
    else
      var front, event := events[..|events| - 1], events[|events| - 1];
      Begins(After(INITIAL, front), event, tx)
      || (CallbackRuns(front, tx) && !(event.CallbackEnds? && event.tx == tx))
  }

  predicate Outstanding(calls: seq<Call>, op: Op) {
    exists i :: 0 <= i < |calls| && calls[i].op == op && !calls[i].settled
  }

  predicate AllSettled(calls: seq<Call>) {
    forall i :: 0 <= i < |calls| ==> calls[i].settled
  }

  predicate AllWorked(calls: seq<Call>) {
    forall i :: 0 <= i < |calls| ==> Worked(calls[i])
  }

  function Settles(calls: seq<Call>, op: Op): (r: seq<Call>)
    ensures |r| == |calls|
  {
    seq(|calls|, i requires 0 <= i < |calls| => if calls[i].op == op then calls[i].(settled := true) else calls[i])
  }

  /** The operations the callback has dispatched, in order. */
  ghost function Calls(events: seq<Event>, tx: Tx): seq<Call> {
    if events == [] then []
    else
      var front, event := events[..|events| - 1], events[|events| - 1];
      var calls := Calls(front, tx);
      match event
      case Dispatch(u, op, works, settlesWell) =>
        if u == tx && CallbackRuns(front, tx) && !Outstanding(calls, op) then
          calls + [Call(op, works && After(INITIAL, front).open, settlesWell, false)]
        else calls
      case Settle(u, op) => if u == tx then Settles(calls, op) else calls
      case _ => calls
  }

  /** The callback has returned, and what is to become of the transaction has not been decided yet. */
  ghost predicate HasReturned(events: seq<Event>, tx: Tx) {
    if events == [] then false
    else
      var front, event := events[..|events| - 1], events[|events| - 1];
      match event
      case CallbackEnds(u, returned) => if u == tx && CallbackRuns(front, tx) then returned else HasReturned(front, tx)
      case Finish(u, _) => HasReturned(front, tx) && !(u == tx && AllSettled(Calls(front, tx)))
      case _ => HasReturned(front, tx)
  }

  /** It was a batch. */
  ghost predicate RanInOnePiece(events: seq<Event>, tx: Tx) {
    if events == [] then false
    else
      var front, event := events[..|events| - 1], events[|events| - 1];
      || RanInOnePiece(front, tx)
      || (event.Batch? && event.tx == tx && tx !in After(INITIAL, front).transactions
          && EnsureOpen(After(INITIAL, front), event.wrapper, None))
  }

  /** What the operations that were carried out have changed. */
  function Changes(calls: seq<Call>, tx: Tx): seq<Effect> {
    if calls == [] then []
    else
      var last := calls[|calls| - 1];
      Changes(calls[..|calls| - 1], tx) + if last.ran then [Effect(Some(tx), last.op)] else []
  }

  // ---------------------------------------------------------------------------
  // The state says what the events say
  // ---------------------------------------------------------------------------

  ghost predicate PendingIs(pending: map<Op, bool>, calls: seq<Call>) {
    && (forall op :: op in pending <==> Outstanding(calls, op))
    && (forall i :: 0 <= i < |calls| && !calls[i].settled ==>
          calls[i].op in pending && pending[calls[i].op] == !Worked(calls[i]))
  }

  ghost predicate FailedIs(failed: bool, calls: seq<Call>) {
    failed <==> exists i :: 0 <= i < |calls| && calls[i].settled && !Worked(calls[i])
  }

  ghost predicate Tracks(t: Transaction, tx: Tx, runs: bool, returned: bool, calls: seq<Call>, batch: bool) {
    && (t.phase.Running? <==> runs) && (t.phase == Draining(true) <==> returned)
    && PendingIs(t.pending, calls) && FailedIs(t.failed, calls)
    && if batch then t.phase.Ended? && calls == [] else t.effects == Changes(calls, tx)
  }

  ghost predicate RunTracks(events: seq<Event>, tx: Tx) {
    var s := After(INITIAL, events);
    var runs, returned, calls := CallbackRuns(events, tx), HasReturned(events, tx), Calls(events, tx);
    if tx in s.transactions then Tracks(s.transactions[tx], tx, runs, returned, calls, RanInOnePiece(events, tx))
    else !runs && !returned && calls == [] && !RanInOnePiece(events, tx)
  }

  lemma {:induction false} SettlesKeepsChanges(calls: seq<Call>, op: Op, tx: Tx)
    ensures Changes(Settles(calls, op), tx) == Changes(calls, tx)
  {
    if calls != [] {
      var front := calls[..|calls| - 1];
      SettlesKeepsChanges(front, op, tx);
      assert Settles(calls, op)[..|calls| - 1] == Settles(front, op);
    }
  }

  lemma ChangesGrow(calls: seq<Call>, call: Call, tx: Tx)
    ensures Changes(calls + [call], tx) == Changes(calls, tx) + if call.ran then [Effect(Some(tx), call.op)] else []
  {
    assert (calls + [call])[..|calls|] == calls;
  }

  /** Which transaction an event is about. */
  function About(event: Event): Option<Tx> {
    match event
    case Start(tx, _, _) => Some(tx)
    case Dispatch(tx, _, _, _) => Some(tx)
    case Settle(tx, _) => Some(tx)
    case CallbackEnds(tx, _) => Some(tx)
    case Finish(tx, _) => Some(tx)
    case Batch(tx, _, _, _, _, _) => Some(tx)
    case _ => None
  }

  lemma {:induction false} StatementsLeaveOthers(s: State, tx: Tx, statements: seq<Statement>, from: nat, other: Tx)
    requires from <= |statements| && tx in s.transactions && other != tx
    ensures var next := RunStatements(s, tx, statements, from).0;
      (other in next.transactions <==> other in s.transactions)
      && (other in s.transactions ==> next.transactions[other] == s.transactions[other])
    decreases |statements| - from
  {
    if from < |statements| && Succeeds(statements[from]) {
      StatementsLeaveOthers(AfterStatement(s, tx, from, true), tx, statements, from + 1, other);
    }
  }

  /** An event about another transaction, or none, changes nothing of this one. */
  lemma OthersStay(s: State, event: Event, tx: Tx)
    requires About(event) != Some(tx)
    ensures tx in Next(s, event).transactions <==> tx in s.transactions
    ensures tx in s.transactions ==> Next(s, event).transactions[tx] == s.transactions[tx]
  {
    if event.Batch? && event.tx !in s.transactions && EnsureOpen(s, event.wrapper, None) && event.beginWorks {
      var begun := With(Execute(s.(lease := Some(event.tx)), Some(event.tx), Begin, 0, true), event.tx,
                        Transaction(event.wrapper, Running, true, map[], false, []));
      StatementsLeaveOthers(begun, event.tx, event.statements, 0, tx);
    }
  }

  lemma NobodyElsesEvent(events: seq<Event>, tx: Tx)
    requires events != [] && RunTracks(events[..|events| - 1], tx) && About(events[|events| - 1]) != Some(tx)
    ensures RunTracks(events, tx)
  {
    var front, event := events[..|events| - 1], events[|events| - 1];
    OthersStay(After(INITIAL, front), event, tx);
  }

  lemma StartTracks(events: seq<Event>, tx: Tx)
    requires events != [] && RunTracks(events[..|events| - 1], tx)
    requires events[|events| - 1].Start? && events[|events| - 1].tx == tx
    ensures RunTracks(events, tx)
  {
  }

  lemma SettleTracks(t: Transaction, tx: Tx, op: Op, runs: bool, returned: bool, calls: seq<Call>, batch: bool)
    requires Tracks(t, tx, runs, returned, calls, batch) && op in t.pending
    ensures Tracks(t.(pending := t.pending - {op}, failed := t.failed || t.pending[op]), tx, runs, returned,
                   Settles(calls, op), batch)
  {
    var after := Settles(calls, op);
    SettlesKeepsChanges(calls, op, tx);
    var i :| 0 <= i < |calls| && calls[i].op == op && !calls[i].settled;
    assert after[i].settled;
    forall k | k in t.pending && k != op ensures Outstanding(after, k) {
      var j :| 0 <= j < |calls| && calls[j].op == k && !calls[j].settled;
      assert after[j] == calls[j];
    }
    forall k | Outstanding(after, k) ensures k in t.pending && k != op {
      var j :| 0 <= j < |after| && after[j].op == k && !after[j].settled;
      assert after[j] == calls[j];
    }
    SettleCounts(t.failed, t.pending[op], calls, op, i);
  }

  lemma SettleCounts(failed: bool, fails: bool, calls: seq<Call>, op: Op, i: nat)
    requires i < |calls| && calls[i].op == op && !calls[i].settled && fails == !Worked(calls[i])
    requires forall j :: 0 <= j < |calls| && !calls[j].settled && calls[j].op == op ==> fails == !Worked(calls[j])
    requires FailedIs(failed, calls)
    ensures FailedIs(failed || fails, Settles(calls, op))
  {
    var after := Settles(calls, op);
    assert after[i].settled && Worked(after[i]) == Worked(calls[i]);
    if j :| 0 <= j < |calls| && calls[j].settled && !Worked(calls[j]) {
      assert after[j].settled && !Worked(after[j]);
    }
    if j :| 0 <= j < |after| && after[j].settled && !Worked(after[j]) {
      assert Worked(calls[j]) == Worked(after[j]);
    }
  }

  lemma SettleEventTracks(events: seq<Event>, tx: Tx)
    requires events != [] && RunTracks(events[..|events| - 1], tx)
    requires events[|events| - 1].Settle? && events[|events| - 1].tx == tx
    ensures RunTracks(events, tx)
  {
    var front, op := events[..|events| - 1], events[|events| - 1].op;
    var s, calls := After(INITIAL, front), Calls(front, tx);
    if tx in s.transactions && op in s.transactions[tx].pending {
      SettleTracks(s.transactions[tx], tx, op, CallbackRuns(front, tx), HasReturned(front, tx), calls,
                   RanInOnePiece(front, tx));
    } else {
      forall i | 0 <= i < |calls| ensures Settles(calls, op)[i] == calls[i] {
        assert calls[i].op == op && !calls[i].settled ==> Outstanding(calls, op);
      }
      assert Settles(calls, op) == calls;
    }
  }

  lemma DispatchTracks(t: Transaction, next: Transaction, tx: Tx, call: Call, calls: seq<Call>)
    requires Tracks(t, tx, true, false, calls, false) && !Outstanding(calls, call.op) && !call.settled
    requires next == t.(pending := t.pending[call.op := !Worked(call)],
                        effects := if call.ran then t.effects + [Effect(Some(tx), call.op)] else t.effects)
    ensures Tracks(next, tx, true, false, calls + [call], false)
  {
    var after := calls + [call];
    ChangesGrow(calls, call, tx);
    assert after[|calls|] == call;
    forall k | k in next.pending ensures Outstanding(after, k) {
      if k in t.pending {
        var j :| 0 <= j < |calls| && calls[j].op == k && !calls[j].settled;
        assert after[j] == calls[j];
      }
    }
    forall i | 0 <= i < |calls| && !calls[i].settled ensures calls[i].op != call.op {
    }
    if j :| 0 <= j < |calls| && calls[j].settled && !Worked(calls[j]) {
      assert after[j] == calls[j];
    }
  }

  lemma DispatchEventTracks(events: seq<Event>, tx: Tx)
    requires events != [] && RunTracks(events[..|events| - 1], tx)
    requires events[|events| - 1].Dispatch? && events[|events| - 1].tx == tx
    ensures RunTracks(events, tx)
  {
    var front, event := events[..|events| - 1], events[|events| - 1];
    var s, calls := After(INITIAL, front), Calls(front, tx);
    EveryRunKeeps(front);
    if IsIn(s, tx, Running) && event.op !in s.transactions[tx].pending {
      assert IsLive(s, tx);
      assert EnsureOpen(s, s.transactions[tx].wrapper, Some(tx)) == s.open;
      var call := Call(event.op, event.works && s.open, event.settlesWell, false);
      DispatchTracks(s.transactions[tx], After(INITIAL, events).transactions[tx], tx, call, calls);
    }
  }

  lemma CallbackEndTracks(events: seq<Event>, tx: Tx)
    requires events != [] && RunTracks(events[..|events| - 1], tx)
    requires events[|events| - 1].CallbackEnds? && events[|events| - 1].tx == tx
    ensures RunTracks(events, tx)
  {
  }

  lemma NothingPendingIffAllSettled(t: Transaction, calls: seq<Call>)
    requires PendingIs(t.pending, calls)
    ensures t.pending == map[] <==> AllSettled(calls)
  {
    if t.pending != map[] {
      var op :| op in t.pending;
      assert Outstanding(calls, op);
    }
  }

  lemma FinishLeavesScope(s: State, tx: Tx, works: bool)
    ensures var next := OnFinish(s, tx, works);
      if !IsDraining(s, tx) || s.transactions[tx].pending != map[] then next == s
      else
        && tx in next.transactions && var t := next.transactions[tx];
        && t == s.transactions[tx].(phase := t.phase)
        && (t.phase.Ended? || t.phase == Draining(false))
  {
  }

  lemma FinishTracks(events: seq<Event>, tx: Tx)
    requires events != [] && RunTracks(events[..|events| - 1], tx)
    requires events[|events| - 1].Finish? && events[|events| - 1].tx == tx
    ensures RunTracks(events, tx)
  {
    var front, works := events[..|events| - 1], events[|events| - 1].works;
    var s := After(INITIAL, front);
    FinishLeavesScope(s, tx, works);
    if tx in s.transactions {
      NothingPendingIffAllSettled(s.transactions[tx], Calls(front, tx));
    }
  }

  lemma {:induction false} StatementsLeaveScope(s: State, tx: Tx, statements: seq<Statement>, from: nat)
    requires from <= |statements| && tx in s.transactions
    ensures var before, after := s.transactions[tx], RunStatements(s, tx, statements, from).0.transactions[tx];
      after.pending == before.pending && after.failed == before.failed
    decreases |statements| - from
  {
    if from < |statements| && Succeeds(statements[from]) {
      StatementsLeaveScope(AfterStatement(s, tx, from, true), tx, statements, from + 1);
    }
  }

  lemma BatchTracks(events: seq<Event>, tx: Tx)
    requires events != [] && RunTracks(events[..|events| - 1], tx)
    requires events[|events| - 1].Batch? && events[|events| - 1].tx == tx
    ensures RunTracks(events, tx)
  {
    var front, event := events[..|events| - 1], events[|events| - 1];
    var s := After(INITIAL, front);
    if tx !in s.transactions && EnsureOpen(s, event.wrapper, None) && event.beginWorks {
      var begun := With(Execute(s.(lease := Some(tx)), Some(tx), Begin, 0, true), tx,
                        Transaction(event.wrapper, Running, true, map[], false, []));
      StatementsLeaveScope(begun, tx, event.statements, 0);
    }
  }

  /** Over every run, a transaction's state is what the events say. */
  lemma {:induction false} EveryRunTracks(events: seq<Event>, tx: Tx)
    ensures RunTracks(events, tx)
  {
    if events != [] {
      EveryRunTracks(events[..|events| - 1], tx);
      var event := events[|events| - 1];
      if About(event) != Some(tx) {
        NobodyElsesEvent(events, tx);
      } else {
        match event
        case Start(_, _, _) => StartTracks(events, tx);
        case Dispatch(_, _, _, _) => DispatchEventTracks(events, tx);
        case Settle(_, _) => SettleEventTracks(events, tx);
        case CallbackEnds(_, _) => CallbackEndTracks(events, tx);
        case Finish(_, _) => FinishTracks(events, tx);
        case Batch(_, _, _, _, _, _) => BatchTracks(events, tx);
      }
    }
  }

  // ---------------------------------------------------------------------------
  // What is committed
  // ---------------------------------------------------------------------------

  /** The operations as changes, in order. */
  function Operations(calls: seq<Call>, tx: Tx): seq<Effect> {
    seq(|calls|, i requires 0 <= i < |calls| => Effect(Some(tx), calls[i].op))
  }

  lemma {:induction false} AllChanges(calls: seq<Call>, tx: Tx)
    requires AllWorked(calls)
    ensures Changes(calls, tx) == Operations(calls, tx)
  {
    if calls != [] {
      var front := calls[..|calls| - 1];
      AllChanges(front, tx);
      assert Operations(calls, tx) == Operations(front, tx) + [Effect(Some(tx), calls[|calls| - 1].op)];
    }
  }

  /**
   * A transaction that has committed: every operation its callback dispatched was carried out, settled well and has
   * settled, and what is durable of it is those operations, in order. Catching the failure of one does not help.
   */
  lemma CommittedMeansAllWorked(events: seq<Event>, tx: Tx)
    requires IsIn(After(INITIAL, events), tx, Ended(Committed)) && !RanInOnePiece(events, tx)
    ensures AllSettled(Calls(events, tx)) && AllWorked(Calls(events, tx))
    ensures Of(Durable(After(INITIAL, events)), tx) == Operations(Calls(events, tx), tx)
  {
    var s, calls := After(INITIAL, events), Calls(events, tx);
    EveryRunKeeps(events);
    EveryRunTracks(events, tx);
    assert IsAtomic(s, tx);
    NothingPendingIffAllSettled(s.transactions[tx], calls);
    AllChanges(calls, tx);
  }

  /** What has been dispatched stays so: only whether it has settled can change. */
  lemma {:induction false} CallsStay(events: seq<Event>, n: nat, tx: Tx, k: nat)
    requires n <= |events| && k < |Calls(events[..n], tx)|
    ensures k < |Calls(events, tx)|
    ensures Calls(events, tx)[k].(settled := true) == Calls(events[..n], tx)[k].(settled := true)
    ensures Calls(events, tx)[k].settled && !Calls(events[..n], tx)[k].settled ==>
      exists j :: n <= j < |events| && events[j] == Settle(tx, Calls(events[..n], tx)[k].op)
    decreases |events|
  {
    if n == |events| {
      assert events[..n] == events;
    } else {
      var front := events[..|events| - 1];
      assert front[..n] == events[..n];
      CallsStay(front, n, tx, k);
      if Calls(front, tx)[k].settled && !Calls(events[..n], tx)[k].settled {
        var j :| n <= j < |front| && front[j] == Settle(tx, Calls(events[..n], tx)[k].op);
        assert events[j] == front[j];
      }
    }
  }

  /** The same of the events: whatever a callback dispatched worked, settles well, and was followed by its settling. */
  lemma CommittedDispatchesWorked(events: seq<Event>, tx: Tx, i: nat)
    requires IsIn(After(INITIAL, events), tx, Ended(Committed)) && !RanInOnePiece(events, tx)
    requires i < |events| && events[i].Dispatch? && events[i].tx == tx
    requires CallbackRuns(events[..i], tx) && !Outstanding(Calls(events[..i], tx), events[i].op)
    ensures events[i].works && events[i].settlesWell
    ensures exists j :: i < j < |events| && events[j] == Settle(tx, events[i].op)
  {
    var k, n := |Calls(events[..i], tx)|, i + 1;
    assert events[..n][..i] == events[..i] && events[..n][i] == events[i];
    assert Calls(events[..n], tx)[k].op == events[i].op;
    CommittedMeansAllWorked(events, tx);
    CallsStay(events, n, tx, k);
    assert Worked(Calls(events, tx)[k]) && Calls(events, tx)[k].settled;
  }

  /**
   * Once everything dispatched has settled, a transaction is over in two steps. It commits exactly when its callback
   * has returned, every operation it dispatched worked, the connection is open and COMMIT works; then all of its
   * operations, and nothing else, become durable, and otherwise nothing does.
   */
  lemma SettledRunsEnd(events: seq<Event>, tx: Tx, first: bool, second: bool)
    requires IsDraining(After(INITIAL, events), tx) && AllSettled(Calls(events, tx))
    ensures var s, calls := After(INITIAL, events), Calls(events, tx);
      var ended := After(INITIAL, events + [Finish(tx, first)] + [Finish(tx, second)]);
      var commits := HasReturned(events, tx) && AllWorked(calls) && s.open && first;
      && tx in ended.transactions && ended.transactions[tx].phase.Ended? && ended.lease.None?
      && (ended.transactions[tx].phase == Ended(Committed) <==> commits)
      && Durable(ended) == Durable(s) + if commits then Operations(calls, tx) else []
  {
    var s, calls := After(INITIAL, events), Calls(events, tx);
    EveryRunKeeps(events);
    EveryRunTracks(events, tx);
    NothingPendingIffAllSettled(s.transactions[tx], calls);
    DrainedTransactionsEnd(s, tx, first, second);
    OneMoreEvent(INITIAL, events, Finish(tx, first));
    OneMoreEvent(INITIAL, events + [Finish(tx, first)], Finish(tx, second));
    if AllWorked(calls) {
      AllChanges(calls, tx);
    }
  }

  lemma OneMoreEvent(s: State, events: seq<Event>, event: Event)
    ensures After(s, events + [event]) == Next(After(s, events), event)
  {
    var more := events + [event];
    assert more[..|more| - 1] == events;
  }

  /** An idle, open connection serves: a transaction starts with its BEGIN, nobody's statement is durable at once. */
  lemma IdleConnectionsServe(events: seq<Event>, tx: Tx, wrapper: Wrapper, op: Op)
    requires var s := After(INITIAL, events); EnsureOpen(s, wrapper, None) && tx !in s.transactions
    ensures var s := After(INITIAL, events);
      && var begun := Next(s, Start(tx, wrapper, true));
      && begun.lease == Some(tx) && IsIn(begun, tx, Running) && begun.log == s.log + [Run(Some(tx), Begin, true)]
      && Durable(begun) == Durable(s)
      && Durable(Next(s, Plain(wrapper, op, true))) == Durable(s) + [Effect(None, op)]
  {
    EveryRunKeeps(events);
  }

  lemma ClosedDoesNothing(s: State, event: Event)
    requires !s.open && s.saved.None?
    ensures var next := Next(s, event);
      !next.open && next.saved.None? && next.db == s.db && next.log == s.log
  {
  }

  /** Nothing reaches a closed connection, and what was durable when it was closed stays exactly that. */
  lemma {:induction false} ClosingIsFinal(before: seq<Event>, after: seq<Event>)
    ensures var s, ended := After(INITIAL, before), After(After(INITIAL, before + [ConnectionCloses]), after);
      !ended.open && ended.saved.None? && ended.log == s.log && Durable(ended) == Durable(s)
    decreases |after|
  {
    OneMoreEvent(INITIAL, before, ConnectionCloses);
    if after != [] {
      ClosingIsFinal(before, after[..|after| - 1]);
      ClosedDoesNothing(After(After(INITIAL, before + [ConnectionCloses]), after[..|after| - 1]), after[|after| - 1]);
    }
  }
}
