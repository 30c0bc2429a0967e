/**
 * Transactions and batches over one shared connection (packages/adapters/src/sqlite-wasm.ts, transaction-scope.ts).
 *
 * Each event is one stretch of code between two awaits, so callers interleave exactly at event boundaries.
 */
module Lease {
  import opened Text

  type Tx = nat
  type Op = nat
  type Wrapper = nat

  /** A change made by a statement; `owner` is the transaction it ran in, if any. */
  datatype Effect = Effect(owner: Option<Tx>, op: Op)

  datatype Kind = Begin | Query | Commit | Rollback

  /** A statement handed to the connection, and whether the connection carried it out. */
  datatype Run = Run(owner: Option<Tx>, kind: Kind, worked: bool)

  datatype End = Committed | RolledBack | Broke | NeverBegan

  /** The callback runs; or it has ended and its scope is retired; or all is over. */
  datatype Phase = Running | Draining(returned: bool) | Ended(end: End)

  datatype Transaction = Transaction(
    wrapper: Wrapper,
    phase: Phase,
    begun: bool,
    /** Dispatched and not yet settled, with whether each will fail. */
    pending: map<Op, bool>,
    failed: bool,
    /** What its statements changed, in order. */
    effects: seq<Effect>)

  datatype State = State(
    db: seq<Effect>,
    /** The copy BEGIN saved, while a native transaction is open. */
    saved: Option<seq<Effect>>,
    open: bool,
    broken: bool,
    lease: Option<Tx>,
    closed: set<Wrapper>,
    transactions: map<Tx, Transaction>,
    log: seq<Run>)

  /** A statement of a batch: whether the connection carries it out, and whether it then returns an answer. */
  datatype Statement = Statement(works: bool, answers: bool)

  datatype Event =
    | Start(tx: Tx, wrapper: Wrapper, works: bool)
    | Dispatch(tx: Tx, op: Op, works: bool, settlesWell: bool)
    | Settle(tx: Tx, op: Op)
    | CallbackEnds(tx: Tx, returned: bool)
    | Finish(tx: Tx, works: bool)
    | Plain(wrapper: Wrapper, op: Op, works: bool)
    | Batch(tx: Tx, wrapper: Wrapper, beginWorks: bool, statements: seq<Statement>, commitWorks: bool,
            rollbackWorks: bool)
    | CloseWrapper(wrapper: Wrapper, ownsConnection: bool)
    | ConnectionCloses

  const INITIAL := State([], None, true, false, None, {}, map[], [])

  // ---------------------------------------------------------------------------
  // The connection
  // ---------------------------------------------------------------------------

  /** `ensureOpen`: the wrapper and the connection are open, not broken, and the caller holds the lease, if any. */
  predicate EnsureOpen(s: State, wrapper: Wrapper, lease: Option<Tx>) {
    wrapper !in s.closed && s.open && !s.broken && s.lease == lease
  }

  /** Hands one statement to the connection. A statement that does not work has no effect. */
  function Execute(s: State, owner: Option<Tx>, kind: Kind, op: Op, works: bool): State {
    var logged := s.(log := s.log + [Run(owner, kind, works)]);
    if !works then logged
    else
      match kind
      case Begin => logged.(saved := Some(s.db))
      case Query => logged.(db := s.db + [Effect(owner, op)])
      case Commit => logged.(saved := None)
      case Rollback => logged.(db := if s.saved.Some? then s.saved.value else s.db, saved := None)
  }

  // ---------------------------------------------------------------------------
  // Events
  // ---------------------------------------------------------------------------

  function With(s: State, tx: Tx, t: Transaction): State {
    s.(transactions := s.transactions[tx := t])
  }

  /** Ends a transaction and gives the lease back. */
  function Release(s: State, tx: Tx, end: End): State
    requires tx in s.transactions
  {
    With(s, tx, s.transactions[tx].(phase := Ended(end))).(lease := None)
  }

  predicate IsIn(s: State, tx: Tx, phase: Phase) {
    tx in s.transactions && s.transactions[tx].phase == phase
  }

  predicate IsDraining(s: State, tx: Tx) {
    tx in s.transactions && s.transactions[tx].phase.Draining?
  }

  function OnStart(s: State, tx: Tx, wrapper: Wrapper, works: bool): State {
    if tx in s.transactions || !EnsureOpen(s, wrapper, None) then s
    else
      var begun := Execute(s.(lease := Some(tx)), Some(tx), Begin, 0, works);
      With(begun, tx, Transaction(wrapper, if works then Running else Draining(false), works, map[], false, []))
  }

  /** A scoped query: rejected outright once the scope is retired. */
  function OnDispatch(s: State, tx: Tx, op: Op, works: bool, settlesWell: bool): State {
    if !IsIn(s, tx, Running) || op in s.transactions[tx].pending then s
    else
      var t := s.transactions[tx];
      if !EnsureOpen(s, t.wrapper, Some(tx)) then With(s, tx, t.(pending := t.pending[op := true]))
      else
        var ran := Execute(s, Some(tx), Query, op, works);
        With(ran, tx, t.(pending := t.pending[op := !works || !settlesWell],
                         effects := if works then t.effects + [Effect(Some(tx), op)] else t.effects))
  }

  function OnSettle(s: State, tx: Tx, op: Op): State {
    if tx !in s.transactions || op !in s.transactions[tx].pending then s
    else
      var t := s.transactions[tx];
      With(s, tx, t.(pending := t.pending - {op}, failed := t.failed || t.pending[op]))
  }

  function OnCallbackEnds(s: State, tx: Tx, returned: bool): State {
    if !IsIn(s, tx, Running) then s
    else With(s, tx, s.transactions[tx].(phase := Draining(returned)))
  }

  /** The scope has drained: commit, or turn to cleaning up; or clean up and end. */
  function OnFinish(s: State, tx: Tx, works: bool): State {
    if !IsDraining(s, tx) || s.transactions[tx].pending != map[] then s
    else
      var t := s.transactions[tx];
      if t.phase.returned then
        if t.failed || !EnsureOpen(s, t.wrapper, Some(tx)) then With(s, tx, t.(phase := Draining(false)))
        else
          var ran := Execute(s, Some(tx), Commit, 0, works);
          if works then Release(ran, tx, Committed) else With(ran, tx, t.(phase := Draining(false)))
      else if !t.begun then Release(s, tx, NeverBegan)
      else if !EnsureOpen(s, t.wrapper, Some(tx)) then Release(s, tx, Broke).(broken := true)
      else
        var ran := Execute(s, Some(tx), Rollback, 0, works);
        if works then Release(ran, tx, RolledBack) else Release(ran, tx, Broke).(broken := true)
  }

  /** The statements of a batch, up to and including the first that fails. */
  function RunStatements(s: State, tx: Tx, statements: seq<Statement>, from: nat): (r: (State, bool))
    requires from <= |statements| && tx in s.transactions
    ensures tx in r.0.transactions
    decreases |statements| - from
  {
    if from == |statements| then (s, true)
    else
      var ran := AfterStatement(s, tx, from, statements[from].works);
      if !Succeeds(statements[from]) then (ran, false) else RunStatements(ran, tx, statements, from + 1)
  }

  predicate Succeeds(statement: Statement) {
    statement.works && statement.answers
  }

  function AfterStatement(s: State, tx: Tx, op: Op, works: bool): State
    requires tx in s.transactions
  {
    var t := s.transactions[tx];
    var ran := Execute(s, Some(tx), Query, op, works);
    if works then With(ran, tx, t.(effects := t.effects + [Effect(Some(tx), op)])) else ran
  }

  /** A batch runs to its end without ever awaiting. */
  function OnBatch(s: State, tx: Tx, wrapper: Wrapper, beginWorks: bool, statements: seq<Statement>, commitWorks: bool,
                   rollbackWorks: bool): State
  {
    if tx in s.transactions || !EnsureOpen(s, wrapper, None) then s
    else
      var begun := With(Execute(s.(lease := Some(tx)), Some(tx), Begin, 0, beginWorks), tx,
                        Transaction(wrapper, Running, beginWorks, map[], false, []));
      if !beginWorks then Release(begun, tx, NeverBegan)
      else
        var (ran, allWorked) := RunStatements(begun, tx, statements, 0);
        var committed := if allWorked then Execute(ran, Some(tx), Commit, 0, commitWorks) else ran;
        if allWorked && commitWorks then Release(committed, tx, Committed)
        else
          var undone := Execute(committed, Some(tx), Rollback, 0, rollbackWorks);
          if rollbackWorks then Release(undone, tx, RolledBack) else Release(undone, tx, Broke).(broken := true)
  }

  /** Closing the connection drops an open native transaction. */
  function DropConnection(s: State): State {
    s.(open := false, db := if s.saved.Some? then s.saved.value else s.db, saved := None)
  }

  function Next(s: State, event: Event): State {
    match event
    case Start(tx, wrapper, works) => OnStart(s, tx, wrapper, works)
    case Dispatch(tx, op, works, settlesWell) => OnDispatch(s, tx, op, works, settlesWell)
    case Settle(tx, op) => OnSettle(s, tx, op)
    case CallbackEnds(tx, returned) => OnCallbackEnds(s, tx, returned)
    case Finish(tx, works) => OnFinish(s, tx, works)
    case Plain(wrapper, op, works) => if EnsureOpen(s, wrapper, None) then Execute(s, None, Query, op, works) else s
    case Batch(tx, wrapper, beginWorks, statements, commitWorks, rollbackWorks) =>
      OnBatch(s, tx, wrapper, beginWorks, statements, commitWorks, rollbackWorks)
    case CloseWrapper(wrapper, ownsConnection) =>
      if wrapper in s.closed || s.lease.Some? then s
      else (if ownsConnection then DropConnection(s) else s).(closed := s.closed + {wrapper})
    case ConnectionCloses => DropConnection(s)
  }

  function After(s: State, events: seq<Event>): State
  {
    if events == [] then s else Next(After(s, events[..|events| - 1]), events[|events| - 1])
  }

  // ---------------------------------------------------------------------------
  // What is durable, and whose
  // ---------------------------------------------------------------------------

  /** What another connection would see: uncommitted changes do not count. */
  function Durable(s: State): seq<Effect> {
    if s.saved.Some? then s.saved.value else s.db
  }

  function Of(effects: seq<Effect>, tx: Tx): seq<Effect> {
    if effects == [] then []
    else
      var last := effects[|effects| - 1];
      Of(effects[..|effects| - 1], tx) + if last.owner == Some(tx) then [last] else []
  }

  /** The transaction whose BEGIN worked and which no COMMIT or ROLLBACK has ended yet. */
  function Holder(log: seq<Run>): Option<Tx> {
    if log == [] then None
    else
      var last := log[|log| - 1];
      if !last.worked then Holder(log[..|log| - 1])
      else
        match last.kind
        case Begin => last.owner
        case Query => Holder(log[..|log| - 1])
        case _ => None
  }

  /** While a transaction is open, only its own statements reach the connection. */
  ghost predicate Isolated(log: seq<Run>) {
    forall i :: 0 <= i < |log| && Holder(log[..i]).Some? ==> log[i].owner == Holder(log[..i])
  }

  lemma {:induction false} OfAdd(a: seq<Effect>, b: seq<Effect>, tx: Tx)
    ensures Of(a + b, tx) == Of(a, tx) + Of(b, tx)
  {
    if b == [] {
      assert a + b == a;
    } else {
      OfAdd(a, b[..|b| - 1], tx);
      assert (a + b)[..|a + b| - 1] == a + b[..|b| - 1];
    }
  }

  ghost predicate OwnedBy(effects: seq<Effect>, tx: Tx) {
    forall i :: 0 <= i < |effects| ==> effects[i].owner == Some(tx)
  }

  lemma {:induction false} OfOwned(effects: seq<Effect>, tx: Tx, other: Tx)
    requires OwnedBy(effects, tx)
    ensures Of(effects, other) == if tx == other then effects else []
  {
    if effects != [] {
      OfOwned(effects[..|effects| - 1], tx, other);
    }
  }

  // ---------------------------------------------------------------------------
  // What every event keeps
  // ---------------------------------------------------------------------------

  predicate IsLive(s: State, tx: Tx) {
    tx in s.transactions && !s.transactions[tx].phase.Ended?
  }

  /** The lease is held by the one transaction that has not ended, through an open wrapper of a sound connection. */
  ghost predicate LeaseIsHeld(s: State) {
    && (forall tx: Tx :: IsLive(s, tx) ==> s.lease == Some(tx))
    && (s.lease.Some? ==>
          IsLive(s, s.lease.value) && !s.broken && s.transactions[s.lease.value].wrapper !in s.closed)
  }

  /** The native transaction is the lease holder's, or was left behind on a broken connection. */
  ghost predicate NativeIsOwned(s: State) {
    match s.lease
    case None => s.saved.Some? || Holder(s.log).Some? ==> s.broken
    case Some(tx) => IsLive(s, tx) && var t := s.transactions[tx];
      && Holder(s.log) == (if t.begun then Some(tx) else None)
      && (s.saved.Some? <==> t.begun && s.open)
      && (s.saved.Some? ==> s.db == s.saved.value + t.effects)
      && (!t.begun ==> t.effects == [] && !t.phase.Running? && !(t.phase.Draining? && t.phase.returned))
  }

  /** A transaction is all there or not there at all, and only a clean, fully drained one is there. */
  ghost predicate IsAtomic(s: State, tx: Tx) {
    if tx !in s.transactions then Of(Durable(s), tx) == []
    else
      var t := s.transactions[tx];
      && OwnedBy(t.effects, tx)
      && (t.phase == Ended(Committed) ==> !t.failed && t.pending == map[])
      && Of(Durable(s), tx) == if t.phase == Ended(Committed) then t.effects else []
  }

  ghost predicate Inv(s: State) {
    LeaseIsHeld(s) && NativeIsOwned(s) && Isolated(s.log) && forall tx :: IsAtomic(s, tx)
  }

  lemma IsolatedGrows(log: seq<Run>, run: Run)
    requires Isolated(log) && (Holder(log).Some? ==> run.owner == Holder(log))
    ensures Isolated(log + [run])
    ensures Holder(log + [run]) ==
      if !run.worked || run.kind.Query? then Holder(log) else if run.kind.Begin? then run.owner else None
  {
    var longer := log + [run];
    assert longer[..|log|] == log;
    forall i | 0 <= i < |longer| && Holder(longer[..i]).Some? ensures longer[i].owner == Holder(longer[..i]) {
      if i < |log| {
        assert longer[..i] == log[..i];
      }
    }
  }

  /** An event that leaves the durable effects and the other transactions alone keeps atomicity. */
  lemma AtomicFrame(s: State, next: State, tx: Tx)
    requires forall u :: IsAtomic(s, u)
    requires Durable(next) == Durable(s)
    requires forall u :: u != tx ==> (u in s.transactions <==> u in next.transactions)
    requires forall u :: u != tx && u in s.transactions ==> next.transactions[u] == s.transactions[u]
    requires tx in next.transactions ==>
      OwnedBy(next.transactions[tx].effects, tx) && next.transactions[tx].phase != Ended(Committed)
    requires tx in s.transactions ==> tx in next.transactions && s.transactions[tx].phase != Ended(Committed)
    ensures forall u :: IsAtomic(next, u)
  {
    forall u ensures IsAtomic(next, u) {
      assert IsAtomic(s, u);
    }
  }

  lemma StartKeeps(s: State, tx: Tx, wrapper: Wrapper, works: bool)
    requires Inv(s)
    ensures Inv(OnStart(s, tx, wrapper, works))
  {
    var next := OnStart(s, tx, wrapper, works);
    if next != s {
      IsolatedGrows(s.log, Run(Some(tx), Begin, works));
      AtomicFrame(s, next, tx);
      assert next.db == next.db + [];
    }
  }

  lemma DispatchKeeps(s: State, tx: Tx, op: Op, works: bool, settlesWell: bool)
    requires Inv(s)
    ensures Inv(OnDispatch(s, tx, op, works, settlesWell))
  {
    var next := OnDispatch(s, tx, op, works, settlesWell);
    if next != s {
      var t := s.transactions[tx];
      assert IsLive(s, tx) && IsAtomic(s, tx);
      if EnsureOpen(s, t.wrapper, Some(tx)) {
        IsolatedGrows(s.log, Run(Some(tx), Query, works));
        assert s.saved.value + t.effects + [Effect(Some(tx), op)]
          == s.saved.value + (t.effects + [Effect(Some(tx), op)]);
      }
      AtomicFrame(s, next, tx);
    }
  }

  lemma SettleKeeps(s: State, tx: Tx, op: Op)
    requires Inv(s)
    ensures Inv(OnSettle(s, tx, op))
  {
    var next := OnSettle(s, tx, op);
    if next != s {
      assert IsAtomic(s, tx);
      AtomicFrame(s, next, tx);
    }
  }

  lemma CallbackEndsKeeps(s: State, tx: Tx, returned: bool)
    requires Inv(s)
    ensures Inv(OnCallbackEnds(s, tx, returned))
  {
    var next := OnCallbackEnds(s, tx, returned);
    if next != s {
      assert IsLive(s, tx) && IsAtomic(s, tx);
      AtomicFrame(s, next, tx);
    }
  }

  /** A COMMIT that works makes exactly the transaction's own effects durable. */
  lemma CommitKeeps(s: State, tx: Tx)
    requires Inv(s) && s.lease == Some(tx) && s.open && s.transactions[tx].begun
    requires !s.transactions[tx].failed && s.transactions[tx].pending == map[]
    ensures Inv(Release(Execute(s, Some(tx), Commit, 0, true), tx, Committed))
  {
    var next := Release(Execute(s, Some(tx), Commit, 0, true), tx, Committed);
    var t := s.transactions[tx];
    assert IsLive(s, tx);
    IsolatedGrows(s.log, Run(Some(tx), Commit, true));
    forall u ensures IsAtomic(next, u) {
      assert IsAtomic(s, u) && IsAtomic(s, tx);
      OfAdd(s.saved.value, t.effects, u);
      OfOwned(t.effects, tx, u);
    }
  }

  /** A ROLLBACK that works makes nothing durable. */
  lemma RollbackKeeps(s: State, tx: Tx)
    requires Inv(s) && s.lease == Some(tx) && s.open && s.transactions[tx].begun
    ensures Inv(Release(Execute(s, Some(tx), Rollback, 0, true), tx, RolledBack))
  {
    var next := Release(Execute(s, Some(tx), Rollback, 0, true), tx, RolledBack);
    assert IsLive(s, tx) && IsAtomic(s, tx);
    IsolatedGrows(s.log, Run(Some(tx), Rollback, true));
    AtomicFrame(s, next, tx);
  }

  /** Giving up marks the connection broken before the lease is given back. */
  lemma BreakKeeps(s: State, tx: Tx)
    requires Inv(s) && s.lease == Some(tx)
    ensures Inv(Release(s, tx, Broke).(broken := true))
  {
    var next := Release(s, tx, Broke).(broken := true);
    assert IsLive(s, tx) && IsAtomic(s, tx);
    AtomicFrame(s, next, tx);
  }

  /** A control statement that fails changes nothing but the log. */
  lemma FailedControlKeeps(s: State, tx: Tx, kind: Kind)
    requires Inv(s) && s.lease == Some(tx)
    ensures Inv(Execute(s, Some(tx), kind, 0, false))
  {
    var next := Execute(s, Some(tx), kind, 0, false);
    IsolatedGrows(s.log, Run(Some(tx), kind, false));
    forall u ensures IsAtomic(next, u) {
      assert IsAtomic(s, u);
    }
    assert IsLive(s, tx);
    assert forall u :: IsLive(next, u) <==> IsLive(s, u);
  }

  lemma DrainAgainKeeps(s: State, tx: Tx)
    requires Inv(s) && IsDraining(s, tx)
    ensures Inv(With(s, tx, s.transactions[tx].(phase := Draining(false))))
  {
    var next := With(s, tx, s.transactions[tx].(phase := Draining(false)));
    assert IsLive(s, tx) && IsAtomic(s, tx);
    AtomicFrame(s, next, tx);
  }

  lemma FinishKeeps(s: State, tx: Tx, works: bool)
    requires Inv(s)
    ensures Inv(OnFinish(s, tx, works))
  {
    var next := OnFinish(s, tx, works);
    if IsDraining(s, tx) && s.transactions[tx].pending == map[] {
      var t := s.transactions[tx];
      assert IsLive(s, tx) && IsAtomic(s, tx);
      if t.phase.returned {
        if t.failed || !EnsureOpen(s, t.wrapper, Some(tx)) {
          DrainAgainKeeps(s, tx);
        } else if works {
          CommitKeeps(s, tx);
        } else {
          FailedControlKeeps(s, tx, Commit);
          DrainAgainKeeps(Execute(s, Some(tx), Commit, 0, false), tx);
        }
      } else if !t.begun {
        AtomicFrame(s, next, tx);
      } else if !EnsureOpen(s, t.wrapper, Some(tx)) {
        BreakKeeps(s, tx);
      } else if works {
        RollbackKeeps(s, tx);
      } else {
        FailedControlKeeps(s, tx, Rollback);
        BreakKeeps(Execute(s, Some(tx), Rollback, 0, false), tx);
      }
    }
  }

  lemma PlainIsAtomic(s: State, next: State, op: Op, tx: Tx)
    requires IsAtomic(s, tx) && next.transactions == s.transactions
    requires Durable(next) == Durable(s) || Durable(next) == Durable(s) + [Effect(None, op)]
    ensures IsAtomic(next, tx)
  {
    OfAdd(Durable(s), [Effect(None, op)], tx);
  }

  /** A statement of nobody's transaction is durable at once. */
  lemma PlainKeeps(s: State, wrapper: Wrapper, op: Op, works: bool)
    requires Inv(s) && EnsureOpen(s, wrapper, None)
    ensures Inv(Execute(s, None, Query, op, works))
  {
    var next := Execute(s, None, Query, op, works);
    IsolatedGrows(s.log, Run(None, Query, works));
    forall u ensures IsAtomic(next, u) {
      assert IsAtomic(s, u);
      PlainIsAtomic(s, next, op, u);
    }
    SameLive(s, next);
  }

  /** The lease stays held where neither it nor the transactions change. */
  lemma SameLive(s: State, next: State)
    requires LeaseIsHeld(s) && next.transactions == s.transactions && next.lease == s.lease
    requires next.broken == s.broken && next.closed == s.closed
    ensures LeaseIsHeld(next)
  {
    forall tx: Tx | IsLive(next, tx) ensures next.lease == Some(tx) {
      assert IsLive(s, tx);
    }
  }

  /** What stands while the statements of a batch run. */
  ghost predicate InBatch(s: State, tx: Tx) {
    && s.lease == Some(tx) && IsIn(s, tx, Running) && s.open
    && s.transactions[tx].begun && s.transactions[tx].pending == map[] && !s.transactions[tx].failed
  }

  lemma StatementKeeps(s: State, tx: Tx, op: Op, works: bool)
    requires Inv(s) && InBatch(s, tx)
    ensures Inv(AfterStatement(s, tx, op, works)) && InBatch(AfterStatement(s, tx, op, works), tx)
  {
    if works {
      var t := s.transactions[tx];
      var effect := Effect(Some(tx), op);
      assert IsLive(s, tx) && IsAtomic(s, tx);
      IsolatedGrows(s.log, Run(Some(tx), Query, true));
      assert s.saved.value + t.effects + [effect] == s.saved.value + (t.effects + [effect]);
      AtomicFrame(s, AfterStatement(s, tx, op, works), tx);
    } else {
      FailedControlKeeps(s, tx, Query);
      assert Execute(s, Some(tx), Query, op, false) == Execute(s, Some(tx), Query, 0, false);
    }
  }

  lemma {:induction false} StatementsKeep(s: State, tx: Tx, statements: seq<Statement>, from: nat)
    requires Inv(s) && InBatch(s, tx) && from <= |statements|
    ensures Inv(RunStatements(s, tx, statements, from).0) && InBatch(RunStatements(s, tx, statements, from).0, tx)
    decreases |statements| - from
  {
    if from < |statements| {
      StatementKeeps(s, tx, from, statements[from].works);
      if Succeeds(statements[from]) {
        StatementsKeep(AfterStatement(s, tx, from, true), tx, statements, from + 1);
      }
    }
  }

  lemma BatchKeeps(s: State, tx: Tx, wrapper: Wrapper, beginWorks: bool, statements: seq<Statement>, commitWorks: bool,
                   rollbackWorks: bool)
    requires Inv(s)
    ensures Inv(OnBatch(s, tx, wrapper, beginWorks, statements, commitWorks, rollbackWorks))
  {
    if tx !in s.transactions && EnsureOpen(s, wrapper, None) {
      var begun := With(Execute(s.(lease := Some(tx)), Some(tx), Begin, 0, beginWorks), tx,
                        Transaction(wrapper, Running, beginWorks, map[], false, []));
      IsolatedGrows(s.log, Run(Some(tx), Begin, beginWorks));
      if !beginWorks {
        AtomicFrame(s, Release(begun, tx, NeverBegan), tx);
      } else {
        AtomicFrame(s, begun, tx);
        assert begun.db == begun.db + [];
        StatementsKeep(begun, tx, statements, 0);
        var (ran, allWorked) := RunStatements(begun, tx, statements, 0);
        FinishBatchKeeps(ran, tx, allWorked, commitWorks, rollbackWorks);
      }
    }
  }

  lemma FinishBatchKeeps(ran: State, tx: Tx, allWorked: bool, commitWorks: bool, rollbackWorks: bool)
    requires Inv(ran) && InBatch(ran, tx)
    ensures allWorked && commitWorks ==> Inv(Release(Execute(ran, Some(tx), Commit, 0, true), tx, Committed))
    ensures !(allWorked && commitWorks) ==>
      var left := if allWorked then Execute(ran, Some(tx), Commit, 0, false) else ran;
      var undone := Execute(left, Some(tx), Rollback, 0, rollbackWorks);
      Inv(if rollbackWorks then Release(undone, tx, RolledBack) else Release(undone, tx, Broke).(broken := true))
  {
    if allWorked && commitWorks {
      CommitKeeps(ran, tx);
    } else {
      FailedControlKeeps(ran, tx, Commit);
      var left := if allWorked then Execute(ran, Some(tx), Commit, 0, false) else ran;
      if rollbackWorks {
        RollbackKeeps(left, tx);
      } else {
        FailedControlKeeps(left, tx, Rollback);
        BreakKeeps(Execute(left, Some(tx), Rollback, 0, false), tx);
      }
    }
  }

  lemma DropKeeps(s: State)
    requires Inv(s)
    ensures Inv(DropConnection(s))
  {
    var next := DropConnection(s);
    assert forall u :: IsLive(next, u) <==> IsLive(s, u);
    forall u ensures IsAtomic(next, u) {
      assert IsAtomic(s, u);
    }
  }

  lemma ClosingKeeps(s: State, wrapper: Wrapper)
    requires Inv(s) && s.lease.None?
    ensures Inv(s.(closed := s.closed + {wrapper}))
  {
    var next := s.(closed := s.closed + {wrapper});
    assert forall u :: IsLive(next, u) <==> IsLive(s, u);
    forall u ensures IsAtomic(next, u) {
      assert IsAtomic(s, u);
    }
  }

  lemma NextKeeps(s: State, event: Event)
    requires Inv(s)
    ensures Inv(Next(s, event))
  {
    match event
    case Start(tx, wrapper, works) => StartKeeps(s, tx, wrapper, works);
    case Dispatch(tx, op, works, settlesWell) => DispatchKeeps(s, tx, op, works, settlesWell);
    case Settle(tx, op) => SettleKeeps(s, tx, op);
    case CallbackEnds(tx, returned) => CallbackEndsKeeps(s, tx, returned);
    case Finish(tx, works) => FinishKeeps(s, tx, works);
    case Plain(wrapper, op, works) =>
      if EnsureOpen(s, wrapper, None) {
        PlainKeeps(s, wrapper, op, works);
      }
    case Batch(tx, wrapper, beginWorks, statements, commitWorks, rollbackWorks) =>
      BatchKeeps(s, tx, wrapper, beginWorks, statements, commitWorks, rollbackWorks);
    case CloseWrapper(wrapper, ownsConnection) =>
      if wrapper !in s.closed && s.lease.None? {
        DropKeeps(s);
        ClosingKeeps(if ownsConnection then DropConnection(s) else s, wrapper);
      }
    case ConnectionCloses => DropKeeps(s);
  }

  /** Over every run from a fresh connection. */
  lemma {:induction false} EveryRunKeeps(events: seq<Event>)
    ensures Inv(After(INITIAL, events))
  {
    if events == [] {
      forall tx ensures IsAtomic(INITIAL, tx) {
      }
    } else {
      EveryRunKeeps(events[..|events| - 1]);
      NextKeeps(After(INITIAL, events[..|events| - 1]), events[|events| - 1]);
    }
  }

  // ---------------------------------------------------------------------------
  // What callers can rely on
  // ---------------------------------------------------------------------------

  /**
   * Isolation and atomicity over every interleaving: between a BEGIN and its COMMIT or ROLLBACK only the holder's
   * statements reach the connection; an ended transaction's effects are all durable, in order, if it committed, having
   * drained every operation without a failure, and none are otherwise.
   */
  lemma TransactionsAreIsolatedAndAtomic(events: seq<Event>, tx: Tx)
    ensures Isolated(After(INITIAL, events).log)
    ensures IsAtomic(After(INITIAL, events), tx)
  {
    EveryRunKeeps(events);
  }

  /** Nothing reaches a broken connection again. */
  lemma {:induction false} BrokenIsFinal(s: State, events: seq<Event>)
    requires Inv(s) && s.broken
    ensures After(s, events).broken && After(s, events).log == s.log && Inv(After(s, events))
  {
    if events != [] {
      var before := After(s, events[..|events| - 1]);
      BrokenIsFinal(s, events[..|events| - 1]);
      NextKeeps(before, events[|events| - 1]);
      BrokenStaysQuiet(before, events[|events| - 1]);
    }
  }

  lemma NobodyIsLive(s: State, tx: Tx)
    requires Inv(s) && s.broken
    ensures !IsLive(s, tx) && !IsDraining(s, tx) && !IsIn(s, tx, Running)
  {
    assert s.lease.None?;
  }

  lemma BrokenStaysQuiet(s: State, event: Event)
    requires Inv(s) && s.broken
    ensures Next(s, event).broken && Next(s, event).log == s.log
  {
    forall tx: Tx ensures !IsLive(s, tx) && !IsDraining(s, tx) && !IsIn(s, tx, Running) {
      NobodyIsLive(s, tx);
    }
  }

  /**
   * A transaction that has to give up leaves the connection broken, and one that ends any other way does not break it.
   */
  lemma GivingUpBreaks(s: State, tx: Tx, works: bool)
    requires Inv(s) && IsDraining(s, tx)
    ensures var next := OnFinish(s, tx, works);
      next.transactions[tx].phase == Ended(Broke) <==> next.broken
  {
    assert IsLive(s, tx);
  }

  /**
   * A drained transaction is over after two steps at most, the lease given back. It commits exactly when its callback
   * returned, none of its operations failed, the connection is still open and COMMIT works; then all of its effects,
   * and nothing else, become durable, and otherwise nothing does.
   */
  lemma DrainedTransactionsEnd(s: State, tx: Tx, first: bool, second: bool)
    requires Inv(s) && IsDraining(s, tx) && s.transactions[tx].pending == map[]
    ensures var t := s.transactions[tx];
      var ended := OnFinish(OnFinish(s, tx, first), tx, second);
      var commits := t.phase.returned && !t.failed && s.open && first;
      && ended.transactions[tx].phase.Ended? && ended.lease.None?
      && (ended.transactions[tx].phase == Ended(Committed) <==> commits)
      && Durable(ended) == Durable(s) + if commits then t.effects else []
  {
    assert IsLive(s, tx);
    FinishKeeps(s, tx, first);
    var once := OnFinish(s, tx, first);
    if IsDraining(once, tx) {
      assert IsLive(once, tx);
    }
  }

  /** The statements are carried out and return their answers. */
  ghost predicate AllSucceed(statements: seq<Statement>, from: nat) {
    forall i :: from <= i < |statements| ==> statements[i].works && statements[i].answers
  }

  /** What statements `from` to `to` of a batch change, in order. */
  function AllOf(tx: Tx, from: nat, to: nat): seq<Effect>
    requires from <= to
  {
    seq(to - from, i requires 0 <= i < to - from => Effect(Some(tx), from + i))
  }

  lemma {:induction false} StatementsWork(s: State, tx: Tx, statements: seq<Statement>, from: nat)
    requires from <= |statements| && tx in s.transactions
    ensures var (ran, allWorked) := RunStatements(s, tx, statements, from);
      && (allWorked <==> AllSucceed(statements, from))
      && (allWorked ==> ran.db == s.db + AllOf(tx, from, |statements|)) && ran.saved == s.saved
    decreases |statements| - from
  {
    if from < |statements| && Succeeds(statements[from]) {
      StatementsWork(AfterStatement(s, tx, from, true), tx, statements, from + 1);
      Associate(s.db, [Effect(Some(tx), from)], AllOf(tx, from + 1, |statements|));
      assert AllOf(tx, from, |statements|) == [Effect(Some(tx), from)] + AllOf(tx, from + 1, |statements|);
    }
  }

  /**
   * A batch is over when it returns, and has committed exactly when BEGIN, every statement and COMMIT worked; then its
   * statements' changes, in order, become durable, and otherwise nothing does.
   */
  lemma BatchesEnd(s: State, tx: Tx, wrapper: Wrapper, beginWorks: bool, statements: seq<Statement>, commitWorks: bool,
                   rollbackWorks: bool)
    requires Inv(s) && tx !in s.transactions && EnsureOpen(s, wrapper, None)
    ensures var ended := OnBatch(s, tx, wrapper, beginWorks, statements, commitWorks, rollbackWorks);
      && tx in ended.transactions && ended.transactions[tx].phase.Ended? && ended.lease.None?
      && (ended.transactions[tx].phase == Ended(Committed) <==>
            beginWorks && commitWorks && AllSucceed(statements, 0))
      && Durable(ended) == Durable(s)
                           + if ended.transactions[tx].phase == Ended(Committed) then AllOf(tx, 0, |statements|) else []
  {
    if beginWorks {
      var begun := With(Execute(s.(lease := Some(tx)), Some(tx), Begin, 0, beginWorks), tx,
                        Transaction(wrapper, Running, beginWorks, map[], false, []));
      StatementsWork(begun, tx, statements, 0);
    }
  }
}
