/**
 * A transaction on a pooled connection, and whether the connection may be reused (packages/adapters/src/neon-ws.ts).
 */
module NeonWs {
  /** How the server and the network answer: done; refused, without effect; or done, the answer lost on the way. */
  datatype Answer = Works | Refused | Lost

  datatype Statement = Statement(row: int, answer: Answer)

  /** Everything the environment decides about one call. */
  datatype Script = Script(begin: Answer, statements: seq<Statement>, throws: bool, commit: Answer, rollback: Answer)

  function Effects(statements: seq<Statement>): seq<int> {
    if statements == [] then []
    else
      Effects(statements[..|statements| - 1])
      + if statements[|statements| - 1].answer.Refused? then [] else [statements[|statements| - 1].row]
  }

  predicate AllWork(statements: seq<Statement>) {
    forall i :: 0 <= i < |statements| ==> statements[i].answer.Works?
  }

  /** The call gets as far as sending COMMIT. */
  predicate ReachesCommit(script: Script) {
    script.begin.Works? && !script.throws && AllWork(script.statements)
  }

  /** What a script leaves durable, whether or not its call returned. */
  function Kept(script: Script): seq<int> {
    if ReachesCommit(script) && !script.commit.Refused? then Effects(script.statements) else []
  }

  /** The connection, with the server's side of it: what is durable, and what an open transaction would add. */
  class Connection {
    var inTransaction: bool
    var durable: seq<int>
    var tentative: seq<int>

    constructor ()
      ensures !inTransaction && durable == []
    {
      inTransaction, durable, tentative := false, [], [];
    }

    method Begin(answer: Answer) returns (answered: bool)
      modifies this
      ensures durable == old(durable) && answered == answer.Works?
      ensures if answer.Refused? then inTransaction == old(inTransaction) && tentative == old(tentative)
              else inTransaction && tentative == []
    {
      if !answer.Refused? {
        inTransaction, tentative := true, [];
      }
      answered := answer.Works?;
    }

    method Execute(statement: Statement) returns (answered: bool)
      requires inTransaction
      modifies this
      ensures durable == old(durable) && inTransaction && answered == statement.answer.Works?
      ensures tentative == old(tentative) + if statement.answer.Refused? then [] else [statement.row]
    {
      if !statement.answer.Refused? {
        tentative := tentative + [statement.row];
      }
      answered := statement.answer.Works?;
    }

    method Commit(answer: Answer) returns (answered: bool)
      modifies this
      ensures answered == answer.Works?
      ensures if answer.Refused? || !old(inTransaction)
        then durable == old(durable) && inTransaction == old(inTransaction)
              else durable == old(durable) + old(tentative) && !inTransaction
    {
      if !answer.Refused? && inTransaction {
        durable, inTransaction := durable + tentative, false;
      }
      answered := answer.Works?;
    }

    method Rollback(answer: Answer) returns (answered: bool)
      modifies this
      ensures durable == old(durable) && answered == answer.Works?
      ensures if answer.Refused? then inTransaction == old(inTransaction) else !inTransaction
    {
      if !answer.Refused? {
        inTransaction := false;
      }
      answered := answer.Works?;
    }

    /** The callback's statements through the scope, which drains them all and fails if any did. */
    method RunStatements(statements: seq<Statement>) returns (drained: bool)
      requires inTransaction && tentative == []
      modifies this
      ensures inTransaction && durable == old(durable) && tentative == Effects(statements)
      ensures drained == AllWork(statements)
    {
      drained := true;
      for i := 0 to |statements|
        invariant inTransaction && durable == old(durable) && tentative == Effects(statements[..i])
        invariant drained == AllWork(statements[..i])
      {
        var answered := Execute(statements[i]);
        assert statements[..i + 1][..i] == statements[..i];
        assert AllWork(statements[..i + 1]) == (AllWork(statements[..i]) && statements[i].answer.Works?);
        drained := drained && answered;
      }
      assert statements[..|statements|] == statements;
    }

    /**
     * One call. It returns exactly when everything worked, all its effects durable then; otherwise nothing of it is
     * kept, except when the answer to COMMIT alone was lost. A connection released for reuse is outside any
     * transaction.
     */
    method Transaction(script: Script) returns (returned: bool, reusable: bool)
      requires !inTransaction
      modifies this
      ensures returned <==> ReachesCommit(script) && script.commit.Works?
      ensures durable == old(durable) + Kept(script)
      ensures reusable <==> returned || (script.begin.Works? && script.rollback.Works?)
      ensures reusable ==> !inTransaction
      ensures inTransaction ==> !script.begin.Refused? && (script.begin.Lost? || script.rollback.Refused?)
    {
      returned, reusable := false, false;
      var begun := Begin(script.begin);
      if !begun {
        return;
      }
      var drained := RunStatements(script.statements);
      if !script.throws && drained {
        var committed := Commit(script.commit);
        if committed {
          return true, true;
        }
      }
      reusable := Rollback(script.rollback);
    }
  }

  function KeptOfAll(scripts: seq<Script>): seq<int> {
    if scripts == [] then [] else KeptOfAll(scripts[..|scripts| - 1]) + Kept(scripts[|scripts| - 1])
  }

  /**
   * A pool that reuses what it is given back and otherwise opens a new connection, its server keeping what is durable.
   */
  method UsePool(scripts: seq<Script>) returns (durable: seq<int>)
    ensures durable == KeptOfAll(scripts)
  {
    var connection := new Connection();
    durable := [];
    for i := 0 to |scripts|
      invariant fresh(connection) && !connection.inTransaction
      invariant connection.durable == durable == KeptOfAll(scripts[..i])
    {
      assert scripts[..i + 1][..i] == scripts[..i];
      var _, reusable := connection.Transaction(scripts[i]);
      durable := connection.durable;
      if !reusable {
        connection := new Connection();
        connection.durable := durable;
      }
    }
    assert scripts[..|scripts|] == scripts;
  }
}
