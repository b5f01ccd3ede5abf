/** The SQLite connection under the CURE store's commit discipline.

    Every driver call that can raise (a statement, BEGIN, COMMIT) is numbered by `calls`;
    `Refused(refusals, k)` says whether call `k` raises, `Time(clock, k)` is the time read just before it.
    Rollback does not raise. `working` is what this connection reads, `committed` what survives. */
module CureStore {
  import opened Wrappers
  import opened CureModel

  datatype Statement =
    | InsertMessage(session: string, user: string, role: string, content: string)
    | InsertMemory(memory: Memory)
    | UpdateMemory(memory: Memory)

  function Apply(db: Db, s: Statement): Db {
    match s
    case InsertMessage(session, user, role, content) =>
      db.(messages := db.messages + [Message(|db.messages| + 1, session, user, role, content)])
    case InsertMemory(m) => db.(memories := db.memories + [m.(id := Some(|db.memories| + 1))])
    case UpdateMemory(m) => db.(memories := Put(db.memories, m))
  }

  // What a connection looks like between two driver calls.
  datatype View = View(working: Db, committed: Db, inTransaction: bool, calls: nat)

  ghost predicate NoneRefused(refusals: seq<bool>, from: nat, to: nat) {
    forall k: nat :: from <= k < to ==> !Refused(refusals, k)
  }

  lemma NoneRefusedJoin(refusals: seq<bool>, from: nat, middle: nat, to: nat)
    requires NoneRefused(refusals, from, middle) && NoneRefused(refusals, middle, to)
    ensures NoneRefused(refusals, from, to)
  {
  }

  // One atomic unit: BEGIN is call `before.calls`, COMMIT is call `last - 1`, and `goal` is the table
  // the unit writes. Done: the unit is committed. Not done: nothing is committed, the refused call was
  // the last one made, and the unit is undone unless that call was the COMMIT, which leaves it pending
  // in an open transaction. A transaction open on entry refuses the BEGIN and nothing moves.
  ghost predicate UnitRan(before: View, after: View, goal: Db, last: nat, refusals: seq<bool>, done: bool) {
    && after.committed == (if done then goal else before.committed)
    && (done ==> !before.inTransaction && after.working == goal && !after.inTransaction && after.calls == last
                 && NoneRefused(refusals, before.calls, last))
    && (!done && before.inTransaction ==> after == before.(calls := before.calls + 1))
    && (!done && !before.inTransaction ==>
          && before.calls < after.calls <= last
          && Refused(refusals, after.calls - 1) && NoneRefused(refusals, before.calls, after.calls - 1)
          && after.inTransaction == (after.calls == last)
          && after.working == if after.inTransaction then goal else before.working)
  }

  // A unit is committed exactly when none of its calls is refused, and it leaves a transaction open
  // exactly when its COMMIT is the refused call: the promise "nothing stays open" fails there only.
  lemma UnitEndsOpenIff(before: View, after: View, goal: Db, last: nat, refusals: seq<bool>, done: bool)
    requires UnitRan(before, after, goal, last, refusals, done) && !before.inTransaction && before.calls < last
    ensures done <==> NoneRefused(refusals, before.calls, last)
    ensures after.inTransaction <==> NoneRefused(refusals, before.calls, last - 1) && Refused(refusals, last - 1)
  {
  }

  // One statement outside a block, as a connection sees it: refused, it rolls back whatever was pending;
  // otherwise its own commit is the next call, and commits whatever was pending too.
  function AfterWrite(v: View, s: Statement, refusals: seq<bool>): View {
    if Refused(refusals, v.calls) then View(v.committed, v.committed, false, v.calls + 1)
    else
      var written := Apply(v.working, s);
      if Refused(refusals, v.calls + 1) then View(written, v.committed, true, v.calls + 2)
      else View(written, written, false, v.calls + 2)
  }

  class SqliteStore {
    const clock: seq<int>
    const refusals: seq<bool>
    var working: Db
    var committed: Db
    var inTransaction: bool
    var atomicDepth: nat
    var calls: nat

    // Opens a database file: what is there was committed by earlier episodes.
    constructor (db: Db, clock: seq<int>, refusals: seq<bool>)
      ensures this.clock == clock && this.refusals == refusals
      ensures working == committed == db && !inTransaction && atomicDepth == 0 && calls == 0
    {
      this.clock, this.refusals := clock, refusals;
      working, committed := db, db;
      inTransaction, atomicDepth, calls := false, 0, 0;
    }

    // Between two requests: no atomic block is open, and only an open transaction can make this
    // connection read more than what is committed.
    ghost predicate Settled()
      reads this
    {
      && atomicDepth == 0
      && (!inTransaction ==> working == committed)
      && WellFormed(working) && WellFormed(committed)
      && committed.messages <= working.messages
    }

    function Seen(): View
      reads this
    {
      View(working, committed, inTransaction, calls)
    }

    ghost predicate AtRest()
      reads this
    {
      Settled() && !inTransaction
    }

    ghost predicate InBlock()
      reads this
    {
      atomicDepth == 1 && inTransaction
    }

    // Calls `from` up to now were made; all of the `to - from` planned ones went through, or the last
    // one made was refused.
    ghost predicate Called(from: nat, to: nat, ok: bool)
      reads this
    {
      if ok then calls == to && NoneRefused(refusals, from, to)
      else from < calls <= to && Refused(refusals, calls - 1) && NoneRefused(refusals, from, calls - 1)
    }

    method Call() returns (ok: bool)
      modifies this`calls
      ensures calls == old(calls) + 1 && (ok <==> !Refused(refusals, old(calls)))
    {
      ok := !Refused(refusals, calls);
      calls := calls + 1;
    }

    method ConnectionCommit() returns (ok: bool)
      modifies this`calls, this`committed, this`inTransaction
      ensures calls == old(calls) + 1 && (ok <==> !Refused(refusals, old(calls)))
      ensures committed == if ok then working else old(committed)
      ensures inTransaction == (old(inTransaction) && !ok)
    {
      ok := Call();
      if ok {
        committed := working;
        inTransaction := false;
      }
    }

    method Rollback()
      modifies this`working, this`inTransaction
      ensures working == committed && !inTransaction
    {
      working := committed;
      inTransaction := false;
    }

    // One DML statement. The driver opens its implicit transaction before the statement runs.
    method Write(s: Statement) returns (ok: bool)
      modifies this`calls, this`committed, this`inTransaction, this`working
      // inside atomic(): no commit, and a refused statement leaves the rollback to the block
      ensures atomicDepth > 0 ==>
        && calls == old(calls) + 1 && (ok <==> !Refused(refusals, old(calls)))
        && inTransaction && committed == old(committed)
        && working == if ok then Apply(old(working), s) else old(working)
      // outside: the write and its own commit are two calls, and both must succeed
      ensures atomicDepth == 0 && Refused(refusals, old(calls)) ==>
        !ok && calls == old(calls) + 1 && !inTransaction && working == committed == old(committed)
      ensures atomicDepth == 0 && !Refused(refusals, old(calls)) ==>
        && calls == old(calls) + 2 && (ok <==> !Refused(refusals, old(calls) + 1))
        && working == Apply(old(working), s)
        && committed == (if ok then working else old(committed)) && inTransaction == !ok
    {
      inTransaction := true;
      ok := Call();
      if !ok {
        if atomicDepth == 0 {
          Rollback();
        }
        return;
      }
      working := Apply(working, s);
      if atomicDepth == 0 {
        ok := ConnectionCommit();
      }
    }

    // `update_memory` stamps the row it writes, inside or outside a block; a memory without an id is
    // an error before any call.
    method UpdateMemory(m: Memory) returns (ok: bool, stamped: Memory)
      modifies this`calls, this`committed, this`inTransaction, this`working
      ensures m.id.None? ==> !ok && stamped == m && unchanged(this)
      ensures m.id.Some? ==> stamped == m.(updatedAt := Time(clock, old(calls)))
      ensures m.id.Some? && atomicDepth > 0 ==>
        && calls == old(calls) + 1 && (ok <==> !Refused(refusals, old(calls)))
        && inTransaction && committed == old(committed)
        && working == if ok then Apply(old(working), Statement.UpdateMemory(stamped)) else old(working)
      ensures m.id.Some? && atomicDepth == 0 && Refused(refusals, old(calls)) ==>
        !ok && calls == old(calls) + 1 && !inTransaction && working == committed == old(committed)
      ensures m.id.Some? && atomicDepth == 0 && !Refused(refusals, old(calls)) ==>
        && calls == old(calls) + 2 && (ok <==> !Refused(refusals, old(calls) + 1))
        && working == Apply(old(working), Statement.UpdateMemory(stamped))
        && committed == (if ok then working else old(committed)) && inTransaction == !ok
    {
      if m.id.None? {
        return false, m;
      }
      stamped := m.(updatedAt := Time(clock, calls));
      ok := Write(Statement.UpdateMemory(stamped));
    }

    // Entering atomic(): an explicit BEGIN, which an already open transaction refuses. A nested block
    // joins the outer one: entering it, like leaving it, does nothing.
    method EnterAtomic() returns (ok: bool)
      modifies this`calls, this`inTransaction, this`atomicDepth
      ensures old(atomicDepth) > 0 ==> ok && unchanged(this)
      ensures old(atomicDepth) == 0 ==>
        && calls == old(calls) + 1
        && (ok <==> !old(inTransaction) && !Refused(refusals, old(calls)))
        && inTransaction == (old(inTransaction) || ok) && atomicDepth == if ok then 1 else 0
    {
      if atomicDepth > 0 {
        return true;
      }
      ok := Call();
      ok := ok && !inTransaction;
      if ok {
        inTransaction := true;
        atomicDepth := atomicDepth + 1;
      }
    }

    // Leaving the outer atomic() on an exception.
    method AbortAtomic()
      requires atomicDepth == 1
      modifies this`working, this`inTransaction, this`atomicDepth
      ensures working == committed && !inTransaction && atomicDepth == 0
    {
      Rollback();
      atomicDepth := atomicDepth - 1;
    }

    // Leaving the outer atomic() normally. The commit runs outside the block's except clause: when it is
    // refused nothing rolls back and the transaction stays open.
    method CommitAtomic() returns (ok: bool)
      requires InBlock()
      modifies this`calls, this`committed, this`inTransaction, this`atomicDepth
      ensures calls == old(calls) + 1 && (ok <==> !Refused(refusals, old(calls)))
      ensures committed == (if ok then working else old(committed)) && inTransaction == !ok && atomicDepth == 0
    {
      ok := ConnectionCommit();
      atomicDepth := atomicDepth - 1;
    }
  }
}
