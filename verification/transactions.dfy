/** One SQLite connection, the transactions on it and the bulk statements run through it
    (src/storage/Sqlite.cpp, src/storage/SqliteDatabase.h, src/storage/Storage.cpp). The contents of the
    database are one value; SQLite is the source of nondeterminism. */
module Transactions {
  import opened Text

  /** What a prepared statement does to the database for one input, unless a constraint refuses it. */
  datatype Step<Db> = Done(db: Db, changes: nat) | Refused

  type Statement<!Db, !Item> = (Db, Item) -> Step<Db>

  datatype BulkResult = BulkResult(processed: nat, changes: nat)

  const MAX_CHANGES: nat := 0x7fff_ffff_ffff_ffff

  /** The statement applied to the inputs in order, and how many rows it changed in all. */
  function Applied<Db, Item>(statement: Statement<Db, Item>, db: Db, items: seq<Item>): Step<Db> {
    if items == [] then Done(db, 0)
    else
      match Applied(statement, db, items[..|items| - 1])
      case Refused => Refused
      case Done(before, changes) =>
        match statement(before, items[|items| - 1])
        case Refused => Refused
        case Done(after, more) => Done(after, changes + more)
  }

  predicate Completes<Db, Item>(statement: Statement<Db, Item>, db: Db, items: seq<Item>) {
    match Applied(statement, db, items)
    case Refused => false
    case Done(_, changes) => changes <= MAX_CHANGES
  }

  /** Every input was processed, and the result counts them and their changes. */
  predicate Stored<Db(==), Item>(statement: Statement<Db, Item>, before: Db, items: seq<Item>, db: Db,
                                 result: BulkResult) {
    result.processed == |items| && result.changes <= MAX_CHANGES &&
    Applied(statement, before, items) == Done(db, result.changes)
  }

  /** The database after some prefix of the inputs. */
  ghost predicate PartlyApplied<Db, Item>(statement: Statement<Db, Item>, before: Db, items: seq<Item>, db: Db) {
    exists k | 0 <= k <= |items| :: AppliedUpTo(statement, before, items, k, db)
  }

  ghost predicate AppliedUpTo<Db, Item>(statement: Statement<Db, Item>, before: Db, items: seq<Item>, k: nat, db: Db)
    requires k <= |items|
  {
    var step := Applied(statement, before, items[..k]);
    step.Done? && step.db == db
  }

  lemma {:induction false} RefusedStays<Db, Item>(statement: Statement<Db, Item>, db: Db, items: seq<Item>, k: nat)
    requires k <= |items| && !Completes(statement, db, items[..k])
    ensures !Completes(statement, db, items)
    decreases |items|
  {
    if k == |items| {
      assert items[..k] == items;
    } else {
      var n := |items| - 1;
      assert items[..n][..k] == items[..k];
      RefusedStays(statement, db, items[..n], k);
    }
  }

  /** SQLite's side: the contents, the snapshot that ROLLBACK returns to, and the snapshots of the savepoints. */
  class Connection<!Db> {
    var db: Db
    var open: Option<Db>
    var savepoints: seq<Db>
    /** Set once a rollback is refused and leaves its transaction or savepoint open. */
    ghost var stuck: bool
    /** How often SQLite has refused what was in order. */
    ghost var faults: nat

    constructor (contents: Db)
      ensures db == contents && open.None? && savepoints == [] && !stuck && faults == 0
    {
      db, open, savepoints, stuck, faults := contents, None, [], false, 0;
    }

    /** SQLite may refuse anything. */
    method Attempt() returns (fault: bool)
      modifies this`faults
      ensures faults == if fault then old(faults) + 1 else old(faults)
    {
      fault := *;
      if fault {
        faults := faults + 1;
      }
    }

    predicate Autocommit()
      reads this
    {
      open.None?
    }

    method Begin() returns (ok: bool)
      modifies this
      ensures ok ==> old(open).None? && open == Some(db) && db == old(db) && savepoints == []
      ensures !ok ==> open == old(open) && db == old(db) && savepoints == old(savepoints)
      ensures stuck == old(stuck) && faults >= old(faults)
      ensures ok <==> old(open).None? && faults == old(faults)
    {
      var fault := Attempt();
      ok := !fault && open.None?;
      if ok {
        open, savepoints := Some(db), [];
      }
    }

    /** A COMMIT that fails keeps the transaction open or has rolled it back by itself. */
    method Commit() returns (ok: bool)
      modifies this
      ensures ok ==> old(open).Some? && open.None? && db == old(db) && savepoints == []
      ensures !ok ==>
        (open == old(open) && db == old(db) && savepoints == old(savepoints)) ||
        (old(open).Some? && open.None? && db == old(open).value && savepoints == [])
      ensures stuck == old(stuck) && faults >= old(faults)
      ensures ok <==> old(open).Some? && faults == old(faults)
    {
      var fault := Attempt();
      ok := !fault && open.Some?;
      var undone: bool := *;
      if ok {
        open, savepoints := None, [];
      } else if undone && open.Some? {
        db, open, savepoints := open.value, None, [];
      }
    }

    /** A ROLLBACK that reports an error may still have ended the transaction. */
    method Rollback() returns (ok: bool)
      modifies this
      ensures ok ==> old(open).Some?
      ensures open == old(open) || (old(open).Some? && open.None? && db == old(open).value && savepoints == [])
      ensures open == old(open) ==> db == old(db) && savepoints == old(savepoints)
      ensures ok ==> open.None?
      ensures stuck == (old(stuck) || (old(open).Some? && open.Some?)) && faults >= old(faults)
      ensures ok <==> old(open).Some? && faults == old(faults)
    {
      var fault := Attempt();
      ok := !fault && open.Some?;
      var undone: bool := *;
      if open.Some? && (ok || undone) {
        db, open, savepoints := open.value, None, [];
      } else if open.Some? {
        stuck := true;
      }
    }

    method Savepoint() returns (ok: bool)
      requires open.Some?
      modifies this
      ensures savepoints == if ok then old(savepoints) + [old(db)] else old(savepoints)
      ensures db == old(db) && open == old(open) && stuck == old(stuck) && faults >= old(faults)
      ensures ok <==> faults == old(faults)
    {
      var fault := Attempt();
      ok := !fault;
      if ok {
        savepoints := savepoints + [db];
      }
    }

    method Release() returns (ok: bool)
      requires savepoints != []
      modifies this
      ensures savepoints == if ok then old(savepoints)[..|old(savepoints)| - 1] else old(savepoints)
      ensures db == old(db) && open == old(open) && stuck == old(stuck) && faults >= old(faults)
      ensures ok <==> faults == old(faults)
    {
      var fault := Attempt();
      ok := !fault;
      if ok {
        savepoints := savepoints[..|savepoints| - 1];
      }
    }

    method RollbackToSavepoint()
      requires savepoints != []
      modifies this
      ensures open == old(open) && (old(stuck) ==> stuck) && faults >= old(faults)
      ensures !stuck || faults == old(faults) ==>
        savepoints == old(savepoints)[..|old(savepoints)| - 1] && db == old(savepoints)[|old(savepoints)| - 1]
      ensures faults == old(faults) ==> stuck == old(stuck)
    {
      var refused := Attempt();
      if refused {
        stuck := true;
      } else {
        db, savepoints := savepoints[|savepoints| - 1], savepoints[..|savepoints| - 1];
      }
    }

    /** Binding and stepping a prepared statement once. */
    method Execute<Item>(statement: Statement<Db, Item>, item: Item) returns (ok: bool, fault: bool, changes: nat)
      modifies this
      ensures ok ==> !fault && statement(old(db), item) == Done(db, changes)
      ensures !ok ==> db == old(db) && (fault || statement(old(db), item).Refused?)
      ensures open == old(open) && savepoints == old(savepoints) && stuck == old(stuck)
      ensures faults == if fault then old(faults) + 1 else old(faults)
    {
      fault := Attempt();
      changes := 0;
      if fault {
        return false, true, 0;
      }
      match statement(db, item)
      case Refused => ok := false;
      case Done(after, more) =>
        ok, changes := true, more;
        db := after;
    }
  }

  datatype TransactionState = Active | Committed | RolledBack

  class Transaction<!Db> {
    var connection: Connection?<Db>
    var state: TransactionState

    ghost predicate Valid()
      reads this, connection
    {
      state == Active ==> connection != null && connection.open.Some?
    }

    /** BEGIN succeeded on the connection. */
    constructor (began: Connection<Db>)
      ensures connection == began && state == Active
    {
      connection, state := began, Active;
    }

    /** The moved-from transaction is terminal and no longer knows the connection. */
    constructor Move(other: Transaction<Db>)
      requires other.Valid()
      modifies other
      ensures connection == old(other.connection) && state == old(other.state) && Valid()
      ensures other.state == RolledBack && other.connection == null && other.Valid()
    {
      connection, state := other.connection, other.state;
      new;
      other.connection, other.state := null, RolledBack;
    }

    static method Start(connection: Connection<Db>) returns (transaction: Transaction?<Db>)
      modifies connection
      ensures connection.db == old(connection.db) && connection.stuck == old(connection.stuck)
      ensures transaction == null ==>
        connection.open == old(connection.open) && connection.savepoints == old(connection.savepoints)
      ensures transaction != null ==>
        fresh(transaction) && transaction.Valid() && transaction.state == Active &&
        transaction.connection == connection &&
        old(connection.open).None? && connection.open == Some(connection.db) && connection.savepoints == []
      ensures connection.faults >= old(connection.faults)
      ensures transaction != null <==> old(connection.open).None? && connection.faults == old(connection.faults)
    {
      transaction := null;
      var ok := connection.Begin();
      if ok {
        transaction := new Transaction(connection);
      }
    }

    /** Once the transaction is over, committing again is refused and changes nothing. */
    method Commit() returns (ok: bool)
      requires Valid()
      modifies this, connection
      ensures Valid() && connection == old(connection)
      ensures old(state) != Active ==> !ok && state == old(state) && (connection == null || unchanged(connection))
      ensures old(state) == Active && ok ==>
        state == Committed && connection.open.None? && connection.db == old(connection.db) &&
        connection.savepoints == []
      ensures old(state) == Active && !ok && state == Active ==>
        connection.open == old(connection.open) && connection.db == old(connection.db) &&
        connection.savepoints == old(connection.savepoints)
      ensures old(state) == Active && !ok && state != Active ==>
        state == RolledBack && connection.open.None? && connection.db == old(connection.open).value &&
        connection.savepoints == []
      ensures connection != null ==>
        connection.stuck == old(connection.stuck) && connection.faults >= old(connection.faults)
      ensures old(state) == Active ==> (ok <==> connection.faults == old(connection.faults))
    {
      if state != Active {
        return false;
      }
      ok := connection.Commit();
      if ok {
        state := Committed;
      } else if connection.Autocommit() {
        state := RolledBack;
      }
    }

    method Rollback() returns (ok: bool)
      requires Valid()
      modifies this, connection
      ensures Valid() && connection == old(connection)
      ensures old(state) != Active ==> !ok && state == old(state) && (connection == null || unchanged(connection))
      ensures ok ==> state == RolledBack
      ensures old(state) == Active ==> state in {Active, RolledBack}
      ensures old(state) == Active && state == RolledBack ==>
        connection.open.None? && connection.db == old(connection.open).value && connection.savepoints == [] &&
        connection.stuck == old(connection.stuck)
      ensures old(state) == Active && state == Active ==>
        connection.stuck && connection.open == old(connection.open) && connection.db == old(connection.db) &&
        connection.savepoints == old(connection.savepoints)
      ensures connection != null ==> connection.faults >= old(connection.faults)
      ensures old(state) == Active ==> (ok <==> connection.faults == old(connection.faults))
    {
      if state != Active {
        return false;
      }
      ok := connection.Rollback();
      if ok || connection.Autocommit() {
        state := RolledBack;
      }
    }

    /** The destructor. */
    method Destroy()
      requires Valid()
      modifies this, connection
      ensures Valid() && connection == old(connection)
      ensures old(state) != Active ==> state == old(state) && (connection == null || unchanged(connection))
      ensures old(state) == Active ==> state in {Active, RolledBack}
      ensures old(state) == Active && state == RolledBack ==>
        connection.open.None? && connection.db == old(connection.open).value && connection.savepoints == [] &&
        connection.stuck == old(connection.stuck)
      ensures old(state) == Active && state == Active ==>
        connection.stuck && connection.open == old(connection.open) && connection.db == old(connection.db) &&
        connection.savepoints == old(connection.savepoints)
      ensures connection != null ==> connection.faults >= old(connection.faults)
      ensures old(state) == Active && connection.faults == old(connection.faults) ==> state == RolledBack
    {
      if state == Active {
        var _ := Rollback();
      }
    }

    /** Move assignment ends the transaction it replaces. */
    method Assign(other: Transaction<Db>)
      requires Valid() && other.Valid()
      requires other != this && state == Active && other.state == Active ==> other.connection != connection
      modifies this, connection, other
      ensures other == this ==> state == old(state) && connection == old(connection)
      ensures other == this ==> connection == null || unchanged(connection)
      ensures other != this ==>
        state == old(other.state) && connection == old(other.connection) &&
        other.state == RolledBack && other.connection == null
      ensures other != this && old(state) != Active && old(connection) != null ==> unchanged(old(connection))
      ensures other != this && old(state) == Active && !old(connection).stuck ==>
        old(connection).open.None? && old(connection).db == old(connection.open).value
      ensures Valid() && other.Valid()
    {
      if other == this {
        return;
      }
      if state == Active {
        var _ := Rollback();
      }
      connection, state := other.connection, other.state;
      other.connection, other.state := null, RolledBack;
    }
  }

  /** The scope of one bulk statement: its own transaction, a savepoint in a running one, or nothing. */
  class BulkScope<!Db> {
    const connection: Connection<Db>
    var transaction: Transaction?<Db>
    var savepoint: bool
    var active: bool

    constructor (connection: Connection<Db>, transaction: Transaction?<Db>, savepoint: bool, active: bool)
      ensures this.connection == connection && this.transaction == transaction
      ensures this.savepoint == savepoint && this.active == active
    {
      this.connection, this.transaction, this.savepoint, this.active := connection, transaction, savepoint, active;
    }

    /** `before` is the state the scope was opened in. */
    ghost predicate Guards(db: Db, open: Option<Db>, savepoints: seq<Db>)
      reads this, connection, transaction
    {
      if !active then transaction == null && connection.open == open && connection.savepoints == savepoints
      else if transaction != null then
        transaction.connection == connection && transaction.state == Active &&
        open.None? && savepoints == [] && connection.open == Some(db) && connection.savepoints == []
      else
        savepoint && open.Some? && connection.open == open && connection.savepoints == savepoints + [db]
    }

    /** Its own transaction is over, and the connection is as it was. */
    ghost predicate Undone(db: Db, open: Option<Db>, savepoints: seq<Db>)
      reads this, connection, transaction
    {
      transaction != null && Ended() &&
      connection.db == db && connection.open == open && connection.savepoints == savepoints
    }

    ghost predicate Ended()
      reads this, transaction
    {
      transaction != null ==> transaction.connection == connection && transaction.state != Active
    }

    static method Start(connection: Connection<Db>, atomic: bool) returns (scope: BulkScope?<Db>)
      requires connection.open.None? ==> connection.savepoints == []
      modifies connection
      ensures connection.db == old(connection.db) && connection.stuck == old(connection.stuck)
      ensures scope == null ==>
        connection.open == old(connection.open) && connection.savepoints == old(connection.savepoints)
      ensures scope != null ==> fresh(scope) && scope.connection == connection && scope.active == atomic
      ensures scope != null && scope.transaction != null ==> fresh(scope.transaction)
      ensures scope != null ==> scope.Guards(old(connection.db), old(connection.open), old(connection.savepoints))
      ensures connection.faults >= old(connection.faults)
      ensures scope != null <==> connection.faults == old(connection.faults)
    {
      scope := null;
      if !atomic {
        scope := new BulkScope(connection, null, false, false);
      } else if !connection.Autocommit() {
        var ok := connection.Savepoint();
        if ok {
          scope := new BulkScope(connection, null, true, true);
        }
      } else {
        var transaction := Transaction.Start(connection);
        if transaction != null {
          scope := new BulkScope(connection, transaction, false, true);
        }
      }
    }

    /** Whatever was done inside is kept, or the scope can still undo it. */
    method Complete(ghost db: Db, ghost open: Option<Db>, ghost savepoints: seq<Db>) returns (ok: bool)
      requires Guards(db, open, savepoints)
      modifies this, connection, transaction
      ensures transaction == old(transaction)
      ensures connection.stuck == old(connection.stuck)
      ensures ok ==> !active && connection.open == open && connection.savepoints == savepoints
      ensures ok ==> connection.db == old(connection.db) && Ended()
      ensures active ==> old(active)
      ensures !ok ==> active && (Guards(db, open, savepoints) || Undone(db, open, savepoints))
      ensures connection.faults >= old(connection.faults)
      ensures ok <==> connection.faults == old(connection.faults)
    {
      if !active {
        return true;
      }
      if transaction != null {
        ok := transaction.Commit();
      } else {
        ok := connection.Release();
        assert (savepoints + [db])[..|savepoints|] == savepoints;
      }
      if ok {
        active := false;
      }
    }

    /** The destructor: an unfinished scope restores the state it was opened in. */
    method Destroy(ghost db: Db, ghost open: Option<Db>, ghost savepoints: seq<Db>)
      requires active ==> Guards(db, open, savepoints) || Undone(db, open, savepoints)
      requires !active ==> Ended()
      requires !active ==> connection.open == open && connection.savepoints == savepoints
      requires open.None? ==> savepoints == []
      modifies this, connection, transaction
      ensures old(connection.stuck) ==> connection.stuck
      ensures open.Some? ==> connection.open == open
      ensures connection.open.None? ==> connection.savepoints == []
      ensures !connection.stuck ==> connection.open == open && connection.savepoints == savepoints
      ensures !connection.stuck ==> connection.db == if old(active) then db else old(connection.db)
      ensures !old(active) ==> unchanged(connection)
      ensures connection.faults >= old(connection.faults)
      ensures connection.faults == old(connection.faults) ==> connection.stuck == old(connection.stuck)
    {
      if active {
        if transaction != null {
          var _ := transaction.Rollback();
        } else if savepoint {
          connection.RollbackToSavepoint();
        }
      }
      if transaction != null {
        transaction.Destroy();
      }
    }
  }

  // ----- bulk statements -----

  lemma AppliedStep<Db, Item>(statement: Statement<Db, Item>, db: Db, items: seq<Item>, i: nat)
    requires i < |items|
    ensures items[..i + 1][..i] == items[..i] && items[..i + 1][i] == items[i]
  {
  }

  lemma AppliedAll<Db, Item>(statement: Statement<Db, Item>, db: Db, items: seq<Item>)
    ensures items[..|items|] == items
    ensures forall k, after :: 0 <= k <= |items| && AppliedUpTo(statement, db, items, k, after) ==>
      PartlyApplied(statement, db, items, after)
  {
  }

  /** Runs a prepared statement over the inputs. It stops at the first input that cannot be bound or stepped, or
      whose changes no longer fit the counter; the changes made so far stay. */
  method RunPreparedBulk<Db, Item>(connection: Connection<Db>, statement: Statement<Db, Item>, items: seq<Item>)
    returns (result: Option<BulkResult>, fault: bool)
    modifies connection
    ensures result.Some? ==> !fault && Stored(statement, old(connection.db), items, connection.db, result.value)
    ensures result.None? ==> fault || !Completes(statement, old(connection.db), items)
    ensures PartlyApplied(statement, old(connection.db), items, connection.db)
    ensures connection.open == old(connection.open) && connection.savepoints == old(connection.savepoints)
    ensures connection.stuck == old(connection.stuck) && connection.faults >= old(connection.faults)
    ensures fault <==> connection.faults > old(connection.faults)
  {
    ghost var before := connection.db;
    var processed, changes: nat := 0, 0;
    AppliedAll(statement, before, items);
    fault := false;
    for i := 0 to |items|
      invariant Applied(statement, before, items[..i]) == Done(connection.db, changes)
      invariant processed == i && changes <= MAX_CHANGES
      invariant connection.open == old(connection.open) && connection.savepoints == old(connection.savepoints)
      invariant connection.stuck == old(connection.stuck) && connection.faults == old(connection.faults)
    {
      AppliedStep(statement, before, items, i);
      assert AppliedUpTo(statement, before, items, i, connection.db);
      var ok, more;
      ok, fault, more := connection.Execute(statement, items[i]);
      if !ok {
        if !fault {
          RefusedStays(statement, before, items, i + 1);
        }
        return None, fault;
      }
      assert AppliedUpTo(statement, before, items, i + 1, connection.db);
      if more > 0 && changes > MAX_CHANGES - more {
        RefusedStays(statement, before, items, i + 1);
        return None, false;
      }
      processed, changes := processed + 1, changes + more;
    }
    assert AppliedUpTo(statement, before, items, |items|, connection.db);
    return Some(BulkResult(processed, changes)), false;
  }

  /** An atomic bulk statement happens completely or not at all, on its own and inside a transaction; without
      atomicity a failure leaves the changes of a prefix. */
  method ExecuteBulk<Db, Item>(connection: Connection<Db>, nestedAtomic: bool, statement: Statement<Db, Item>,
                               items: seq<Item>, atomic: bool)
    returns (result: Option<BulkResult>, fault: bool)
    requires connection.open.None? ==> connection.savepoints == []
    modifies connection
    ensures result.Some? ==> !fault && Stored(statement, old(connection.db), items, connection.db, result.value)
    ensures result.None? ==> fault || !Completes(statement, old(connection.db), items)
    ensures result.None? && atomic && nestedAtomic && !connection.stuck ==> connection.db == old(connection.db)
    ensures !connection.stuck ==> PartlyApplied(statement, old(connection.db), items, connection.db)
    ensures !(atomic && nestedAtomic) ==>
      PartlyApplied(statement, old(connection.db), items, connection.db) && connection.open == old(connection.open)
    ensures !connection.stuck ==>
      connection.open == old(connection.open) && connection.savepoints == old(connection.savepoints)
    ensures connection.stuck || old(connection.stuck) ==> connection.stuck
    ensures old(connection.open).Some? ==> connection.open == old(connection.open)
    ensures connection.open.None? ==> connection.savepoints == []
    ensures connection.faults >= old(connection.faults) && (fault ==> connection.faults > old(connection.faults))
    ensures result.Some? ==> connection.faults == old(connection.faults)
    ensures connection.faults == old(connection.faults) ==> connection.stuck == old(connection.stuck)
  {
    ghost var db, open, savepoints := connection.db, connection.open, connection.savepoints;
    AppliedAll(statement, db, items);
    assert AppliedUpTo(statement, db, items, 0, db);
    var scope := BulkScope.Start(connection, atomic && nestedAtomic);
    if scope == null {
      return None, true;
    }
    fault := connection.Attempt();
    result := None;
    if !fault {
      result, fault := RunPreparedBulk(connection, statement, items);
    }
    if result.Some? {
      var completed := scope.Complete(db, open, savepoints);
      if !completed {
        result, fault := None, true;
      }
    }
    scope.Destroy(db, open, savepoints);
  }
}
