/** The storage object's own transaction: begin, commit and rollback, the transaction of one write operation, and
    what that means over whole runs (src/storage/Storage.cpp). */
module StorageTransactions {
  import opened Text
  import opened Transactions

  datatype Bulk<!Db, !Item> = Bulk(statement: Statement<Db, Item>, items: seq<Item>)

  /** The bulk statements one after the other. */
  function AppliedInOrder<Db, Item>(db: Db, bulks: seq<Bulk<Db, Item>>): Option<Db> {
    if bulks == [] then Some(db)
    else
      match AppliedInOrder(db, bulks[..|bulks| - 1])
      case None => None
      case Some(before) =>
        var last := bulks[|bulks| - 1];
        if Completes(last.statement, before, last.items) then Some(Applied(last.statement, before, last.items).db)
        else None
  }

  lemma {:induction false} FailsEarly<Db, Item>(db: Db, bulks: seq<Bulk<Db, Item>>, k: nat)
    requires k <= |bulks| && AppliedInOrder(db, bulks[..k]).None?
    ensures AppliedInOrder(db, bulks).None?
    decreases |bulks|
  {
    if k == |bulks| {
      assert bulks[..k] == bulks;
    } else {
      assert bulks[..|bulks| - 1][..k] == bulks[..k];
      FailsEarly(db, bulks[..|bulks| - 1], k);
    }
  }

  class Storage<!Db> {
    const connection: Connection<Db>
    /** DELETE FROM callgraph_entry. */
    const invalidate: Db -> Db
    var transaction: Transaction?<Db>
    var nestedAtomic: bool

    ghost predicate Valid()
      reads this, connection, transaction
    {
      && (transaction != null ==> transaction.connection == connection && transaction.Valid())
      && (nestedAtomic <==> transaction == null)
      && (connection.open.None? ==> connection.savepoints == [])
    }

    /** The storage's transaction is running and would return to `snapshot`. */
    ghost predicate Running(snapshot: Db)
      reads this, connection, transaction
    {
      transaction != null && transaction.state == Active && connection.open == Some(snapshot)
    }

    ghost predicate UnderWay()
      reads this, connection, transaction
    {
      connection.open.Some? && Running(connection.open.value)
    }

    predicate Held()
      reads this
    {
      transaction != null
    }

    /** The storage holds on to a transaction that is over. */
    predicate Wedged()
      reads this, transaction
    {
      transaction != null && transaction.state != Active
    }

    ghost predicate Idle(db: Db)
      reads this, connection
    {
      transaction == null && nestedAtomic && connection.db == db && connection.open.None? && connection.savepoints == []
    }

    constructor (connection: Connection<Db>, invalidate: Db -> Db)
      requires connection.open.None? && connection.savepoints == []
      ensures Valid() && transaction == null && this.connection == connection && this.invalidate == invalidate
    {
      this.connection, this.invalidate, transaction, nestedAtomic := connection, invalidate, null, true;
    }

    method Begin() returns (ok: bool)
      requires Valid()
      modifies this, connection, transaction
      ensures Valid()
      ensures old(transaction) != null ==> !ok && unchanged(this) && unchanged(connection) && unchanged(transaction)
      ensures ok ==>
        fresh(transaction) && Running(old(connection.db)) && connection.db == invalidate(old(connection.db))
      ensures ok ==> old(connection.open).None?
      ensures !ok && old(transaction) == null ==> transaction == null
      ensures !ok && !connection.stuck ==>
        connection.db == old(connection.db) && connection.open == old(connection.open)
      ensures connection.faults >= old(connection.faults)
      ensures ok <==>
        old(transaction) == null && old(connection.open).None? && connection.faults == old(connection.faults)
    {
      if transaction != null {
        return false;
      }
      var started := Transaction.Start(connection);
      if started == null {
        return false;
      }
      transaction := new Transaction.Move(started);
      nestedAtomic := false;
      var fault := connection.Attempt();
      if fault {
        var _ := transaction.Rollback();
        transaction.Destroy();
        transaction := null;
        nestedAtomic := true;
        return false;
      }
      connection.db := invalidate(connection.db);
      return true;
    }

    method Commit() returns (ok: bool)
      requires Valid()
      modifies this, connection, transaction
      ensures Valid()
      ensures old(transaction) == null ==> !ok && unchanged(this) && unchanged(connection)
      ensures ok ==> transaction == null && connection.db == old(connection.db) && connection.open.None?
      ensures !ok ==> transaction == old(transaction)
      ensures !ok && transaction != null && old(transaction.state) == Active ==>
        (Wedged() <==> connection.open.None?) &&
        connection.db == if Wedged() then old(connection.open).value else old(connection.db)
      ensures !ok && connection.open.Some? ==> connection.open == old(connection.open)
      ensures old(Wedged()) ==> !ok && Wedged() && unchanged(connection)
      ensures connection.stuck == old(connection.stuck) && connection.faults >= old(connection.faults)
      ensures ok <==> old(Held() && !Wedged()) && connection.faults == old(connection.faults)
    {
      if transaction == null {
        return false;
      }
      ok := transaction.Commit();
      if ok {
        transaction.Destroy();
        transaction := null;
        nestedAtomic := true;
      }
    }

    method Rollback() returns (ok: bool)
      requires Valid()
      modifies this, connection, transaction
      ensures Valid()
      ensures old(transaction) == null ==> !ok && unchanged(this) && unchanged(connection)
      ensures ok ==> old(connection.open).Some? && Idle(old(connection.open).value)
      ensures !ok ==> transaction == old(transaction)
      ensures !ok && transaction != null && old(transaction.state) == Active ==>
        if Wedged() then connection.open.None? && connection.db == old(connection.open).value
        else connection.stuck && connection.open == old(connection.open)
      ensures old(Wedged()) ==> !ok && Wedged() && unchanged(connection)
      ensures connection.faults >= old(connection.faults)
      ensures ok <==> old(Held() && !Wedged()) && connection.faults == old(connection.faults)
    {
      if transaction == null {
        return false;
      }
      ok := transaction.Rollback();
      if ok {
        transaction.Destroy();
        transaction := null;
        nestedAtomic := true;
      }
    }

    /** A write operation gets a transaction of its own unless one is already there. */
    method WriteTransaction() returns (ok: bool, own: Transaction?<Db>)
      requires Valid()
      modifies connection
      ensures Valid()
      ensures transaction != null || old(connection.open).Some? ==> ok && own == null && unchanged(connection)
      ensures own != null ==> ok && fresh(own) && own.Valid() && own.state == Active && own.connection == connection
      ensures own != null ==>
        connection.open == Some(old(connection.db)) && connection.db == invalidate(old(connection.db))
      ensures ok && transaction == null && old(connection.open).None? ==> own != null
      ensures !ok ==> own == null
      ensures !ok && !connection.stuck ==>
        connection.db == old(connection.db) && connection.open == old(connection.open)
      ensures connection.faults >= old(connection.faults)
      ensures ok <==> connection.faults == old(connection.faults)
    {
      own := null;
      if transaction != null || !connection.Autocommit() {
        return true, null;
      }
      own := Transaction.Start(connection);
      if own == null {
        return false, null;
      }
      var fault := connection.Attempt();
      if fault {
        var _ := own.Rollback();
        own.Destroy();
        return false, null;
      }
      connection.db := invalidate(connection.db);
      return true, own;
    }

    /** A write operation: a transaction if there is none, the bulk statements, and the commit. */
    method Write<Item>(bulks: seq<Bulk<Db, Item>>) returns (ok: bool, fault: bool)
      requires Valid()
      modifies connection
      ensures Valid()
      ensures ok ==> !fault
      ensures var before := if transaction != null || old(connection.open).Some? then old(connection.db)
                            else invalidate(old(connection.db));
        (ok ==> AppliedInOrder(before, bulks) == Some(connection.db)) &&
        (!ok ==> fault || AppliedInOrder(before, bulks).None?)
      ensures !ok && transaction == null && old(connection.open).None? && !connection.stuck ==>
        connection.db == old(connection.db)
      ensures !connection.stuck ==> connection.open == old(connection.open)
      ensures old(connection.open).Some? ==> connection.open == old(connection.open)
      ensures transaction != null ==> connection.open == old(connection.open)
      ensures connection.faults >= old(connection.faults) && (fault ==> connection.faults > old(connection.faults))
    {
      ghost var snapshot, outer := connection.db, connection.open;
      var own: Transaction?<Db>;
      ok, own := WriteTransaction();
      fault := !ok;
      if !ok {
        return;
      }
      ghost var before := connection.db;
      ghost var inside := connection.open;
      for i := 0 to |bulks|
        invariant Valid() && ok && !fault && connection.faults == old(connection.faults)
        invariant AppliedInOrder(before, bulks[..i]) == Some(connection.db)
        invariant own != null ==> own.state == Active && own.connection == connection && connection.open == inside
        invariant inside.Some? || transaction != null || !connection.stuck ==> connection.open == inside
      {
        assert bulks[..i + 1][..i] == bulks[..i];
        var bulk := bulks[i];
        ghost var start := connection.db;
        var result;
        result, fault := ExecuteBulk(connection, nestedAtomic, bulk.statement, bulk.items, true);
        if result.None? {
          if !fault {
            FailsEarly(before, bulks, i + 1);
          }
          ok := false;
          if own != null {
            own.Destroy();
          }
          return;
        }
      }
      assert bulks[..|bulks|] == bulks;
      if own != null {
        ok := own.Commit();
        fault := !ok;
        own.Destroy();
      }
    }
  }

  // ----- whole runs -----

  datatype Command<!Db, !Item> =
    | Begin
    | Commit
    | Rollback
    | RunBulk(bulk: Bulk<Db, Item>, atomic: bool)
    | WriteAll(bulks: seq<Bulk<Db, Item>>)

  predicate Ends<Db, Item>(command: Command<Db, Item>) {
    command.Commit? || command.Rollback?
  }

  predicate Bounds<Db, Item>(command: Command<Db, Item>) {
    command.Begin? || Ends(command)
  }

  /** A begin is accepted exactly if the storage takes a transaction by it, a commit or a rollback exactly if the
      storage lets go of the one it has; nothing else changes whether it has one. */
  predicate Accepts<Db, Item>(held: bool, command: Command<Db, Item>, accepted: bool, holds: bool) {
    match command
    case Begin => accepted == (!held && holds) && (held ==> holds)
    case Commit => accepted == (held && !holds) && (!held ==> !holds)
    case Rollback => accepted == (held && !holds) && (!held ==> !holds)
    case _ => holds == held
  }

  /** The storage executes the commands; the log says for each begin, commit and rollback whether it was accepted. */
  method Run<Db, Item>(storage: Storage<Db>, script: seq<Command<Db, Item>>)
    returns (log: seq<bool>, ghost held: seq<bool>)
    requires storage.Valid()
    modifies storage, storage.connection, storage.transaction
    ensures storage.Valid() && |log| == |script| && |held| == |script| + 1
    ensures held[0] == old(storage.Held()) && held[|script|] == storage.Held()
    ensures forall i: nat | i < |script| :: Accepts(held[i], script[i], log[i], held[i + 1])
    ensures old(storage.Wedged()) && old(storage.connection.open).None? ==>
      (forall i: nat | i < |script| :: Bounds(script[i]) ==> !log[i]) &&
      storage.Wedged() && storage.connection.open.None? && storage.transaction == old(storage.transaction)
    ensures old(storage.UnderWay()) && (forall c <- script :: !Ends(c)) ==>
      (forall i: nat | i < |script| :: script[i].Begin? ==> !log[i]) &&
      storage.transaction == old(storage.transaction) && storage.Running(old(storage.connection.open).value)
  {
    log, held := [], [storage.Held()];
    ghost var running, open := storage.UnderWay(), storage.connection.open;
    ghost var first := storage.transaction;
    ghost var stays := storage.Wedged() && storage.connection.open.None?;
    for i := 0 to |script|
      invariant storage.Valid() && |log| == i && |held| == i + 1
      invariant held[0] == old(storage.Held()) && held[i] == storage.Held()
      invariant forall j: nat | j < i :: Accepts(held[j], script[j], log[j], held[j + 1])
      invariant storage.transaction == first || fresh(storage.transaction) || storage.transaction == null
      invariant stays ==> storage.Wedged() && storage.connection.open.None? && storage.transaction == first
      invariant stays ==> forall j: nat | j < i :: Bounds(script[j]) ==> !log[j]
      invariant running && (forall c <- script[..i] :: !Ends(c)) ==>
        storage.transaction == first && storage.Running(open.value) &&
        forall j: nat | j < i :: script[j].Begin? ==> !log[j]
    {
      assert script[i] in script[..i + 1] && forall c <- script[..i] :: c in script[..i + 1];
      var ok := true;
      match script[i] {
        case Begin => ok := storage.Begin();
        case Commit => ok := storage.Commit();
        case Rollback => ok := storage.Rollback();
        case RunBulk(bulk, atomic) =>
          var result, _ := ExecuteBulk(storage.connection, storage.nestedAtomic, bulk.statement, bulk.items, atomic);
          ok := result.Some?;
        case WriteAll(bulks) =>
          var written, _ := storage.Write(bulks);
          ok := written;
      }
      log, held := log + [ok], held + [storage.Held()];
    }
    assert script[..|script|] == script;
  }

  /** Whatever is done between begin and rollback, by bulk statements that are not even atomic and may fail half
      way, a rollback that succeeds brings back the contents before begin. */
  method BeginRunRollback<Db, Item>(storage: Storage<Db>, script: seq<Command<Db, Item>>)
    returns (began: bool, undone: bool)
    requires storage.Valid()
    requires forall c <- script :: !Ends(c)
    modifies storage, storage.connection, storage.transaction
    ensures storage.Valid()
    ensures began && undone ==> storage.Idle(old(storage.connection.db))
    ensures began && !undone && storage.Wedged() ==>
      storage.connection.db == old(storage.connection.db) && storage.connection.open.None?
    ensures began && !undone && !storage.Wedged() ==> storage.connection.stuck
  {
    began := storage.Begin();
    undone := false;
    if began {
      ghost var snapshot := old(storage.connection.db);
      assert storage.Running(snapshot);
      var _, _ := Run(storage, script);
      undone := storage.Rollback();
    }
  }

  /** A commit that fails because the database rolled back by itself leaves a storage that refuses every later
      begin, commit and rollback, and whose bulk statements are no longer atomic. */
  method CommitThenRun<Db, Item>(storage: Storage<Db>, script: seq<Command<Db, Item>>)
    returns (committed: bool, lost: bool, log: seq<bool>, ghost held: seq<bool>)
    requires storage.Valid() && storage.UnderWay()
    modifies storage, storage.connection, storage.transaction
    ensures storage.Valid()
    ensures committed ==> !lost && storage.Idle(old(storage.connection.db))
    ensures lost ==> |log| == |script| && |held| == |script| + 1
    ensures lost ==> forall i: nat | i < |script| ::
      Accepts(held[i], script[i], log[i], held[i + 1]) && (Bounds(script[i]) ==> !log[i])
    ensures lost ==> storage.Wedged() && storage.connection.open.None? && !storage.nestedAtomic
    ensures !committed && !lost ==>
      storage.Running(old(storage.connection.open).value) && storage.connection.db == old(storage.connection.db)
  {
    log, held := [], [];
    committed := storage.Commit();
    lost := !committed && storage.connection.Autocommit();
    if lost {
      log, held := Run(storage, script);
    }
  }
}
