/** The clone refresh on the storage object (src/storage/CloneRefresh.cpp). It runs inside the storage's transaction
    only, and its bulk statements are not atomic. */
module RefreshStorage {
  import opened Text
  import opened PointerBatch
  import opened FactTables
  import opened CloneRefresh
  import opened RefreshFailures
  import opened FactStorage
  import Runs = FactRuns

  /** The refresh went through, was refused, found no transaction, could not read a row, or stopped half way. */
  datatype Status = Refreshed(files: seq<nat>) | Rejected | NoTransaction | Unread | Stopped

  /** One statement for every file; the tables stay sound on the way, so that nothing but the database itself
      can stop it. */
  method ExecuteBulk(storage: Storage, statement: Statement, rows: seq<FactProvenance>)
    returns (ok: bool, ghost n: nat)
    requires Integrity(storage.db)
    requires statement == DeleteSymbols ==> ReceiversFree(storage.db, FilesOf(rows))
    modifies storage`db, storage`faults
    ensures Integrity(storage.db)
    ensures n <= |rows| && storage.db == Execute(old(storage.db), statement, FilesOf(rows[..n]))
    ensures ok ==> n == |rows| && rows[..n] == rows
    ensures storage.faults >= old(storage.faults) && (ok <==> storage.faults == old(storage.faults))
  {
    hide Execute, Integrity, ReceiversFree, FilesOf;
    ghost var saved := storage.db;
    NoFiles(saved, statement, rows);
    for i := 0 to |rows|
      invariant storage.faults == old(storage.faults)
      invariant storage.db == Execute(saved, statement, FilesOf(rows[..i])) && Integrity(storage.db)
    {
      FilesStep(rows, i);
      if statement == DeleteSymbols {
        FewerFree(saved, FilesOf(rows), FilesOf(rows[..i + 1]));
        SymbolsFree(saved, FilesOf(rows[..i]), rows[i].file);
      }
      var fault := storage.Attempt();
      if fault || (statement == DeleteSymbols && !ReceiversFree(storage.db, {rows[i].file})) {
        return false, i;
      }
      ExecuteStep(saved, statement, FilesOf(rows[..i]), rows[i].file);
      ExecuteIntegrity(saved, statement, FilesOf(rows[..i + 1]));
      storage.db := Execute(storage.db, statement, {rows[i].file});
    }
    assert rows[..|rows|] == rows;
    return true, |rows|;
  }

  method UpdatePaths(storage: Storage, rows: seq<FactProvenance>) returns (ok: bool, ghost n: nat)
    requires Integrity(storage.db)
    modifies storage`db, storage`faults
    ensures Integrity(storage.db) && n <= |rows| && (ok ==> n == |rows| && rows[..n] == rows)
    ensures storage.db ==
      old(storage.db).(provenance := Repathed(old(storage.db.provenance), PathsOf(rows[..n])))
    ensures storage.faults >= old(storage.faults) && (ok <==> storage.faults == old(storage.faults))
  {
    hide Integrity, PathsOf, FilesOf;
    ghost var saved := storage.db;
    NoPaths(saved, rows);
    for i := 0 to |rows|
      invariant storage.faults == old(storage.faults)
      invariant storage.db == saved.(provenance := Repathed(saved.provenance, PathsOf(rows[..i])))
    {
      var fault := storage.Attempt();
      if fault {
        ProvenanceIntegrity(saved, storage.db.provenance);
        return false, i;
      }
      FilesStep(rows, i);
      var row := rows[i];
      RepathStep(saved.provenance, PathsOf(rows[..i]), row.file, row.path);
      if row.file in storage.db.provenance {
        var renamed := storage.db.provenance[row.file].(path := row.path);
        storage.db := storage.db.(provenance := storage.db.provenance[row.file := renamed]);
      }
    }
    assert rows[..|rows|] == rows;
    ProvenanceIntegrity(saved, storage.db.provenance);
    return true, |rows|;
  }

  /** The nested loops over statements and files; only the database itself can stop them. */
  method ClearFiles(storage: Storage, rows: seq<FactProvenance>) returns (ok: bool, ghost p: RefreshProgress)
    requires Integrity(storage.db)
    modifies storage`db, storage`faults
    ensures Integrity(storage.db) && RefreshReach(rows, p)
    ensures storage.db == PartialRefresh(old(storage.db), rows, p)
    ensures ok ==> storage.db == RefreshedTables(old(storage.db), PathsOf(rows))
    ensures storage.faults >= old(storage.faults) && (ok <==> storage.faults == old(storage.faults))
  {
    hide Execute, Integrity, FilesOf, PathsOf, ReceiversFree, Repathed, Without;
    ghost var saved := storage.db;
    for i := 0 to |STATEMENTS|
      invariant storage.faults == old(storage.faults)
      invariant storage.db == ExecuteAll(saved, STATEMENTS[..i], FilesOf(rows)) && Integrity(storage.db)
    {
      StatementsStep(i);
      if STATEMENTS[i] == DeleteSymbols {
        ReceiversStayFree(saved, STATEMENTS[..i], FilesOf(rows));
      }
      ghost var n;
      ok, n := ExecuteBulk(storage, STATEMENTS[i], rows);
      if !ok {
        return false, RefreshProgress(i, n);
      }
    }
    assert STATEMENTS[..|STATEMENTS|] == STATEMENTS;
    StatementsLeaveExactly(saved, FilesOf(rows));
    PathFiles(rows);
    KeptProvenance(saved, FilesOf(rows));
    ghost var n;
    ok, n := UpdatePaths(storage, rows);
    p := RefreshProgress(PATHS, n);
  }

  /** A refresh within a transaction either refuses before any write, or leaves exactly the rows that do not
      belong to a moved file; if the database fails half way, no foreign key dangles. */
  method RefreshCloneFiles(storage: Storage, rows: seq<FactProvenance>, selected: seq<nat>)
    returns (status: Status, ghost p: RefreshProgress)
    requires Integrity(storage.db)
    modifies storage`db, storage`faults
    ensures Integrity(storage.db)
    ensures status.NoTransaction? <==> storage.open.None?
    ensures storage.faults >= old(storage.faults)
    ensures status.Unread? || status.Stopped? <==> storage.faults > old(storage.faults)
    ensures status.Rejected? ==> !AcceptsRefresh(old(storage.db), rows, SetOf(selected))
    ensures !status.Refreshed? && !status.Stopped? ==> storage.db == old(storage.db)
    ensures status.Refreshed? || status.Stopped? ==> AcceptsRefresh(old(storage.db), rows, SetOf(selected))
    ensures status.Refreshed? ==>
      storage.db == RefreshedTables(old(storage.db), NewPaths(old(storage.db), rows, SetOf(selected)))
    ensures status.Refreshed? ==> SetOf(status.files) == NewPaths(old(storage.db), rows, SetOf(selected)).Keys
    ensures status.Stopped? ==>
      var moved := Changed(old(storage.db), rows, SetOf(selected));
      RefreshReach(moved, p) && storage.db == PartialRefresh(old(storage.db), moved, p)
    ensures status.Refreshed? ==>
      storage.Session() == Runs.Step(old(storage.Session()), Runs.Do(Runs.RefreshCloneFiles(rows, SetOf(selected))))
    ensures status.Stopped? ==>
      storage.Session() == Runs.Step(old(storage.Session()), Runs.StopRefresh(rows, SetOf(selected), p))
  {
    hide Integrity, Examined, PathsOf, NewPaths, RefreshedTables, AcceptsRefresh, FirstRow, FilesOf;
    p := RefreshProgress(0, 0);
    if storage.open.None? {
      return NoTransaction, p;
    }
    ghost var saved := storage.db;
    var requested := SetOf(selected);
    var changed := [];
    NothingExamined(saved, rows, requested);
    for i := 0 to |rows|
      invariant storage.faults == old(storage.faults)
      invariant storage.db == saved && Examined(saved, rows[..i], SetOf(selected), requested, changed)
    {
      ExaminedStep(saved, rows, i, SetOf(selected), requested, changed);
      var row := rows[i];
      if row.file in requested {
        requested := requested - {row.file};
        if row.file == BUILTIN_FILE {
          return Rejected, p;
        }
        if row.aliases != [] {
          var fault := storage.Attempt();
          if fault {
            return Unread, p;
          }
          if !Matches(storage.db, row) {
            return Rejected, p;
          }
          if Moves(storage.db, row) {
            changed := changed + [row];
          }
        }
      }
    }
    assert rows[..|rows|] == rows;
    AllExamined(saved, rows, SetOf(selected), requested, changed);
    if requested != {} {
      return Rejected, p;
    }
    PathFiles(changed);
    if changed == [] {
      NothingChanged(saved);
      NoneOf();
      return Refreshed([]), p;
    }
    var ok;
    ok, p := ClearFiles(storage, changed);
    if !ok {
      return Stopped, p;
    }
    FilesInOrder(changed);
    return Refreshed(Files(changed)), p;
  }
}
