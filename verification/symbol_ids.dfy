/** Identities of symbols: how they are packed, allocated and kept (src/storage/SymbolAllocation.h,
    src/storage/Symbol.cpp, src/storage/ReturnType.cpp, src/storage/Sqlite.cpp). */
module SymbolIds {
  import opened Text
  import opened PointerBatch

  const MAX_INDEX: nat := 0xffff_ffff

  // ----- packing -----

  datatype Halves = Halves(file: bv32, index: bv32)

  function Pack(id: Halves): bv64 {
    ((id.file as bv64) << 32) | (id.index as bv64)
  }

  function Unpack(packed: bv64): Halves {
    Halves((packed >> 32) as bv32, (packed & 0xffff_ffff) as bv32)
  }

  lemma PackingRoundTrip(id: Halves, packed: bv64)
    ensures Unpack(Pack(id)) == id
    ensures Pack(Unpack(packed)) == packed
  {
    UnpackFile(id.file, id.index);
    UnpackIndex(id.file, id.index);
  }

  lemma UnpackFile(file: bv32, index: bv32)
    ensures ((((file as bv64) << 32) | (index as bv64)) >> 32) as bv32 == file
  {
  }

  lemma UnpackIndex(file: bv32, index: bv32)
    ensures ((((file as bv64) << 32) | (index as bv64)) & 0xffff_ffff) as bv32 == index
  {
  }

  // ----- the tables -----

  /** USRs by id, and the next index of every file. */
  datatype Db = Db(symbols: map<SymbolId, string>, allocator: map<nat, nat>)

  /** Indices of the builtin file below `first` stand for the compiler's own types. */
  predicate Reserved(id: SymbolId, first: nat) {
    id.file == BUILTIN_FILE && id.index < first
  }

  function BuiltinUsr(index: nat): string {
    "c:@BT@" + Decimal(index)
  }

  /** The id was handed out by the allocator. */
  predicate Allocated(allocator: map<nat, nat>, first: nat, id: SymbolId) {
    !Reserved(id, first) && id.file in allocator && id.index < allocator[id.file]
  }

  predicate SoundRow(db: Db, first: nat, id: SymbolId, usr: string) {
    id != NO_SYMBOL && id.index <= MAX_INDEX && usr != "" &&
    (Allocated(db.allocator, first, id) || (Reserved(id, first) && usr == BuiltinUsr(id.index)))
  }

  /** Every row is a reserved one under its own USR or was allocated, and no USR is stored twice. */
  ghost predicate Sound(db: Db, first: nat) {
    && (forall id <- db.symbols :: SoundRow(db, first, id, db.symbols[id]))
    && (forall a <- db.symbols, b <- db.symbols :: db.symbols[a] == db.symbols[b] ==> a == b)
    && (BUILTIN_FILE in db.allocator ==> db.allocator[BUILTIN_FILE] > first)
  }

  ghost predicate Stored(db: Db, usr: string, id: SymbolId) {
    id in db.symbols && db.symbols[id] == usr
  }

  /** The largest index of the builtin file plus one, or zero. */
  ghost predicate IsTop(db: Db, top: nat) {
    && (forall id <- db.symbols :: id.file == BUILTIN_FILE ==> id.index < top)
    && (top > 0 ==> SymbolId(BUILTIN_FILE, top - 1) in db.symbols)
  }

  function Max(a: nat, b: nat): nat {
    if a < b then b else a
  }

  /** What the allocator row of the file holds after one more allocation. */
  function NextIndex(db: Db, file: nat, first: nat, top: nat): (next: nat)
    ensures next > 0
  {
    if file == BUILTIN_FILE then
      var floor := Max(first, top) + 1;
      if file in db.allocator then Max(db.allocator[file] + 1, floor) else floor
    else if file in db.allocator then db.allocator[file] + 1 else 1
  }

  function Advanced(db: Db, file: nat, first: nat, top: nat): Db {
    db.(allocator := db.allocator[file := NextIndex(db, file, first, top)])
  }

  function NewId(db: Db, file: nat, first: nat, top: nat): SymbolId {
    SymbolId(file, NextIndex(db, file, first, top) - 1)
  }

  /** A new id is neither null nor reserved nor the id of any row, and was never allocated before. */
  lemma NewIdIsFresh(db: Db, file: nat, first: nat, top: nat)
    requires Sound(db, first) && IsTop(db, top) && first >= 2
    ensures var id := NewId(db, file, first, top);
      id != NO_SYMBOL && !Reserved(id, first) && id !in db.symbols &&
      !Allocated(db.allocator, first, id) && Allocated(Advanced(db, file, first, top).allocator, first, id)
    ensures Sound(Advanced(db, file, first, top), first)
    ensures forall id :: Allocated(db.allocator, first, id) ==>
      Allocated(Advanced(db, file, first, top).allocator, first, id)
  {
    var next := Advanced(db, file, first, top);
    var id := NewId(db, file, first, top);
    forall row <- db.symbols ensures row != id {
      assert SoundRow(db, first, row, db.symbols[row]);
    }
    forall row <- next.symbols ensures SoundRow(next, first, row, next.symbols[row]) {
      assert SoundRow(db, first, row, db.symbols[row]);
    }
  }

  /** The index may be given next: the allocator row has not passed it, and in the builtin file neither the compiler's
      own types nor any row reach it. */
  ghost predicate MayBeNext(db: Db, file: nat, first: nat, index: nat) {
    (file in db.allocator ==> db.allocator[file] <= index) &&
    (file == BUILTIN_FILE ==>
       first <= index && forall id <- db.symbols | id.file == BUILTIN_FILE :: id.index < index)
  }

  /** No index is skipped. */
  lemma NewIdIsLeast(db: Db, file: nat, first: nat, top: nat)
    requires IsTop(db, top)
    ensures MayBeNext(db, file, first, NewId(db, file, first, top).index)
    ensures forall index: nat | MayBeNext(db, file, first, index) :: NewId(db, file, first, top).index <= index
  {
  }

  /** In the builtin file this does not even need the allocator to know the rows. */
  lemma BuiltinIdIsFresh(db: Db, first: nat, top: nat)
    requires IsTop(db, top) && first >= 2
    ensures var id := NewId(db, BUILTIN_FILE, first, top);
      id != NO_SYMBOL && !Reserved(id, first) && id !in db.symbols
  {
  }

  /** The unique index on USRs lets the row through. */
  predicate Unclaimed(db: Db, id: SymbolId, usr: string) {
    forall other <- db.symbols :: db.symbols[other] == usr ==> other == id
  }

  /** A USR can be saved exactly if there is one, and it has an id or an index is left for it. */
  ghost predicate MayBeSaved(db: Db, first: nat, usr: string, file: nat) {
    usr != "" &&
    ((exists known :: Stored(db, usr, known)) || exists index: nat | index <= MAX_INDEX ::
       MayBeNext(db, file, first, index))
  }

  /** Both ends of the edge are there, or the target is a compiler type that can get its reserved row. */
  predicate TakesReturnType(db: Db, first: nat, callable: SymbolId, target: SymbolId, builtinName: string) {
    if Reserved(target, first) then
      0 < target.index <= MAX_INDEX && builtinName != "" && Unclaimed(db, target, BuiltinUsr(target.index)) &&
      (callable in db.symbols || callable == target)
    else target in db.symbols && callable in db.symbols
  }

  function Written(db: Db, id: SymbolId, usr: string): Db {
    db.(symbols := db.symbols[id := usr])
  }

  lemma WrittenSound(db: Db, first: nat, id: SymbolId, usr: string)
    requires Sound(db, first) && Unclaimed(db, id, usr) && SoundRow(db, first, id, usr)
    ensures Sound(Written(db, id, usr), first)
  {
    var next := Written(db, id, usr);
    forall row <- next.symbols ensures SoundRow(next, first, row, next.symbols[row]) {
      if row != id {
        assert SoundRow(db, first, row, db.symbols[row]);
      }
    }
  }

  /** A row that is written again under its own id keeps its USR. */
  lemma RewrittenKeeps(db: Db, first: nat, id: SymbolId, usr: string)
    requires Sound(db, first) && id in db.symbols && Reserved(id, first) && usr == BuiltinUsr(id.index)
    ensures db.symbols[id] == usr
  {
    assert SoundRow(db, first, id, db.symbols[id]);
  }

  lemma StoredIsSound(db: Db, first: nat, usr: string, id: SymbolId)
    requires Sound(db, first) && Stored(db, usr, id)
    ensures SoundRow(db, first, id, usr) && Written(db, id, usr) == db && Unclaimed(db, id, usr)
  {
    assert db.symbols[id := usr] == db.symbols;
  }

  lemma NobodyClaims(db: Db, id: SymbolId, usr: string)
    requires forall other :: !Stored(db, usr, other)
    ensures Unclaimed(db, id, usr)
  {
    forall other <- db.symbols ensures db.symbols[other] != usr {
      assert !Stored(db, usr, other);
    }
  }

  lemma DeletedSound(db: Db, first: nat, dead: set<SymbolId>)
    requires Sound(db, first)
    ensures Sound(db.(symbols := db.symbols - dead), first)
  {
    var next := db.(symbols := db.symbols - dead);
    forall row <- next.symbols ensures SoundRow(next, first, row, next.symbols[row]) {
      assert SoundRow(db, first, row, db.symbols[row]);
    }
  }

  /** Every row stays and keeps its USR, so that a USR keeps its id. */
  ghost predicate KeepsRows(before: Db, after: Db) {
    forall id <- before.symbols :: id in after.symbols && after.symbols[id] == before.symbols[id]
  }

  /** No row appears under another USR. */
  ghost predicate OnlyAdds(before: Db, after: Db, usr: string) {
    forall id <- after.symbols | id !in before.symbols :: after.symbols[id] == usr
  }

  ghost predicate AllIssued(allocator: map<nat, nat>, first: nat, issued: set<SymbolId>) {
    forall id <- issued :: Allocated(allocator, first, id)
  }

  // ----- the operations -----

  datatype Ending = Succeeded | Refused | UndoneInstead

  class Storage {
    const first: nat
    var db: Db
    var open: Option<Db>
    /** The database undid the storage's transaction by itself: the storage holds on to it, begins no other, and
        its operations run without one. */
    var wedged: bool
    /** How often the database has refused what was in order. */
    ghost var faults: nat
    /** All ids handed out on the history that led to the current contents, and to the snapshot. */
    ghost var issued: set<SymbolId>
    ghost var issuedBefore: set<SymbolId>

    ghost predicate Valid()
      reads this
    {
      && first >= 2
      && Sound(db, first) && AllIssued(db.allocator, first, issued)
      && (open.Some? ==> !wedged && Sound(open.value, first) && AllIssued(open.value.allocator, first, issuedBefore))
    }

    /** An operation has a transaction of its own, so that a failure leaves nothing behind. */
    predicate OnItsOwn()
      reads this
    {
      open.None? && !wedged
    }

    /** `first` is one more than the last index of the compiler's own types. */
    constructor (first: nat)
      requires first >= 2
      ensures Valid() && db == Db(map[], map[]) && open == None && issued == {} && this.first == first
      ensures !wedged
    {
      this.first, db, open, wedged := first, Db(map[], map[]), None, false;
      issued, issuedBefore, faults := {}, {}, 0;
    }

    /** The database may refuse anything. */
    method Attempt() returns (fault: bool)
      modifies `faults
      ensures faults == if fault then old(faults) + 1 else old(faults)
    {
      fault := *;
      if fault {
        faults := faults + 1;
      }
    }

    method FindId(usr: string) returns (id: Option<SymbolId>)
      requires Valid()
      ensures id.Some? ==> Stored(db, usr, id.value)
      ensures forall other :: Stored(db, usr, other) ==> id == Some(other)
    {
      id := None;
      if found: SymbolId :| found in db.symbols && db.symbols[found] == usr {
        id := Some(found);
      }
    }

    method BuiltinTop() returns (top: nat)
      ensures IsTop(db, top)
    {
      top := 0;
      var rows := db.symbols.Keys;
      while rows != {}
        invariant rows <= db.symbols.Keys
        invariant forall id <- db.symbols.Keys - rows :: id.file == BUILTIN_FILE ==> id.index < top
        invariant top > 0 ==> SymbolId(BUILTIN_FILE, top - 1) in db.symbols
      {
        var id :| id in rows;
        if id.file == BUILTIN_FILE && id.index + 1 > top {
          top := id.index + 1;
        }
        rows := rows - {id};
      }
    }

    /** A new id of the file under the least index that may be next, unless that is too large; the allocator advances
        either way. */
    method AllocateSymbolId(file: nat) returns (id: Option<SymbolId>)
      requires Valid()
      modifies this
      ensures Valid() && open == old(open) && issuedBefore == old(issuedBefore) && db.symbols == old(db.symbols)
      ensures wedged == old(wedged)
      ensures id.Some? ==>
        id.value.file == file && id.value.index <= MAX_INDEX && id.value != NO_SYMBOL && !Reserved(id.value, first) &&
        id.value !in db.symbols && id.value !in old(issued) && issued == old(issued) + {id.value} &&
        Allocated(db.allocator, first, id.value) && MayBeNext(old(db), file, first, id.value.index) &&
        forall index: nat | MayBeNext(old(db), file, first, index) :: id.value.index <= index
      ensures id.None? ==>
        issued == old(issued) && forall index: nat | MayBeNext(old(db), file, first, index) :: index > MAX_INDEX
      ensures faults == old(faults)
    {
      var top := BuiltinTop();
      NewIdIsLeast(db, file, first, top);
      NewIdIsFresh(db, file, first, top);
      var next := NewId(db, file, first, top);
      db := Advanced(db, file, first, top);
      if next.index > MAX_INDEX {
        return None;
      }
      issued := issued + {next};
      return Some(next);
    }

    /** The row of a symbol; the unique index refuses a USR that another row has. */
    method ReplaceSymbolRow(id: SymbolId, usr: string) returns (ok: bool, fault: bool)
      requires Valid() && SoundRow(db, first, id, usr)
      modifies this`db, this`faults
      ensures Valid()
      ensures ok <==> !fault && Unclaimed(old(db), id, usr)
      ensures db == if ok then Written(old(db), id, usr) else old(db)
      ensures faults >= old(faults) && (fault <==> faults > old(faults))
    {
      fault := Attempt();
      if fault || exists other <- db.symbols :: other != id && db.symbols[other] == usr {
        return false, fault;
      }
      WrittenSound(db, first, id, usr);
      db := Written(db, id, usr);
      return true, false;
    }

    /** Saving a USR keeps its id when it has one and gives it a new one otherwise. */
    method SaveSymbol(usr: string, file: nat) returns (id: Option<SymbolId>, fault: bool)
      requires Valid()
      modifies this
      ensures Valid() && open == old(open) && issuedBefore == old(issuedBefore) && old(issued) <= issued
      ensures KeepsRows(old(db), db) && OnlyAdds(old(db), db, usr) && wedged == old(wedged)
      ensures id.Some? ==> usr != "" && Stored(db, usr, id.value)
      ensures id.Some? ==>
        if exists known :: Stored(old(db), usr, known) then Stored(old(db), usr, id.value) && db == old(db)
        else id.value.file == file && id.value != NO_SYMBOL && !Reserved(id.value, first) && id.value !in old(issued) &&
             id.value !in old(db.symbols) && db.symbols == old(db.symbols)[id.value := usr] && id.value in issued
      ensures id.None? && old(OnItsOwn()) ==> db == old(db) && issued == old(issued)
      ensures !fault ==> (id.Some? <==> MayBeSaved(old(db), first, usr, file))
      ensures fault ==> id.None?
      ensures faults >= old(faults) && (fault <==> faults > old(faults))
    {
      hide Sound, AllIssued, BuiltinUsr, MayBeNext;
      id := None;
      // The transaction may not start.
      fault := false;
      if usr == "" {
        return;
      }
      fault := Attempt();
      if fault {
        return;
      }
      ghost var given := issued;
      var saved := db;
      id := FindId(usr);
      if id.None? {
        id := AllocateSymbolId(file);
        forall other ensures !Stored(db, usr, other) {
          assert !Stored(saved, usr, other);
        }
        NobodyClaims(db, if id.Some? then id.value else NO_SYMBOL, usr);
      } else {
        assert Stored(saved, usr, id.value);
        StoredIsSound(db, first, usr, id.value);
      }
      if id.Some? {
        var written;
        written, fault := ReplaceSymbolRow(id.value, usr);
        // The definition and the parameters follow and may fail.
        var later := Attempt();
        fault := fault || later;
        if !written || fault {
          id := None;
        }
      }
      if id.None? && OnItsOwn() {
        db, issued := saved, given;
      }
    }

    /** The target of a return type: a compiler type gets its reserved row, anything else must be there. */
    method SaveReturnType(callable: SymbolId, target: SymbolId, builtinName: string) returns (ok: bool, fault: bool)
      requires Valid()
      modifies this`db, this`faults
      ensures Valid() && KeepsRows(old(db), db)
      ensures ok ==> callable in db.symbols && target in db.symbols
      ensures db.symbols.Keys <= old(db.symbols).Keys + {target}
      ensures target in db.symbols && target !in old(db.symbols) ==>
        Reserved(target, first) && target.index > 0 && builtinName != "" &&
        db.symbols[target] == BuiltinUsr(target.index)
      ensures db.allocator == old(db.allocator)
      ensures !ok && OnItsOwn() ==> db == old(db)
      ensures ok <==> !fault && TakesReturnType(old(db), first, callable, target, builtinName)
      ensures ok ==>
        db == if Reserved(target, first) then Written(old(db), target, BuiltinUsr(target.index)) else old(db)
      ensures faults >= old(faults) && (fault <==> faults > old(faults))
    {
      var saved := db;
      ok, fault := true, false;
      if target.file == BUILTIN_FILE {
        if target.index >= first {
          ok := target in db.symbols;
        } else if target.index == 0 || builtinName == "" {
          ok := false;
        } else {
          ok, fault := WriteReserved(target);
        }
      }
      // The edge and the spelling follow; foreign keys need both ends.
      var later := Attempt();
      fault := fault || later;
      ok := ok && !fault && callable in db.symbols && target in db.symbols;
      if !ok && OnItsOwn() {
        db := saved;
      }
    }

    method WriteReserved(target: SymbolId) returns (ok: bool, fault: bool)
      requires Valid() && Reserved(target, first) && target.index > 0
      modifies this`db, this`faults
      ensures Valid() && KeepsRows(old(db), db) && db.allocator == old(db.allocator)
      ensures ok <==> !fault && target.index <= MAX_INDEX && Unclaimed(old(db), target, BuiltinUsr(target.index))
      ensures db == if ok then Written(old(db), target, BuiltinUsr(target.index)) else old(db)
      ensures faults >= old(faults) && (fault <==> faults > old(faults))
    {
      ok, fault := false, false;
      if target.index <= MAX_INDEX {
        if target in db.symbols {
          RewrittenKeeps(db, first, target, BuiltinUsr(target.index));
        }
        ok, fault := ReplaceSymbolRow(target, BuiltinUsr(target.index));
      }
    }

    method DeleteSymbols(dead: set<SymbolId>) returns (ok: bool)
      requires Valid()
      modifies this`db
      ensures Valid() && db == if ok then old(db).(symbols := old(db.symbols) - dead) else old(db)
    {
      ok := *;
      if ok {
        DeletedSound(db, first, dead);
        db := db.(symbols := db.symbols - dead);
      }
    }

    method Begin() returns (ok: bool, fault: bool)
      requires Valid()
      modifies this
      ensures Valid() && db == old(db) && issued == old(issued) && wedged == old(wedged)
      ensures open == if ok then Some(db) else old(open)
      ensures ok ==> old(OnItsOwn()) && issuedBefore == issued
      ensures !ok ==> issuedBefore == old(issuedBefore)
      ensures ok <==> !fault && old(OnItsOwn())
      ensures faults >= old(faults) && (fault <==> faults > old(faults))
    {
      fault := Attempt();
      ok := !fault && OnItsOwn();
      if ok {
        open, issuedBefore := Some(db), issued;
      }
    }

    method Commit() returns (ending: Ending, fault: bool)
      requires Valid()
      modifies this
      ensures Valid()
      ensures ending.Succeeded? ==> db == old(db) && issued == old(issued) && open.None? && old(open).Some? && !wedged
      ensures ending.Refused? ==>
        db == old(db) && issued == old(issued) && open == old(open) && issuedBefore == old(issuedBefore) &&
        wedged == old(wedged)
      ensures ending.UndoneInstead? ==>
        old(open).Some? && open.None? && wedged && db == old(open).value && issued == old(issuedBefore)
      ensures ending.Succeeded? <==> !fault && old(open).Some?
      ensures faults >= old(faults) && (fault <==> faults > old(faults))
    {
      fault := false;
      if open.None? {
        return Refused, false;
      }
      fault := Attempt();
      if !fault {
        open := None;
        return Succeeded, false;
      } else if * {
        return Refused, true;
      } else {
        db, issued, open, wedged := open.value, issuedBefore, None, true;
        return UndoneInstead, true;
      }
    }

    method Rollback() returns (ending: Ending, fault: bool)
      requires Valid()
      modifies this
      ensures Valid()
      ensures ending.Succeeded? || ending.UndoneInstead? ==>
        old(open).Some? && open.None? && wedged == ending.UndoneInstead? && db == old(open).value &&
        issued == old(issuedBefore)
      ensures ending.Refused? ==>
        db == old(db) && issued == old(issued) && open == old(open) && issuedBefore == old(issuedBefore) &&
        wedged == old(wedged)
      ensures ending.Succeeded? <==> !fault && old(open).Some?
      ensures faults >= old(faults) && (fault <==> faults > old(faults))
    {
      fault := false;
      if open.None? {
        return Refused, false;
      }
      fault := Attempt();
      var kept: bool := *;
      if fault && kept {
        return Refused, true;
      }
      db, issued, open := open.value, issuedBefore, None;
      if !fault {
        return Succeeded, false;
      }
      wedged := true;
      return UndoneInstead, true;
    }
  }

  // ----- whole runs -----

  datatype Command =
    | Save(usr: string, file: nat)
    | SaveType(callable: SymbolId, target: SymbolId, builtinName: string)
    | Delete(dead: set<SymbolId>)
    | BeginTransaction
    | CommitTransaction
    | RollbackTransaction

  /** What a command reports. */
  datatype Answer = Saved(id: Option<SymbolId>) | Typed(ok: bool) | Ended(ending: Ending) | Done

  /** The tables between two commands, what a rollback brings back, and the ids handed out for either. */
  datatype Moment = Moment(db: Db, open: Option<Db>, wedged: bool, issued: set<SymbolId>, issuedBefore: set<SymbolId>)

  ghost function Now(storage: Storage): Moment
    reads storage
  {
    Moment(storage.db, storage.open, storage.wedged, storage.issued, storage.issuedBefore)
  }

  /** The id is right for the USR: the one it had, or one never handed out. */
  ghost predicate RightId(first: nat, before: Moment, usr: string, file: nat, id: SymbolId, after: Moment) {
    Stored(after.db, usr, id) &&
    if exists known :: Stored(before.db, usr, known) then Stored(before.db, usr, id)
    else id.file == file && id != NO_SYMBOL && !Reserved(id, first) && id !in before.db.symbols &&
         id !in before.issued && id in after.issued
  }

  ghost predicate Grows(before: Moment, after: Moment) {
    after.open == before.open && after.wedged == before.wedged && after.issuedBefore == before.issuedBefore &&
    before.issued <= after.issued && KeepsRows(before.db, after.db)
  }

  ghost predicate Ends(before: Moment, ending: Ending, committed: bool, after: Moment) {
    match ending
    case Refused => after == before
    case Succeeded =>
      before.open.Some? && after.open.None? && !after.wedged &&
      if committed then after.db == before.db && after.issued == before.issued else IsUndo(before, after)
    case UndoneInstead => before.open.Some? && after.open.None? && after.wedged && IsUndo(before, after)
  }

  function Opened(before: Moment): Moment {
    before.(open := Some(before.db), issuedBefore := before.issued)
  }

  ghost predicate IsUndo(before: Moment, after: Moment)
    requires before.open.Some?
  {
    after.db == before.open.value && after.issued == before.issuedBefore
  }

  ghost predicate Follows(first: nat, before: Moment, command: Command, answer: Answer, after: Moment) {
    match command
    case Save(usr, file) =>
      answer.Saved? && Grows(before, after) &&
      (answer.id.Some? ==> RightId(first, before, usr, file, answer.id.value, after)) &&
      (answer.id.None? && before.open.None? && !before.wedged ==> after == before)
    case SaveType(callable, target, builtinName) =>
      answer.Typed? && Grows(before, after) && after.issued == before.issued &&
      if answer.ok then
        TakesReturnType(before.db, first, callable, target, builtinName) &&
        after.db == if Reserved(target, first) then Written(before.db, target, BuiltinUsr(target.index)) else before.db
      else before.open.None? && !before.wedged ==> after == before
    case Delete(dead) =>
      answer.Done? && (after == before || after == before.(db := before.db.(symbols := before.db.symbols - dead)))
    case BeginTransaction =>
      answer.Done? && (after == before || (before.open.None? && !before.wedged && after == Opened(before)))
    case CommitTransaction => answer.Ended? && Ends(before, answer.ending, true, after)
    case RollbackTransaction => answer.Ended? && Ends(before, answer.ending, false, after)
  }

  /** A run: sound tables throughout, and every command leads from its moment to the next. */
  ghost predicate Trace(first: nat, moments: seq<Moment>, script: seq<Command>, log: seq<Answer>) {
    && |log| == |script| && |moments| == |script| + 1
    && (forall k: nat | k < |moments| :: Sound(moments[k].db, first) && !(moments[k].wedged && moments[k].open.Some?))
    && (forall k: nat | k < |script| :: Follows(first, moments[k], script[k], log[k], moments[k + 1]))
  }

  /** The transaction open at `i` has not ended before `k`. */
  ghost predicate OpenSince(moments: seq<Moment>, log: seq<Answer>, i: nat, k: nat)
    requires i < |moments| && k <= |log|
  {
    moments[i].open.Some? && forall m: nat | i < m < k :: !(log[m].Ended? && !log[m].ending.Refused?)
  }

  /** What was done at `i` was undone before `k`: its transaction ended in a rollback. */
  ghost predicate Undone(moments: seq<Moment>, script: seq<Command>, log: seq<Answer>, i: nat, k: nat)
    requires i < |moments| && k <= |log| == |script|
  {
    exists m: nat :: i < m < k && OpenSince(moments, log, i, m) && Undoes(script[m], log[m])
  }

  predicate Undoes(command: Command, answer: Answer) {
    answer.Ended? && (answer.ending.UndoneInstead? || (answer.ending.Succeeded? && command.RollbackTransaction?))
  }

  /** A save gave the USR an id, and it did not have one before. */
  ghost predicate NewAt(moments: seq<Moment>, script: seq<Command>, log: seq<Answer>, i: nat)
    requires i < |log| == |script| < |moments|
  {
    SavedAt(script, log, i) && log[i].id.value !in moments[i].db.symbols
  }

  predicate SavedAt(script: seq<Command>, log: seq<Answer>, i: nat)
    requires i < |log| == |script|
  {
    script[i].Save? && log[i].Saved? && log[i].id.Some?
  }

  predicate NoDeletion(script: seq<Command>, i: nat, k: nat)
    requires k <= |script|
  {
    forall m: nat | i < m < k :: !script[m].Delete?
  }

  /** What a save did is still there later, and in the snapshot of any later transaction, unless it was undone. */
  lemma {:induction false} Remains(first: nat, moments: seq<Moment>, script: seq<Command>, log: seq<Answer>, i: nat,
                                   k: nat)
    requires Trace(first, moments, script, log) && i < k <= |script| && SavedAt(script, log, i)
    requires !Undone(moments, script, log, i, k)
    ensures NewAt(moments, script, log, i) ==> log[i].id.value in moments[k].issued
    ensures NewAt(moments, script, log, i) && moments[k].open.Some? && !OpenSince(moments, log, i, k) ==>
      log[i].id.value in moments[k].issuedBefore
    ensures NoDeletion(script, i, k) ==> Stored(moments[k].db, script[i].usr, log[i].id.value)
    ensures NoDeletion(script, i, k) && moments[k].open.Some? && !OpenSince(moments, log, i, k) ==>
      Stored(moments[k].open.value, script[i].usr, log[i].id.value)
  {
    hide Sound;
    var id, usr := log[i].id.value, script[i].usr;
    if k == i + 1 {
      assert Follows(first, moments[i], script[i], log[i], moments[i + 1]);
      if Stored(moments[i].db, usr, id) {
      }
    } else {
      var m := k - 1;
      StillNotUndone(moments, script, log, i, m);
      Remains(first, moments, script, log, i, m);
      assert Follows(first, moments[m], script[m], log[m], moments[m + 1]);
      assert OpenSince(moments, log, i, k) ==> OpenSince(moments, log, i, m);
      assert Undoes(script[m], log[m]) ==> !OpenSince(moments, log, i, m);
      assert NoDeletion(script, i, k) ==> NoDeletion(script, i, m) && !script[m].Delete?;
      hide OpenSince, Undone;
    }
  }

  lemma StillNotUndone(moments: seq<Moment>, script: seq<Command>, log: seq<Answer>, i: nat, m: nat)
    requires i < |moments| && i < m < |log| == |script| && !Undone(moments, script, log, i, m + 1)
    ensures !Undone(moments, script, log, i, m)
    ensures Undoes(script[m], log[m]) ==> !OpenSince(moments, log, i, m)
  {
  }

  /** New ids differ unless the earlier one was undone in between; what was deleted does not come back. */
  lemma NewIdsDiffer(first: nat, moments: seq<Moment>, script: seq<Command>, log: seq<Answer>, i: nat, j: nat)
    requires Trace(first, moments, script, log) && i < j < |script|
    requires NewAt(moments, script, log, i) && NewAt(moments, script, log, j) && !Undone(moments, script, log, i, j)
    ensures log[i].id != log[j].id
  {
    hide Sound, Undone;
    Remains(first, moments, script, log, i, j);
    assert Follows(first, moments[j], script[j], log[j], moments[j + 1]);
  }

  /** A USR that is saved twice keeps its id, unless the first save was undone or rows were deleted in between. */
  lemma SavedTwice(first: nat, moments: seq<Moment>, script: seq<Command>, log: seq<Answer>, i: nat, j: nat)
    requires Trace(first, moments, script, log) && i < j < |script|
    requires SavedAt(script, log, i) && SavedAt(script, log, j) && script[i].usr == script[j].usr
    requires NoDeletion(script, i, j) && !Undone(moments, script, log, i, j)
    ensures log[i].id == log[j].id
  {
    hide Undone;
    Remains(first, moments, script, log, i, j);
    assert Follows(first, moments[j], script[j], log[j], moments[j + 1]);
    assert Sound(moments[j].db, first);
  }

  /** Ids handed out before the run stay out of its reach. */
  lemma {:induction false} IssuedStays(first: nat, moments: seq<Moment>, script: seq<Command>, log: seq<Answer>, k: nat)
    requires Trace(first, moments, script, log) && moments[0].open.None? && k < |moments|
    ensures moments[0].issued <= moments[k].issued
    ensures moments[k].open.Some? ==> moments[0].issued <= moments[k].issuedBefore
  {
    hide Sound, KeepsRows, RightId;
    if k > 0 {
      IssuedStays(first, moments, script, log, k - 1);
      assert Follows(first, moments[k - 1], script[k - 1], log[k - 1], moments[k]);
    }
  }

  /** Once the database has undone a transaction by itself, none opens again. */
  lemma {:induction false} WedgedStays(first: nat, moments: seq<Moment>, script: seq<Command>, log: seq<Answer>, i: nat,
                                       k: nat)
    requires Trace(first, moments, script, log) && i <= k < |moments| && moments[i].wedged
    ensures moments[k].wedged && moments[k].open.None?
  {
    hide Sound, KeepsRows, RightId;
    if i < k {
      WedgedStays(first, moments, script, log, i, k - 1);
      assert Follows(first, moments[k - 1], script[k - 1], log[k - 1], moments[k]);
    }
  }

  /** What the runs promise about ids. */
  ghost predicate IdsKept(first: nat, moments: seq<Moment>, script: seq<Command>, log: seq<Answer>)
    requires |log| == |script| && |moments| == |script| + 1
  {
    && (forall i: nat | i < |script| && NewAt(moments, script, log, i) ::
          log[i].id.value !in moments[0].issued && log[i].id.value != NO_SYMBOL && !Reserved(log[i].id.value, first))
    && (forall i: nat, j: nat | i < j < |script| && NewAt(moments, script, log, i) && NewAt(moments, script, log, j) ::
          !Undone(moments, script, log, i, j) ==> log[i].id != log[j].id)
    && (forall i: nat, j: nat | i < j < |script| && SavedAt(script, log, i) && SavedAt(script, log, j) ::
          script[i].usr == script[j].usr && NoDeletion(script, i, j) && !Undone(moments, script, log, i, j) ==>
            log[i].id == log[j].id)
  }

  /** Over every run of saves, deletions and transactions: a new id is neither null nor reserved nor one handed out
      before the run; new ids differ unless the earlier one was rolled back in between, whatever was deleted; and a
      USR saved again has its id again, unless that save was rolled back or rows were deleted in between. */
  lemma TraceKeepsIds(first: nat, moments: seq<Moment>, script: seq<Command>, log: seq<Answer>)
    requires Trace(first, moments, script, log) && moments[0].open.None?
    ensures IdsKept(first, moments, script, log)
  {
    hide Sound, Undone, NoDeletion, Follows;
    forall i: nat | i < |script| && NewAt(moments, script, log, i)
      ensures log[i].id.value !in moments[0].issued && log[i].id.value != NO_SYMBOL && !Reserved(log[i].id.value, first)
    {
      IssuedStays(first, moments, script, log, i);
      NewIsUnissued(first, moments, script, log, i);
    }
    forall i: nat, j: nat | i < j < |script| && NewAt(moments, script, log, i) && NewAt(moments, script, log, j) &&
      !Undone(moments, script, log, i, j) ensures log[i].id != log[j].id
    {
      NewIdsDiffer(first, moments, script, log, i, j);
    }
    forall i: nat, j: nat | i < j < |script| && SavedAt(script, log, i) && SavedAt(script, log, j) &&
      script[i].usr == script[j].usr && NoDeletion(script, i, j) && !Undone(moments, script, log, i, j)
      ensures log[i].id == log[j].id
    {
      SavedTwice(first, moments, script, log, i, j);
    }
  }

  lemma NewIsUnissued(first: nat, moments: seq<Moment>, script: seq<Command>, log: seq<Answer>, i: nat)
    requires Trace(first, moments, script, log) && i < |script| && NewAt(moments, script, log, i)
    ensures log[i].id.value !in moments[i].issued && log[i].id.value != NO_SYMBOL && !Reserved(log[i].id.value, first)
  {
    hide Sound;
    assert Follows(first, moments[i], script[i], log[i], moments[i + 1]);
  }

  /** Every script is a run from the old state to the new one, with one answer per command; so the ids it hands out
      are kept apart. */
  method Run(storage: Storage, script: seq<Command>) returns (log: seq<Answer>, ghost moments: seq<Moment>)
    requires storage.Valid() && storage.open.None?
    modifies storage
    ensures storage.Valid() && Trace(storage.first, moments, script, log)
    ensures moments[0] == old(Now(storage)) && moments[|script|] == Now(storage)
    ensures IdsKept(storage.first, moments, script, log)
    ensures forall i: nat | i < |script| && NewAt(moments, script, log, i) ::
      !Undone(moments, script, log, i, |script|) ==> log[i].id.value in storage.issued
  {
    hide Sound, AllIssued, Follows, IdsKept, Undone;
    log, moments := [], [Now(storage)];
    for i := 0 to |script|
      invariant storage.Valid() && |log| == i && |moments| == i + 1
      invariant moments[0] == old(Now(storage)) && moments[i] == Now(storage)
      invariant forall k: nat | k < |moments| ::
        Sound(moments[k].db, storage.first) && !(moments[k].wedged && moments[k].open.Some?)
      invariant forall k: nat | k < i :: Follows(storage.first, moments[k], script[k], log[k], moments[k + 1])
    {
      var answer := Perform(storage, script[i]);
      log, moments := log + [answer], moments + [Now(storage)];
    }
    TraceKeepsIds(storage.first, moments, script, log);
    forall i: nat | i < |script| && NewAt(moments, script, log, i) && !Undone(moments, script, log, i, |script|)
      ensures log[i].id.value in storage.issued
    {
      Remains(storage.first, moments, script, log, i, |script|);
    }
  }

  method Perform(storage: Storage, command: Command) returns (answer: Answer)
    requires storage.Valid()
    modifies storage
    ensures storage.Valid() && Follows(storage.first, old(Now(storage)), command, answer, Now(storage))
    ensures Sound(storage.db, storage.first)
  {
    hide Sound, AllIssued;
    match command
    case Save(usr, file) =>
      var id, _ := storage.SaveSymbol(usr, file);
      return Saved(id);
    case SaveType(callable, target, builtinName) =>
      var ok, _ := storage.SaveReturnType(callable, target, builtinName);
      return Typed(ok);
    case Delete(dead) =>
      var _ := storage.DeleteSymbols(dead);
      return Done;
    case BeginTransaction =>
      var _, _ := storage.Begin();
      return Done;
    case CommitTransaction =>
      var ending, _ := storage.Commit();
      return Ended(ending);
    case RollbackTransaction =>
      var ending, _ := storage.Rollback();
      return Ended(ending);
  }
}
