/** The fact store and its cache of ids by USR (src/storage/FactStore.cpp, src/storage/FactStore.h). */
module FactStoreCache {
  import opened Text
  import opened PointerBatch
  import opened SymbolIds

  type Cache = map<string, SymbolId>

  /** Every cached USR is stored under the cached id. */
  ghost predicate CacheAgrees(cache: Cache, db: Db) {
    forall usr <- cache :: Stored(db, usr, cache[usr])
  }

  /** What the store answers: the cache first, the database otherwise. */
  ghost predicate Answers(cache: Cache, db: Db, usr: string, id: SymbolId) {
    if usr in cache then cache[usr] == id else Stored(db, usr, id)
  }

  /** The answer for the USR is the one the database alone would give. */
  ghost predicate Right(cache: Cache, db: Db, usr: string) {
    forall id :: Answers(cache, db, usr, id) <==> Stored(db, usr, id)
  }

  /** With USRs stored once, that depends on the cached entry alone. */
  lemma RightMeans(cache: Cache, db: Db, first: nat, usr: string)
    requires Sound(db, first)
    ensures Right(cache, db, usr) <==> (usr in cache ==> Stored(db, usr, cache[usr]))
  {
    if Right(cache, db, usr) && usr in cache {
      assert Answers(cache, db, usr, cache[usr]);
    }
  }

  lemma MoreRows(cache: Cache, before: Db, after: Db)
    requires CacheAgrees(cache, before) && KeepsRows(before, after)
    ensures CacheAgrees(cache, after)
  {
    forall usr <- cache ensures Stored(after, usr, cache[usr]) {
      assert Stored(before, usr, cache[usr]);
    }
  }

  function Remembered(cache: Cache, usr: string, id: SymbolId): Cache {
    if usr == "" then cache else cache[usr := id]
  }

  /** The id of a lookup is what the rows say. */
  ghost predicate SaysRow(db: Db, usr: string, id: Option<SymbolId>) {
    forall other :: id == Some(other) <==> Stored(db, usr, other)
  }

  class FactStore {
    const storage: Storage
    var idsByUsr: Cache

    /** The cache agrees with the rows as long as the database undid no transaction by itself. */
    ghost predicate Valid()
      reads this, storage
    {
      storage.Valid() && (!storage.wedged ==> CacheAgrees(idsByUsr, storage.db))
    }

    constructor (storage: Storage)
      requires storage.Valid()
      ensures Valid() && this.storage == storage && idsByUsr == map[]
    {
      this.storage, idsByUsr := storage, map[];
    }

    method Begin() returns (ok: bool, fault: bool)
      requires Valid()
      modifies storage
      ensures Valid() && idsByUsr == old(idsByUsr)
      ensures ok <==> !fault && old(storage.open).None? && !old(storage.wedged)
      ensures Now() == if ok then old(Now()).(open := Some(old(storage.db))) else old(Now())
      ensures storage.faults >= old(storage.faults) && (fault <==> storage.faults > old(storage.faults))
    {
      ok, fault := storage.Begin();
    }

    ghost function Now(): State
      reads this, storage
    {
      State(storage.db, storage.open, storage.wedged, idsByUsr)
    }

    /** A commit that fails because the database has undone the transaction clears nothing. */
    method End() returns (ok: bool, fault: bool)
      requires Valid()
      modifies this, storage
      ensures Valid()
      ensures ok <==> !fault && old(storage.open).Some?
      ensures ok ==> Now() == old(Now()).(open := None)
      ensures !ok ==> Now() == old(Now()) || Loses(old(Now()), Now())
      ensures storage.faults >= old(storage.faults) && (fault <==> storage.faults > old(storage.faults))
    {
      var ending;
      ending, fault := storage.Commit();
      ok := ending.Succeeded?;
    }

    /** A rollback that succeeds forgets everything that was cached. */
    method Rollback() returns (ok: bool, fault: bool)
      requires Valid()
      modifies this, storage
      ensures Valid()
      ensures ok <==> !fault && old(storage.open).Some?
      ensures ok ==> Now() == State(old(storage.open).value, None, false, map[])
      ensures !ok ==> Now() == old(Now()) || Loses(old(Now()), Now())
      ensures storage.faults >= old(storage.faults) && (fault <==> storage.faults > old(storage.faults))
    {
      var ending;
      ending, fault := storage.Rollback();
      ok := ending.Succeeded?;
      if ok {
        idsByUsr := map[];
      }
    }

    method Remember(usr: string, id: SymbolId)
      requires Valid() && (!storage.wedged ==> Stored(storage.db, usr, id))
      modifies this`idsByUsr
      ensures Valid() && idsByUsr == Remembered(old(idsByUsr), usr, id)
    {
      if usr != "" {
        idsByUsr := idsByUsr[usr := id];
      }
    }

    method Save(usr: string, file: nat) returns (id: Option<SymbolId>, fault: bool)
      requires Valid()
      modifies this, storage
      ensures Valid() && storage.open == old(storage.open) && storage.wedged == old(storage.wedged)
      ensures KeepsRows(old(storage.db), storage.db) && OnlyAdds(old(storage.db), storage.db, usr)
      ensures id.Some? ==> usr != "" && Stored(storage.db, usr, id.value) && idsByUsr == old(idsByUsr)[usr := id.value]
      ensures id.None? ==> idsByUsr == old(idsByUsr)
      ensures !fault ==> (id.Some? <==> MayBeSaved(old(storage.db), storage.first, usr, file))
      ensures storage.faults >= old(storage.faults) && (fault <==> storage.faults > old(storage.faults))
    {
      id, fault := storage.SaveSymbol(usr, file);
      if !storage.wedged {
        MoreRows(idsByUsr, old(storage.db), storage.db);
      }
      if id.Some? {
        Remember(usr, id.value);
      }
    }

    method SaveReturnType(callable: SymbolId, target: SymbolId, builtinName: string) returns (ok: bool, fault: bool)
      requires Valid()
      modifies storage
      ensures Valid() && idsByUsr == old(idsByUsr)
      ensures storage.open == old(storage.open) && storage.wedged == old(storage.wedged)
      ensures KeepsRows(old(storage.db), storage.db)
      ensures OnlyAdds(old(storage.db), storage.db, BuiltinUsr(target.index))
      ensures ok <==> !fault && TakesReturnType(old(storage.db), storage.first, callable, target, builtinName)
      ensures storage.faults >= old(storage.faults) && (fault <==> storage.faults > old(storage.faults))
    {
      ok, fault := storage.SaveReturnType(callable, target, builtinName);
      if !storage.wedged {
        MoreRows(idsByUsr, old(storage.db), storage.db);
      }
    }

    /** Loading a row by id caches its USR. */
    method Load(id: SymbolId) returns (usr: Option<string>, fault: bool)
      requires Valid()
      modifies this`idsByUsr, storage`faults
      ensures Valid()
      ensures usr.Some? ==> Stored(storage.db, usr.value, id) && idsByUsr == Remembered(old(idsByUsr), usr.value, id)
      ensures usr.None? ==> idsByUsr == old(idsByUsr)
      ensures usr.Some? <==> !fault && id in storage.db.symbols
      ensures storage.faults >= old(storage.faults) && (fault <==> storage.faults > old(storage.faults))
    {
      usr := None;
      fault := storage.Attempt();
      if !fault && id in storage.db.symbols {
        usr := Some(storage.db.symbols[id]);
        Remember(usr.value, id);
      }
    }

    /** A cached USR is answered from the cache, any other from the rows, and what is found is cached. Unless the
        database undid a transaction by itself, the answer is what the rows say. */
    method FindId(usr: string) returns (ok: bool, id: Option<SymbolId>, fault: bool)
      requires Valid()
      modifies this`idsByUsr, storage`faults
      ensures Valid()
      ensures ok <==> usr != "" && !fault
      ensures fault ==> usr !in old(idsByUsr)
      ensures usr != "" && usr in old(idsByUsr) ==> ok && id == Some(old(idsByUsr)[usr])
      ensures ok && usr !in old(idsByUsr) ==> SaysRow(storage.db, usr, id)
      ensures ok && !storage.wedged ==> SaysRow(storage.db, usr, id)
      ensures idsByUsr == if ok && id.Some? then Remembered(old(idsByUsr), usr, id.value) else old(idsByUsr)
      ensures storage.faults >= old(storage.faults) && (fault <==> storage.faults > old(storage.faults))
    {
      id := None;
      if usr == "" {
        return false, None, false;
      }
      if usr in idsByUsr {
        return true, Some(idsByUsr[usr]), false;
      }
      fault := storage.Attempt();
      if fault {
        return false, None, true;
      }
      id := storage.FindId(usr);
      if id.Some? {
        Remember(usr, id.value);
      }
      return true, id, false;
    }
  }

  // ----- whole runs -----

  datatype Command =
    | BeginRun
    | EndRun
    | RollbackRun
    | SaveUsr(usr: string, file: nat)
    | SaveTarget(callable: SymbolId, target: SymbolId, builtinName: string)
    | Load(id: SymbolId)
    | Find(usr: string)

  datatype Answer = Did(ok: bool) | GaveId(id: Option<SymbolId>) | Loaded(usr: Option<string>)
    | Found(ok: bool, id: Option<SymbolId>)

  /** The rows, what a rollback brings back, whether the database undid a transaction by itself, and the cache. */
  datatype State = State(db: Db, open: Option<Db>, wedged: bool, cache: Cache)

  /** The transaction is undone, and nothing clears the cache. */
  ghost predicate Loses(before: State, after: State) {
    before.open.Some? && after == State(before.open.value, None, true, before.cache)
  }

  ghost predicate Adds(before: State, after: State, usr: string) {
    after.open == before.open && after.wedged == before.wedged && KeepsRows(before.db, after.db) &&
    OnlyAdds(before.db, after.db, usr)
  }

  ghost predicate Follows(before: State, command: Command, answer: Answer, after: State) {
    match command
    case BeginRun =>
      answer.Did? && (answer.ok ==> before.open.None? && !before.wedged) &&
      after == if answer.ok then before.(open := Some(before.db)) else before
    case EndRun =>
      answer.Did? &&
      if answer.ok then before.open.Some? && after == before.(open := None)
      else after == before || Loses(before, after)
    case RollbackRun =>
      answer.Did? &&
      if answer.ok then before.open.Some? && after == State(before.open.value, None, false, map[])
      else after == before || Loses(before, after)
    case SaveUsr(usr, _) =>
      answer.GaveId? && Adds(before, after, usr) &&
      if answer.id.Some? then
        usr != "" && Stored(after.db, usr, answer.id.value) && after.cache == before.cache[usr := answer.id.value]
      else after.cache == before.cache
    case SaveTarget(_, target, _) =>
      answer.Did? && Adds(before, after, BuiltinUsr(target.index)) && after.cache == before.cache
    case Load(id) =>
      answer.Loaded? && after == before.(cache := after.cache) &&
      if answer.usr.Some? then
        Stored(before.db, answer.usr.value, id) && after.cache == Remembered(before.cache, answer.usr.value, id)
      else after.cache == before.cache
    case Find(usr) =>
      answer.Found? && after == before.(cache := after.cache) && (usr == "" ==> !answer.ok) &&
      (usr != "" && usr in before.cache ==> answer == Found(true, Some(before.cache[usr]))) &&
      (answer.ok && usr !in before.cache ==> SaysRow(before.db, usr, answer.id)) &&
      after.cache ==
        if answer.ok && answer.id.Some? then Remembered(before.cache, usr, answer.id.value) else before.cache
  }

  /** What holds between commands. */
  ghost predicate SoundState(first: nat, s: State) {
    Sound(s.db, first) && (s.open.Some? ==> !s.wedged) && (!s.wedged ==> CacheAgrees(s.cache, s.db))
  }

  ghost predicate Trace(first: nat, states: seq<State>, script: seq<Command>, log: seq<Answer>) {
    && |log| == |script| && |states| == |script| + 1
    && (forall k: nat | k < |states| :: SoundState(first, states[k]))
    && (forall k: nat | k < |script| :: Follows(states[k], script[k], log[k], states[k + 1]))
  }

  /** The transaction begun at `begin` stays open until the database undoes it by itself at `lost`. */
  predicate LostRun(states: seq<State>, begin: nat, lost: nat) {
    begin < lost && lost + 1 < |states| && states[begin].open.None? && states[lost + 1].wedged &&
    forall m | begin < m <= lost :: states[m].open.Some?
  }

  /** The store gave an id for the USR in answer to a command between the two. */
  predicate Given(script: seq<Command>, log: seq<Answer>, begin: nat, lost: nat, usr: string)
    requires lost <= |log| == |script|
  {
    exists m: nat | begin < m < lost :: Gives(script[m], log[m], usr)
  }

  predicate Gives(command: Command, answer: Answer, usr: string) {
    usr != "" &&
    match command
    case SaveUsr(saved, _) => saved == usr && answer.GaveId? && answer.id.Some?
    case Load(_) => answer == Loaded(Some(usr))
    case Find(asked) => asked == usr && answer.Found? && answer.ok && answer.id.Some?
    case _ => false
  }

  ghost predicate StoredUsr(db: Db, usr: string) {
    exists id :: Stored(db, usr, id)
  }

  /** While the transaction is open the cache holds what it held and what was given since, and no row goes. */
  lemma {:induction false} WhileOpen(first: nat, states: seq<State>, script: seq<Command>, log: seq<Answer>, begin: nat,
                                     lost: nat, k: nat, usr: string)
    requires Trace(first, states, script, log) && LostRun(states, begin, lost) && begin < k <= lost
    ensures states[k].open == Some(states[begin].db) && KeepsRows(states[begin].db, states[k].db)
    ensures usr in states[k].cache <==> usr in states[begin].cache || Given(script, log, begin, k, usr)
  {
    hide SoundState, CacheAgrees, SaysRow;
    if k == begin + 1 {
      assert Follows(states[begin], script[begin], log[begin], states[k]);
    } else {
      WhileOpen(first, states, script, log, begin, lost, k - 1, usr);
      assert Follows(states[k - 1], script[k - 1], log[k - 1], states[k]);
      assert states[k].open.Some? && states[k - 1].open.Some?;
      GivenStep(script, log, begin, k - 1, usr);
      CacheStep(states[k - 1], script[k - 1], log[k - 1], states[k], usr);
      hide Given, Gives, LostRun;
    }
  }

  lemma GivenStep(script: seq<Command>, log: seq<Answer>, begin: nat, k: nat, usr: string)
    requires begin < k < |log| == |script|
    ensures Given(script, log, begin, k + 1, usr) <==>
      Given(script, log, begin, k, usr) || Gives(script[k], log[k], usr)
  {
  }

  lemma CacheStep(before: State, command: Command, answer: Answer, after: State, usr: string)
    requires Follows(before, command, answer, after) && before.open.Some? && after.open.Some?
    ensures usr in after.cache <==> usr in before.cache || Gives(command, answer, usr)
    ensures after.open == before.open && KeepsRows(before.db, after.db)
  {
  }

  /** Right after the database has undone the transaction, a USR is answered rightly exactly if it was stored when the
      transaction began, or the store gave no id for it since. */
  lemma RightAfterLoss(first: nat, states: seq<State>, script: seq<Command>, log: seq<Answer>, begin: nat, lost: nat,
                       usr: string)
    requires Trace(first, states, script, log) && LostRun(states, begin, lost)
    ensures Right(states[lost + 1].cache, states[lost + 1].db, usr) <==>
      StoredUsr(states[begin].db, usr) || !Given(script, log, begin, lost, usr)
  {
    hide Given, Right, Sound, CacheAgrees, KeepsRows, StoredUsr, SaysRow, Adds, Stored;
    WhileOpen(first, states, script, log, begin, lost, lost, usr);
    assert Follows(states[lost], script[lost], log[lost], states[lost + 1]);
    assert SoundState(first, states[lost]) && SoundState(first, states[begin]) && SoundState(first, states[lost + 1]);
    LossStep(states[lost], script[lost], log[lost], states[lost + 1]);
    assert states[lost].open.Some?;
    BeganUnwedged(first, states, script, log, begin);
    hide Follows, Trace;
    AtLoss(first, states[begin], states[lost], usr, Given(script, log, begin, lost, usr));
  }

  lemma BeganUnwedged(first: nat, states: seq<State>, script: seq<Command>, log: seq<Answer>, begin: nat)
    requires Trace(first, states, script, log) && begin < |script|
    requires states[begin].open.None? && states[begin + 1].open.Some?
    ensures !states[begin].wedged
  {
    hide SoundState;
    assert Follows(states[begin], script[begin], log[begin], states[begin + 1]);
  }

  /** Only a commit or a rollback that goes wrong leaves the store without its transaction for good. */
  lemma LossStep(before: State, command: Command, answer: Answer, after: State)
    requires Follows(before, command, answer, after) && after.wedged && !before.wedged
    ensures Loses(before, after) && (command.EndRun? || command.RollbackRun?)
  {
  }

  lemma AtLoss(first: nat, began: State, ended: State, usr: string, given: bool)
    requires SoundState(first, began) && SoundState(first, ended) && !began.wedged && !ended.wedged
    requires KeepsRows(began.db, ended.db) && (usr in ended.cache <==> usr in began.cache || given)
    ensures Right(ended.cache, began.db, usr) <==> StoredUsr(began.db, usr) || !given
  {
    RightMeans(ended.cache, began.db, first, usr);
    hide Right;
    if usr in began.cache {
      assert Stored(began.db, usr, began.cache[usr]);
    }
    if usr in ended.cache {
      assert Stored(ended.db, usr, ended.cache[usr]);
      if id :| Stored(began.db, usr, id) {
        assert Stored(ended.db, usr, id);
      }
    }
  }

  /** The command may store a row under the USR. */
  predicate Touches(command: Command, usr: string) {
    match command
    case SaveUsr(saved, _) => saved == usr
    case SaveTarget(_, target, _) => BuiltinUsr(target.index) == usr
    case _ => false
  }

  predicate Untouched(script: seq<Command>, from: nat, k: nat, usr: string)
    requires k <= |script|
  {
    forall m: nat | from <= m < k :: !Touches(script[m], usr)
  }

  lemma WedgedStep(before: State, command: Command, answer: Answer, after: State, first: nat, usr: string)
    requires Follows(before, command, answer, after) && SoundState(first, before) && SoundState(first, after)
    requires before.wedged
    ensures after.wedged && KeepsRows(before.db, after.db)
    ensures Right(before.cache, before.db, usr) ==> Right(after.cache, after.db, usr)
    ensures usr in before.cache && !StoredUsr(before.db, usr) && !Touches(command, usr) ==>
      usr in after.cache && !StoredUsr(after.db, usr)
    ensures command.SaveUsr? && Gives(command, answer, usr) ==> Right(after.cache, after.db, usr)
  {
    RightMeans(before.cache, before.db, first, usr);
    RightMeans(after.cache, after.db, first, usr);
    if !StoredUsr(before.db, usr) && !Touches(command, usr) {
      match command
      case SaveUsr(saved, _) => NoRowAppears(before.db, after.db, saved, usr);
      case SaveTarget(_, target, _) => NoRowAppears(before.db, after.db, BuiltinUsr(target.index), usr);
      case Load(id) => assert forall other :: !Stored(before.db, usr, other);
      case _ =>
    }
    hide Right, Sound, CacheAgrees;
  }

  lemma NoRowAppears(before: Db, after: Db, added: string, usr: string)
    requires OnlyAdds(before, after, added) && KeepsRows(before, after) && added != usr && !StoredUsr(before, usr)
    ensures !StoredUsr(after, usr)
  {
    forall id ensures !Stored(after, usr, id) {
      assert !Stored(before, usr, id);
    }
  }

  /** Without its transaction the store never gets another. What it answers rightly it goes on answering rightly, and
      a USR that is neither stored at the loss nor touched after it stays wrong. */
  lemma {:induction false} AfterLoss(first: nat, states: seq<State>, script: seq<Command>, log: seq<Answer>, from: nat,
                                     k: nat, usr: string)
    requires Trace(first, states, script, log) && from <= k <= |script| && states[from].wedged
    ensures states[k].wedged && KeepsRows(states[from].db, states[k].db)
    ensures Right(states[from].cache, states[from].db, usr) ==> Right(states[k].cache, states[k].db, usr)
    ensures usr in states[from].cache && !StoredUsr(states[from].db, usr) && Untouched(script, from, k, usr) ==>
      usr in states[k].cache && !StoredUsr(states[k].db, usr)
  {
    hide Right, SoundState, StoredUsr, Follows;
    if from < k {
      var m := k - 1;
      AfterLoss(first, states, script, log, from, m, usr);
      assert Follows(states[m], script[m], log[m], states[k]);
      assert SoundState(first, states[m]) && SoundState(first, states[k]);
      WedgedStep(states[m], script[m], log[m], states[k], first, usr);
    }
  }

  /** The theorem. The database undid the transaction begun at `begin` by itself at `lost`. At any later moment, as long
      as no command has stored the USR again, a lookup of it is answered rightly exactly if it was stored at `begin` or
      the store gave no id for it in between. */
  lemma AfterLostCommit(first: nat, states: seq<State>, script: seq<Command>, log: seq<Answer>, begin: nat, lost: nat,
                        k: nat, usr: string)
    requires Trace(first, states, script, log) && LostRun(states, begin, lost) && lost < k < |script|
    requires Untouched(script, lost + 1, k, usr)
    requires script[k] == Find(usr) && log[k].Found? && log[k].ok
    ensures SaysRow(states[k].db, usr, log[k].id) <==>
      StoredUsr(states[begin].db, usr) || !Given(script, log, begin, lost, usr)
  {
    hide Given, Untouched;
    RightAfterLoss(first, states, script, log, begin, lost, usr);
    WrongAtLoss(first, states, script, log, begin, lost, usr);
    AfterLoss(first, states, script, log, lost + 1, k, usr);
    FindAnswers(first, states, script, log, k);
    assert SoundState(first, states[k]) && SoundState(first, states[lost + 1]);
    RightMeans(states[k].cache, states[k].db, first, usr);
    hide Right, Trace, SaysRow, SoundState;
  }

  lemma WrongAtLoss(first: nat, states: seq<State>, script: seq<Command>, log: seq<Answer>, begin: nat, lost: nat,
                    usr: string)
    requires Trace(first, states, script, log) && LostRun(states, begin, lost)
    ensures states[lost + 1].db == states[begin].db && states[lost + 1].wedged
    ensures Given(script, log, begin, lost, usr) ==> usr in states[lost + 1].cache
  {
    hide Given, Sound, CacheAgrees, KeepsRows, StoredUsr, SaysRow, Adds, Stored;
    WhileOpen(first, states, script, log, begin, lost, lost, usr);
    assert Follows(states[lost], script[lost], log[lost], states[lost + 1]);
    assert SoundState(first, states[lost]) && states[lost].open.Some?;
    LossStep(states[lost], script[lost], log[lost], states[lost + 1]);
  }

  /** A lookup that is answered says what the rows say exactly if the answer is right. */
  lemma FindAnswers(first: nat, states: seq<State>, script: seq<Command>, log: seq<Answer>, k: nat)
    requires Trace(first, states, script, log) && k < |script|
    requires script[k].Find? && log[k].Found? && log[k].ok
    ensures SaysRow(states[k].db, script[k].usr, log[k].id) <==> Right(states[k].cache, states[k].db, script[k].usr)
  {
    assert Follows(states[k], script[k], log[k], states[k + 1]);
    assert SoundState(first, states[k]);
    RightMeans(states[k].cache, states[k].db, first, script[k].usr);
    hide Right;
  }

  /** Saving the USR again after the loss puts its answers right for good. */
  lemma SavedAfterLoss(first: nat, states: seq<State>, script: seq<Command>, log: seq<Answer>, m: nat, k: nat)
    requires Trace(first, states, script, log) && m < k < |script| && states[m].wedged
    requires script[m].SaveUsr? && Gives(script[m], log[m], script[m].usr)
    requires script[k] == Find(script[m].usr) && log[k].Found? && log[k].ok
    ensures SaysRow(states[k].db, script[m].usr, log[k].id)
  {
    hide Right, SaysRow, StoredUsr, Gives;
    assert Follows(states[m], script[m], log[m], states[m + 1]);
    assert SoundState(first, states[m]) && SoundState(first, states[m + 1]);
    hide Follows, SoundState;
    WedgedStep(states[m], script[m], log[m], states[m + 1], first, script[m].usr);
    AfterLoss(first, states, script, log, m + 1, k, script[m].usr);
    FindAnswers(first, states, script, log, k);
  }

  ghost predicate AllRight(s: State) {
    forall usr :: Right(s.cache, s.db, usr)
  }

  /** All answers right after the loss are right exactly if every USR given since the transaction began was stored
      then. */
  lemma AllRightAfterLoss(first: nat, states: seq<State>, script: seq<Command>, log: seq<Answer>, begin: nat, lost: nat)
    requires Trace(first, states, script, log) && LostRun(states, begin, lost)
    ensures AllRight(states[lost + 1]) <==>
      forall usr | Given(script, log, begin, lost, usr) :: StoredUsr(states[begin].db, usr)
  {
    hide Given, Right, StoredUsr, SoundState, Follows;
    var after := states[lost + 1];
    forall usr ensures Right(after.cache, after.db, usr) <==>
      StoredUsr(states[begin].db, usr) || !Given(script, log, begin, lost, usr)
    {
      RightAfterLoss(first, states, script, log, begin, lost, usr);
    }
    if AllRight(after) {
      forall usr | Given(script, log, begin, lost, usr) ensures StoredUsr(states[begin].db, usr) {
        assert Right(after.cache, after.db, usr);
      }
    }
  }

  // ----- such a run -----

  /** A USR is saved in a transaction that the database then undoes. */
  function SavedAndLost(usr: string, file: nat): seq<Command> {
    [BeginRun, SaveUsr(usr, file), EndRun, Find(usr)]
  }

  /** The store can go on answering with an id that no row has. */
  lemma LostCommitAnswersWrongly(usr: string, file: nat)
    requires usr != "" && file != BUILTIN_FILE
    ensures exists states: seq<State>, log: seq<Answer> ::
      Trace(2, states, SavedAndLost(usr, file), log) && LostRun(states, 0, 2) && states[0].cache == map[] &&
      log[3] == Found(true, Some(SymbolId(file, 0))) && !SaysRow(states[3].db, usr, log[3].id)
  {
    var id, empty := SymbolId(file, 0), Db(map[], map[]);
    var saved := Db(map[id := usr], map[file := 1]);
    var s0 := State(empty, None, false, map[]);
    var s1, s2 := s0.(open := Some(empty)), State(saved, Some(empty), false, map[usr := id]);
    var s3 := State(empty, None, true, map[usr := id]);
    var states, log := [s0, s1, s2, s3, s3], [Did(true), GaveId(Some(id)), Did(false), Found(true, Some(id))];
    assert SoundState(2, s0) && SoundState(2, s1) && SoundState(2, s2) && SoundState(2, s3) by {
      assert Allocated(saved.allocator, 2, id) && SoundRow(saved, 2, id, usr);
    }
    assert Loses(s2, s3);
    assert Follows(s0, BeginRun, log[0], s1) && Follows(s1, SaveUsr(usr, file), log[1], s2);
    assert Follows(s2, EndRun, log[2], s3) && Follows(s3, Find(usr), log[3], s3) by {
      assert s3.cache[usr := id] == s3.cache;
    }
    hide SoundState, Follows;
    assert Trace(2, states, SavedAndLost(usr, file), log);
    assert !Stored(empty, usr, id);
  }

  /** Every script is such a run from the old state to the new one, with one answer per command. */
  method Run(store: FactStore, script: seq<Command>) returns (log: seq<Answer>, ghost states: seq<State>)
    requires store.Valid()
    modifies store, store.storage
    ensures store.Valid() && Trace(store.storage.first, states, script, log)
    ensures states[0] == old(store.Now()) && states[|script|] == store.Now()
  {
    hide Follows, SoundState;
    log, states := [], [store.Now()];
    StateIsSound(store);
    for i := 0 to |script|
      invariant store.Valid() && |log| == i && |states| == i + 1
      invariant states[0] == old(store.Now()) && states[i] == store.Now()
      invariant forall k: nat | k < |states| :: SoundState(store.storage.first, states[k])
      invariant forall k: nat | k < i :: Follows(states[k], script[k], log[k], states[k + 1])
    {
      var answer := Perform(store, script[i]);
      StateIsSound(store);
      log, states := log + [answer], states + [store.Now()];
    }
  }

  lemma StateIsSound(store: FactStore)
    requires store.Valid()
    ensures SoundState(store.storage.first, store.Now())
  {
  }

  method Perform(store: FactStore, command: Command) returns (answer: Answer)
    requires store.Valid()
    modifies store, store.storage
    ensures store.Valid() && Follows(old(store.Now()), command, answer, store.Now())
  {
    hide Sound, AllIssued, CacheAgrees, KeepsRows, OnlyAdds, SaysRow;
    var ok, fault;
    match command
    case BeginRun =>
      ok, fault := store.Begin();
      return Did(ok);
    case EndRun =>
      ok, fault := store.End();
      return Did(ok);
    case RollbackRun =>
      ok, fault := store.Rollback();
      return Did(ok);
    case SaveUsr(usr, file) =>
      var id, _ := store.Save(usr, file);
      return GaveId(id);
    case SaveTarget(callable, target, builtinName) =>
      ok, fault := store.SaveReturnType(callable, target, builtinName);
      return Did(ok);
    case Load(id) =>
      var usr, _ := store.Load(id);
      return Loaded(usr);
    case Find(usr) =>
      var id;
      ok, id, fault := store.FindId(usr);
      return Found(ok, id);
  }
}
