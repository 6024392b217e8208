/** Whole runs of the operations that keep relations, their sites and the pointer calls in step, with the storage's
    own transaction around them (src/storage/Storage.cpp). On its own an operation happens completely or not at
    all; inside a transaction one that fails leaves what it did before the fault, and so it does for good once the
    database has undone a transaction by itself. */
module FactRuns {
  import opened Text
  import opened PointerBatch
  import opened FactTables
  import opened FactOperations
  import opened FactFailures
  import opened FactRows
  import opened CloneRefresh
  import opened RefreshFailures

  datatype Operation =
    | AddRelationFacts(relations: seq<Relation>, sites: seq<RelationSite>)
    | AddUseFacts(relations: seq<Relation>, sites: seq<RelationSite>)
    | AddPointerCallSites(observations: seq<PointerCallSite>)
    | ClearPointerCallSites(callers: seq<SymbolId>)
    | DeleteSymbols(dead: set<SymbolId>)
    | RefreshCloneFiles(rows: seq<FactProvenance>, selected: set<nat>)

  /** What a run is made of: the storage's transaction, also ended by the database itself, operations that succeed,
      and operations that stop on the way for whatever reason. */
  datatype Command =
    | Begin
    | Commit
    | Rollback
    | Lose
    | Do(operation: Operation)
    | StopFacts(relations: seq<Relation>, sites: seq<RelationSite>, facts: FactsProgress)
    | StopPointers(observations: seq<PointerCallSite>, pointers: PointersProgress)
    | StopClear(callers: seq<SymbolId>, clear: ClearProgress)
    | StopRefresh(rows: seq<FactProvenance>, selected: set<nat>, refresh: RefreshProgress)

  /** The tables, those to go back to while the storage's transaction is open, and whether the database has undone
      that transaction by itself: then the storage holds on to it, begins no other, and its operations run without
      one. */
  datatype Session = Session(db: Tables, open: Option<Tables>, wedged: bool)

  /** Between runs. */
  function Start(t: Tables): Session {
    Session(t, None, false)
  }

  /** Whether validation and foreign keys let the operation through. */
  predicate Accepts(t: Tables, operation: Operation) {
    match operation
    case AddRelationFacts(relations, sites) => AcceptsRelationFacts(t, relations, sites)
    case AddUseFacts(relations, sites) => AcceptsUseFacts(t, relations, sites)
    case AddPointerCallSites(observations) => AcceptsPointers(t, observations)
    case ClearPointerCallSites(_) => true
    case DeleteSymbols(dead) => !DeletesReceivers(t, dead)
    case RefreshCloneFiles(rows, selected) => AcceptsRefresh(t, rows, selected)
  }

  function Result(t: Tables, operation: Operation): Tables {
    match operation
    case AddRelationFacts(relations, sites) => RelationFacts(t, relations, sites)
    case AddUseFacts(relations, sites) => RelationFacts(t, relations, sites)
    case AddPointerCallSites(observations) => if observations == [] then t else PointerFacts(t, observations)
    case ClearPointerCallSites(callers) => ClearedPointers(t, Members(callers))
    case DeleteSymbols(dead) => DropSymbols(t, dead)
    case RefreshCloneFiles(rows, selected) => RefreshedTables(t, NewPaths(t, rows, selected))
  }

  /** The operation can stop there. */
  predicate CanStop(t: Tables, command: Command) {
    match command
    case StopFacts(relations, sites, p) => FactsMayStop(t, relations, sites, p)
    case StopPointers(observations, p) => PointersMayStop(t, observations, p)
    case StopClear(callers, p) => ClearReach(callers, p)
    case StopRefresh(rows, selected, p) =>
      AcceptsRefresh(t, rows, selected) && RefreshReach(Changed(t, rows, selected), p)
    case _ => false
  }

  function StoppedAt(t: Tables, command: Command): Tables
    requires CanStop(t, command)
  {
    match command
    case StopFacts(relations, sites, p) => PartialFacts(t, relations, sites, p)
    case StopPointers(observations, p) => PartialPointers(t, Latest(observations), p)
    case StopClear(callers, p) => PartialClear(t, callers, p)
    case StopRefresh(rows, selected, p) => PartialRefresh(t, Changed(t, rows, selected), p)
  }

  /** The operation is allowed where it is called: a refresh wants a transaction. */
  predicate Takes(s: Session, operation: Operation) {
    Accepts(s.db, operation) && (operation.RefreshCloneFiles? ==> s.open.Some?)
  }

  /** A stop leaves something behind: nothing undoes what the operation did before it. */
  predicate Leaves(s: Session, command: Command) {
    CanStop(s.db, command) && (s.open.Some? || (s.wedged && !command.StopRefresh?))
  }

  function Step(s: Session, command: Command): Session {
    match command
    case Begin => if s.open.Some? || s.wedged then s else s.(open := Some(s.db))
    case Commit => s.(open := None)
    case Rollback => if s.open.Some? then s.(db := s.open.value, open := None) else s
    case Lose => if s.open.Some? then Session(s.open.value, None, true) else s
    case Do(operation) => if Takes(s, operation) then s.(db := Result(s.db, operation)) else s
    case _ => if Leaves(s, command) then s.(db := StoppedAt(s.db, command)) else s
  }

  function After(s: Session, run: seq<Command>): Session {
    if run == [] then s else Step(After(s, run[..|run| - 1]), run[|run| - 1])
  }

  // ----- what may be lost on the way -----

  /** The count of one relation, the agreement of pointer-call rows and sites, or the contexts of sites. */
  datatype Concern = CountOf(relation: RelationKey) | Pointers | Contexts

  ghost predicate Holds(t: Tables, concern: Concern) {
    match concern
    case CountOf(r) => CountedIfStored(t, r)
    case Pointers => PointersAgree(t)
    case Contexts => ContextsValid(t)
  }

  /** The condition, on the state before it, under which one operation or one stop does no harm. */
  ghost predicate Harmless(s: Session, command: Command, concern: Concern) {
    match command
    case Do(operation) => Takes(s, operation) ==> Respects(s.db, operation, concern)
    case Begin => true
    case Commit => true
    case Rollback => true
    case Lose => true
    case _ => Leaves(s, command) ==> StopSurvives(s.db, command, concern)
  }

  ghost predicate Respects(t: Tables, operation: Operation, concern: Concern) {
    match operation
    case AddRelationFacts(relations, sites) => concern.Pointers? ==> RespectsPointers(t, relations, sites)
    case RefreshCloneFiles(rows, selected) => RefreshSurvives(t, AllOf(NewPaths(t, rows, selected).Keys), concern)
    case _ => true
  }

  ghost predicate RefreshSurvives(t: Tables, gone: Gone, concern: Concern) {
    match concern
    case CountOf(r) => RefreshCountSurvives(t, gone, r)
    case Pointers => RefreshPointersSurvive(t, gone)
    case Contexts => RefreshContextsSurvive(t, gone)
  }

  ghost predicate StopSurvives(t: Tables, command: Command, concern: Concern)
    requires CanStop(t, command)
  {
    match command
    case StopFacts(relations, sites, p) =>
      (match concern
       case CountOf(r) => CountSurvives(t, relations, sites, p, r)
       case Pointers => RespectsPointers(t, relations[..p.inserted], sites[..p.placed])
       case Contexts => true)
    case StopPointers(observations, p) =>
      (match concern
       case CountOf(r) => PointerCountSurvives(t, Latest(observations), p, r)
       case Pointers => PointersSurvive(t, Latest(observations), p)
       case Contexts => true)
    case StopClear(callers, p) => concern.Pointers? ==> ClearSurvives(t, callers, p)
    case StopRefresh(rows, selected, p) => RefreshSurvives(t, GoneAt(Changed(t, rows, selected), p), concern)
  }

  /** Whether nothing harmful has happened to what is stored now, and to what a rollback brings back. */
  datatype Trust = Trust(now: bool, saved: bool)

  ghost function Trusted(s: Session, run: seq<Command>, concern: Concern): Trust {
    if run == [] then Trust(true, true)
    else
      var earlier, at := Trusted(s, run[..|run| - 1], concern), After(s, run[..|run| - 1]);
      match run[|run| - 1]
      case Begin => if at.open.Some? || at.wedged then earlier else Trust(earlier.now, earlier.now)
      case Commit => earlier
      case Rollback => if at.open.Some? then Trust(earlier.saved, earlier.saved) else earlier
      case Lose => if at.open.Some? then Trust(earlier.saved, earlier.saved) else earlier
      case command => Trust(earlier.now && Harmless(at, command, concern), earlier.saved)
  }

  // ----- one step -----

  lemma OperationKeepsIntegrity(t: Tables, operation: Operation)
    requires Integrity(t) && Accepts(t, operation)
    ensures Integrity(Result(t, operation))
  {
    hide Integrity, RelationFacts, PointerFacts, ClearedPointers, DropSymbols, ValidRelationSite, ValidUseFacts;
    match operation
    case AddRelationFacts(relations, sites) => RelationFactsIntegrity(t, relations, sites);
    case AddUseFacts(relations, sites) =>
      UseFactsBelong(relations, sites);
      RelationFactsIntegrity(t, relations, sites);
    case AddPointerCallSites(observations) => PointerFactsIntegrity(t, observations);
    case ClearPointerCallSites(callers) => ClearedPointersKeep(t, Members(callers));
    case DeleteSymbols(dead) => DropSymbolsKeep(t, dead);
    case RefreshCloneFiles(rows, selected) => RefreshSound(t, rows, selected);
  }

  /** A refresh that gets to its end is the last of its stops. */
  lemma RefreshSound(t: Tables, rows: seq<FactProvenance>, selected: set<nat>)
    requires Integrity(t)
    ensures var next := RefreshedTables(t, NewPaths(t, rows, selected));
      Integrity(next) && RefreshFailures.Leaves(t, next, AllOf(NewPaths(t, rows, selected).Keys))
  {
    hide PartialRefresh, RefreshedTables, RefreshFailures.Leaves, Changed, NewPaths, FilesOf, PathsOf, Integrity;
    var moved := Changed(t, rows, selected);
    var p := RefreshProgress(PATHS, |moved|);
    ChangedPaths(t, rows, selected);
    PathFiles(moved);
    WholeRefresh(t, moved);
    PartialRefreshLeaves(t, moved, p);
    PartialRefreshIntegrity(t, moved, p);
  }

  lemma RefreshExactly(t: Tables, next: Tables, gone: Gone, concern: Concern)
    requires Integrity(t) && Holds(t, concern) && RefreshFailures.Leaves(t, next, gone) && gone.calls <= gone.sites
    ensures Holds(next, concern) <==> RefreshSurvives(t, gone, concern)
  {
    hide RefreshFailures.Leaves, RefreshCountSurvives, RefreshPointersSurvive, RefreshContextsSurvive, Integrity,
      CountedIfStored, PointersAgree, ContextsValid;
    match concern
    case CountOf(r) => RefreshCountExactly(t, next, gone, r);
    case Pointers => RefreshPointersExactly(t, next, gone);
    case Contexts => RefreshContextsExactly(t, next, gone);
  }

  lemma UseFactsBelong(relations: seq<Relation>, sites: seq<RelationSite>)
    requires ValidUseFacts(relations, sites)
    ensures SitesBelongToRelations(relations, sites)
    ensures forall r <- relations :: r.key.kind != POINTER_CALLS
  {
  }

  lemma RelationFactsCountStored(t: Tables, relations: seq<Relation>, sites: seq<RelationSite>, r: RelationKey)
    requires SitesBelongToRelations(relations, sites) && CountedIfStored(t, r)
    ensures CountedIfStored(RelationFacts(t, relations, sites), r)
  {
    hide RelationFacts, SitesBelongToRelations, Counted;
    RelationFactsCounts(t, relations, sites, r);
    if r !in Keys(relations) {
      ElsewhereUntouched(t, relations, sites, r);
    }
  }

  lemma PointerFactsCountStored(t: Tables, observations: seq<PointerCallSite>, r: RelationKey)
    requires Integrity(t) && CountedIfStored(t, r)
    ensures CountedIfStored(PointerFacts(t, observations), r)
  {
    hide PointerStored, Latest, Callers, Counted, Integrity;
    PointerFactsCounts(t, observations, r);
    if r !in t.relations && !(r.kind == POINTER_CALLS && r.source in Callers(Latest(observations))) {
      StoredElsewhere(t, observations, r);
    }
  }

  lemma OperationKeepsCounts(t: Tables, operation: Operation, r: RelationKey)
    requires Integrity(t) && Accepts(t, operation) && CountedIfStored(t, r) && !operation.RefreshCloneFiles?
    ensures CountedIfStored(Result(t, operation), r)
  {
    hide Integrity, RelationFacts, PointerFacts, ValidRelationSite, ValidUseFacts, Counted;
    match operation
    case AddRelationFacts(relations, sites) => RelationFactsCountStored(t, relations, sites, r);
    case AddUseFacts(relations, sites) =>
      UseFactsBelong(relations, sites);
      RelationFactsCountStored(t, relations, sites, r);
    case AddPointerCallSites(observations) =>
      if observations != [] {
        PointerFactsCountStored(t, observations, r);
      }
    case ClearPointerCallSites(callers) => ClearedPointersKeep(t, Members(callers));
    case DeleteSymbols(dead) => DropSymbolsKeep(t, dead);
  }

  lemma OperationKeepsPointersExactly(t: Tables, operation: Operation)
    requires Integrity(t) && Accepts(t, operation) && PointersAgree(t) && !operation.RefreshCloneFiles?
    ensures PointersAgree(Result(t, operation)) <==> Respects(t, operation, Pointers)
  {
    hide Integrity, PointersAgree, RelationFacts, PointerFacts, ClearedPointers, DropSymbols, ValidRelationSite,
      ValidUseFacts, RespectsPointers;
    match operation
    case AddRelationFacts(relations, sites) => RelationFactsAgreeExactly(t, relations, sites);
    case AddUseFacts(relations, sites) =>
      UseFactsRespect(t, relations, sites);
      RelationFactsAgreeExactly(t, relations, sites);
    case AddPointerCallSites(observations) => PointerFactsAgree(t, observations);
    case ClearPointerCallSites(callers) => ClearedPointersKeep(t, Members(callers));
    case DeleteSymbols(dead) => DropSymbolsKeep(t, dead);
  }

  /** Use facts say nothing about pointer calls. */
  lemma UseFactsRespect(t: Tables, relations: seq<Relation>, sites: seq<RelationSite>)
    requires ValidUseFacts(relations, sites)
    ensures RespectsPointers(t, relations, sites)
  {
  }

  lemma OperationKeepsContexts(t: Tables, operation: Operation)
    requires Accepts(t, operation) && ContextsValid(t) && !operation.RefreshCloneFiles?
    ensures ContextsValid(Result(t, operation))
  {
    hide Inserted, Upserted, ExternalSites, SitesBelongToRelations, Latest, ReplacedSites, Callers, CallerRelations,
      Unused;
    match operation
    case AddRelationFacts(_, sites) => UpsertedValid(t.sites, sites);
    case AddUseFacts(_, sites) => UpsertedValid(t.sites, sites);
    case AddPointerCallSites(observations) =>
      if observations != [] {
        var latest := Latest(observations);
        PointerMembers(latest);
        UpsertedValid(t.sites - ReplacedSites(t.calls, latest), PointerSites(latest));
      }
    case ClearPointerCallSites(_) =>
    case DeleteSymbols(_) =>
  }

  lemma OperationKeepsExactly(t: Tables, operation: Operation, concern: Concern)
    requires Integrity(t) && Accepts(t, operation) && Holds(t, concern)
    ensures Holds(Result(t, operation), concern) <==> Respects(t, operation, concern)
  {
    hide Integrity, PointersAgree, CountedIfStored, ContextsValid, RefreshSurvives, Accepts, NewPaths, RefreshedTables,
      RespectsPointers, RefreshFailures.Leaves, RelationFacts, PointerFacts, ClearedPointers, DropSymbols;
    if operation.RefreshCloneFiles? {
      var paths := NewPaths(t, operation.rows, operation.selected);
      RefreshSound(t, operation.rows, operation.selected);
      RefreshExactly(t, RefreshedTables(t, paths), AllOf(paths.Keys), concern);
    } else {
      match concern
      case CountOf(r) => OperationKeepsCounts(t, operation, r);
      case Pointers => OperationKeepsPointersExactly(t, operation);
      case Contexts => OperationKeepsContexts(t, operation);
    }
  }

  lemma StopKeepsIntegrity(t: Tables, command: Command)
    requires Integrity(t) && CanStop(t, command)
    ensures Integrity(StoppedAt(t, command))
  {
    hide Integrity, PartialFacts, PartialPointers, PartialClear, PartialRefresh, Changed, AcceptsRefresh;
    match command
    case StopFacts(relations, sites, p) => PartialFactsIntegrity(t, relations, sites, p);
    case StopPointers(observations, p) => PartialPointersIntegrity(t, Latest(observations), p);
    case StopClear(callers, p) => PartialClearKeeps(t, callers, p);
    case StopRefresh(rows, selected, p) => PartialRefreshIntegrity(t, Changed(t, rows, selected), p);
  }

  lemma StopKeepsContexts(t: Tables, command: Command)
    requires ContextsValid(t) && CanStop(t, command) && !command.StopRefresh?
    ensures ContextsValid(StoppedAt(t, command))
  {
    hide ContextsValid, PartialFacts, PartialPointers, PartialClear;
    match command
    case StopFacts(relations, sites, p) => PartialFactsContexts(t, relations, sites, p);
    case StopPointers(observations, p) => PartialPointersContexts(t, Latest(observations), p);
    case StopClear(callers, p) => PartialClearKeeps(t, callers, p);
  }

  lemma StopKeepsExactly(t: Tables, command: Command, concern: Concern)
    requires Integrity(t) && CanStop(t, command) && Holds(t, concern)
    ensures Holds(StoppedAt(t, command), concern) <==> StopSurvives(t, command, concern)
  {
    hide Integrity, PartialFacts, PartialPointers, PartialClear, PointersAgree, CountedIfStored,
      FactFailures.CountSurvives, PointerCountSurvives, PointersSurvive, ClearSurvives, RespectsPointers, ContextsValid,
      PartialRefresh, RefreshSurvives, RefreshFailures.Leaves, Changed, AcceptsRefresh, GoneAt;
    if concern.Contexts? && !command.StopRefresh? {
      StopKeepsContexts(t, command);
    }
    match command
    case StopFacts(relations, sites, p) =>
      match concern {
        case CountOf(r) => FactFailures.CountSurvivesExactly(t, relations, sites, p, r);
        case Pointers => PartialFactsAgreeExactly(t, relations, sites, p);
        case Contexts =>
      }
    case StopPointers(observations, p) =>
      LatestIsLast(observations);
      match concern {
        case CountOf(r) => PointerCountSurvivesExactly(t, Latest(observations), p, r);
        case Pointers => PartialPointersAgreeExactly(t, Latest(observations), p);
        case Contexts =>
      }
    case StopClear(callers, p) =>
      match concern {
        case CountOf(r) => PartialClearKeeps(t, callers, p);
        case Pointers => PartialClearAgreesExactly(t, callers, p);
        case Contexts =>
      }
    case StopRefresh(rows, selected, p) =>
      var moved := Changed(t, rows, selected);
      PartialRefreshLeaves(t, moved, p);
      CallsAfterSites(moved, p);
      RefreshExactly(t, PartialRefresh(t, moved, p), GoneAt(moved, p), concern);
  }

  /** The command begins or ends the storage's transaction. */
  predicate Bounds(command: Command) {
    command.Begin? || command.Commit? || command.Rollback? || command.Lose?
  }

  /** From tables in which it holds, a step inside or outside a transaction keeps it exactly if the step is
      harmless. */
  lemma StepKeepsExactly(s: Session, command: Command, concern: Concern)
    requires Integrity(s.db) && Holds(s.db, concern) && !Bounds(command)
    ensures Holds(Step(s, command).db, concern) <==> Harmless(s, command, concern)
  {
    hide Integrity, Accepts, Result, CanStop, StoppedAt, StopSurvives, Respects, Holds;
    if command.Do? {
      if Takes(s, command.operation) {
        OperationKeepsExactly(s.db, command.operation, concern);
      }
    } else if Leaves(s, command) {
      StopKeepsExactly(s.db, command, concern);
    }
  }

  lemma StepKeepsIntegrity(s: Session, command: Command)
    requires Integrity(s.db) && (s.open.Some? ==> Integrity(s.open.value))
    ensures Integrity(Step(s, command).db)
    ensures Step(s, command).open.Some? ==> Integrity(Step(s, command).open.value)
  {
    hide Integrity, Accepts, Result, CanStop, StoppedAt;
    if command.Do? {
      if Takes(s, command.operation) {
        OperationKeepsIntegrity(s.db, command.operation);
      }
    } else if CanStop(s.db, command) {
      StopKeepsIntegrity(s.db, command);
    }
  }

  // ----- whole runs -----

  /** No run leaves a dangling foreign key, whatever stops on the way and however its transactions end. */
  lemma {:induction false} RunsKeepIntegrity(t: Tables, run: seq<Command>)
    requires Integrity(t)
    ensures var s := After(Start(t), run); Integrity(s.db) && (s.open.Some? ==> Integrity(s.open.value))
  {
    hide Integrity, Step;
    if run != [] {
      RunsKeepIntegrity(t, run[..|run| - 1]);
      StepKeepsIntegrity(After(Start(t), run[..|run| - 1]), run[|run| - 1]);
    }
  }

  /** Deleting rows and clearing receivers leaves valid rows. */
  lemma FewerRowsValid(t: Tables, next: Tables)
    requires RowsValid(t) && next.sites.Keys <= t.sites.Keys && next.calls.Keys <= t.calls.Keys
    requires forall k <- next.sites ::
      next.sites[k].line == t.sites[k].line && next.sites[k].column == t.sites[k].column
    requires forall c <- next.calls :: next.calls[c] == t.calls[c]
    ensures RowsValid(next)
  {
  }

  lemma LeftRowsValid(t: Tables, next: Tables, gone: Gone)
    requires RowsValid(t) && RefreshFailures.Leaves(t, next, gone)
    ensures RowsValid(next)
  {
    hide RowsValid, Stays, RowStays;
    FewerRowsValid(t, next);
  }

  lemma OperationKeepsRows(t: Tables, operation: Operation)
    requires Integrity(t) && RowsValid(t) && Accepts(t, operation)
    ensures RowsValid(Result(t, operation))
  {
    hide Integrity, RowsValid, ValidRelationSite, ValidPointerCall, RelationFacts, PointerFacts, PartialPointers,
      RefreshedTables, NewPaths, RefreshFailures.Leaves, ValidUseFacts, AcceptsRefresh;
    match operation
    case AddRelationFacts(relations, sites) => RelationFactsRowsValid(t, relations, sites);
    case AddUseFacts(relations, sites) =>
      UseSitesValid(relations, sites);
      RelationFactsRowsValid(t, relations, sites);
    case AddPointerCallSites(observations) =>
      if observations != [] {
        AllPointersDone(t, observations);
        PartialPointersRowsValid(t, observations, AllPointers(Latest(observations)));
      }
    case ClearPointerCallSites(callers) => FewerRowsValid(t, Result(t, operation));
    case DeleteSymbols(dead) => FewerRowsValid(t, Result(t, operation));
    case RefreshCloneFiles(rows, selected) =>
      RefreshSound(t, rows, selected);
      LeftRowsValid(t, Result(t, operation), AllOf(NewPaths(t, rows, selected).Keys));
  }

  lemma StopKeepsRows(t: Tables, command: Command)
    requires Integrity(t) && RowsValid(t) && CanStop(t, command)
    ensures RowsValid(StoppedAt(t, command))
  {
    hide Integrity, RowsValid, PartialFacts, PartialPointers, PartialRefresh, AcceptsRefresh, Changed,
      RefreshFailures.Leaves, ValidPointerCall, Latest;
    match command
    case StopFacts(relations, sites, p) => PartialFactsRowsValid(t, relations, sites, p);
    case StopPointers(observations, p) =>
      if p == NO_POINTERS {
        NothingWritten(t, observations);
      } else {
        PartialPointersRowsValid(t, observations, p);
      }
    case StopClear(callers, p) => FewerRowsValid(t, StoppedAt(t, command));
    case StopRefresh(rows, selected, p) =>
      var moved := Changed(t, rows, selected);
      PartialRefreshLeaves(t, moved, p);
      LeftRowsValid(t, StoppedAt(t, command), GoneAt(moved, p));
  }

  lemma NothingWritten(t: Tables, observations: seq<PointerCallSite>)
    requires RowsValid(t) && PointersReach(Latest(observations), NO_POINTERS)
    ensures RowsValid(PartialPointers(t, Latest(observations), NO_POINTERS))
  {
    PartialStoredTables(t, Latest(observations), NO_POINTERS);
    hide Latest;
    var latest := Latest(observations);
    assert PointerSites(latest)[..0] == [] && latest[..0] == [];
    assert Members(SortedCallers(latest)[..0]) == {};
  }

  lemma StepKeepsRows(s: Session, command: Command)
    requires Integrity(s.db) && RowsValid(s.db) && (s.open.Some? ==> RowsValid(s.open.value))
    ensures RowsValid(Step(s, command).db)
    ensures Step(s, command).open.Some? ==> RowsValid(Step(s, command).open.value)
  {
    hide Integrity, RowsValid, Accepts, Result, CanStop, StoppedAt;
    if command.Do? {
      if Takes(s, command.operation) {
        OperationKeepsRows(s.db, command.operation);
      }
    } else if CanStop(s.db, command) {
      StopKeepsRows(s.db, command);
    }
  }

  /** No run stores a site or a pointer call that validation would refuse, wherever its operations stop. */
  lemma {:induction false} RunsKeepRows(t: Tables, run: seq<Command>)
    requires Integrity(t) && RowsValid(t)
    ensures var s := After(Start(t), run); RowsValid(s.db) && (s.open.Some? ==> RowsValid(s.open.value))
  {
    hide Integrity, RowsValid, Step;
    if run != [] {
      RunsKeepIntegrity(t, run[..|run| - 1]);
      RunsKeepRows(t, run[..|run| - 1]);
      StepKeepsRows(After(Start(t), run[..|run| - 1]), run[|run| - 1]);
    }
  }

  /** Once the database has undone a transaction by itself no other begins: an operation that stops then leaves what
      it did for good. */
  lemma {:induction false} WedgedForGood(s: Session, run: seq<Command>)
    requires s.wedged && s.open.None?
    ensures After(s, run).wedged && After(s, run).open.None?
  {
    hide Accepts, Result, CanStop, StoppedAt;
    if run != [] {
      WedgedForGood(s, run[..|run| - 1]);
    }
  }

  /** What held at first holds as long as every step was harmless, and again once the harm is rolled back. */
  lemma {:induction false} RunsKeep(t: Tables, run: seq<Command>, concern: Concern)
    requires Integrity(t) && Holds(t, concern)
    ensures var s, trust := After(Start(t), run), Trusted(Start(t), run, concern);
      (trust.now ==> Holds(s.db, concern)) && (s.open.Some? && trust.saved ==> Holds(s.open.value, concern))
  {
    hide Integrity, Harmless, Holds;
    if run != [] {
      var before, last := After(Start(t), run[..|run| - 1]), run[|run| - 1];
      RunsKeep(t, run[..|run| - 1], concern);
      RunsKeepIntegrity(t, run[..|run| - 1]);
      if Trusted(Start(t), run, concern).now && !Bounds(last) {
        StepKeepsExactly(before, last, concern);
      }
      StepKeepsSnapshot(before, last);
      hide Step, Takes, Leaves;
    }
  }

  lemma StepKeepsSnapshot(s: Session, command: Command)
    ensures command.Begin? ==> Step(s, command) == if s.open.Some? || s.wedged then s else s.(open := Some(s.db))
    ensures command.Commit? ==> Step(s, command) == s.(open := None)
    ensures command.Rollback? || command.Lose? ==>
      Step(s, command).db == (if s.open.Some? then s.open.value else s.db) && Step(s, command).open.None?
    ensures !Bounds(command) ==> Step(s, command).open == s.open
  {
  }

  /** The first harmful step breaks it: the condition is needed at every step. */
  lemma FirstHarmBreaks(t: Tables, run: seq<Command>, command: Command, concern: Concern)
    requires Integrity(t) && Holds(t, concern) && Trusted(Start(t), run, concern).now
    requires !Harmless(After(Start(t), run), command, concern)
    ensures !Holds(After(Start(t), run + [command]).db, concern)
  {
    hide Integrity, Holds, Step;
    RunsKeep(t, run, concern);
    RunsKeepIntegrity(t, run);
    assert (run + [command])[..|run|] == run;
    StepKeepsExactly(After(Start(t), run), command, concern);
  }

  /** A relation that was counted at first is counted whenever it exists, until a step that its count does not
      survive, and again after the rollback. */
  lemma RunsKeepCounts(t: Tables, run: seq<Command>)
    requires Integrity(t)
    ensures Integrity(After(Start(t), run).db)
    ensures forall r :: CountedIfStored(t, r) && Trusted(Start(t), run, CountOf(r)).now ==>
      CountedIfStored(After(Start(t), run).db, r)
  {
    hide Integrity, CountedIfStored, Step, After, Trusted;
    RunsKeepIntegrity(t, run);
    forall r | CountedIfStored(t, r) && Trusted(Start(t), run, CountOf(r)).now
      ensures CountedIfStored(After(Start(t), run).db, r)
    {
      RunsKeep(t, run, CountOf(r));
    }
  }

  /** Kind-24 sites and pointer-call rows agree until a general batch claims more pointer calls than the rows
      name, or a stop or a refresh that the agreement does not survive, and again after the rollback. */
  lemma RunsKeepPointers(t: Tables, run: seq<Command>)
    requires Integrity(t) && PointersAgree(t)
    ensures Trusted(Start(t), run, Pointers).now ==> PointersAgree(After(Start(t), run).db)
  {
    hide Integrity, PointersAgree, Step, After, Trusted;
    RunsKeep(t, run, Pointers);
  }

  predicate WithoutRefresh(run: seq<Command>) {
    forall c <- run :: !c.StopRefresh? && (c.Do? ==> !c.operation.RefreshCloneFiles?)
  }

  lemma {:induction false} NoRefreshNoHarm(s: Session, run: seq<Command>)
    requires WithoutRefresh(run)
    ensures Trusted(s, run, Contexts) == Trust(true, true)
  {
    hide After;
    if run != [] {
      assert run[|run| - 1] in run;
      NoRefreshNoHarm(s, run[..|run| - 1]);
    }
  }

  /** Contexts stay valid until a refresh reaches the receiver of a site that stays, and are valid again after the
      rollback; nothing else disturbs them. */
  lemma RunsKeepContexts(t: Tables, run: seq<Command>)
    requires Integrity(t) && ContextsValid(t)
    ensures Trusted(Start(t), run, Contexts).now || WithoutRefresh(run) ==> ContextsValid(After(Start(t), run).db)
  {
    hide Integrity, ContextsValid, Step, After, Trusted, WithoutRefresh;
    RunsKeep(t, run, Contexts);
    if WithoutRefresh(run) {
      NoRefreshNoHarm(Start(t), run);
    }
  }

  predicate Uninterrupted(run: seq<Command>) {
    WithoutRefresh(run) && forall c <- run :: !c.StopFacts? && !c.StopPointers? && !c.StopClear?
  }

  lemma {:induction false} UninterruptedCounts(s: Session, run: seq<Command>, r: RelationKey)
    requires Uninterrupted(run)
    ensures Trusted(s, run, CountOf(r)) == Trust(true, true)
  {
    hide After;
    if run != [] {
      assert run[|run| - 1] in run;
      UninterruptedCounts(s, run[..|run| - 1], r);
    }
  }

  const EMPTY := Tables(map[], map[], map[], map[], {}, map[], {}, map[], {}, map[], map[])

  /** Starting from nothing: foreign keys hold after every run, contexts after every run without a refresh, counts
      are right after every run without a refresh or a stop, and all of it survives every run of harmless steps. */
  lemma EverySoundRun(symbols: map<SymbolId, SymbolRow>, run: seq<Command>)
    ensures var start := Start(EMPTY.(symbols := symbols));
      var t := After(start, run).db;
      Integrity(t) && (WithoutRefresh(run) ==> ContextsValid(t)) &&
      (Uninterrupted(run) ==> forall r <- t.relations :: Counted(t, r)) &&
      forall concern :: Trusted(start, run, concern).now ==> Holds(t, concern)
  {
    var empty := EMPTY.(symbols := symbols);
    var start := Start(empty);
    assert Integrity(empty) && PointersAgree(empty) && ContextsValid(empty);
    assert forall r :: CountedIfStored(empty, r);
    hide Integrity, PointersAgree, ContextsValid, Trusted, After, Uninterrupted, WithoutRefresh;
    var t := After(start, run).db;
    RunsKeepIntegrity(empty, run);
    RunsKeepContexts(empty, run);
    forall concern | Trusted(start, run, concern).now ensures Holds(t, concern) {
      RunsKeep(empty, run, concern);
    }
    if Uninterrupted(run) {
      forall r <- t.relations ensures Counted(t, r) {
        UninterruptedCounts(start, run, r);
        assert Holds(t, CountOf(r));
      }
    }
  }

  /** The restriction is needed: a general batch that names a pointer call stores a site without a row. */
  lemma GeneralBatchCanDisagree(source: SymbolId, target: SymbolId, name: SymbolRow)
    requires source != NO_SYMBOL && target != NO_SYMBOL
    ensures var start := EMPTY.(symbols := map[source := name, target := name]);
      exists operation: Operation ::
        operation.AddRelationFacts? && Accepts(start, operation) && !PointersAgree(Result(start, operation))
  {
    var start := EMPTY.(symbols := map[source := name, target := name]);
    var key := PointerKey(source, target);
    var relations := [Relation(key, 0, 1)];
    var sites := [RelationSite(key, 1, Location(1, 1, 0), None, None)];
    assert relations[0] in relations && relations[0].key == key;
    assert SitesBelongToRelations(relations, sites);
    var operation := AddRelationFacts(relations, sites);
    assert Accepts(start, operation);
    var next := Result(start, operation);
    UpsertedKeys(start.sites, sites);
    assert SiteKeyOf(sites[0]) in SiteKeys(sites);
    assert SiteKeyOf(sites[0]) in next.sites && next.calls == map[];
    assert !PointersAgree(next);
  }

  /** A commit after a stop keeps a wrong count: a relation was inserted with a count, and the fault came before
      its sites. */
  lemma CommittedStopMiscounts(t: Tables, relation: Relation, sites: seq<RelationSite>)
    requires Integrity(t) && relation.key !in t.relations && relation.count > 0
    requires relation.key.source in t.symbols && relation.key.destination in t.symbols
    requires AcceptsRelationFacts(t, [relation], sites)
    ensures var run := [Begin, StopFacts([relation], sites, FactsProgress(1, 0, 0)), Commit];
      !CountedIfStored(After(Start(t), run).db, relation.key)
  {
    hide Integrity, AcceptsRelationFacts, CountedIfStored, CanStop, StoppedAt;
    var stop := StopFacts([relation], sites, FactsProgress(1, 0, 0));
    InsertedOnly(t, relation, sites);
    assert [Begin, stop, Commit][..2] == [Begin, stop] && [Begin, stop][..1] == [Begin] && [Begin][..0] == [];
    assert After(Start(t), [Begin]) == Session(t, Some(t), false);
  }

  lemma InsertedOnly(t: Tables, relation: Relation, sites: seq<RelationSite>)
    requires Integrity(t) && relation.key !in t.relations && relation.count > 0
    requires AcceptsRelationFacts(t, [relation], sites)
    ensures var stop := StopFacts([relation], sites, FactsProgress(1, 0, 0));
      CanStop(t, stop) && !CountedIfStored(StoppedAt(t, stop), relation.key)
  {
    assert CountedIfStored(t, relation.key);
    hide Integrity, AcceptsRelationFacts, CountedIfStored, PartialFacts;
    AcceptedMayStop(t, relation, sites);
    FactFailures.CountSurvivesExactly(t, [relation], sites, FactsProgress(1, 0, 0), relation.key);
    assert [relation][..1] == [relation] && sites[..0] == [] && [relation][..0] == [];
    assert relation in [relation];
    assert SitesFor(relation.key, []) == {};
  }

  /** After a lost transaction no commit is needed for that: the stopped batch stays on its own. */
  lemma LostStopMiscounts(t: Tables, relation: Relation, sites: seq<RelationSite>)
    requires Integrity(t) && relation.key !in t.relations && relation.count > 0
    requires AcceptsRelationFacts(t, [relation], sites)
    ensures var run := [Begin, Lose, StopFacts([relation], sites, FactsProgress(1, 0, 0))];
      !CountedIfStored(After(Start(t), run).db, relation.key)
  {
    hide Integrity, AcceptsRelationFacts, CountedIfStored, CanStop, StoppedAt;
    var stop := StopFacts([relation], sites, FactsProgress(1, 0, 0));
    InsertedOnly(t, relation, sites);
    assert [Begin, Lose, stop][..2] == [Begin, Lose] && [Begin, Lose][..1] == [Begin] && [Begin][..0] == [];
    assert After(Start(t), [Begin]) == Session(t, Some(t), false);
    assert After(Start(t), [Begin, Lose]) == Session(t, None, true);
  }

  lemma AcceptedMayStop(t: Tables, relation: Relation, sites: seq<RelationSite>)
    requires AcceptsRelationFacts(t, [relation], sites)
    ensures FactsMayStop(t, [relation], sites, FactsProgress(1, 0, 0))
  {
    assert [relation][..1] == [relation];
  }
}
