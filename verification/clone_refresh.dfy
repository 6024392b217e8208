/** Refreshing the facts of files whose clone moved (src/storage/CloneRefresh.cpp): the checks, the cascade of
    statements, and the exact set of rows that is left. */
module CloneRefresh {
  import opened Text
  import opened PointerBatch
  import opened FactTables
  import opened FactOperations

  datatype FactProvenance = FactProvenance(file: nat, path: string, universe: string, aliases: seq<string>)

  // ----- which files moved -----

  /** The row that answers for a selected file: the first one that names it. */
  function FirstRow(rows: seq<FactProvenance>, file: nat): Option<FactProvenance> {
    if rows == [] then None
    else
      var before := FirstRow(rows[..|rows| - 1], file);
      if before.Some? || rows[|rows| - 1].file != file then before else Some(rows[|rows| - 1])
  }

  /** The stored identity agrees with the row, under the row's path or one of its aliases. */
  predicate Matches(t: Tables, row: FactProvenance) {
    row.file in t.provenance ==>
      t.provenance[row.file].universe == row.universe &&
      (t.provenance[row.file].path == row.path || t.provenance[row.file].path in row.aliases)
  }

  predicate Acceptable(t: Tables, row: FactProvenance) {
    row.file != BUILTIN_FILE && (row.aliases == [] || Matches(t, row))
  }

  predicate Moves(t: Tables, row: FactProvenance) {
    row.aliases != [] && row.file in t.provenance && t.provenance[row.file].path != row.path
  }

  predicate AcceptableFile(t: Tables, rows: seq<FactProvenance>, file: nat) {
    var row := FirstRow(rows, file);
    row.Some? && Acceptable(t, row.value)
  }

  /** Every selected file has a row, and the row can stand for it. */
  predicate AcceptsRefresh(t: Tables, rows: seq<FactProvenance>, selected: set<nat>) {
    forall file <- selected :: AcceptableFile(t, rows, file)
  }

  /** The new paths of the selected files that moved. */
  function NewPaths(t: Tables, rows: seq<FactProvenance>, selected: set<nat>): map<nat, string> {
    map file | file in selected && FirstRow(rows, file).Some? && Moves(t, FirstRow(rows, file).value) ::
      FirstRow(rows, file).value.path
  }

  /** The rows of the selected files that moved, in order. */
  function Changed(t: Tables, rows: seq<FactProvenance>, selected: set<nat>): seq<FactProvenance> {
    if rows == [] then []
    else
      var earlier, last := rows[..|rows| - 1], rows[|rows| - 1];
      var before := Changed(t, earlier, selected);
      if last.file in selected && FirstRow(earlier, last.file).None? && Moves(t, last) then before + [last] else before
  }

  function PathsOf(rows: seq<FactProvenance>): map<nat, string> {
    if rows == [] then map[] else PathsOf(rows[..|rows| - 1])[rows[|rows| - 1].file := rows[|rows| - 1].path]
  }

  function FilesOf(rows: seq<FactProvenance>): set<nat> {
    set row | row in rows :: row.file
  }

  // ----- what is left -----

  predicate SiteStays(key: SiteKey, moved: set<nat>) {
    key.file !in moved && key.relation.source.file !in moved && key.relation.destination.file !in moved
  }

  function WithoutReceiver(row: SiteRow, moved: set<nat>): SiteRow {
    if row.receiver.Some? && row.receiver.value.file in moved then row.(receiver := None) else row
  }

  predicate CallStays(key: CallKey, row: CallRow, moved: set<nat>) {
    key.file !in moved && key.source.file !in moved && (row.target.Some? ==> row.target.value.file !in moved)
  }

  /** The tables without the facts of the moved files, row by row. */
  function Without(t: Tables, moved: set<nat>): Tables {
    Tables(
      map s | s in t.symbols && s.file !in moved :: t.symbols[s],
      map s | s in t.definitions && s.file !in moved && t.definitions[s] !in moved :: t.definitions[s],
      map r | r in t.relations && r.source.file !in moved && r.destination.file !in moved :: t.relations[r],
      map k | k in t.sites && SiteStays(k, moved) :: WithoutReceiver(t.sites[k], moved),
      (set k | k in t.external && SiteStays(k, moved)),
      map c | c in t.calls && CallStays(c, t.calls[c], moved) :: t.calls[c],
      (set c | c in t.unresolved && c.file !in moved && c.source.file !in moved),
      t.provenance,
      (set i | i in t.includes && i.0 !in moved),
      map e | e in t.expressions && ExpressionStays(t.expressions[e], moved) :: t.expressions[e],
      map g | g in t.regions && t.regions[g].file !in moved && t.regions[g].symbol.file !in moved :: t.regions[g])
  }

  predicate ExpressionStays(row: ExpressionRow, moved: set<nat>) {
    row.file !in moved && (row.owner.Some? ==> row.owner.value.file !in moved) &&
    (row.target.Some? ==> row.target.value.file !in moved)
  }

  function Repathed(provenance: map<nat, Provenance>, paths: map<nat, string>): map<nat, Provenance> {
    map f | f in provenance :: if f in paths then provenance[f].(path := paths[f]) else provenance[f]
  }

  function RefreshedTables(t: Tables, paths: map<nat, string>): Tables {
    Without(t, paths.Keys).(provenance := Repathed(t.provenance, paths))
  }

  // ----- the statements -----

  datatype Statement =
    | NullReceivers | DeleteSites | DeleteDefinitions | DeleteIncludes | DeleteUnresolved | DeleteCalls
    | DeleteExpressions | DeleteRegions | DeleteSymbols

  const STATEMENTS := [NullReceivers, DeleteSites, DeleteDefinitions, DeleteIncludes, DeleteUnresolved, DeleteCalls,
                       DeleteExpressions, DeleteRegions, DeleteSymbols]

  function SymbolsIn(t: Tables, files: set<nat>): set<SymbolId> {
    set s | s in t.symbols && s.file in files
  }

  function Execute(t: Tables, statement: Statement, files: set<nat>): Tables {
    match statement
    case NullReceivers => t.(sites := map k | k in t.sites :: WithoutReceiver(t.sites[k], files))
    case DeleteSites => DropSites(t, set k | k in t.sites && k.file in files)
    case DeleteDefinitions =>
      t.(definitions := map s | s in t.definitions && t.definitions[s] !in files :: t.definitions[s])
    case DeleteIncludes => t.(includes := set i | i in t.includes && i.0 !in files)
    case DeleteUnresolved => t.(unresolved := set c | c in t.unresolved && c.file !in files)
    case DeleteCalls => t.(calls := map c | c in t.calls && c.file !in files :: t.calls[c])
    case DeleteExpressions =>
      t.(expressions := map e | e in t.expressions && t.expressions[e].file !in files :: t.expressions[e])
    case DeleteRegions => t.(regions := map g | g in t.regions && t.regions[g].file !in files :: t.regions[g])
    case DeleteSymbols => DropSymbols(t, SymbolsIn(t, files))
  }

  function ExecuteAll(t: Tables, statements: seq<Statement>, files: set<nat>): Tables {
    if statements == [] then t
    else Execute(ExecuteAll(t, statements[..|statements| - 1], files), statements[|statements| - 1], files)
  }

  /** The receiver key does not cascade: a statement that deletes a symbol still used as receiver fails. */
  predicate ReceiversFree(t: Tables, files: set<nat>) {
    forall k <- t.sites :: t.sites[k].receiver.Some? ==> t.sites[k].receiver.value.file !in files
  }

  lemma ExecuteStep(t: Tables, statement: Statement, done: set<nat>, file: nat)
    ensures Execute(Execute(t, statement, done), statement, {file}) == Execute(t, statement, done + {file})
  {
    var twice := Execute(Execute(t, statement, done), statement, {file});
    var once := Execute(t, statement, done + {file});
    match statement
    case NullReceivers => assert twice.sites == once.sites;
    case DeleteSites => assert twice.sites == once.sites && twice.external == once.external;
    case DeleteDefinitions => assert twice.definitions == once.definitions;
    case DeleteUnresolved => assert twice.unresolved == once.unresolved;
    case DeleteCalls => assert twice.calls == once.calls;
    case DeleteIncludes => assert twice.includes == once.includes;
    case DeleteExpressions => assert twice.expressions == once.expressions;
    case DeleteRegions => assert twice.regions == once.regions;
    case DeleteSymbols => DropSymbolsStep(t, done, file);
  }

  lemma DropSymbolsStep(t: Tables, done: set<nat>, file: nat)
    ensures var half := DropSymbols(t, SymbolsIn(t, done));
      DropSymbols(half, SymbolsIn(half, {file})) == DropSymbols(t, SymbolsIn(t, done + {file}))
  {
    var half := DropSymbols(t, SymbolsIn(t, done));
    DropSymbolsTwice(t, SymbolsIn(t, done), SymbolsIn(half, {file}));
    assert SymbolsIn(t, done) + SymbolsIn(half, {file}) == SymbolsIn(t, done + {file});
  }

  lemma DropSymbolsSitesTwice(t: Tables, first: set<SymbolId>, second: set<SymbolId>)
    ensures var twice := DropSymbols(DropSymbols(t, first), second);
      var once := DropSymbols(t, first + second);
      twice.sites == once.sites && twice.external == once.external
  {
  }

  lemma DropSymbolsEvidenceTwice(t: Tables, first: set<SymbolId>, second: set<SymbolId>)
    ensures var twice := DropSymbols(DropSymbols(t, first), second);
      var once := DropSymbols(t, first + second);
      twice.expressions == once.expressions && twice.regions == once.regions
  {
  }

  lemma DropSymbolsTwice(t: Tables, first: set<SymbolId>, second: set<SymbolId>)
    ensures DropSymbols(DropSymbols(t, first), second) == DropSymbols(t, first + second)
  {
    DropSymbolsSitesTwice(t, first, second);
    DropSymbolsEvidenceTwice(t, first, second);
    hide KeptExpressions, KeptRegions;
    var twice := DropSymbols(DropSymbols(t, first), second);
    var once := DropSymbols(t, first + second);
    assert twice.symbols == once.symbols && twice.definitions == once.definitions;
    assert twice.relations == once.relations;
    assert twice.calls == once.calls && twice.unresolved == once.unresolved;
  }

  lemma ExternalStored(t: Tables)
    requires Integrity(t)
    ensures t.external <= t.sites.Keys
  {
  }

  lemma DropNoSymbols(t: Tables)
    requires t.external <= t.sites.Keys
    ensures DropSymbols(t, {}) == t
  {
    var same := DropSymbols(t, {});
    assert same.sites == t.sites && same.calls == t.calls && same.relations == t.relations;
    assert same.expressions == t.expressions && same.regions == t.regions;
  }

  lemma ExecuteNothing(t: Tables, statement: Statement)
    requires t.external <= t.sites.Keys
    ensures Execute(t, statement, {}) == t
  {
    hide DropSymbols;
    var same := Execute(t, statement, {});
    match statement
    case NullReceivers => assert same.sites == t.sites;
    case DeleteSites => assert same.sites == t.sites && same.external == t.external;
    case DeleteDefinitions => assert same.definitions == t.definitions;
    case DeleteUnresolved => assert same.unresolved == t.unresolved;
    case DeleteCalls => assert same.calls == t.calls;
    case DeleteIncludes => assert same.includes == t.includes;
    case DeleteExpressions => assert same.expressions == t.expressions;
    case DeleteRegions => assert same.regions == t.regions;
    case DeleteSymbols =>
      assert SymbolsIn(t, {}) == {};
      DropNoSymbols(t);
  }

  lemma ExecuteIntegrity(t: Tables, statement: Statement, files: set<nat>)
    requires Integrity(t) && (statement == DeleteSymbols ==> ReceiversFree(t, files))
    ensures Integrity(Execute(t, statement, files))
  {
    if statement == DeleteSymbols {
      DropSymbolsIntegrity(t, SymbolsIn(t, files));
    }
  }

  lemma ExecuteFree(t: Tables, statement: Statement, files: set<nat>)
    ensures ReceiversFree(Execute(t, NullReceivers, files), files)
    ensures ReceiversFree(t, files) ==> ReceiversFree(Execute(t, statement, files), files)
  {
  }

  /** Once the receivers are cleared, no statement brings one back. */
  lemma {:induction false} ReceiversStayFree(t: Tables, statements: seq<Statement>, files: set<nat>)
    requires statements != [] && statements[0] == NullReceivers
    ensures ReceiversFree(ExecuteAll(t, statements, files), files)
    decreases |statements|
  {
    hide Execute, ReceiversFree;
    var n := |statements| - 1;
    if n > 0 {
      ReceiversStayFree(t, statements[..n], files);
    }
    ExecuteFree(ExecuteAll(t, statements[..n], files), statements[n], files);
  }

  lemma UnrollOne(t: Tables, n: nat, files: set<nat>)
    requires n < |STATEMENTS|
    ensures ExecuteAll(t, STATEMENTS[..n + 1], files) ==
      Execute(ExecuteAll(t, STATEMENTS[..n], files), STATEMENTS[n], files)
  {
    hide Execute;
    assert STATEMENTS[..n + 1][..n] == STATEMENTS[..n];
  }

  /** The statements before the one on symbols, one after the other. */
  function BeforeSymbols(t: Tables, files: set<nat>): Tables {
    var fewer := Execute(Execute(Execute(t, NullReceivers, files), DeleteSites, files), DeleteDefinitions, files);
    var more := Execute(Execute(Execute(fewer, DeleteIncludes, files), DeleteUnresolved, files), DeleteCalls, files);
    Execute(Execute(more, DeleteExpressions, files), DeleteRegions, files)
  }

  lemma Unrolled(t: Tables, files: set<nat>)
    ensures ExecuteAll(t, STATEMENTS, files) == Execute(BeforeSymbols(t, files), DeleteSymbols, files)
  {
    hide Execute, ExecuteAll;
    NothingExecuted(t, files);
    forall n | 0 <= n < |STATEMENTS|
      ensures ExecuteAll(t, STATEMENTS[..n + 1], files) ==
              Execute(ExecuteAll(t, STATEMENTS[..n], files), STATEMENTS[n], files)
    {
      UnrollOne(t, n, files);
    }
    assert STATEMENTS[..8 + 1] == STATEMENTS;
    assert ExecuteAll(t, STATEMENTS[..0 + 1], files) == Execute(t, NullReceivers, files);
    assert ExecuteAll(t, STATEMENTS[..1 + 1], files) ==
      Execute(ExecuteAll(t, STATEMENTS[..1], files), DeleteSites, files);
    assert ExecuteAll(t, STATEMENTS[..2 + 1], files) ==
           Execute(ExecuteAll(t, STATEMENTS[..2], files), DeleteDefinitions, files);
    assert ExecuteAll(t, STATEMENTS[..3 + 1], files) ==
           Execute(ExecuteAll(t, STATEMENTS[..3], files), DeleteIncludes, files);
    assert ExecuteAll(t, STATEMENTS[..4 + 1], files) ==
           Execute(ExecuteAll(t, STATEMENTS[..4], files), DeleteUnresolved, files);
    assert ExecuteAll(t, STATEMENTS[..5 + 1], files) ==
      Execute(ExecuteAll(t, STATEMENTS[..5], files), DeleteCalls, files);
    assert ExecuteAll(t, STATEMENTS[..6 + 1], files) ==
           Execute(ExecuteAll(t, STATEMENTS[..6], files), DeleteExpressions, files);
    assert ExecuteAll(t, STATEMENTS[..7 + 1], files) ==
           Execute(ExecuteAll(t, STATEMENTS[..7], files), DeleteRegions, files);
  }

  lemma NothingExecuted(t: Tables, files: set<nat>)
    ensures ExecuteAll(t, STATEMENTS[..0], files) == t
  {
  }

  /** The tables once all but the symbols are gone. */
  function KeepingSymbols(t: Tables, files: set<nat>): Tables {
    t.(sites := map k | k in t.sites && k.file !in files :: WithoutReceiver(t.sites[k], files),
       external := (set k | k in t.external && k.file !in files),
       definitions := map s | s in t.definitions && t.definitions[s] !in files :: t.definitions[s],
       unresolved := (set c | c in t.unresolved && c.file !in files),
       calls := map c | c in t.calls && c.file !in files :: t.calls[c],
       includes := (set i | i in t.includes && i.0 !in files),
       expressions := map e | e in t.expressions && t.expressions[e].file !in files :: t.expressions[e],
       regions := map g | g in t.regions && t.regions[g].file !in files :: t.regions[g])
  }

  lemma FirstThree(t: Tables, files: set<nat>)
    requires t.external <= t.sites.Keys
    ensures var keeping := KeepingSymbols(t, files);
      Execute(Execute(Execute(t, NullReceivers, files), DeleteSites, files), DeleteDefinitions, files) ==
      t.(sites := keeping.sites, external := keeping.external, definitions := keeping.definitions)
  {
    hide WithoutReceiver;
    var nulled := Execute(t, NullReceivers, files);
    var fewer := Execute(nulled, DeleteSites, files);
    var keeping := KeepingSymbols(t, files);
    assert fewer.sites == keeping.sites by {
      assert forall k :: k in fewer.sites <==> k in keeping.sites;
    }
    assert nulled.sites.Keys == t.sites.Keys && nulled.external == t.external;
    assert fewer.external == keeping.external;
  }

  lemma NextThree(t: Tables, files: set<nat>)
    ensures var keeping := KeepingSymbols(t, files);
      Execute(Execute(Execute(t, DeleteIncludes, files), DeleteUnresolved, files), DeleteCalls, files) ==
      t.(includes := keeping.includes, unresolved := keeping.unresolved, calls := keeping.calls)
  {
  }

  lemma LastTwo(t: Tables, files: set<nat>)
    ensures var keeping := KeepingSymbols(t, files);
      Execute(Execute(t, DeleteExpressions, files), DeleteRegions, files) ==
      t.(expressions := keeping.expressions, regions := keeping.regions)
  {
  }

  lemma KeepsSymbols(t: Tables, files: set<nat>)
    requires t.external <= t.sites.Keys
    ensures BeforeSymbols(t, files) == KeepingSymbols(t, files)
  {
    hide Execute;
    FirstThree(t, files);
    var fewer := Execute(Execute(Execute(t, NullReceivers, files), DeleteSites, files), DeleteDefinitions, files);
    NextThree(fewer, files);
    var more := Execute(Execute(Execute(fewer, DeleteIncludes, files), DeleteUnresolved, files), DeleteCalls, files);
    LastTwo(more, files);
    SameElsewhere(t, fewer, more, files);
    hide KeepingSymbols;
  }

  /** What a statement deletes does not depend on the tables it does not touch. */
  lemma SameElsewhere(t: Tables, fewer: Tables, more: Tables, files: set<nat>)
    requires fewer.includes == t.includes && fewer.unresolved == t.unresolved && fewer.calls == t.calls
    requires more.expressions == t.expressions && more.regions == t.regions
    ensures var keeping := KeepingSymbols(t, files);
      KeepingSymbols(fewer, files).includes == keeping.includes &&
      KeepingSymbols(fewer, files).unresolved == keeping.unresolved &&
      KeepingSymbols(fewer, files).calls == keeping.calls &&
      KeepingSymbols(more, files).expressions == keeping.expressions &&
      KeepingSymbols(more, files).regions == keeping.regions
  {
  }

  lemma LeavesSymbols(t: Tables, files: set<nat>)
    requires Integrity(t)
    ensures var dropped, without := DropSymbols(KeepingSymbols(t, files), SymbolsIn(t, files)), Without(t, files);
      dropped.symbols == without.symbols && dropped.definitions == without.definitions &&
      dropped.relations == without.relations && dropped.provenance == without.provenance
  {
    hide WithoutReceiver, SiteStays, CallStays, ExpressionStays, KeptExpressions, KeptRegions, EvidenceKnown;
  }

  lemma SiteEndsKnown(t: Tables)
    requires Integrity(t)
    ensures forall k <- t.sites :: k.relation.source in t.symbols && k.relation.destination in t.symbols
  {
  }

  lemma LeavesSites(t: Tables, files: set<nat>)
    requires forall k <- t.sites :: k.relation.source in t.symbols && k.relation.destination in t.symbols
    requires t.external <= t.sites.Keys
    ensures var dropped, without := DropSymbols(KeepingSymbols(t, files), SymbolsIn(t, files)), Without(t, files);
      dropped.sites == without.sites && dropped.external == without.external
  {
    hide WithoutReceiver, CallStays, ExpressionStays, KeptExpressions, KeptRegions;
    var dropped, without := DropSymbols(KeepingSymbols(t, files), SymbolsIn(t, files)), Without(t, files);
    forall k <- t.sites ensures k in dropped.sites <==> k in without.sites {
    }
  }

  lemma LeavesCalls(t: Tables, files: set<nat>)
    requires Integrity(t)
    ensures var dropped, without := DropSymbols(KeepingSymbols(t, files), SymbolsIn(t, files)), Without(t, files);
      dropped.calls == without.calls && dropped.unresolved == without.unresolved
  {
    hide WithoutReceiver, SiteStays, ExpressionStays, KeptExpressions, KeptRegions, EvidenceKnown;
  }

  lemma EvidenceOf(t: Tables)
    requires Integrity(t)
    ensures EvidenceKnown(t.expressions, t.regions, t.symbols.Keys)
  {
  }

  lemma LeavesExpressions(t: Tables, files: set<nat>)
    requires EvidenceKnown(t.expressions, t.regions, t.symbols.Keys)
    ensures var dropped, without := DropSymbols(KeepingSymbols(t, files), SymbolsIn(t, files)), Without(t, files);
      dropped.expressions == without.expressions && dropped.includes == without.includes
  {
    hide WithoutReceiver, SiteStays, CallStays, KeptRegions;
  }

  lemma LeavesRegions(t: Tables, files: set<nat>)
    requires EvidenceKnown(t.expressions, t.regions, t.symbols.Keys)
    ensures var dropped, without := DropSymbols(KeepingSymbols(t, files), SymbolsIn(t, files)), Without(t, files);
      dropped.regions == without.regions
  {
    hide WithoutReceiver, SiteStays, CallStays, KeptExpressions;
  }

  lemma DropSymbolsLeaves(t: Tables, files: set<nat>)
    requires Integrity(t)
    ensures DropSymbols(KeepingSymbols(t, files), SymbolsIn(t, files)) == Without(t, files)
  {
    hide *;
    LeavesSymbols(t, files);
    SiteEndsKnown(t);
    ExternalStored(t);
    LeavesSites(t, files);
    LeavesCalls(t, files);
    EvidenceOf(t);
    LeavesExpressions(t, files);
    LeavesRegions(t, files);
  }

  /** The cascade of statements leaves exactly the rows that do not belong to a moved file. */
  lemma StatementsLeaveExactly(t: Tables, files: set<nat>)
    requires Integrity(t)
    ensures ExecuteAll(t, STATEMENTS, files) == Without(t, files)
  {
    hide ExecuteAll, Without, KeepingSymbols, BeforeSymbols, Integrity;
    Unrolled(t, files);
    ExternalStored(t);
    KeepsSymbols(t, files);
    SymbolsKept(t, files);
    DropSymbolsLeaves(t, files);
  }

  lemma SymbolsKept(t: Tables, files: set<nat>)
    ensures Execute(KeepingSymbols(t, files), DeleteSymbols, files) ==
            DropSymbols(KeepingSymbols(t, files), SymbolsIn(t, files))
  {
    hide DropSymbols;
  }

  // ----- the operation -----

  lemma SymbolsFree(base: Tables, done: set<nat>, file: nat)
    requires ReceiversFree(base, done + {file})
    ensures ReceiversFree(Execute(base, DeleteSymbols, done), {file})
  {
  }

  lemma FewerFree(t: Tables, files: set<nat>, fewer: set<nat>)
    requires ReceiversFree(t, files) && fewer <= files
    ensures ReceiversFree(t, fewer)
  {
  }

  lemma ProvenanceIntegrity(t: Tables, provenance: map<nat, Provenance>)
    requires Integrity(t)
    ensures Integrity(t.(provenance := provenance))
  {
  }

  lemma FilesStep(rows: seq<FactProvenance>, i: nat)
    requires i < |rows|
    ensures FilesOf(rows[..i + 1]) == FilesOf(rows[..i]) + {rows[i].file} <= FilesOf(rows)
    ensures rows[..i + 1][..i] == rows[..i]
    ensures PathsOf(rows[..i + 1]) == PathsOf(rows[..i])[rows[i].file := rows[i].path]
  {
    assert rows[..i + 1] == rows[..i] + [rows[i]];
    assert rows[..i + 1][..i] == rows[..i];
  }

  lemma {:induction false} PathFiles(rows: seq<FactProvenance>)
    ensures PathsOf(rows).Keys == FilesOf(rows)
  {
    if rows != [] {
      PathFiles(rows[..|rows| - 1]);
      FilesStep(rows, |rows| - 1);
      assert rows[..|rows|] == rows;
    }
  }

  lemma StatementsStep(i: nat)
    requires i < |STATEMENTS|
    ensures STATEMENTS[..i + 1][..i] == STATEMENTS[..i] && STATEMENTS[..i + 1][i] == STATEMENTS[i]
    ensures STATEMENTS[i] == DeleteSymbols ==> STATEMENTS[..i] != [] && STATEMENTS[..i][0] == NullReceivers
  {
  }

  lemma RepathStep(provenance: map<nat, Provenance>, paths: map<nat, string>, file: nat, path: string)
    ensures var before := Repathed(provenance, paths);
      Repathed(provenance, paths[file := path]) ==
      if file in before then before[file := before[file].(path := path)] else before
  {
  }

  lemma NoFiles(t: Tables, statement: Statement, rows: seq<FactProvenance>)
    requires Integrity(t)
    ensures Execute(t, statement, FilesOf(rows[..0])) == t
  {
    assert FilesOf(rows[..0]) == {};
    ExecuteNothing(t, statement);
  }

  lemma NoPaths(t: Tables, rows: seq<FactProvenance>)
    ensures t.(provenance := Repathed(t.provenance, PathsOf(rows[..0]))) == t
  {
    assert Repathed(t.provenance, map[]) == t.provenance;
  }

  lemma KeptProvenance(t: Tables, files: set<nat>)
    ensures Without(t, files).provenance == t.provenance
  {
  }

  ghost predicate Examined(t: Tables, rows: seq<FactProvenance>, selected: set<nat>, requested: set<nat>,
                           changed: seq<FactProvenance>)
  {
    && requested == (set f | f in selected && FirstRow(rows, f).None?)
    && changed == Changed(t, rows, selected) && PathsOf(changed) == NewPaths(t, rows, selected)
    && (forall f <- selected | FirstRow(rows, f).Some? :: Acceptable(t, FirstRow(rows, f).value))
  }

  lemma ExaminedStep(t: Tables, rows: seq<FactProvenance>, i: nat, selected: set<nat>, requested: set<nat>,
                     changed: seq<FactProvenance>)
    requires i < |rows| && Examined(t, rows[..i], selected, requested, changed)
    ensures rows[i].file !in requested ==> Examined(t, rows[..i + 1], selected, requested, changed)
    ensures rows[i].file in requested && Acceptable(t, rows[i]) ==>
      Examined(t, rows[..i + 1], selected, requested - {rows[i].file},
               if Moves(t, rows[i]) then changed + [rows[i]] else changed)
    ensures rows[i].file in requested && !Acceptable(t, rows[i]) ==> !AcceptsRefresh(t, rows, selected)
  {
    hide Acceptable, Moves, Matches;
    assert rows[..i + 1][..i] == rows[..i];
    assert (changed + [rows[i]])[..|changed|] == changed;
    forall f ensures FirstRow(rows[..i + 1], f) ==
      if FirstRow(rows[..i], f).None? && rows[i].file == f then Some(rows[i]) else FirstRow(rows[..i], f) {
    }
    FirstRowStays(rows, i + 1, rows[i].file);
    if rows[i].file in requested && Acceptable(t, rows[i]) {
      assert NewPaths(t, rows[..i + 1], selected) ==
        if Moves(t, rows[i]) then NewPaths(t, rows[..i], selected)[rows[i].file := rows[i].path]
        else NewPaths(t, rows[..i], selected);
    }
    if rows[i].file !in requested {
      assert NewPaths(t, rows[..i + 1], selected) == NewPaths(t, rows[..i], selected);
    }
    if rows[i].file in requested && !Acceptable(t, rows[i]) {
      assert !AcceptableFile(t, rows, rows[i].file);
    }
  }

  lemma {:induction false} FirstRowStays(rows: seq<FactProvenance>, i: nat, file: nat)
    requires i <= |rows| && FirstRow(rows[..i], file).Some?
    ensures FirstRow(rows, file) == FirstRow(rows[..i], file)
    decreases |rows|
  {
    if i == |rows| {
      assert rows[..i] == rows;
    } else {
      assert rows[..|rows| - 1][..i] == rows[..i];
      FirstRowStays(rows[..|rows| - 1], i, file);
    }
  }

  lemma NothingExamined(t: Tables, rows: seq<FactProvenance>, selected: set<nat>)
    ensures Examined(t, rows[..0], selected, selected, [])
  {
  }

  lemma AllExamined(t: Tables, rows: seq<FactProvenance>, selected: set<nat>, requested: set<nat>,
                    changed: seq<FactProvenance>)
    requires Examined(t, rows, selected, requested, changed)
    ensures requested == {} <==> AcceptsRefresh(t, rows, selected)
    ensures changed == Changed(t, rows, selected) && PathsOf(changed) == NewPaths(t, rows, selected)
  {
    if requested == {} {
      forall f <- selected ensures AcceptableFile(t, rows, f) {
        assert f !in requested;
      }
    } else {
      var f :| f in requested;
      assert !AcceptableFile(t, rows, f);
    }
  }

  /** The paths of the changed rows are the new paths. */
  lemma {:induction false} ChangedPaths(t: Tables, rows: seq<FactProvenance>, selected: set<nat>)
    ensures PathsOf(Changed(t, rows, selected)) == NewPaths(t, rows, selected)
  {
    hide Moves;
    if rows != [] {
      var n := |rows| - 1;
      var before := Changed(t, rows[..n], selected);
      ChangedPaths(t, rows[..n], selected);
      assert (before + [rows[n]])[..|before|] == before;
      forall f ensures FirstRow(rows, f) ==
        if FirstRow(rows[..n], f).None? && rows[n].file == f then Some(rows[n]) else FirstRow(rows[..n], f) {
      }
      assert NewPaths(t, rows, selected) ==
        if rows[n].file in selected && FirstRow(rows[..n], rows[n].file).None? && Moves(t, rows[n]) then
          NewPaths(t, rows[..n], selected)[rows[n].file := rows[n].path]
        else NewPaths(t, rows[..n], selected);
    }
  }

  lemma WithoutNothing(t: Tables)
    ensures Without(t, {}) == t
  {
    var same := Without(t, {});
    assert same.symbols == t.symbols && same.definitions == t.definitions && same.relations == t.relations;
    assert same.sites == t.sites && same.external == t.external;
    assert same.calls == t.calls && same.unresolved == t.unresolved;
    assert same.includes == t.includes && same.expressions == t.expressions && same.regions == t.regions;
  }

  lemma NothingChanged(t: Tables)
    ensures RefreshedTables(t, PathsOf([])) == t
  {
    hide Without;
    assert PathsOf([]).Keys == {};
    WithoutNothing(t);
    KeptProvenance(t, {});
    assert Repathed(t.provenance, map[]) == t.provenance;
  }

  function SetOf(files: seq<nat>): set<nat> {
    set f | f in files
  }

  function Files(rows: seq<FactProvenance>): seq<nat> {
    seq(|rows|, i requires 0 <= i < |rows| => rows[i].file)
  }

  lemma FilesInOrder(rows: seq<FactProvenance>)
    ensures SetOf(Files(rows)) == FilesOf(rows)
  {
    forall row <- rows ensures row.file in Files(rows) {
      var i :| 0 <= i < |rows| && rows[i] == row;
      assert Files(rows)[i] == row.file;
    }
  }

  lemma NoneOf()
    ensures FilesOf([]) == {} == SetOf([])
  {
  }

  // ----- what a refresh means for the rest of the facts -----

  /** Afterwards every selected file with aliases and a stored identity is stored under the row's path. */
  lemma SelectedEndOnSnapshotPath(t: Tables, rows: seq<FactProvenance>, selected: set<nat>, file: nat)
    requires AcceptsRefresh(t, rows, selected) && file in selected
    requires FirstRow(rows, file).value.aliases != [] && file in t.provenance
    ensures var next := RefreshedTables(t, NewPaths(t, rows, selected));
      file in next.provenance && next.provenance[file].path == FirstRow(rows, file).value.path &&
      next.provenance[file].universe == t.provenance[file].universe
  {
    hide Without;
    KeptProvenance(t, NewPaths(t, rows, selected).Keys);
    assert AcceptableFile(t, rows, file);
    FirstRowNames(rows, file);
  }

  lemma {:induction false} FirstRowNames(rows: seq<FactProvenance>, file: nat)
    ensures FirstRow(rows, file).Some? ==> FirstRow(rows, file).value.file == file && FirstRow(rows, file).value in rows
  {
    if rows != [] {
      FirstRowNames(rows[..|rows| - 1], file);
    }
  }

  /** The row can stand for a file exactly if the file is a real one, and the row has no aliases, or the file no stored
      identity, or that identity is one of the row's names in the row's universe. */
  lemma AcceptableExactly(t: Tables, row: FactProvenance)
    ensures Acceptable(t, row) <==>
      row.file > BUILTIN_FILE &&
      (|row.aliases| == 0 || row.file !in t.provenance ||
       exists name <- [row.path] + row.aliases :: t.provenance[row.file] == Provenance(name, row.universe))
  {
    if row.file in t.provenance {
      assert t.provenance[row.file] == Provenance(t.provenance[row.file].path, t.provenance[row.file].universe);
      assert forall name :: name in [row.path] + row.aliases <==> name == row.path || name in row.aliases;
    }
  }

  /** A refresh gives a file another path only if it is selected and stored under an alias of its row, in the same
      universe, and then the path of that row. */
  lemma OnlyAliasesMove(t: Tables, rows: seq<FactProvenance>, selected: set<nat>, file: nat)
    requires AcceptsRefresh(t, rows, selected)
    ensures var next := RefreshedTables(t, NewPaths(t, rows, selected)).provenance;
      (file in next <==> file in t.provenance) &&
      (file in next && next[file] != t.provenance[file] ==>
         file in selected && exists row <- rows ::
           row.file == file && t.provenance[file].path in row.aliases && next[file].path == row.path &&
           next[file].universe == t.provenance[file].universe == row.universe)
  {
    hide Without;
    KeptProvenance(t, NewPaths(t, rows, selected).Keys);
    FirstRowNames(rows, file);
    if file in NewPaths(t, rows, selected) {
      assert AcceptableFile(t, rows, file);
    }
  }

  /** A second refresh with the same rows is accepted and finds nothing moved. */
  lemma RefreshSettles(t: Tables, rows: seq<FactProvenance>, selected: set<nat>)
    requires AcceptsRefresh(t, rows, selected)
    ensures var next := RefreshedTables(t, NewPaths(t, rows, selected));
      AcceptsRefresh(next, rows, selected) && RefreshedTables(next, NewPaths(next, rows, selected)) == next
  {
    var paths := NewPaths(t, rows, selected);
    var next := RefreshedTables(t, paths);
    hide Without;
    KeptProvenance(t, paths.Keys);
    assert next.provenance == Repathed(t.provenance, paths);
    hide RefreshedTables;
    forall f <- selected ensures AcceptableFile(next, rows, f) && f !in NewPaths(next, rows, selected) {
      assert AcceptableFile(t, rows, f);
      FirstRowNames(rows, f);
    }
    assert NewPaths(next, rows, selected) == map[] == PathsOf([]);
    NothingChanged(next);
  }

  /** Kind-24 sites and pointer-call rows go together, so that their agreement survives a refresh. */
  lemma RefreshKeepsSitesAndCalls(t: Tables, moved: set<nat>, key: SiteKey)
    requires key.relation.kind == POINTER_CALLS && (key in t.sites <==> NamedBy(t.calls, key))
    ensures key in Without(t, moved).sites <==> NamedBy(Without(t, moved).calls, key)
  {
  }

  /** Counts are not taken again: a relation that stays is still counted exactly if none of its sites was in a
      moved file. */
  lemma CountSurvivesExactly(t: Tables, moved: set<nat>, r: RelationKey)
    requires Counted(t, r) && r in Without(t, moved).relations
    ensures Counted(Without(t, moved), r) <==> forall k <- SitesOf(t.sites, r) :: k.file !in moved
  {
    var before, after := SitesOf(t.sites, r), SitesOf(Without(t, moved).sites, r);
    assert after == set k | k in before && k.file !in moved;
    if exists k <- before :: k.file in moved {
      var k :| k in before && k.file in moved;
      SmallerSet(after, before, k);
    } else {
      assert after == before;
    }
  }

  lemma SmallerSet(small: set<SiteKey>, large: set<SiteKey>, missing: SiteKey)
    requires small <= large && missing in large && missing !in small
    ensures |small| < |large|
  {
    assert large == small + (large - small);
    assert missing in large - small;
  }

  /** A site that stays keeps a valid context exactly if its receiver, when it has one, is not in a moved file:
      clearing the receiver leaves the certainty as it was. */
  lemma ContextSurvivesExactly(t: Tables, moved: set<nat>, key: SiteKey)
    requires key in Without(t, moved).sites && ValidPair(RowContext(t.sites[key]))
    ensures ValidPair(RowContext(Without(t, moved).sites[key])) <==>
      (t.sites[key].receiver.Some? ==> t.sites[key].receiver.value.file !in moved)
  {
  }
}
