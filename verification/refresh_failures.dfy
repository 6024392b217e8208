/** What a clone refresh leaves that stops half way (src/storage/CloneRefresh.cpp): statement by statement and file by
    file, and exactly when counts, contexts and the agreement of pointer calls survive it or the whole refresh. */
module RefreshFailures {
  import opened Text
  import opened PointerBatch
  import opened FactTables
  import opened FactOperations
  import opened FactFailures
  import opened CloneRefresh

  const PATHS := |STATEMENTS|

  /** The statements that are through, and how many of the moved files the next one has reached; the last statement
      sets the new paths. */
  datatype RefreshProgress = RefreshProgress(statement: nat, row: nat)

  predicate RefreshReach(moved: seq<FactProvenance>, p: RefreshProgress) {
    p.statement <= PATHS && p.row <= |moved|
  }

  function PartialRefresh(t: Tables, moved: seq<FactProvenance>, p: RefreshProgress): Tables
    requires RefreshReach(moved, p)
  {
    var left := ExecuteAll(t, STATEMENTS[..p.statement], FilesOf(moved));
    if p.statement < PATHS then Execute(left, STATEMENTS[p.statement], FilesOf(moved[..p.row]))
    else left.(provenance := Repathed(left.provenance, PathsOf(moved[..p.row])))
  }

  /** The files that a statement has reached. */
  function Reached(moved: seq<FactProvenance>, p: RefreshProgress, n: nat): set<nat>
    requires RefreshReach(moved, p)
  {
    if p.statement > n then FilesOf(moved) else if p.statement == n then FilesOf(moved[..p.row]) else {}
  }

  /** The whole refresh is the last stop. */
  lemma WholeRefresh(t: Tables, moved: seq<FactProvenance>)
    requires Integrity(t)
    ensures PartialRefresh(t, moved, RefreshProgress(PATHS, |moved|)) == RefreshedTables(t, PathsOf(moved))
  {
    hide Execute, Without, FilesOf, PathsOf;
    assert STATEMENTS[..|STATEMENTS|] == STATEMENTS && moved[..|moved|] == moved;
    StatementsLeaveExactly(t, FilesOf(moved));
    PathFiles(moved);
    KeptProvenance(t, FilesOf(moved));
  }

  // ----- what each statement reaches -----

  /** The files whose receivers, sites, pointer-call rows and symbols are gone. */
  datatype Gone = Gone(receivers: set<nat>, sites: set<nat>, calls: set<nat>, symbols: set<nat>)

  predicate EndsStay(r: RelationKey, gone: Gone) {
    r.source.file !in gone.symbols && r.destination.file !in gone.symbols
  }

  predicate RowStays(key: CallKey, row: CallRow, gone: Gone) {
    key.file !in gone.calls && key.source.file !in gone.symbols &&
    (row.target.Some? ==> row.target.value.file !in gone.symbols)
  }

  function LeftRelations(t: Tables, gone: Gone): map<RelationKey, RelationRow> {
    map r | r in t.relations && EndsStay(r, gone) :: t.relations[r]
  }

  predicate Stays(key: SiteKey, gone: Gone) {
    key.file !in gone.sites && EndsStay(key.relation, gone)
  }

  function LeftSites(t: Tables, gone: Gone): map<SiteKey, SiteRow> {
    map k | k in t.sites && Stays(k, gone) :: WithoutReceiver(t.sites[k], gone.receivers)
  }

  function LeftCalls(t: Tables, gone: Gone): map<CallKey, CallRow> {
    map c | c in t.calls && RowStays(c, t.calls[c], gone) :: t.calls[c]
  }

  /** What is left of relations, sites and pointer calls. */
  ghost predicate Leaves(t: Tables, next: Tables, gone: Gone) {
    && (forall s :: s in next.symbols <==> s in t.symbols && s.file !in gone.symbols)
    && next.relations == LeftRelations(t, gone) && next.sites == LeftSites(t, gone)
    && next.calls == LeftCalls(t, gone)
  }

  /** The ends of what is stored are stored, as far as this needs it. */
  ghost predicate EndsKnown(t: Tables) {
    && (forall r <- t.relations :: r.source in t.symbols && r.destination in t.symbols)
    && (forall k <- t.sites :: k.relation.source in t.symbols && k.relation.destination in t.symbols)
    && (forall c <- t.calls :: c.source in t.symbols &&
          (t.calls[c].target.Some? ==> t.calls[c].target.value in t.symbols))
  }

  function WithStatement(gone: Gone, statement: Statement, files: set<nat>): Gone {
    match statement
    case NullReceivers => gone.(receivers := files)
    case DeleteSites => gone.(sites := files)
    case DeleteCalls => gone.(calls := files)
    case DeleteSymbols => gone.(symbols := files)
    case _ => gone
  }

  predicate NotYet(gone: Gone, statement: Statement) {
    match statement
    case NullReceivers => gone.receivers == {}
    case DeleteSites => gone.sites == {}
    case DeleteCalls => gone.calls == {}
    case DeleteSymbols => gone.symbols == {}
    case _ => true
  }

  lemma LeavesStep(t: Tables, mid: Tables, gone: Gone, statement: Statement, files: set<nat>)
    requires EndsKnown(t) && Leaves(t, mid, gone) && NotYet(gone, statement)
    ensures Leaves(t, Execute(mid, statement, files), WithStatement(gone, statement, files))
  {
    match statement
    case NullReceivers => NullStep(t, mid, gone, files);
    case DeleteSites => SitesStep(t, mid, gone, files);
    case DeleteCalls => CallsStep(t, mid, gone, files);
    case DeleteSymbols => SymbolsStep(t, mid, gone, files);
    case _ =>
  }

  lemma NullStep(t: Tables, mid: Tables, gone: Gone, files: set<nat>)
    requires Leaves(t, mid, gone) && gone.receivers == {}
    ensures Leaves(t, Execute(mid, NullReceivers, files), gone.(receivers := files))
  {
    hide Stays, EndsStay, RowStays;
    var next := Execute(mid, NullReceivers, files);
    forall k <- t.sites | Stays(k, gone) ensures next.sites[k] == WithoutReceiver(t.sites[k], files) {
      assert mid.sites[k] == t.sites[k];
    }
    SameStays(gone, gone.(receivers := files));
    assert LeftSites(t, gone.(receivers := files)) == next.sites;
    assert LeftRelations(t, gone.(receivers := files)) == next.relations;
    assert LeftCalls(t, gone.(receivers := files)) == next.calls;
  }

  lemma SameStays(gone: Gone, more: Gone)
    requires more == gone.(receivers := more.receivers)
    ensures forall k :: Stays(k, gone) <==> Stays(k, more)
    ensures forall r :: EndsStay(r, gone) <==> EndsStay(r, more)
    ensures forall c, row :: RowStays(c, row, gone) <==> RowStays(c, row, more)
  {
  }

  /** What is left of one table depends on the files reached by the statements on it. */
  lemma SameLeft(t: Tables, gone: Gone, more: Gone)
    requires gone.symbols == more.symbols
    ensures LeftRelations(t, gone) == LeftRelations(t, more)
    ensures gone.calls == more.calls ==> LeftCalls(t, gone) == LeftCalls(t, more)
    ensures gone.sites == more.sites && gone.receivers == more.receivers ==> LeftSites(t, gone) == LeftSites(t, more)
  {
    hide WithoutReceiver;
  }

  lemma SitesStep(t: Tables, mid: Tables, gone: Gone, files: set<nat>)
    requires Leaves(t, mid, gone) && gone.sites == {}
    ensures Leaves(t, Execute(mid, DeleteSites, files), gone.(sites := files))
  {
    SameLeft(t, gone, gone.(sites := files));
    FewerSites(t, mid, gone, files);
    hide LeftRelations, LeftCalls, LeftSites;
  }

  lemma FewerSites(t: Tables, mid: Tables, gone: Gone, files: set<nat>)
    requires mid.sites == LeftSites(t, gone) && gone.sites == {}
    ensures Execute(mid, DeleteSites, files).sites == LeftSites(t, gone.(sites := files))
  {
    hide WithoutReceiver, EndsStay;
    var next, more := Execute(mid, DeleteSites, files), gone.(sites := files);
    assert forall r :: EndsStay(r, more) <==> EndsStay(r, gone) by {
      SameEnds(gone, more);
    }
    assert next.sites == LeftSites(t, more);
  }

  lemma SameEnds(gone: Gone, more: Gone)
    requires gone.symbols == more.symbols
    ensures forall r :: EndsStay(r, more) <==> EndsStay(r, gone)
  {
  }

  lemma CallsStep(t: Tables, mid: Tables, gone: Gone, files: set<nat>)
    requires Leaves(t, mid, gone) && gone.calls == {}
    ensures Leaves(t, Execute(mid, DeleteCalls, files), gone.(calls := files))
  {
    SameLeft(t, gone, gone.(calls := files));
    FewerCalls(t, mid, gone, files);
    hide LeftRelations, LeftCalls, LeftSites;
  }

  lemma FewerCalls(t: Tables, mid: Tables, gone: Gone, files: set<nat>)
    requires mid.calls == LeftCalls(t, gone) && gone.calls == {}
    ensures Execute(mid, DeleteCalls, files).calls == LeftCalls(t, gone.(calls := files))
  {
  }

  lemma SymbolsStep(t: Tables, mid: Tables, gone: Gone, files: set<nat>)
    requires EndsKnown(t) && Leaves(t, mid, gone) && gone.symbols == {}
    ensures Leaves(t, Execute(mid, DeleteSymbols, files), gone.(symbols := files))
  {
    hide KeptExpressions, KeptRegions;
    var next := Execute(mid, DeleteSymbols, files);
    assert forall s <- t.symbols :: s in SymbolsIn(mid, files) <==> s.file in files;
    DroppedRelations(t, mid, gone, files);
    DroppedSites(t, mid, gone, files);
    DroppedCalls(t, mid, gone, files);
    hide LeftRelations, LeftSites, LeftCalls;
  }

  lemma DroppedRelations(t: Tables, mid: Tables, gone: Gone, files: set<nat>)
    requires EndsKnown(t) && mid.relations == LeftRelations(t, gone) && gone.symbols == {}
    requires forall s <- t.symbols :: s in SymbolsIn(mid, files) <==> s.file in files
    ensures Execute(mid, DeleteSymbols, files).relations == LeftRelations(t, gone.(symbols := files))
  {
    hide KeptExpressions, KeptRegions, WithoutReceiver, SymbolsIn;
  }

  lemma DroppedSites(t: Tables, mid: Tables, gone: Gone, files: set<nat>)
    requires EndsKnown(t) && mid.sites == LeftSites(t, gone) && gone.symbols == {}
    requires forall s <- t.symbols :: s in SymbolsIn(mid, files) <==> s.file in files
    ensures Execute(mid, DeleteSymbols, files).sites == LeftSites(t, gone.(symbols := files))
  {
    hide KeptExpressions, KeptRegions, WithoutReceiver, SymbolsIn;
  }

  lemma DroppedCalls(t: Tables, mid: Tables, gone: Gone, files: set<nat>)
    requires EndsKnown(t) && mid.calls == LeftCalls(t, gone) && gone.symbols == {}
    requires forall s <- t.symbols :: s in SymbolsIn(mid, files) <==> s.file in files
    ensures Execute(mid, DeleteSymbols, files).calls == LeftCalls(t, gone.(symbols := files))
  {
    hide KeptExpressions, KeptRegions, WithoutReceiver, SymbolsIn;
  }

  /** The files reached at a stop. */
  function GoneAt(moved: seq<FactProvenance>, p: RefreshProgress): Gone
    requires RefreshReach(moved, p)
  {
    Gone(Reached(moved, p, 0), Reached(moved, p, 1), Reached(moved, p, 5), Reached(moved, p, 8))
  }

  /** The files reached so far and those of the next statement make those reached at the next stop. */
  lemma GoneStep(moved: seq<FactProvenance>, n: nat, row: nat)
    requires n < PATHS && row <= |moved|
    ensures NotYet(GoneAt(moved, RefreshProgress(n, 0)), STATEMENTS[n])
    ensures GoneAt(moved, RefreshProgress(n, row)) ==
      WithStatement(GoneAt(moved, RefreshProgress(n, 0)), STATEMENTS[n], FilesOf(moved[..row]))
    ensures GoneAt(moved, RefreshProgress(n + 1, 0)) ==
      WithStatement(GoneAt(moved, RefreshProgress(n, 0)), STATEMENTS[n], FilesOf(moved))
  {
    assert FilesOf(moved[..0]) == {};
    hide FilesOf;
  }

  lemma {:induction false} StatementsLeave(t: Tables, moved: seq<FactProvenance>, n: nat)
    requires Integrity(t) && n <= PATHS
    ensures Leaves(t, ExecuteAll(t, STATEMENTS[..n], FilesOf(moved)), GoneAt(moved, RefreshProgress(n, 0)))
  {
    if n == 0 {
      assert FilesOf(moved[..0]) == {};
      NothingExecuted(t, FilesOf(moved));
      NothingGone(t);
    } else {
      StatementsLeave(t, moved, n - 1);
      UnrollOne(t, n - 1, FilesOf(moved));
      AllEndsKnown(t);
      GoneStep(moved, n - 1, 0);
      hide *;
      LeavesStep(t, ExecuteAll(t, STATEMENTS[..n - 1], FilesOf(moved)), GoneAt(moved, RefreshProgress(n - 1, 0)),
                 STATEMENTS[n - 1], FilesOf(moved));
    }
  }

  lemma AllEndsKnown(t: Tables)
    requires Integrity(t)
    ensures EndsKnown(t)
  {
  }

  lemma NothingGone(t: Tables)
    ensures Leaves(t, t, Gone({}, {}, {}, {}))
  {
    var gone := Gone({}, {}, {}, {});
    assert LeftSites(t, gone) == t.sites && LeftRelations(t, gone) == t.relations && LeftCalls(t, gone) == t.calls;
  }

  /** Wherever the refresh stops, exactly what its statements have reached is gone. */
  lemma PartialRefreshLeaves(t: Tables, moved: seq<FactProvenance>, p: RefreshProgress)
    requires Integrity(t) && RefreshReach(moved, p)
    ensures Leaves(t, PartialRefresh(t, moved, p), GoneAt(moved, p))
  {
    StatementsLeave(t, moved, p.statement);
    AllEndsKnown(t);
    if p.statement < PATHS {
      GoneStep(moved, p.statement, p.row);
      hide Execute, ExecuteAll, Integrity, Leaves, FilesOf, GoneAt, WithStatement, NotYet;
      LeavesStep(t, ExecuteAll(t, STATEMENTS[..p.statement], FilesOf(moved)),
                 GoneAt(moved, RefreshProgress(p.statement, 0)), STATEMENTS[p.statement], FilesOf(moved[..p.row]));
    } else {
      hide Execute, ExecuteAll, Integrity, LeftSites, LeftRelations, LeftCalls, FilesOf;
    }
  }

  // ----- what a refresh keeps, wherever it stops -----

  /** No foreign key dangles. */
  lemma PartialRefreshIntegrity(t: Tables, moved: seq<FactProvenance>, p: RefreshProgress)
    requires Integrity(t) && RefreshReach(moved, p)
    ensures Integrity(PartialRefresh(t, moved, p))
  {
    hide Integrity, Execute, ExecuteAll, ReceiversFree, FilesOf;
    StatementsIntegrity(t, FilesOf(moved), p.statement);
    var left := ExecuteAll(t, STATEMENTS[..p.statement], FilesOf(moved));
    if p.statement < PATHS {
      if STATEMENTS[p.statement] == DeleteSymbols {
        StatementsStep(p.statement);
        ReceiversStayFree(t, STATEMENTS[..p.statement], FilesOf(moved));
        FewerFiles(moved, p.row);
        FewerFree(left, FilesOf(moved), FilesOf(moved[..p.row]));
      }
      ExecuteIntegrity(left, STATEMENTS[p.statement], FilesOf(moved[..p.row]));
    } else {
      ProvenanceIntegrity(left, Repathed(left.provenance, PathsOf(moved[..p.row])));
    }
  }

  lemma FewerFiles(moved: seq<FactProvenance>, n: nat)
    requires n <= |moved|
    ensures FilesOf(moved[..n]) <= FilesOf(moved)
  {
  }

  lemma {:induction false} StatementsIntegrity(t: Tables, files: set<nat>, n: nat)
    requires Integrity(t) && n <= PATHS
    ensures Integrity(ExecuteAll(t, STATEMENTS[..n], files))
  {
    hide Integrity, Execute, ExecuteAll, ReceiversFree;
    if n == 0 {
      NothingExecuted(t, files);
    } else {
      StatementsIntegrity(t, files, n - 1);
      UnrollOne(t, n - 1, files);
      StatementsStep(n - 1);
      if STATEMENTS[n - 1] == DeleteSymbols {
        ReceiversStayFree(t, STATEMENTS[..n - 1], files);
      }
      ExecuteIntegrity(ExecuteAll(t, STATEMENTS[..n - 1], files), STATEMENTS[n - 1], files);
    }
  }

  // ----- what survives exactly -----

  /** The count of a relation survives exactly if the relation goes, or none of its sites was reached. */
  predicate RefreshCountSurvives(t: Tables, gone: Gone, r: RelationKey) {
    r in t.relations && EndsStay(r, gone) ==> forall k <- SitesOf(t.sites, r) :: k.file !in gone.sites
  }

  lemma LeftSitesOf(t: Tables, next: Tables, gone: Gone, r: RelationKey)
    requires Leaves(t, next, gone) && EndsStay(r, gone)
    ensures SitesOf(next.sites, r) <= SitesOf(t.sites, r)
    ensures |SitesOf(next.sites, r)| == |SitesOf(t.sites, r)| <==>
      forall k <- SitesOf(t.sites, r) :: k.file !in gone.sites
  {
    hide WithoutReceiver;
    var before, after := SitesOf(t.sites, r), SitesOf(next.sites, r);
    assert after == set k | k in before && k.file !in gone.sites;
    if exists k <- before :: k.file in gone.sites {
      var k :| k in before && k.file in gone.sites;
      SmallerSet(after, before, k);
    } else {
      assert after == before;
    }
  }

  lemma RefreshCountExactly(t: Tables, next: Tables, gone: Gone, r: RelationKey)
    requires Leaves(t, next, gone) && CountedIfStored(t, r)
    ensures CountedIfStored(next, r) <==> RefreshCountSurvives(t, gone, r)
  {
    if r in t.relations && EndsStay(r, gone) {
      LeftSitesOf(t, next, gone, r);
    }
    hide SitesOf, LeftSites, LeftCalls;
  }

  /** The agreement of pointer calls survives exactly if no pointer site whose relation stays was reached. */
  predicate RefreshPointersSurvive(t: Tables, gone: Gone) {
    forall k <- t.sites | k.relation.kind == POINTER_CALLS && EndsStay(k.relation, gone) :: k.file !in gone.sites
  }

  lemma RefreshPointersExactly(t: Tables, next: Tables, gone: Gone)
    requires Integrity(t) && Leaves(t, next, gone) && PointersAgree(t) && gone.calls <= gone.sites
    ensures PointersAgree(next) <==> RefreshPointersSurvive(t, gone)
  {
    AgreeMeans(t);
    AgreeMeans(next);
    if RefreshPointersSurvive(t, gone) {
      RefreshMatches(t, next, gone);
      RefreshInUse(t, next, gone);
    }
    if PointersAgree(next) {
      RefreshReachedNone(t, next, gone);
    }
    hide PointersAgree, Leaves, Integrity, SitesMatchRows;
  }

  lemma RefreshMatches(t: Tables, next: Tables, gone: Gone)
    requires Leaves(t, next, gone) && SitesMatchRows(t) && gone.calls <= gone.sites && RefreshPointersSurvive(t, gone)
    ensures SitesMatchRows(next)
  {
    hide WithoutReceiver, LeftRelations;
    forall k: SiteKey | k.relation.kind == POINTER_CALLS ensures k in next.sites <==> NamedBy(next.calls, k) {
      assert k in t.sites <==> NamedBy(t.calls, k);
    }
  }

  lemma RefreshInUse(t: Tables, next: Tables, gone: Gone)
    requires Leaves(t, next, gone) && RefreshPointersSurvive(t, gone)
    requires forall r <- t.relations | r.kind == POINTER_CALLS :: InUse(t, r)
    ensures forall r <- next.relations | r.kind == POINTER_CALLS :: InUse(next, r)
  {
    forall r <- next.relations | r.kind == POINTER_CALLS ensures InUse(next, r) {
      assert r in t.relations && InUse(t, r);
      LeftSitesOf(t, next, gone, r);
    }
  }

  lemma RefreshReachedNone(t: Tables, next: Tables, gone: Gone)
    requires Integrity(t) && Leaves(t, next, gone)
    requires forall r <- t.relations | r.kind == POINTER_CALLS :: InUse(t, r)
    requires forall r <- next.relations | r.kind == POINTER_CALLS :: InUse(next, r)
    ensures RefreshPointersSurvive(t, gone)
  {
    forall k <- t.sites | k.relation.kind == POINTER_CALLS && EndsStay(k.relation, gone) ensures k.file !in gone.sites {
      var r := k.relation;
      assert r in t.relations && InUse(t, r);
      assert r in next.relations && InUse(next, r);
      LeftSitesOf(t, next, gone, r);
      assert k in SitesOf(t.sites, r);
    }
  }

  /** Contexts survive exactly if no site that stays had its receiver reached. */
  predicate RefreshContextsSurvive(t: Tables, gone: Gone) {
    forall k <- t.sites | Stays(k, gone) && t.sites[k].receiver.Some? ::
      t.sites[k].receiver.value.file !in gone.receivers
  }

  lemma RefreshContextsExactly(t: Tables, next: Tables, gone: Gone)
    requires Leaves(t, next, gone) && ContextsValid(t)
    ensures ContextsValid(next) <==> RefreshContextsSurvive(t, gone)
  {
    hide Stays, LeftRelations, LeftCalls;
    forall k <- next.sites
      ensures ValidPair(RowContext(next.sites[k])) <==>
        (t.sites[k].receiver.Some? ==> t.sites[k].receiver.value.file !in gone.receivers)
    {
      assert ValidPair(RowContext(t.sites[k]));
    }
    assert next.sites.Keys == set k | k in t.sites && Stays(k, gone);
  }

  lemma CallsAfterSites(moved: seq<FactProvenance>, p: RefreshProgress)
    requires RefreshReach(moved, p)
    ensures GoneAt(moved, p).calls <= GoneAt(moved, p).sites
  {
    FewerFiles(moved, p.row);
  }

  // ----- the whole refresh -----

  /** Everything of the moved files is gone. */
  function AllOf(files: set<nat>): Gone {
    Gone(files, files, files, files)
  }

  /** After a whole refresh pointer-call rows and kind-24 sites agree, and kind-24 relations are counted and in use,
      exactly if every pointer site whose relation stays lay outside the moved files. */
  lemma RefreshAgreesExactly(t: Tables, moved: seq<FactProvenance>)
    requires Integrity(t) && PointersAgree(t)
    ensures PointersAgree(RefreshedTables(t, PathsOf(moved))) <==> RefreshPointersSurvive(t, AllOf(FilesOf(moved)))
  {
    hide PartialRefresh, RefreshedTables, PointersAgree, Integrity, Leaves, RefreshPointersSurvive, FilesOf, PathsOf;
    var p := RefreshProgress(PATHS, |moved|);
    WholeRefresh(t, moved);
    PartialRefreshLeaves(t, moved, p);
    RefreshPointersExactly(t, PartialRefresh(t, moved, p), GoneAt(moved, p));
  }

  // ----- such tables -----

  const CALLER := SymbolId(1, 0)
  const CALLEE := SymbolId(1, 1)
  const RECEIVER := SymbolId(2, 0)
  const CALL := RelationKey(CALLER, CALLEE, CALLS, 0)

  /** One call, seen in a file that moves and in one that stays, there on a receiver of the file that moves. */
  const SEEN_TWICE := Tables(
    map[CALLER := SymbolRow("caller", false), CALLEE := SymbolRow("callee", false),
        RECEIVER := SymbolRow("type", false)],
    map[], map[CALL := RelationRow(0, 2)],
    map[SiteKey(CALL, 2, 0) := SiteRow(1, 1, None, None),
        SiteKey(CALL, 1, 0) := SiteRow(1, 1, Some(RECEIVER), Some(Exact))],
    {}, map[], {}, map[], {}, map[], map[])

  lemma SeenTwiceIsSound()
    ensures Integrity(SEEN_TWICE) && ContextsValid(SEEN_TWICE)
  {
  }

  /** Sound tables that a refresh leaves with a wrong count and a context that does not fit together. */
  lemma RefreshDisturbs()
    ensures Integrity(SEEN_TWICE) && Counted(SEEN_TWICE, CALL) && ContextsValid(SEEN_TWICE)
    ensures !CountedIfStored(Without(SEEN_TWICE, {2}), CALL) && !ContextsValid(Without(SEEN_TWICE, {2}))
  {
    SeenTwiceIsSound();
    hide Integrity;
    var moving, staying := SiteKey(CALL, 2, 0), SiteKey(CALL, 1, 0);
    var next := Without(SEEN_TWICE, {2});
    assert SitesOf(SEEN_TWICE.sites, CALL) == {moving, staying};
    assert CALL in next.relations && moving in SitesOf(SEEN_TWICE.sites, CALL);
    CloneRefresh.CountSurvivesExactly(SEEN_TWICE, {2}, CALL);
    assert staying in next.sites;
    CloneRefresh.ContextSurvivesExactly(SEEN_TWICE, {2}, staying);
  }
}
