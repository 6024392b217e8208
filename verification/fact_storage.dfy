/** The storage object and its relation and pointer-call operations, statement by statement
    (src/storage/Relation.cpp, src/storage/RelationSite.cpp, src/storage/PointerCallSite.cpp). A statement may
    also fail for reasons of the database. An operation on its own that fails leaves nothing behind; inside the
    storage's transaction, where bulk statements are not atomic, it leaves what it did before the fault, and so it
    does after the database has undone a transaction by itself. */
module FactStorage {
  import opened Text
  import opened PointerBatch
  import opened FactTables
  import opened FactOperations
  import opened FactFailures
  import Runs = FactRuns

  class Storage {
    var db: Tables
    /** The tables to go back to while the storage's transaction is open. */
    var open: Option<Tables>
    /** The database has undone that transaction by itself, and the storage still holds on to it. */
    var wedged: bool
    /** How often the database has refused what was in order. */
    ghost var faults: nat

    constructor (tables: Tables)
      ensures db == tables && open == None && !wedged && faults == 0
    {
      db, open, wedged, faults := tables, None, false, 0;
    }

    /** The database may refuse anything. */
    method Attempt() returns (fault: bool)
      modifies `faults
      ensures faults == if fault then old(faults) + 1 else old(faults)
    {
      fault := *;
      if fault {
        faults := faults + 1;
      }
    }

    /** An operation begins a transaction of its own, and its bulk statements are atomic. */
    predicate OnItsOwn()
      reads `open, `wedged
    {
      open.None? && !wedged
    }

    ghost function Session(): Runs.Session
      reads this
    {
      Runs.Session(db, open, wedged)
    }

    method Begin() returns (ok: bool)
      modifies this
      ensures ok ==> old(OnItsOwn()) && Session() == Runs.Step(old(Session()), Runs.Begin)
      ensures !ok ==> Session() == old(Session())
      ensures faults >= old(faults) && (ok <==> old(OnItsOwn()) && faults == old(faults))
    {
      var fault := Attempt();
      ok := OnItsOwn() && !fault;
      if ok {
        open := Some(db);
      }
    }

    /** A commit that reports a failure leaves the transaction open, or the database has undone it. */
    method Commit() returns (ok: bool, lost: bool)
      modifies this
      ensures ok ==> old(open).Some? && !lost && Session() == Runs.Step(old(Session()), Runs.Commit)
      ensures !ok ==> Session() == if lost then Runs.Step(old(Session()), Runs.Lose) else old(Session())
      ensures lost ==> old(open).Some?
      ensures faults >= old(faults) && (ok <==> old(open).Some? && faults == old(faults))
    {
      ok, lost := false, false;
      if open.Some? {
        var fault := Attempt();
        if fault {
          lost := *;
          if lost {
            db, open, wedged := open.value, None, true;
          }
        } else {
          open, ok := None, true;
        }
      }
    }

    /** A rollback that reports a failure may have taken effect all the same. */
    method Rollback() returns (ok: bool, lost: bool)
      modifies this
      ensures ok ==> old(open).Some? && !lost && Session() == Runs.Step(old(Session()), Runs.Rollback)
      ensures !ok ==> Session() == if lost then Runs.Step(old(Session()), Runs.Lose) else old(Session())
      ensures lost ==> old(open).Some?
      ensures faults >= old(faults) && (ok <==> old(open).Some? && faults == old(faults))
    {
      ok, lost := false, false;
      if open.Some? {
        var fault := Attempt();
        lost := *;
        lost := lost && fault;
        if !fault || lost {
          db, open, wedged := open.value, None, wedged || lost;
        }
        ok := !fault;
      }
    }

    /** `n` rows are through when it ends. */
    method AddRelations(batch: seq<Relation>) returns (ok: bool, fault: bool, ghost n: nat)
      requires Integrity(db)
      modifies `db, `faults
      ensures n <= |batch| && RefersToSymbols(old(db), batch[..n], []) && (ok ==> n == |batch| && batch[..n] == batch)
      ensures (ok ==> !fault) && (!fault ==> (ok <==> RefersToSymbols(old(db), batch, [])))
      ensures db ==
        if ok || !OnItsOwn() then old(db).(relations := Inserted(old(db.relations), batch[..n])) else old(db)
      ensures faults >= old(faults) && (fault <==> faults > old(faults))
    {
      fault := false;
      var saved := db;
      for i := 0 to |batch|
        invariant faults == old(faults)
        invariant db == saved.(relations := Inserted(saved.relations, batch[..i]))
        invariant RefersToSymbols(saved, batch[..i], [])
      {
        InsertStep(saved, batch, i);
        var r := batch[i];
        fault := Attempt();
        if fault || (r.key !in db.relations && (r.key.source !in db.symbols || r.key.destination !in db.symbols)) {
          if OnItsOwn() {
            db := saved;
          }
          return false, fault, i;
        }
        if r.key !in db.relations {
          db := db.(relations := db.relations[r.key := RelationRow(r.flags, r.count)]);
        }
      }
      assert batch[..|batch|] == batch;
      return true, false, |batch|;
    }

    /** The foreign key of the receiver refuses a new site; a site seen again is merged and needs none. */
    predicate UnknownReceiver(site: RelationSite)
      reads this
    {
      SiteKeyOf(site) !in db.sites && site.receiver.Some? && site.receiver.value !in db.symbols
    }

    /** callgraph::insertRelationSites. */
    method InsertRelationSites(batch: seq<RelationSite>) returns (ok: bool, fault: bool, ghost n: nat)
      modifies `db, `faults
      ensures n <= |batch| && RefersToSymbols(old(db), [], batch[..n]) && SitesHaveRelations(old(db), batch[..n])
      ensures ok ==> !fault && n == |batch| && batch[..n] == batch
      ensures n > 0 ==> forall s <- batch :: ValidContext(s)
      ensures !fault ==> (ok <==>
        RefersToSymbols(old(db), [], batch) && SitesHaveRelations(old(db), batch) &&
        forall s <- batch :: ValidContext(s))
      ensures db == if ok || !OnItsOwn() then old(db).(sites := Upserted(old(db.sites), batch[..n])) else old(db)
      ensures faults >= old(faults) && (fault <==> faults > old(faults))
    {
      hide ValidContext;
      fault := false;
      if exists s <- batch :: !ValidContext(s) {
        return false, false, 0;
      }
      var saved := db;
      for i := 0 to |batch|
        invariant faults == old(faults)
        invariant db == saved.(sites := Upserted(saved.sites, batch[..i]))
        invariant RefersToSymbols(saved, [], batch[..i]) && SitesHaveRelations(saved, batch[..i])
      {
        assert batch[..i + 1][..i] == batch[..i];
        ResolvesStep(saved.sites, batch, i, saved.symbols.Keys);
        UpsertedKeys(saved.sites, batch[..i]);
        var s := batch[i];
        fault := Attempt();
        if fault || s.relation !in db.relations || UnknownReceiver(s) {
          if OnItsOwn() {
            db := saved;
          }
          return false, fault, i;
        }
        db := db.(sites := db.sites[SiteKeyOf(s) := MergedSite(db.sites, s)]);
      }
      assert batch[..|batch|] == batch;
      return true, false, |batch|;
    }

    method AddRelationSites(batch: seq<RelationSite>) returns (ok: bool, fault: bool, ghost n: nat)
      modifies `db, `faults
      ensures n <= |batch| && RefersToSymbols(old(db), [], batch[..n]) && SitesHaveRelations(old(db), batch[..n])
      ensures ok ==> !fault && n == |batch| && batch[..n] == batch
      ensures n > 0 ==> forall s <- batch :: ValidRelationSite(s)
      ensures !fault ==> (ok <==>
        RefersToSymbols(old(db), [], batch) && SitesHaveRelations(old(db), batch) &&
        forall s <- batch :: ValidRelationSite(s))
      ensures db == if ok || !OnItsOwn() then old(db).(sites := Upserted(old(db.sites), batch[..n])) else old(db)
      ensures faults >= old(faults) && (fault <==> faults > old(faults))
    {
      if exists s <- batch :: !ValidRelationSite(s) {
        return false, false, 0;
      }
      ok, fault, n := InsertRelationSites(batch);
    }

    method RecomputeRelationCounts(batch: seq<Relation>) returns (ok: bool, ghost n: nat)
      modifies `db, `faults
      ensures n <= |batch| && (ok ==> n == |batch| && batch[..n] == batch)
      ensures db == if ok || !OnItsOwn() then Recounted(old(db), Keys(batch[..n])) else old(db)
      ensures faults >= old(faults) && (ok <==> faults == old(faults))
    {
      var saved := db;
      assert Keys(batch[..0]) == {};
      RecountNothing(saved);
      for i := 0 to |batch|
        invariant faults == old(faults)
        invariant db == Recounted(saved, Keys(batch[..i]))
      {
        var fault := Attempt();
        if fault {
          if OnItsOwn() {
            db := saved;
          }
          return false, i;
        }
        var key := batch[i].key;
        RecountStep(saved, Keys(batch[..i]), {key});
        KeysStep(batch, i);
        if key in db.relations {
          var count := |SitesOf(db.sites, key)|;
          var recounted := db.(relations := db.relations[key := db.relations[key].(count := count)]);
          assert recounted.relations == Recounted(db, {key}).relations;
          db := recounted;
        } else {
          assert Recounted(db, {key}).relations == db.relations;
        }
      }
      assert batch[..|batch|] == batch;
      return true, |batch|;
    }

    /** Rows, then sites, then counts, up to the first statement that fails. */
    method StoreFacts(relations: seq<Relation>, sites: seq<RelationSite>)
      returns (ok: bool, fault: bool, ghost p: FactsProgress)
      requires Integrity(db) && SitesBelongToRelations(relations, sites) && forall s <- sites :: ValidRelationSite(s)
      modifies `db, `faults
      ensures FactsReach(relations, sites, p) && RefersToSymbols(old(db), relations[..p.inserted], sites[..p.placed])
      ensures ok ==> !fault && p == FactsProgress(|relations|, |sites|, |relations|)
      ensures !fault ==> (ok <==> RefersToSymbols(old(db), relations, sites))
      ensures ok || !OnItsOwn() ==> db == PartialFacts(old(db), relations, sites, p)
      ensures faults >= old(faults) && (fault <==> faults > old(faults))
    {
      hide Inserted, Upserted, Integrity, ValidRelationSite, Recounted, Keys, PartialFacts;
      var saved := db;
      ghost var n, m, k := 0, 0, 0;
      ok, fault, n := AddRelations(relations);
      if ok {
        InsertedKeys(saved.relations, relations);
        BelongingRelations(saved, relations, sites);
        ok, fault, m := AddRelationSites(sites);
        if ok {
          ok, k := RecomputeRelationCounts(relations);
          fault := !ok;
        }
      }
      p := FactsProgress(n, m, k);
      FactsPrefix(saved, relations, sites, p);
    }

    method AddRelationFacts(relations: seq<Relation>, sites: seq<RelationSite>)
      returns (ok: bool, fault: bool, ghost p: FactsProgress)
      requires Integrity(db)
      modifies `db, `faults
      ensures ok ==> !fault && AcceptsRelationFacts(old(db), relations, sites)
      ensures ok ==> db == RelationFacts(old(db), relations, sites)
      ensures !ok ==> fault || !AcceptsRelationFacts(old(db), relations, sites)
      ensures !ok ==> FactsMayStop(old(db), relations, sites, p)
      ensures !ok ==> db == if !OnItsOwn() then PartialFacts(old(db), relations, sites, p) else old(db)
      ensures Session() ==
        Runs.Step(old(Session()), if ok then Runs.Do(Runs.AddRelationFacts(relations, sites))
                                  else Runs.StopFacts(relations, sites, p))
      ensures faults >= old(faults) && (fault <==> faults > old(faults))
    {
      hide Integrity, ValidRelationSite, ExternalSites, PartialFacts, RelationFacts;
      p := NO_FACTS;
      var saved := db;
      NoFactsDone(saved, relations, sites);
      if OnItsOwn() {
        fault := Attempt();
        if fault {
          return false, fault, p;
        }
      }
      if (exists s <- sites :: !ValidRelationSite(s)) || !SitesBelongToRelations(relations, sites) {
        return false, false, p;
      }
      ok, fault, p := StoreFacts(relations, sites);
      ValidSitesHaveContexts(sites);
      if ok {
        AllFacts(saved, relations, sites);
        fault := Attempt();
        if !fault {
          db := db.(external := db.external + ExternalSites(db));
          if OnItsOwn() {
            fault := Attempt();
          }
        }
        ok := !fault;
      }
      if !ok && OnItsOwn() {
        db := saved;
      }
    }

    method AddUseFacts(relations: seq<Relation>, sites: seq<RelationSite>)
      returns (ok: bool, fault: bool, ghost p: FactsProgress)
      requires Integrity(db)
      modifies `db, `faults
      ensures ok ==> !fault && AcceptsUseFacts(old(db), relations, sites)
      ensures ok ==> db == RelationFacts(old(db), relations, sites)
      ensures !ok ==> fault || !AcceptsUseFacts(old(db), relations, sites)
      ensures !ok ==> FactsMayStop(old(db), relations, sites, p)
      ensures !ok ==> db == if !OnItsOwn() then PartialFacts(old(db), relations, sites, p) else old(db)
      ensures Session() ==
        Runs.Step(old(Session()), if ok then Runs.Do(Runs.AddUseFacts(relations, sites))
                                  else Runs.StopFacts(relations, sites, p))
      ensures faults >= old(faults) && (fault <==> faults > old(faults))
    {
      NoFactsDone(db, relations, sites);
      if !ValidUseFacts(relations, sites) {
        return false, false, NO_FACTS;
      }
      ok, fault, p := AddRelationFacts(relations, sites);
    }

    /** The site that a stored row stands for is deleted before its row is replaced. */
    method DeleteReplacedSites(sites: seq<PointerCallSite>) returns (ok: bool, ghost n: nat)
      modifies `db, `faults
      ensures n <= |sites| && (ok ==> n == |sites| && sites[..n] == sites)
      ensures db == if ok || !OnItsOwn() then DropSites(old(db), ReplacedSites(old(db.calls), sites[..n])) else old(db)
      ensures faults >= old(faults) && (ok <==> faults == old(faults))
    {
      var saved := db;
      assert ReplacedSites(saved.calls, sites[..0]) == {};
      assert DropSites(saved, {}) == saved;
      for i := 0 to |sites|
        invariant faults == old(faults)
        invariant db == DropSites(saved, ReplacedSites(saved.calls, sites[..i]))
      {
        var fault := Attempt();
        if fault {
          if OnItsOwn() {
            db := saved;
          }
          return false, i;
        }
        ReplacedStep(saved, sites, i);
        db := DropSites(db, ReplacedSites(db.calls, [sites[i]]));
      }
      assert sites[..|sites|] == sites;
      return true, |sites|;
    }

    method UpsertPointerCalls(sites: seq<PointerCallSite>) returns (ok: bool, fault: bool, ghost n: nat)
      modifies `db, `faults
      ensures n <= |sites| && CallsReferToSymbols(old(db), sites[..n])
      ensures ok ==> !fault && n == |sites| && sites[..n] == sites
      ensures !fault ==> (ok <==> CallsReferToSymbols(old(db), sites))
      ensures db == if ok || !OnItsOwn() then old(db).(calls := old(db.calls) + CallRows(sites[..n])) else old(db)
      ensures faults >= old(faults) && (fault <==> faults > old(faults))
    {
      hide CallRows;
      fault := false;
      var saved := db;
      NoCallRows(sites);
      assert saved.calls + map[] == saved.calls;
      for i := 0 to |sites|
        invariant faults == old(faults)
        invariant db == saved.(calls := saved.calls + CallRows(sites[..i]))
        invariant CallsReferToSymbols(saved, sites[..i])
      {
        var site := sites[i];
        fault := Attempt();
        if fault || site.source !in db.symbols || (site.target.Some? && site.target.value !in db.symbols) {
          if OnItsOwn() {
            db := saved;
          }
          return false, fault, i;
        }
        CallRowsStep(sites, i);
        OneMoreCall(saved.calls, CallRows(sites[..i]), KeyOf(site), CallRowOf(site));
        db := db.(calls := db.calls[KeyOf(site) := CallRowOf(site)]);
      }
      assert sites[..|sites|] == sites;
      return true, false, |sites|;
    }

    method RecountCallers(callers: seq<SymbolId>) returns (ok: bool, ghost n: nat)
      modifies `db, `faults
      ensures n <= |callers| && (ok ==> n == |callers| && callers[..n] == callers)
      ensures db ==
        if ok || !OnItsOwn() then Recounted(old(db), CallerRelations(old(db), Members(callers[..n]))) else old(db)
      ensures faults >= old(faults) && (ok <==> faults == old(faults))
    {
      var saved := db;
      RecountNothing(saved);
      assert CallerRelations(saved, Members(callers[..0])) == {};
      for i := 0 to |callers|
        invariant faults == old(faults)
        invariant db == Recounted(saved, CallerRelations(saved, Members(callers[..i])))
      {
        var fault := Attempt();
        if fault {
          if OnItsOwn() {
            db := saved;
          }
          return false, i;
        }
        RecountCallerStep(saved, callers, i);
        db := Recounted(db, CallerRelations(db, {callers[i]}));
      }
      assert callers[..|callers|] == callers;
      return true, |callers|;
    }

    method DeleteUnused(callers: seq<SymbolId>) returns (ok: bool, ghost n: nat)
      requires db.external <= db.sites.Keys
      modifies `db, `faults
      ensures n <= |callers| && (ok ==> n == |callers| && callers[..n] == callers)
      ensures db ==
        if ok || !OnItsOwn() then DropRelations(old(db), Unused(old(db), Members(callers[..n]))) else old(db)
      ensures faults >= old(faults) && (ok <==> faults == old(faults))
    {
      var saved := db;
      DropNothing(saved);
      assert Unused(saved, Members(callers[..0])) == {};
      for i := 0 to |callers|
        invariant faults == old(faults)
        invariant db == DropRelations(saved, Unused(saved, Members(callers[..i])))
      {
        var fault := Attempt();
        if fault {
          if OnItsOwn() {
            db := saved;
          }
          return false, i;
        }
        DropUnusedStep(saved, callers, i);
        db := DropRelations(db, Unused(db, {callers[i]}));
      }
      assert callers[..|callers|] == callers;
      return true, |callers|;
    }

    /** The statements of the batch, in order, up to the first that fails. */
    method StorePointers(latest: seq<PointerCallSite>, callers: seq<SymbolId>)
      returns (ok: bool, fault: bool, ghost p: PointersProgress)
      requires Integrity(db) && callers == SortedCallers(latest) && ValidRelated(latest)
      modifies `db, `faults
      ensures PointersReach(latest, p) && CallsReferToSymbols(old(db), latest[..p.called])
      ensures ok ==> !fault && p == AllPointers(latest)
      ensures !fault ==> (ok <==> CallsReferToSymbols(old(db), latest))
      ensures ok || !OnItsOwn() ==> db == PartialPointers(old(db), latest, p)
      ensures faults >= old(faults) && (fault <==> faults > old(faults))
    {
      hide Inserted, Upserted, ReplacedSites, CallRows, PointerRelations, PointerSites, Integrity, Recounted,
        DropRelations, DropSites, ValidRelationSite, CallerRelations, Unused, Members, SortedCallers;
      var saved := db;
      ghost var a, b, c, d, e, f := 0, 0, 0, 0, 0, 0;
      ghost var stored, sites := db.relations, db.sites;
      CallsStillRefer(saved, latest);
      ok, a := DeleteReplacedSites(latest);
      fault := !ok;
      if ok {
        DroppedSound(saved, ReplacedSites(saved.calls, latest));
        ok, fault, b := UpsertPointerCalls(latest);
      }
      if ok {
        sites := db.sites;
        CalledIntegrity(saved, latest);
        PointerRefs(db, latest);
        stored := db.relations;
        ok, fault, c := AddRelations(PointerRelations(latest));
      }
      if ok {
        InsertedKeys(stored, PointerRelations(latest));
        RelatedResolve(db, latest);
        ok, fault, d := AddRelationSites(PointerSites(latest));
      }
      if ok {
        UpsertedKeys(sites, PointerSites(latest));
        RecountedSound(db);
        ok, e := RecountCallers(callers);
        fault := !ok;
      }
      if ok {
        ok, f := DeleteUnused(callers);
        fault := !ok;
      }
      p := PointersProgress(a, b, c, d, e, f);
      CalledPrefix(saved, latest, p);
      PointersPrefix(saved, latest, p);
    }

    method AddPointerCallSites(observations: seq<PointerCallSite>)
      returns (ok: bool, fault: bool, ghost p: PointersProgress)
      requires Integrity(db)
      modifies `db, `faults
      ensures ok ==> !fault
      ensures !fault ==> (ok <==> AcceptsPointers(old(db), observations))
      ensures ok ==> db == if observations == [] then old(db) else PointerFacts(old(db), observations)
      ensures !ok ==> PointersMayStop(old(db), observations, p)
      ensures !ok ==> db == if !OnItsOwn() then PartialPointers(old(db), Latest(observations), p) else old(db)
      ensures Session() ==
        Runs.Step(old(Session()), if ok then Runs.Do(Runs.AddPointerCallSites(observations))
                                  else Runs.StopPointers(observations, p))
      ensures faults >= old(faults) && (fault <==> faults > old(faults))
    {
      hide Integrity, Latest, ValidPointerCall, PartialPointers, PointerFacts, PointerRelations, PointerSites, Callers;
      fault, p := false, NO_POINTERS;
      var saved := db;
      NoPointersDone(saved, observations);
      if observations == [] {
        NothingLatest();
        return true, false, p;
      }
      if exists o <- observations :: !ValidPointerCall(o) {
        return false, false, p;
      }
      if OnItsOwn() {
        fault := Attempt();
        if fault {
          return false, fault, p;
        }
      }
      var latest := Latest(observations);
      var callers := SourcesOf(latest);
      ValidPointerSites(observations);
      ok, fault, p := StorePointers(latest, callers);
      AllPointersDone(saved, observations);
      if ok && OnItsOwn() {
        fault := Attempt();
        ok := !fault;
      }
      if !ok && OnItsOwn() {
        db := saved;
      }
    }

    method ClearPointerCallSites(callers: seq<SymbolId>) returns (ok: bool, ghost p: ClearProgress)
      requires db.external <= db.sites.Keys
      modifies `db, `faults
      ensures ok ==> db == ClearedPointers(old(db), Members(callers))
      ensures !ok ==> ClearReach(callers, p)
      ensures !ok ==> db == if !OnItsOwn() then PartialClear(old(db), callers, p) else old(db)
      ensures Session() ==
        Runs.Step(old(Session()), if ok then Runs.Do(Runs.ClearPointerCallSites(callers))
                                  else Runs.StopClear(callers, p))
      ensures faults >= old(faults) && (ok <==> faults == old(faults))
    {
      hide Members, CallerRelations, DropRelations, DropCalls;
      var saved := db;
      DropNothing(saved);
      NoRelationsOf(saved, callers);
      NoCallsOf(saved);
      if OnItsOwn() {
        var fault := Attempt();
        if fault {
          return false, ClearProgress(0, 0);
        }
      }
      for i := 0 to |callers|
        invariant faults == old(faults)
        invariant db == DropRelations(saved, CallerRelations(saved, Members(callers[..i])))
      {
        var fault := Attempt();
        if fault {
          if OnItsOwn() {
            db := saved;
          }
          NoCallsOf(db);
          return false, ClearProgress(i, 0);
        }
        DropCallerStep(saved, callers, i);
        db := DropRelations(db, CallerRelations(db, {callers[i]}));
      }
      assert callers[..|callers|] == callers;
      ghost var dropped := db;
      NoCallsOf(dropped);
      for i := 0 to |callers|
        invariant faults == old(faults)
        invariant db == DropCalls(dropped, Members(callers[..i]))
      {
        var fault := Attempt();
        if fault {
          if OnItsOwn() {
            db := saved;
          }
          return false, ClearProgress(|callers|, i);
        }
        DropCallsStep(dropped, callers, i);
        db := DropCalls(db, {callers[i]});
      }
      p := ClearProgress(|callers|, |callers|);
      ok := true;
      if OnItsOwn() {
        var fault := Attempt();
        if fault {
          db, ok := saved, false;
        }
      }
    }
  }

  // ----- the stages of an operation -----

  lemma FactsPrefix(t: Tables, relations: seq<Relation>, sites: seq<RelationSite>, p: FactsProgress)
    requires FactsReach(relations, sites, p)
    ensures p.recounted == 0 ==>
      PartialFacts(t, relations, sites, p) ==
        t.(relations := Inserted(t.relations, relations[..p.inserted]), sites := Upserted(t.sites, sites[..p.placed]))
    ensures PartialFacts(t, relations, sites, p) ==
      Recounted(t.(relations := Inserted(t.relations, relations[..p.inserted]),
                   sites := Upserted(t.sites, sites[..p.placed])), Keys(relations[..p.recounted]))
    ensures p.placed == 0 ==> Upserted(t.sites, sites[..p.placed]) == t.sites
  {
    RecountNothing(t.(relations := Inserted(t.relations, relations[..p.inserted]),
                      sites := Upserted(t.sites, sites[..p.placed])));
    assert Keys(relations[..0]) == {};
    hide Inserted;
    assert sites[..0] == [];
  }

  lemma ValidSitesHaveContexts(sites: seq<RelationSite>)
    ensures (forall s <- sites :: ValidRelationSite(s)) ==> forall s <- sites :: ValidContext(s)
  {
  }

  /** The tables when the rows are in, and when the relations are. */
  ghost function PartialCalled(t: Tables, latest: seq<PointerCallSite>, p: PointersProgress): Tables
    requires PointersReach(latest, p)
  {
    var deleted := DropSites(t, ReplacedSites(t.calls, latest[..p.deleted]));
    deleted.(calls := deleted.calls + CallRows(latest[..p.called]))
  }

  ghost function PartialRelated(t: Tables, latest: seq<PointerCallSite>, p: PointersProgress): Tables
    requires PointersReach(latest, p)
  {
    var called := PartialCalled(t, latest, p);
    called.(relations := Inserted(called.relations, PointerRelations(latest)[..p.related]))
  }

  lemma CalledPrefix(t: Tables, latest: seq<PointerCallSite>, p: PointersProgress)
    requires PointersReach(latest, p)
    ensures p.called == 0 ==>
      PartialCalled(t, latest, p) == DropSites(t, ReplacedSites(t.calls, latest[..p.deleted]))
    ensures p.related == 0 ==> PartialRelated(t, latest, p) == PartialCalled(t, latest, p)
  {
    hide PointerRelations, PointerSites, SortedCallers, ReplacedSites;
    var deleted := DropSites(t, ReplacedSites(t.calls, latest[..p.deleted]));
    NoCallRows(latest);
    assert deleted.calls + map[] == deleted.calls;
    assert PointerRelations(latest)[..0] == [];
  }

  lemma PointersPrefix(t: Tables, latest: seq<PointerCallSite>, p: PointersProgress)
    requires Integrity(t) && PointersReach(latest, p)
    ensures p.placed == 0 ==> PartialStored(t, latest, p) == PartialRelated(t, latest, p)
    ensures p.recounted == 0 ==> PartialCounted(t, latest, p) == PartialStored(t, latest, p)
    ensures p.dropped == 0 ==> PartialPointers(t, latest, p) == PartialCounted(t, latest, p)
  {
    hide PointersReach, PointerRelations, PointerSites, SortedCallers, ReplacedSites, CallRows, Inserted,
      CallerRelations, Unused;
    hide Members;
    var stored, counted := PartialStored(t, latest, p), PartialCounted(t, latest, p);
    NoRelationsOf(stored, SortedCallers(latest));
    NoRelationsOf(counted, SortedCallers(latest));
    StoredSound(t, latest, p);
    hide PartialStored, PartialRelated, Integrity;
    RecountNothing(stored);
    RecountedSound(stored);
    DropNothing(counted);
    hide DropRelations, Recounted;
  }

  lemma StoredSound(t: Tables, latest: seq<PointerCallSite>, p: PointersProgress)
    requires Integrity(t) && PointersReach(latest, p)
    ensures PartialStored(t, latest, p).external <= PartialStored(t, latest, p).sites.Keys
    ensures p.placed == 0 ==> PartialStored(t, latest, p) == PartialRelated(t, latest, p)
  {
    hide PointerRelations, PointerSites, ReplacedSites, CallRows, Inserted, SortedCallers;
    var dead := ReplacedSites(t.calls, latest[..p.deleted]);
    DroppedSound(t, dead);
    UpsertedKeys(DropSites(t, dead).sites, PointerSites(latest)[..p.placed]);
    hide Integrity;
  }

  ghost function PartialCounted(t: Tables, latest: seq<PointerCallSite>, p: PointersProgress): Tables
    requires PointersReach(latest, p)
  {
    var stored := PartialStored(t, latest, p);
    Recounted(stored, CallerRelations(stored, Members(SortedCallers(latest)[..p.recounted])))
  }

  lemma DroppedSound(t: Tables, dead: set<SiteKey>)
    requires Integrity(t)
    ensures DropSites(t, dead).external <= DropSites(t, dead).sites.Keys
    ensures DropSites(t, dead).symbols == t.symbols
  {
  }

  lemma RecountedSound(t: Tables)
    requires t.external <= t.sites.Keys
    ensures forall keys :: Recounted(t, keys).external <= Recounted(t, keys).sites.Keys
  {
  }

  lemma NoPointersDone(t: Tables, observations: seq<PointerCallSite>)
    requires Integrity(t)
    ensures PointersMayStop(t, observations, NO_POINTERS) && PointersReach(Latest(observations), NO_POINTERS)
    ensures PartialPointers(t, Latest(observations), NO_POINTERS) == t
  {
    hide Latest;
    CalledPrefix(t, Latest(observations), NO_POINTERS);
    PointersPrefix(t, Latest(observations), NO_POINTERS);
    assert ReplacedSites(t.calls, Latest(observations)[..0]) == {};
    assert DropSites(t, {}) == t;
  }

  predicate ValidRelated(latest: seq<PointerCallSite>) {
    forall s <- PointerSites(latest) :: ValidRelationSite(s)
  }

  /** The sites of a batch resolve once its relations are stored. */
  lemma RelatedResolve(t: Tables, latest: seq<PointerCallSite>)
    requires Keys(PointerRelations(latest)) <= t.relations.Keys
    ensures RefersToSymbols(t, [], PointerSites(latest)) && SitesHaveRelations(t, PointerSites(latest))
  {
    PointerMembers(latest);
    forall s <- PointerSites(latest) ensures s.relation in t.relations {
      assert SiteKeyOf(s) in SiteKeys(PointerSites(latest));
    }
  }

  lemma OneMoreCall(stored: map<CallKey, CallRow>, rows: map<CallKey, CallRow>, key: CallKey, row: CallRow)
    ensures stored + rows[key := row] == (stored + rows)[key := row]
  {
  }

  lemma NoRelationsOf(t: Tables, callers: seq<SymbolId>)
    ensures CallerRelations(t, Members(callers[..0])) == {} == Unused(t, Members(callers[..0]))
    ensures Members(callers[..0]) == {}
  {
  }

  lemma NoCallsOf(t: Tables)
    ensures DropCalls(t, {}) == t
  {
    assert DropCalls(t, {}).calls == t.calls;
  }

  lemma DropCallsStep(t: Tables, callers: seq<SymbolId>, i: nat)
    requires i < |callers|
    ensures DropCalls(DropCalls(t, Members(callers[..i])), {callers[i]}) == DropCalls(t, Members(callers[..i + 1]))
  {
    MembersStep(callers, i);
    assert DropCalls(DropCalls(t, Members(callers[..i])), {callers[i]}).calls ==
           DropCalls(t, Members(callers[..i + 1])).calls;
  }

  predicate SitesHaveRelations(t: Tables, sites: seq<RelationSite>) {
    forall s <- sites :: s.relation in t.relations
  }

  lemma BelongingRelations(t: Tables, relations: seq<Relation>, sites: seq<RelationSite>)
    requires SitesBelongToRelations(relations, sites)
    ensures SitesHaveRelations(t.(relations := Inserted(t.relations, relations)), sites)
  {
    InsertedKeys(t.relations, relations);
  }

  lemma InsertStep(t: Tables, batch: seq<Relation>, i: nat)
    requires i < |batch| && Integrity(t) && RefersToSymbols(t, batch[..i], [])
    ensures batch[..i + 1][..i] == batch[..i]
    ensures var before := Inserted(t.relations, batch[..i]);
      batch[i].key in before ==> batch[i].key.source in t.symbols && batch[i].key.destination in t.symbols
  {
    InsertedKeys(t.relations, batch[..i]);
  }

  lemma RecountNothing(t: Tables)
    ensures Recounted(t, {}) == t
  {
    assert Recounted(t, {}).relations == t.relations;
  }

  lemma RecountStep(t: Tables, done: set<RelationKey>, more: set<RelationKey>)
    ensures Recounted(Recounted(t, done), more) == Recounted(t, done + more)
  {
    assert Recounted(Recounted(t, done), more).relations == Recounted(t, done + more).relations;
  }

  lemma KeysStep(batch: seq<Relation>, i: nat)
    requires i < |batch|
    ensures Keys(batch[..i + 1]) == Keys(batch[..i]) + {batch[i].key}
  {
    assert batch[..i + 1] == batch[..i] + [batch[i]];
    KeysConcat(batch[..i], [batch[i]]);
    assert Keys([batch[i]]) == {batch[i].key} by {
      assert batch[i] in [batch[i]];
    }
  }

  lemma MembersStep(callers: seq<SymbolId>, i: nat)
    requires i < |callers|
    ensures Members(callers[..i + 1]) == Members(callers[..i]) + {callers[i]}
  {
    assert callers[..i + 1] == callers[..i] + [callers[i]];
  }

  /** The callers of a batch in ascending order, each once. */
  method SourcesOf(sites: seq<PointerCallSite>) returns (callers: seq<SymbolId>)
    ensures StrictlySorted(callers) && Members(callers) == Callers(sites)
    ensures callers == SortedCallers(sites)
  {
    hide StrictlySorted;
    callers := [];
    for i := |sites| downto 0
      invariant callers == SortedCallers(sites[i..])
    {
      callers := AddCaller(sites[i].source, callers);
      assert sites[i..][1..] == sites[i + 1..];
    }
    assert sites[0..] == sites;
    SortedCallersOnce(sites);
  }

  lemma NothingLatest()
    ensures Latest([]) == []
  {
  }

  lemma ReplacedStep(t: Tables, sites: seq<PointerCallSite>, i: nat)
    requires i < |sites|
    ensures var done := DropSites(t, ReplacedSites(t.calls, sites[..i]));
      DropSites(done, ReplacedSites(done.calls, [sites[i]])) == DropSites(t, ReplacedSites(t.calls, sites[..i + 1]))
  {
    assert sites[..i + 1] == sites[..i] + [sites[i]] && sites[..i + 1][..i] == sites[..i];
    var key := KeyOf(sites[i]);
    assert [sites[i]][..0] == [];
    assert Lasts([sites[i]]).Keys == {key};
    assert Lasts(sites[..i + 1]).Keys == Lasts(sites[..i]).Keys + {key};
    assert ReplacedSites(t.calls, sites[..i + 1]) ==
           ReplacedSites(t.calls, sites[..i]) + ReplacedSites(t.calls, [sites[i]]);
    DropSitesTwice(t, ReplacedSites(t.calls, sites[..i]), ReplacedSites(t.calls, [sites[i]]));
  }

  lemma DropSitesTwice(t: Tables, first: set<SiteKey>, second: set<SiteKey>)
    ensures DropSites(DropSites(t, first), second) == DropSites(t, first + second)
  {
    assert t.sites - first - second == t.sites - (first + second);
    assert t.external - first - second == t.external - (first + second);
  }

  lemma NoCallRows(sites: seq<PointerCallSite>)
    ensures CallRows(sites[..0]) == map[]
  {
  }

  lemma CallRowsStep(sites: seq<PointerCallSite>, i: nat)
    requires i < |sites|
    ensures CallRows(sites[..i + 1]) == CallRows(sites[..i])[KeyOf(sites[i]) := CallRowOf(sites[i])]
    ensures sites[..i + 1] == sites[..i] + [sites[i]]
  {
    assert sites[..i + 1][..i] == sites[..i];
  }

  lemma RecountCallerStep(t: Tables, callers: seq<SymbolId>, i: nat)
    requires i < |callers|
    ensures var done := Recounted(t, CallerRelations(t, Members(callers[..i])));
      Recounted(done, CallerRelations(done, {callers[i]})) ==
      Recounted(t, CallerRelations(t, Members(callers[..i + 1])))
  {
    MembersStep(callers, i);
    var before := Members(callers[..i]);
    assert CallerRelations(t, before + {callers[i]}) == CallerRelations(t, before) + CallerRelations(t, {callers[i]});
    assert CallerRelations(Recounted(t, CallerRelations(t, before)), {callers[i]}) == CallerRelations(t, {callers[i]});
    RecountStep(t, CallerRelations(t, before), CallerRelations(t, {callers[i]}));
  }

  lemma DropNothing(t: Tables)
    requires t.external <= t.sites.Keys
    ensures DropRelations(t, {}) == t
  {
    assert DropRelations(t, {}).sites == t.sites;
  }

  lemma DropTwice(t: Tables, first: set<RelationKey>, second: set<RelationKey>)
    ensures DropRelations(DropRelations(t, first), second) == DropRelations(t, first + second)
  {
    var once := DropRelations(DropRelations(t, first), second);
    var both := DropRelations(t, first + second);
    assert once.sites == both.sites;
    assert once.relations == both.relations;
  }

  lemma DropUnusedStep(t: Tables, callers: seq<SymbolId>, i: nat)
    requires i < |callers|
    ensures var done := DropRelations(t, Unused(t, Members(callers[..i])));
      DropRelations(done, Unused(done, {callers[i]})) == DropRelations(t, Unused(t, Members(callers[..i + 1])))
  {
    MembersStep(callers, i);
    var before := Members(callers[..i]);
    var done := DropRelations(t, Unused(t, before));
    assert Unused(t, before + {callers[i]}) == Unused(t, before) + Unused(done, {callers[i]});
    DropTwice(t, Unused(t, before), Unused(done, {callers[i]}));
  }

  lemma DropCallerStep(t: Tables, callers: seq<SymbolId>, i: nat)
    requires i < |callers|
    ensures var done := DropRelations(t, CallerRelations(t, Members(callers[..i])));
      DropRelations(done, CallerRelations(done, {callers[i]})) ==
      DropRelations(t, CallerRelations(t, Members(callers[..i + 1])))
  {
    MembersStep(callers, i);
    var before := Members(callers[..i]);
    var done := DropRelations(t, CallerRelations(t, before));
    assert CallerRelations(t, before + {callers[i]}) ==
      CallerRelations(t, before) + CallerRelations(done, {callers[i]});
    DropTwice(t, CallerRelations(t, before), CallerRelations(done, {callers[i]}));
  }

  lemma CallsStillRefer(t: Tables, latest: seq<PointerCallSite>)
    ensures CallsReferToSymbols(DropSites(t, ReplacedSites(t.calls, latest)), latest) <==>
      CallsReferToSymbols(t, latest)
  {
  }

  lemma {:induction false} ValidSites(sites: seq<PointerCallSite>)
    requires forall s <- sites :: ValidPointerCall(s)
    ensures forall p <- PointerSites(sites) :: ValidRelationSite(p)
  {
    if sites != [] {
      ValidSites(sites[1..]);
      forall p <- PointerSites(sites) ensures ValidRelationSite(p) {
        if p !in PointerSites(sites[1..]) {
          assert ValidPointerCall(sites[0]) && p.relation.source == sites[0].source;
        }
      }
    }
  }

  lemma ValidPointerSites(observations: seq<PointerCallSite>)
    requires forall o <- observations :: ValidPointerCall(o)
    ensures ValidRelated(Latest(observations))
  {
    LatestIsLast(observations);
    LastsMembers(observations);
    ValidSites(Latest(observations));
  }
}
