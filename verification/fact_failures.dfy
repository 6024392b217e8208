/** What an operation leaves behind when it stops half way inside a transaction that somebody else ends: the
    statements before the fault have taken effect (src/storage/RelationSite.cpp, src/storage/PointerCallSite.cpp
    with nested atomicity off). Which invariants such a state keeps, and exactly when it keeps the others. */
module FactFailures {
  import opened Text
  import opened PointerBatch
  import opened FactTables
  import opened FactOperations

  // ----- relation facts -----

  /** How many relations were inserted, sites stored and relations recounted. */
  datatype FactsProgress = FactsProgress(inserted: nat, placed: nat, recounted: nat)

  const NO_FACTS := FactsProgress(0, 0, 0)

  /** One bulk statement begins when the one before it is through. */
  predicate FactsReach(relations: seq<Relation>, sites: seq<RelationSite>, p: FactsProgress) {
    p.inserted <= |relations| && p.placed <= |sites| && p.recounted <= |relations| &&
    (p.placed > 0 ==> p.inserted == |relations|) &&
    (p.recounted > 0 ==> p.inserted == |relations| && p.placed == |sites|)
  }

  function PartialFacts(t: Tables, relations: seq<Relation>, sites: seq<RelationSite>, p: FactsProgress): Tables
    requires FactsReach(relations, sites, p)
  {
    var inserted := t.(relations := Inserted(t.relations, relations[..p.inserted]));
    var placed := inserted.(sites := Upserted(inserted.sites, sites[..p.placed]));
    Recounted(placed, Keys(relations[..p.recounted]))
  }

  /** A validated batch stops anywhere its rows resolve up to; any other batch before it begins. */
  predicate FactsMayStop(t: Tables, relations: seq<Relation>, sites: seq<RelationSite>, p: FactsProgress) {
    FactsReach(relations, sites, p) &&
    (p == NO_FACTS || (SitesBelongToRelations(relations, sites) && forall s <- sites :: ValidRelationSite(s))) &&
    RefersToSymbols(t, relations[..p.inserted], sites[..p.placed])
  }

  lemma AllFacts(t: Tables, relations: seq<Relation>, sites: seq<RelationSite>)
    ensures var done := PartialFacts(t, relations, sites, FactsProgress(|relations|, |sites|, |relations|));
      RelationFacts(t, relations, sites) == done.(external := done.external + ExternalSites(done))
  {
    assert relations[..|relations|] == relations && sites[..|sites|] == sites;
  }

  lemma NoFactsDone(t: Tables, relations: seq<Relation>, sites: seq<RelationSite>)
    ensures PartialFacts(t, relations, sites, NO_FACTS) == t
  {
    assert Recounted(t, {}).relations == t.relations;
    assert Keys(relations[..0]) == {};
  }

  lemma PrefixKeys(relations: seq<Relation>, sites: seq<RelationSite>, p: FactsProgress)
    requires SitesBelongToRelations(relations, sites) && FactsReach(relations, sites, p)
    ensures forall k <- SiteKeys(sites[..p.placed]) :: k.relation in Keys(relations[..p.inserted])
    ensures Keys(relations[..p.recounted]) <= Keys(relations[..p.inserted])
  {
    BelongingKeys(relations, sites);
    assert relations[..|relations|] == relations;
    forall k <- SiteKeys(sites[..p.placed]) ensures k.relation in Keys(relations[..p.inserted]) {
      var s :| s in sites[..p.placed] && SiteKeyOf(s) == k;
      assert s in sites && k in SiteKeys(sites);
    }
  }

  /** No foreign key dangles, wherever the operation stops. */
  lemma PartialFactsIntegrity(t: Tables, relations: seq<Relation>, sites: seq<RelationSite>, p: FactsProgress)
    requires Integrity(t) && FactsMayStop(t, relations, sites, p)
    ensures Integrity(PartialFacts(t, relations, sites, p))
  {
    hide Inserted, Upserted, SitesBelongToRelations, Integrity, Recounted, SiteKeys, Keys, ValidContext;
    if p == NO_FACTS {
      NoFactsDone(t, relations, sites);
    } else {
      PrefixKeys(relations, sites, p);
      InsertedKeys(t.relations, relations[..p.inserted]);
      InsertedIntegrity(t, relations[..p.inserted]);
      var inserted := t.(relations := Inserted(t.relations, relations[..p.inserted]));
      UpsertedIntegrity(inserted, sites[..p.placed]);
      RecountedIntegrity(inserted.(sites := Upserted(inserted.sites, sites[..p.placed])),
                         Keys(relations[..p.recounted]));
    }
  }

  /** The sites of one relation among those of a batch. */
  function SitesFor(r: RelationKey, sites: seq<RelationSite>): set<SiteKey> {
    set k | k in SiteKeys(sites) && k.relation == r
  }

  /** The count that the first row of the batch brings for a relation. */
  function GivenCount(batch: seq<Relation>, r: RelationKey): nat
    requires r in Keys(batch)
  {
    if batch[0].key == r then batch[0].count
    else
      assert batch == [batch[0]] + batch[1..];
      GivenCount(batch[1..], r)
  }

  lemma {:induction false} GivenCountPrefix(batch: seq<Relation>, n: nat, r: RelationKey)
    requires n <= |batch| && r in Keys(batch[..n])
    ensures r in Keys(batch) && GivenCount(batch, r) == GivenCount(batch[..n], r)
  {
    assert batch == batch[..n] + batch[n..];
    KeysConcat(batch[..n], batch[n..]);
    if batch[0].key != r {
      assert batch[..n] == [batch[0]] + batch[1..][..n - 1] && batch[..n][1..] == batch[1..][..n - 1];
      GivenCountPrefix(batch[1..], n - 1, r);
    }
  }

  lemma {:induction false} InsertedCount(relations: map<RelationKey, RelationRow>, batch: seq<Relation>, r: RelationKey)
    requires r !in relations && r in Keys(batch)
    ensures r in Inserted(relations, batch) && Inserted(relations, batch)[r].count == GivenCount(batch, r)
  {
    var n := |batch| - 1;
    assert batch == batch[..n] + [batch[n]];
    KeysConcat(batch[..n], [batch[n]]);
    InsertedKeys(relations, batch[..n]);
    if r in Keys(batch[..n]) {
      InsertedCount(relations, batch[..n], r);
      GivenCountPrefix(batch, n, r);
    } else {
      assert Keys([batch[n]]) == {batch[n].key} by {
        assert batch[n] in [batch[n]];
      }
      NotBefore(batch, r);
    }
  }

  lemma {:induction false} NotBefore(batch: seq<Relation>, r: RelationKey)
    requires batch != [] && r !in Keys(batch[..|batch| - 1]) && batch[|batch| - 1].key == r
    ensures r in Keys(batch) && GivenCount(batch, r) == batch[|batch| - 1].count
  {
    assert batch[|batch| - 1] in batch;
    if |batch| > 1 {
      assert batch[0] in batch[..|batch| - 1];
      assert batch[..|batch| - 1] == [batch[0]] + batch[1..][..|batch| - 2];
      KeysConcat([batch[0]], batch[1..][..|batch| - 2]);
      NotBefore(batch[1..], r);
    }
  }

  /** When the count of a relation is right although the operation stopped: it was recounted; or it was there
      before and every stored site of it too; or it is new, and the count it brought is the number of its sites
      stored so far. */
  predicate CountSurvives(t: Tables, relations: seq<Relation>, sites: seq<RelationSite>, p: FactsProgress,
                          r: RelationKey)
    requires FactsReach(relations, sites, p)
  {
    r in Keys(relations[..p.recounted]) ||
    (if r in t.relations then SitesFor(r, sites[..p.placed]) <= t.sites.Keys
     else r in Keys(relations[..p.inserted]) ==>
       GivenCount(relations[..p.inserted], r) == |SitesFor(r, sites[..p.placed])|)
  }

  /** A relation whose count was right has a right count after the stop exactly then. */
  lemma CountSurvivesExactly(t: Tables, relations: seq<Relation>, sites: seq<RelationSite>, p: FactsProgress,
                             r: RelationKey)
    requires Integrity(t) && CountedIfStored(t, r) && FactsReach(relations, sites, p)
    ensures CountedIfStored(PartialFacts(t, relations, sites, p), r) <==> CountSurvives(t, relations, sites, p, r)
  {
    PartialFactsTables(t, relations, sites, p);
    PartialFactsSites(t, relations, sites, p, r);
    RecountedWereInserted(relations, sites, p);
    var before, added := SitesOf(t.sites, r), SitesFor(r, sites[..p.placed]);
    assert added <= t.sites.Keys <==> added <= before;
    LargerUnion(before, added);
    if r !in t.relations {
      StrangersHaveNoSites(t, r);
      assert before + added == added;
      if r in Keys(relations[..p.inserted]) {
        PartialFactsNewCount(t, relations, sites, p, r);
      }
    }
    hide PartialFacts, SitesFor, SitesOf, Keys, Integrity, GivenCount;
  }

  lemma PartialFactsSites(t: Tables, relations: seq<Relation>, sites: seq<RelationSite>, p: FactsProgress,
                          r: RelationKey)
    requires FactsReach(relations, sites, p)
    ensures SitesOf(PartialFacts(t, relations, sites, p).sites, r) ==
      SitesOf(t.sites, r) + SitesFor(r, sites[..p.placed])
  {
    hide Inserted, Upserted;
    UpsertedKeys(t.sites, sites[..p.placed]);
  }

  lemma PartialFactsNewCount(t: Tables, relations: seq<Relation>, sites: seq<RelationSite>, p: FactsProgress,
                             r: RelationKey)
    requires FactsReach(relations, sites, p) && r !in t.relations && r in Keys(relations[..p.inserted])
    ensures var next := PartialFacts(t, relations, sites, p);
      r in next.relations && next.relations[r].count ==
        if r in Keys(relations[..p.recounted]) then |SitesOf(next.sites, r)| else GivenCount(relations[..p.inserted], r)
  {
    hide Inserted, Upserted, GivenCount;
    InsertedCount(t.relations, relations[..p.inserted], r);
  }

  lemma RecountedWereInserted(relations: seq<Relation>, sites: seq<RelationSite>, p: FactsProgress)
    requires FactsReach(relations, sites, p)
    ensures Keys(relations[..p.recounted]) <= Keys(relations[..p.inserted])
  {
    assert forall x <- relations[..p.recounted] :: x in relations;
    assert relations[..|relations|] == relations;
  }

  lemma StrangersHaveNoSites(t: Tables, r: RelationKey)
    requires Integrity(t) && r !in t.relations
    ensures SitesOf(t.sites, r) == {}
  {
  }

  lemma LargerUnion(a: set<SiteKey>, b: set<SiteKey>)
    ensures |a + b| == |a| <==> b <= a
  {
    assert a + b == a + (b - a) && a !! (b - a);
    assert |a + b| == |a| + |b - a|;
    if |b - a| == 0 {
      assert b - a == {};
    }
    if b <= a {
      assert b - a == {};
    }
  }

  /** A batch that claims no pointer call beyond those the rows already name. */
  ghost predicate RespectsPointers(t: Tables, relations: seq<Relation>, sites: seq<RelationSite>) {
    && (forall k <- SiteKeys(sites) | k.relation.kind == POINTER_CALLS :: NamedBy(t.calls, k))
    && (forall r <- Keys(relations) | r.kind == POINTER_CALLS :: r in t.relations)
  }

  lemma RespectedAgree(t: Tables, relations: seq<Relation>, sites: seq<RelationSite>, p: FactsProgress)
    requires PointersAgree(t) && FactsReach(relations, sites, p)
    requires RespectsPointers(t, relations[..p.inserted], sites[..p.placed])
    ensures PointersAgree(PartialFacts(t, relations, sites, p))
  {
    var next := PartialFacts(t, relations, sites, p);
    PartialFactsTables(t, relations, sites, p);
    hide PartialFacts;
    forall r <- next.relations | r.kind == POINTER_CALLS ensures Counted(next, r) && next.relations[r].count > 0 {
      assert r in t.relations;
      SameSites(t.sites, next.sites, r);
    }
  }

  lemma AgreedRespect(t: Tables, relations: seq<Relation>, sites: seq<RelationSite>, p: FactsProgress)
    requires Integrity(t) && PointersAgree(t) && FactsReach(relations, sites, p)
    requires PointersAgree(PartialFacts(t, relations, sites, p))
    ensures RespectsPointers(t, relations[..p.inserted], sites[..p.placed])
  {
    var next := PartialFacts(t, relations, sites, p);
    PartialFactsTables(t, relations, sites, p);
    hide PartialFacts;
    forall k <- SiteKeys(sites[..p.placed]) | k.relation.kind == POINTER_CALLS ensures NamedBy(t.calls, k) {
      assert k in next.sites;
    }
    forall r <- Keys(relations[..p.inserted]) | r.kind == POINTER_CALLS ensures r in t.relations {
      assert Counted(next, r) && next.relations[r].count > 0;
      assert SitesOf(next.sites, r) != {};
      var k :| k in SitesOf(next.sites, r);
      assert NamedBy(t.calls, k);
      assert k in t.sites;
    }
  }

  /** General facts keep pointer-call rows and sites in agreement exactly if the part that took effect respects
      them, wherever the operation stops. */
  lemma PartialFactsAgreeExactly(t: Tables, relations: seq<Relation>, sites: seq<RelationSite>, p: FactsProgress)
    requires Integrity(t) && PointersAgree(t) && FactsReach(relations, sites, p)
    ensures PointersAgree(PartialFacts(t, relations, sites, p)) <==>
      RespectsPointers(t, relations[..p.inserted], sites[..p.placed])
  {
    hide PointersAgree, RespectsPointers, PartialFacts, Integrity;
    if RespectsPointers(t, relations[..p.inserted], sites[..p.placed]) {
      RespectedAgree(t, relations, sites, p);
    }
    if PointersAgree(PartialFacts(t, relations, sites, p)) {
      AgreedRespect(t, relations, sites, p);
    }
  }

  lemma PartialFactsTables(t: Tables, relations: seq<Relation>, sites: seq<RelationSite>, p: FactsProgress)
    requires FactsReach(relations, sites, p)
    ensures var next := PartialFacts(t, relations, sites, p);
      next.sites.Keys == t.sites.Keys + SiteKeys(sites[..p.placed]) && next.calls == t.calls &&
      next.relations.Keys == t.relations.Keys + Keys(relations[..p.inserted]) &&
      forall r <- t.relations :: next.relations[r].count ==
        if r in Keys(relations[..p.recounted]) then |SitesOf(next.sites, r)| else t.relations[r].count
  {
    hide Inserted, Upserted;
    InsertedKeys(t.relations, relations[..p.inserted]);
    UpsertedKeys(t.sites, sites[..p.placed]);
  }

  /** A whole batch of general facts keeps the agreement exactly if it respects the pointer calls. */
  lemma RelationFactsAgreeExactly(t: Tables, relations: seq<Relation>, sites: seq<RelationSite>)
    requires Integrity(t) && PointersAgree(t)
    ensures PointersAgree(RelationFacts(t, relations, sites)) <==> RespectsPointers(t, relations, sites)
  {
    var p := FactsProgress(|relations|, |sites|, |relations|);
    PartialFactsAgreeExactly(t, relations, sites, p);
    AllFacts(t, relations, sites);
    ExternalAside(PartialFacts(t, relations, sites, p));
    assert relations[..|relations|] == relations && sites[..|sites|] == sites;
    hide PartialFacts, RelationFacts, PointersAgree, RespectsPointers;
  }

  lemma ExternalAside(t: Tables)
    ensures PointersAgree(t) <==> PointersAgree(t.(external := t.external + ExternalSites(t)))
  {
    hide ExternalSites;
  }

  /** Stored contexts stay valid, wherever the operation stops. */
  lemma PartialFactsContexts(t: Tables, relations: seq<Relation>, sites: seq<RelationSite>, p: FactsProgress)
    requires FactsMayStop(t, relations, sites, p) && ContextsValid(t)
    ensures ContextsValid(PartialFacts(t, relations, sites, p))
  {
    hide Inserted, Upserted, SitesBelongToRelations;
    assert forall s <- sites[..p.placed] :: s in sites;
    assert p == NO_FACTS ==> sites[..p.placed] == [];
    UpsertedValid(t.sites, sites[..p.placed]);
  }

  // ----- pointer calls -----

  /** How far each statement of the operation got, over the reduced batch and its callers. */
  datatype PointersProgress = PointersProgress(deleted: nat, called: nat, related: nat, placed: nat, recounted: nat,
                                               dropped: nat)

  const NO_POINTERS := PointersProgress(0, 0, 0, 0, 0, 0)

  predicate PointersReach(latest: seq<PointerCallSite>, p: PointersProgress) {
    var relations, callers := |PointerRelations(latest)|, |SortedCallers(latest)|;
    p.deleted <= |latest| && p.called <= |latest| && p.related <= relations && p.placed <= |PointerSites(latest)| &&
    p.recounted <= callers && p.dropped <= callers &&
    (p.called > 0 ==> p.deleted == |latest|) &&
    (p.related > 0 ==> p.called == |latest| == p.deleted) &&
    (p.placed > 0 ==> p.related == relations && p.called == |latest| == p.deleted) &&
    (p.recounted > 0 ==> PlacedAll(latest, p)) &&
    (p.dropped > 0 ==> PlacedAll(latest, p) && p.recounted == callers)
  }

  predicate PlacedAll(latest: seq<PointerCallSite>, p: PointersProgress) {
    p.deleted == |latest| && p.called == |latest| && p.related == |PointerRelations(latest)| &&
    p.placed == |PointerSites(latest)|
  }

  /** The tables once some rows were replaced and some relations and sites stored. */
  function PartialStored(t: Tables, latest: seq<PointerCallSite>, p: PointersProgress): Tables
    requires PointersReach(latest, p)
  {
    var cleared := DropSites(t, ReplacedSites(t.calls, latest[..p.deleted]));
    var called := cleared.(calls := cleared.calls + CallRows(latest[..p.called]));
    var related := called.(relations := Inserted(called.relations, PointerRelations(latest)[..p.related]));
    related.(sites := Upserted(related.sites, PointerSites(latest)[..p.placed]))
  }

  function PartialPointers(t: Tables, latest: seq<PointerCallSite>, p: PointersProgress): Tables
    requires PointersReach(latest, p)
  {
    var stored, callers := PartialStored(t, latest, p), SortedCallers(latest);
    var counted := Recounted(stored, CallerRelations(stored, Members(callers[..p.recounted])));
    DropRelations(counted, Unused(counted, Members(callers[..p.dropped])))
  }

  predicate PointersMayStop(t: Tables, observations: seq<PointerCallSite>, p: PointersProgress) {
    var latest := Latest(observations);
    PointersReach(latest, p) && CallsReferToSymbols(t, latest[..p.called]) &&
    (p == NO_POINTERS || forall o <- observations :: ValidPointerCall(o))
  }

  function AllPointers(latest: seq<PointerCallSite>): PointersProgress {
    PointersProgress(|latest|, |latest|, |PointerRelations(latest)|, |PointerSites(latest)|, |SortedCallers(latest)|,
                     |SortedCallers(latest)|)
  }

  lemma AllPointersDone(t: Tables, observations: seq<PointerCallSite>)
    ensures var latest := Latest(observations);
      PointersReach(latest, AllPointers(latest)) &&
      PartialPointers(t, latest, AllPointers(latest)) == PointerFacts(t, observations)
  {
    hide Latest, Inserted, Upserted, PointerRelations, PointerSites, ReplacedSites, CallRows, Recounted, DropRelations;
    var latest := Latest(observations);
    SortedCallersOnce(latest);
    assert Members(SortedCallers(latest)) == Callers(latest);
    assert latest[..|latest|] == latest && PointerSites(latest)[..|PointerSites(latest)|] == PointerSites(latest);
    assert PointerRelations(latest)[..|PointerRelations(latest)|] == PointerRelations(latest);
    assert SortedCallers(latest)[..|SortedCallers(latest)|] == SortedCallers(latest);
  }

  lemma PartialStoredTables(t: Tables, latest: seq<PointerCallSite>, p: PointersProgress)
    requires PointersReach(latest, p)
    ensures var stored := PartialStored(t, latest, p);
      stored.sites.Keys ==
        (t.sites.Keys - ReplacedSites(t.calls, latest[..p.deleted])) + SiteKeys(PointerSites(latest)[..p.placed]) &&
      stored.calls == t.calls + CallRows(latest[..p.called]) && stored.symbols == t.symbols &&
      stored.relations.Keys == t.relations.Keys + Keys(PointerRelations(latest)[..p.related]) &&
      (forall r <- t.relations :: stored.relations[r] == t.relations[r])
  {
    hide Inserted, Upserted, ReplacedSites, CallRows, PointerSites, PointerRelations;
    InsertedKeys(t.relations, PointerRelations(latest)[..p.related]);
    UpsertedKeys(t.sites - ReplacedSites(t.calls, latest[..p.deleted]), PointerSites(latest)[..p.placed]);
  }

  lemma PartialStoredNewCount(t: Tables, latest: seq<PointerCallSite>, p: PointersProgress, r: RelationKey)
    requires PointersReach(latest, p) && r !in t.relations && r in Keys(PointerRelations(latest)[..p.related])
    ensures r in PartialStored(t, latest, p).relations && PartialStored(t, latest, p).relations[r].count == 1
  {
    hide Inserted, Upserted, ReplacedSites, CallRows, PointerSites, GivenCount, PointerRelations;
    var batch := PointerRelations(latest)[..p.related];
    InsertedCount(t.relations, batch, r);
    PointerRelationsCountOne(latest);
    GivenOne(batch, r);
  }

  lemma {:induction false} PointerRelationsCountOne(latest: seq<PointerCallSite>)
    ensures forall x <- PointerRelations(latest) :: x.count == 1
  {
    if latest != [] {
      PointerRelationsCountOne(latest[1..]);
    }
  }

  lemma {:induction false} GivenOne(batch: seq<Relation>, r: RelationKey)
    requires r in Keys(batch) && forall x <- batch :: x.count == 1
    ensures GivenCount(batch, r) == 1
  {
    assert batch[0] in batch && forall x <- batch[1..] :: x in batch;
    if batch[0].key != r {
      assert batch == [batch[0]] + batch[1..];
      GivenOne(batch[1..], r);
    }
  }

  /** Recounting and dropping what is unused touches no site, as long as only recounted relations are dropped. */
  lemma Stopped(stored: Tables, recounted: set<SymbolId>, dropped: set<SymbolId>)
    requires dropped <= recounted
    ensures var counted := Recounted(stored, CallerRelations(stored, recounted));
      var next := DropRelations(counted, Unused(counted, dropped));
      next.sites == stored.sites && next.calls == stored.calls &&
      (forall r :: r in next.relations <==>
        r in stored.relations && !(r.kind == POINTER_CALLS && r.source in dropped && SitesOf(stored.sites, r) == {})) &&
      (forall r <- next.relations :: next.relations[r].count ==
        if r.kind == POINTER_CALLS && r.source in recounted then |SitesOf(stored.sites, r)|
        else stored.relations[r].count)
  {
    var counted := Recounted(stored, CallerRelations(stored, recounted));
    forall r <- Unused(counted, dropped) ensures SitesOf(stored.sites, r) == {} {
    }
    forall k <- stored.sites ensures k.relation !in Unused(counted, dropped) {
      assert k in SitesOf(stored.sites, k.relation);
    }
  }

  /** The operation's recounted and emptied callers at the stop. */
  function RecountedCallers(latest: seq<PointerCallSite>, p: PointersProgress): set<SymbolId>
    requires PointersReach(latest, p)
  {
    Members(SortedCallers(latest)[..p.recounted])
  }

  function DroppedCallers(latest: seq<PointerCallSite>, p: PointersProgress): set<SymbolId>
    requires PointersReach(latest, p)
  {
    Members(SortedCallers(latest)[..p.dropped])
  }

  lemma DroppedWereRecounted(latest: seq<PointerCallSite>, p: PointersProgress)
    requires PointersReach(latest, p)
    ensures DroppedCallers(latest, p) <= RecountedCallers(latest, p)
    ensures p.recounted == 0 ==> RecountedCallers(latest, p) == {}
  {
    hide PointerRelations, PointerSites;
    var callers := SortedCallers(latest);
    if p.dropped > 0 {
      assert callers[..p.recounted] == callers;
      assert forall c <- callers[..p.dropped] :: c in callers;
    }
  }

  lemma PartialPointersStopped(t: Tables, latest: seq<PointerCallSite>, p: PointersProgress)
    requires PointersReach(latest, p)
    ensures var stored, next := PartialStored(t, latest, p), PartialPointers(t, latest, p);
      next.sites == stored.sites && next.calls == stored.calls &&
      (forall r :: r in next.relations <==>
        r in stored.relations &&
        !(r.kind == POINTER_CALLS && r.source in DroppedCallers(latest, p) && SitesOf(stored.sites, r) == {})) &&
      (forall r <- next.relations :: next.relations[r].count ==
        if r.kind == POINTER_CALLS && r.source in RecountedCallers(latest, p) then |SitesOf(stored.sites, r)|
        else stored.relations[r].count)
  {
    hide PartialStored, CallerRelations, Unused, DropRelations, Recounted, PointersReach, Members;
    DroppedWereRecounted(latest, p);
    Stopped(PartialStored(t, latest, p), RecountedCallers(latest, p), DroppedCallers(latest, p));
  }

  // ----- what a stopped batch of pointer calls keeps -----

  lemma DropRelationsIntegrity(t: Tables, dead: set<RelationKey>)
    requires Integrity(t)
    ensures Integrity(DropRelations(t, dead))
  {
    hide EvidenceKnown;
  }

  lemma RecountedAlone(t: Tables, keys: set<RelationKey>)
    requires Integrity(t)
    ensures Integrity(Recounted(t, keys))
  {
    hide EvidenceKnown;
  }

  lemma PrefixSites(latest: seq<PointerCallSite>, p: PointersProgress)
    requires PointersReach(latest, p)
    ensures forall k <- SiteKeys(PointerSites(latest)[..p.placed]) ::
      k.relation in Keys(PointerRelations(latest)[..p.related])
    ensures forall s <- PointerSites(latest)[..p.placed] :: s.receiver == None && s.certainty == None
  {
    PointerMembers(latest);
    var relations, sites := PointerRelations(latest), PointerSites(latest);
    hide PointerRelations, PointerSites;
    assert relations[..|relations|] == relations;
    assert forall s <- sites[..p.placed] :: s in sites;
    forall k <- SiteKeys(sites[..p.placed]) ensures k.relation in Keys(relations[..p.related]) {
      var s :| s in sites[..p.placed] && SiteKeyOf(s) == k;
      assert k in SiteKeys(sites);
      var c :| c in latest && c.target.Some? && PointerSiteKey(c) == k;
      assert PointerKey(c.source, c.target.value) in Keys(relations);
    }
  }

  lemma PrefixRefs(t: Tables, latest: seq<PointerCallSite>, p: PointersProgress)
    requires PointersReach(latest, p) && CallsReferToSymbols(t, latest[..p.called])
    ensures forall r <- PointerRelations(latest)[..p.related] ::
      r.key.source in t.symbols && r.key.destination in t.symbols
  {
    if p.related > 0 {
      assert latest[..|latest|] == latest;
      PointerRefs(t, latest);
      assert forall r <- PointerRelations(latest)[..p.related] :: r in PointerRelations(latest);
    }
  }

  /** No foreign key dangles, wherever the operation stops. */
  lemma PartialPointersIntegrity(t: Tables, latest: seq<PointerCallSite>, p: PointersProgress)
    requires Integrity(t) && PointersReach(latest, p) && CallsReferToSymbols(t, latest[..p.called])
    ensures Integrity(PartialPointers(t, latest, p))
  {
    hide Integrity, PointerRelations, PointerSites, Inserted, Upserted, ReplacedSites, CallRows, Recounted,
      DropRelations, CallsReferToSymbols, DropSites, CallerRelations, Unused, Members;
    PartialCalledIntegrity(t, latest, p);
    PrefixRefs(t, latest, p);
    PrefixSites(latest, p);
    var called := DropSites(t, ReplacedSites(t.calls, latest[..p.deleted]));
    called := called.(calls := called.calls + CallRows(latest[..p.called]));
    var relations, sites := PointerRelations(latest)[..p.related], PointerSites(latest)[..p.placed];
    InsertedKeys(called.relations, relations);
    InsertedIntegrity(called, relations);
    var related := called.(relations := Inserted(called.relations, relations));
    UpsertedIntegrity(related, sites);
    var stored := PartialStored(t, latest, p);
    var keys := CallerRelations(stored, Members(SortedCallers(latest)[..p.recounted]));
    RecountedAlone(stored, keys);
    DropRelationsIntegrity(Recounted(stored, keys),
                           Unused(Recounted(stored, keys), Members(SortedCallers(latest)[..p.dropped])));
  }

  lemma PartialCalledIntegrity(t: Tables, latest: seq<PointerCallSite>, p: PointersProgress)
    requires Integrity(t) && PointersReach(latest, p) && CallsReferToSymbols(t, latest[..p.called])
    ensures var cleared := DropSites(t, ReplacedSites(t.calls, latest[..p.deleted]));
      var called := cleared.(calls := cleared.calls + CallRows(latest[..p.called]));
      Integrity(called) && called.symbols == t.symbols
  {
    hide EvidenceKnown, PointerRelations, PointerSites, ReplacedSites;
    LastsMembers(latest[..p.called]);
  }

  /** Stored contexts stay valid, wherever the operation stops. */
  lemma PartialPointersContexts(t: Tables, latest: seq<PointerCallSite>, p: PointersProgress)
    requires PointersReach(latest, p) && ContextsValid(t)
    ensures ContextsValid(PartialPointers(t, latest, p))
  {
    hide Inserted, Upserted, PointerRelations, PointerSites, ReplacedSites, CallRows, CallerRelations, Unused, Members;
    PrefixSites(latest, p);
    var kept := t.sites - ReplacedSites(t.calls, latest[..p.deleted]);
    UpsertedValid(kept, PointerSites(latest)[..p.placed]);
    PartialPointersStopped(t, latest, p);
    StoppedSitesSubset(t, latest, p);
  }

  lemma StoppedSitesSubset(t: Tables, latest: seq<PointerCallSite>, p: PointersProgress)
    requires PointersReach(latest, p)
    ensures var stored := PartialStored(t, latest, p);
      PartialPointers(t, latest, p).sites == stored.sites &&
      stored.sites == Upserted(t.sites - ReplacedSites(t.calls, latest[..p.deleted]), PointerSites(latest)[..p.placed])
  {
    PartialPointersStopped(t, latest, p);
  }

  /** A kind-24 site is stored exactly if a row names its target. */
  ghost predicate SitesMatchRows(t: Tables) {
    forall k: SiteKey | k.relation.kind == POINTER_CALLS :: k in t.sites <==> NamedBy(t.calls, k)
  }

  /** A kind-24 relation that is stored is counted and has a site. */
  predicate InUse(t: Tables, r: RelationKey) {
    r in t.relations ==> Counted(t, r) && t.relations[r].count > 0
  }

  lemma AgreeMeans(t: Tables)
    ensures PointersAgree(t) <==>
      SitesMatchRows(t) && forall r <- t.relations | r.kind == POINTER_CALLS :: InUse(t, r)
  {
    hide Counted;
    if SitesMatchRows(t) && forall r <- t.relations | r.kind == POINTER_CALLS :: InUse(t, r) {
      forall r <- t.relations | r.kind == POINTER_CALLS ensures Counted(t, r) && t.relations[r].count > 0 {
        assert InUse(t, r);
      }
    }
  }

  /** Every row written so far has its site, and no row is left whose site is deleted. */
  predicate RowsHaveSites(t: Tables, latest: seq<PointerCallSite>, p: PointersProgress)
    requires PointersReach(latest, p)
  {
    SiteKeys(PointerSites(latest[..p.called])) <= SiteKeys(PointerSites(latest)[..p.placed]) &&
    ReplacedSites(t.calls, latest[p.called..p.deleted]) == {}
  }

  /** Which part of the batch a site's row belongs to. */
  lemma LastsOfPrefix(latest: seq<PointerCallSite>, n: nat, c: CallKey)
    requires Ascending(latest) && n <= |latest|
    ensures c in Lasts(latest[..n]) <==> exists i: nat :: i < n && KeyOf(latest[i]) == c
    ensures forall i: nat :: i < n && KeyOf(latest[i]) == c ==>
      c in Lasts(latest[..n]) && Lasts(latest[..n])[c] == latest[i]
  {
    LastsMembers(latest[..n]);
    forall i: nat | i < n && KeyOf(latest[i]) == c
      ensures c in Lasts(latest[..n]) && Lasts(latest[..n])[c] == latest[i]
    {
      assert latest[..n][i] in latest[..n];
      var j :| 0 <= j < n && latest[..n][j] == Lasts(latest[..n])[c];
      assert !Before(c, c);
      assert i == j;
    }
  }

  /** The sites named by a part of a batch are those of its rows. */
  lemma NamedByPrefix(latest: seq<PointerCallSite>, n: nat, k: SiteKey)
    requires Ascending(latest) && n <= |latest|
    ensures k in SiteKeys(PointerSites(latest[..n])) <==> NamedBy(CallRows(latest[..n]), k)
  {
    hide PointerSites, Lasts;
    PointerMembers(latest[..n]);
    LastsMembers(latest[..n]);
    if k in SiteKeys(PointerSites(latest[..n])) {
      var s :| s in latest[..n] && s.target.Some? && PointerSiteKey(s) == k;
      var i :| 0 <= i < n && latest[i] == s;
      LastsOfPrefix(latest, n, KeyOf(s));
    }
    if NamedBy(CallRows(latest[..n]), k) {
      var s := Lasts(latest[..n])[CallKey(k.relation.source, k.file, k.offset)];
      assert s in latest[..n] && PointerSiteKey(s) == k;
    }
  }

  /** Where one kind-24 site and its row stand after the stop. */
  lemma PartialSiteAt(t: Tables, latest: seq<PointerCallSite>, p: PointersProgress, k: SiteKey)
    requires PointersReach(latest, p) && Ascending(latest) && SitesMatchRows(t) && k.relation.kind == POINTER_CALLS
    ensures var stored := PartialStored(t, latest, p);
      (k in stored.sites <==> NamedBy(stored.calls, k)) <==>
      (k in SiteKeys(PointerSites(latest[..p.called])) ==> k in SiteKeys(PointerSites(latest)[..p.placed])) &&
      k !in ReplacedSites(t.calls, latest[p.called..p.deleted])
  {
    hide PartialStored, PointerSites, PointerRelations, Lasts, SiteKeys, Ascending;
    PartialStoredTables(t, latest, p);
    var c := CallKey(k.relation.source, k.file, k.offset);
    NamedByPrefix(latest, p.called, k);
    LastsOfPrefix(latest, p.called, c);
    LastsOfPrefix(latest, p.deleted, c);
    LastsOfRest(latest, p.called, p.deleted, c);
    if k in SiteKeys(PointerSites(latest)[..p.placed]) {
      PlacedIsNamed(latest, p, k);
    }
    assert k in t.sites <==> NamedBy(t.calls, k);
    hide SitesMatchRows;
    ReplacedMeans(t.calls, latest[..p.deleted], k);
    ReplacedMeans(t.calls, latest[p.called..p.deleted], k);
    hide ReplacedSites, PointersReach;
  }

  lemma ReplacedMeans(calls: map<CallKey, CallRow>, sites: seq<PointerCallSite>, k: SiteKey)
    ensures k in ReplacedSites(calls, sites) <==>
      NamedBy(calls, k) && CallKey(k.relation.source, k.file, k.offset) in Lasts(sites)
  {
    hide Lasts;
  }

  /** A site is placed only when its row is written. */
  lemma PlacedIsNamed(latest: seq<PointerCallSite>, p: PointersProgress, k: SiteKey)
    requires PointersReach(latest, p) && k in SiteKeys(PointerSites(latest)[..p.placed])
    ensures p.called == p.deleted == |latest| && k in SiteKeys(PointerSites(latest[..p.called]))
  {
    hide PointerSites, PointerRelations;
    assert latest[..|latest|] == latest;
    assert forall s <- PointerSites(latest)[..p.placed] :: s in PointerSites(latest);
  }

  lemma LastsOfRest(latest: seq<PointerCallSite>, m: nat, n: nat, c: CallKey)
    requires Ascending(latest) && m <= n <= |latest|
    ensures c in Lasts(latest[m..n]) <==> exists i: nat :: m <= i < n && KeyOf(latest[i]) == c
    ensures c in Lasts(latest[m..n]) <==> c in Lasts(latest[..n]) && c !in Lasts(latest[..m])
  {
    LastsMembers(latest[m..n]);
    LastsOfPrefix(latest, n, c);
    LastsOfPrefix(latest, m, c);
    hide Lasts;
    if c in Lasts(latest[m..n]) {
      var i :| 0 <= i < n - m && latest[m..n][i] == Lasts(latest[m..n])[c];
      assert KeyOf(latest[m + i]) == c;
    }
    if i: nat :| m <= i < n && KeyOf(latest[i]) == c {
      assert latest[m..n][i - m] in latest[m..n];
    }
    assert !Before(c, c);
  }

  /** Rows and kind-24 sites still match exactly if the stop fell where every row written has its site and no
      row is left whose site is deleted. */
  lemma PartialPointersMatchExactly(t: Tables, latest: seq<PointerCallSite>, p: PointersProgress)
    requires PointersReach(latest, p) && Ascending(latest) && SitesMatchRows(t)
    ensures SitesMatchRows(PartialPointers(t, latest, p)) <==> RowsHaveSites(t, latest, p)
  {
    hide PartialStored, PartialPointers, PointerSites, PointerRelations, SiteKeys, Ascending, NamedBy, ReplacedSites,
      SitesMatchRows;
    PartialPointersStopped(t, latest, p);
    MatchByKey(PartialPointers(t, latest, p));
    var written, placed := SiteKeys(PointerSites(latest[..p.called])), SiteKeys(PointerSites(latest)[..p.placed]);
    var gone := ReplacedSites(t.calls, latest[p.called..p.deleted]);
    PointerKinds(t, latest, p);
    forall k: SiteKey | k.relation.kind == POINTER_CALLS
      ensures MatchedAt(PartialPointers(t, latest, p), k) <==> (k in written ==> k in placed) && k !in gone
    {
      PartialSiteAt(t, latest, p, k);
    }
    hide PointersReach, MatchedAt;
  }

  ghost predicate MatchedAt(t: Tables, k: SiteKey) {
    k in t.sites <==> NamedBy(t.calls, k)
  }

  lemma MatchByKey(t: Tables)
    ensures SitesMatchRows(t) <==> forall k: SiteKey | k.relation.kind == POINTER_CALLS :: MatchedAt(t, k)
  {
    if forall k: SiteKey | k.relation.kind == POINTER_CALLS :: MatchedAt(t, k) {
      forall k: SiteKey | k.relation.kind == POINTER_CALLS ensures k in t.sites <==> NamedBy(t.calls, k) {
        assert MatchedAt(t, k);
      }
    }
  }

  lemma PointerKinds(t: Tables, latest: seq<PointerCallSite>, p: PointersProgress)
    requires PointersReach(latest, p)
    ensures forall k <- SiteKeys(PointerSites(latest[..p.called])) :: k.relation.kind == POINTER_CALLS
    ensures forall k <- ReplacedSites(t.calls, latest[p.called..p.deleted]) :: k.relation.kind == POINTER_CALLS
  {
    PointerMembers(latest[..p.called]);
  }

  // ----- counts of pointer relations -----

  /** The sites of a relation that went when their rows were about to be replaced, and those placed since. */
  function LostSites(t: Tables, latest: seq<PointerCallSite>, p: PointersProgress, r: RelationKey): set<SiteKey>
    requires PointersReach(latest, p)
  {
    SitesOf(t.sites, r) * ReplacedSites(t.calls, latest[..p.deleted])
  }

  function GainedSites(latest: seq<PointerCallSite>, p: PointersProgress, r: RelationKey): set<SiteKey>
    requires PointersReach(latest, p)
  {
    SitesFor(r, PointerSites(latest)[..p.placed])
  }

  /** When the count of a relation is right although the operation stopped: its caller was recounted; or it has
      as many sites as before; or it is new, with the one site that its count claims. */
  predicate PointerCountSurvives(t: Tables, latest: seq<PointerCallSite>, p: PointersProgress, r: RelationKey)
    requires PointersReach(latest, p)
  {
    var lost, gained := LostSites(t, latest, p, r), GainedSites(latest, p, r);
    r.source in RecountedCallers(latest, p) ||
    (if r in t.relations then |lost - gained| == |gained - SitesOf(t.sites, r)|
     else r in Keys(PointerRelations(latest)[..p.related]) ==> |gained| == 1)
  }

  /** A pointer relation is left without a site: it lost them all, and was not dropped yet. */
  predicate LeftEmpty(t: Tables, latest: seq<PointerCallSite>, p: PointersProgress, r: RelationKey)
    requires PointersReach(latest, p)
  {
    r.source in RecountedCallers(latest, p) && r.source !in DroppedCallers(latest, p) && r in t.relations &&
    SitesOf(t.sites, r) == LostSites(t, latest, p, r) && GainedSites(latest, p, r) == {}
  }

  lemma ExchangedSize(before: set<SiteKey>, lost: set<SiteKey>, gained: set<SiteKey>)
    requires lost <= before
    ensures |(before - lost) + gained| == |before| <==> |lost - gained| == |gained - before|
  {
    var left, added := before - (lost - gained), gained - before;
    assert (before - lost) + gained == left + added && left !! added;
    assert before == left + (lost - gained) && left !! (lost - gained);
    assert |left + added| == |left| + |added|;
    assert |left + (lost - gained)| == |left| + |lost - gained|;
  }

  lemma StoppedSitesOf(t: Tables, latest: seq<PointerCallSite>, p: PointersProgress, r: RelationKey)
    requires PointersReach(latest, p)
    ensures SitesOf(PartialStored(t, latest, p).sites, r) ==
            (SitesOf(t.sites, r) - LostSites(t, latest, p, r)) + GainedSites(latest, p, r)
    ensures LostSites(t, latest, p, r) <= SitesOf(t.sites, r)
  {
    hide PartialStored, PointerSites, PointerRelations, Lasts, SiteKeys, ReplacedSites;
    PartialStoredTables(t, latest, p);
  }

  /** Once all sites are placed, every relation of the batch has one. */
  lemma RelatedHasSite(latest: seq<PointerCallSite>, p: PointersProgress, r: RelationKey)
    requires PointersReach(latest, p) && r.source in RecountedCallers(latest, p)
    ensures r in Keys(PointerRelations(latest)[..p.related]) ==> GainedSites(latest, p, r) != {}
  {
    hide PointerSites, PointerRelations;
    PointerMembers(latest);
    assert PointerRelations(latest)[..|PointerRelations(latest)|] == PointerRelations(latest);
    assert PointerSites(latest)[..|PointerSites(latest)|] == PointerSites(latest);
    if r in Keys(PointerRelations(latest)[..p.related]) {
      var s :| s in latest && s.target.Some? && PointerKey(s.source, s.target.value) == r;
      assert PointerSiteKey(s) in GainedSites(latest, p, r);
    }
  }

  lemma OnlyPointersMove(t: Tables, latest: seq<PointerCallSite>, p: PointersProgress, r: RelationKey)
    requires PointersReach(latest, p) && r.kind != POINTER_CALLS
    ensures LostSites(t, latest, p, r) == {} == GainedSites(latest, p, r)
    ensures r !in Keys(PointerRelations(latest)[..p.related])
  {
    hide PointerSites, PointerRelations, Lasts;
    PointerMembers(latest);
    assert forall s <- PointerSites(latest)[..p.placed] :: s in PointerSites(latest);
    assert forall x <- PointerRelations(latest)[..p.related] :: x in PointerRelations(latest);
    forall k <- SiteKeys(PointerSites(latest)[..p.placed]) ensures k.relation.kind == POINTER_CALLS {
      assert k in SiteKeys(PointerSites(latest));
    }
    forall k <- Keys(PointerRelations(latest)[..p.related]) ensures k.kind == POINTER_CALLS {
      assert k in Keys(PointerRelations(latest));
    }
  }

  /** A relation whose count was right has a right count after the stop exactly then. */
  lemma PointerCountSurvivesExactly(t: Tables, latest: seq<PointerCallSite>, p: PointersProgress, r: RelationKey)
    requires PointersReach(latest, p) && Integrity(t) && CountedIfStored(t, r)
    ensures CountedIfStored(PartialPointers(t, latest, p), r) <==> PointerCountSurvives(t, latest, p, r)
  {
    PartialPointersStopped(t, latest, p);
    PartialStoredTables(t, latest, p);
    StoppedSitesOf(t, latest, p, r);
    ExchangedSize(SitesOf(t.sites, r), LostSites(t, latest, p, r), GainedSites(latest, p, r));
    if r.kind != POINTER_CALLS {
      OnlyPointersMove(t, latest, p, r);
    }
    if r !in t.relations {
      StrangersHaveNoSites(t, r);
      if r in Keys(PointerRelations(latest)[..p.related]) {
        PartialStoredNewCount(t, latest, p, r);
      }
    }
    DroppedWereRecounted(latest, p);
    hide PartialStored, PartialPointers, PointerSites, PointerRelations, Lasts, SiteKeys, Integrity,
      LostSites, GainedSites, RecountedCallers, DroppedCallers, PointersReach, Keys;
  }

  /** A pointer relation is counted and in use after the stop exactly if its count is right and it is not left
      empty. */
  lemma InUseExactly(t: Tables, latest: seq<PointerCallSite>, p: PointersProgress, r: RelationKey)
    requires PointersReach(latest, p) && Integrity(t) && InUse(t, r) && r.kind == POINTER_CALLS
    ensures InUse(PartialPointers(t, latest, p), r) <==>
      PointerCountSurvives(t, latest, p, r) && !LeftEmpty(t, latest, p, r)
  {
    hide PartialStored, PartialPointers, PointerSites, PointerRelations, Lasts, SiteKeys, Integrity, LostSites,
      GainedSites, RecountedCallers, DroppedCallers, Keys, ReplacedSites, SitesOf, PointerCountSurvives;
    PointerCountSurvivesExactly(t, latest, p, r);
    PartialPointersStopped(t, latest, p);
    PartialStoredTables(t, latest, p);
    StoppedSitesOf(t, latest, p, r);
    NothingLeft(SitesOf(t.sites, r), LostSites(t, latest, p, r), GainedSites(latest, p, r));
    if r.source in RecountedCallers(latest, p) {
      RecountedSurvives(t, latest, p, r);
      RelatedHasSite(latest, p, r);
    } else if r !in t.relations && r in Keys(PointerRelations(latest)[..p.related]) {
      PartialStoredNewCount(t, latest, p, r);
    }
    DroppedWereRecounted(latest, p);
    hide PointersReach;
  }

  lemma RecountedSurvives(t: Tables, latest: seq<PointerCallSite>, p: PointersProgress, r: RelationKey)
    requires PointersReach(latest, p) && r.source in RecountedCallers(latest, p)
    ensures PointerCountSurvives(t, latest, p, r)
  {
  }

  lemma NothingLeft(before: set<SiteKey>, lost: set<SiteKey>, gained: set<SiteKey>)
    requires lost <= before
    ensures |(before - lost) + gained| == 0 <==> before == lost && gained == {}
  {
    if |(before - lost) + gained| == 0 {
      assert (before - lost) + gained == {};
      assert forall k <- before :: k in lost || k in (before - lost) + gained;
      assert forall k <- gained :: k in (before - lost) + gained;
    }
  }

  /** When the pointer calls still agree although the operation stopped. */
  ghost predicate PointersSurvive(t: Tables, latest: seq<PointerCallSite>, p: PointersProgress)
    requires PointersReach(latest, p)
  {
    RowsHaveSites(t, latest, p) &&
    forall r: RelationKey | r.kind == POINTER_CALLS ::
      PointerCountSurvives(t, latest, p, r) && !LeftEmpty(t, latest, p, r)
  }

  /** A stopped batch of pointer calls keeps the agreement exactly then. */
  lemma PartialPointersAgreeExactly(t: Tables, latest: seq<PointerCallSite>, p: PointersProgress)
    requires PointersReach(latest, p) && Ascending(latest) && Integrity(t) && PointersAgree(t)
    ensures PointersAgree(PartialPointers(t, latest, p)) <==> PointersSurvive(t, latest, p)
  {
    var next := PartialPointers(t, latest, p);
    hide PartialPointers, PointerCountSurvives, LeftEmpty, Integrity, Ascending, PointersAgree, SitesMatchRows,
      RowsHaveSites, Counted, PointersReach;
    AgreeMeans(t);
    AgreeMeans(next);
    PartialPointersMatchExactly(t, latest, p);
    forall r: RelationKey | r.kind == POINTER_CALLS
      ensures InUse(next, r) <==> PointerCountSurvives(t, latest, p, r) && !LeftEmpty(t, latest, p, r)
    {
      InUseExactly(t, latest, p, r);
    }
  }

  // ----- clearing callers -----

  /** The callers whose relations are gone, and those whose rows are gone as well. */
  datatype ClearProgress = ClearProgress(dropped: nat, cleared: nat)

  predicate ClearReach(callers: seq<SymbolId>, p: ClearProgress) {
    p.dropped <= |callers| && p.cleared <= |callers| && (p.cleared > 0 ==> p.dropped == |callers|)
  }

  function PartialClear(t: Tables, callers: seq<SymbolId>, p: ClearProgress): Tables
    requires ClearReach(callers, p)
  {
    var dropped := DropRelations(t, CallerRelations(t, Members(callers[..p.dropped])));
    DropCalls(dropped, Members(callers[..p.cleared]))
  }

  lemma ClearedWereDropped(callers: seq<SymbolId>, p: ClearProgress)
    requires ClearReach(callers, p)
    ensures Members(callers[..p.cleared]) <= Members(callers[..p.dropped])
  {
    if p.cleared > 0 {
      assert callers[..p.dropped] == callers;
    }
  }

  /** Foreign keys hold, contexts stay valid and counts right, wherever clearing stops. */
  lemma PartialClearKeeps(t: Tables, callers: seq<SymbolId>, p: ClearProgress)
    requires ClearReach(callers, p)
    ensures Integrity(t) ==> Integrity(PartialClear(t, callers, p))
    ensures ContextsValid(t) ==> ContextsValid(PartialClear(t, callers, p))
    ensures forall r :: CountedIfStored(t, r) ==> CountedIfStored(PartialClear(t, callers, p), r)
  {
    hide ContextsValid, Integrity, Members, CallerRelations, CountedIfStored;
    var dead := CallerRelations(t, Members(callers[..p.dropped]));
    if Integrity(t) {
      DropRelationsIntegrity(t, dead);
      DropCallsIntegrity(DropRelations(t, dead), Members(callers[..p.cleared]));
    }
    DroppedRest(t, dead);
    hide DropRelations;
  }

  lemma DroppedRest(t: Tables, dead: set<RelationKey>)
    ensures forall callers :: ContextsValid(t) ==> ContextsValid(DropCalls(DropRelations(t, dead), callers))
    ensures forall callers, r ::
      CountedIfStored(t, r) ==> CountedIfStored(DropCalls(DropRelations(t, dead), callers), r)
  {
    var next := DropRelations(t, dead);
    forall r <- next.relations ensures SitesOf(next.sites, r) == SitesOf(t.sites, r) {
      SameSites(t.sites, next.sites, r);
    }
  }

  lemma DropCallsIntegrity(t: Tables, callers: set<SymbolId>)
    requires Integrity(t)
    ensures Integrity(DropCalls(t, callers))
  {
    hide EvidenceKnown;
  }

  /** No row that names a target is left for a caller whose relations are gone. */
  predicate ClearSurvives(t: Tables, callers: seq<SymbolId>, p: ClearProgress)
    requires ClearReach(callers, p)
  {
    forall c <- t.calls | c.source in Members(callers[..p.dropped]) - Members(callers[..p.cleared]) ::
      t.calls[c].target.None?
  }

  /** Clearing that stops keeps the agreement exactly then. */
  lemma PartialClearAgreesExactly(t: Tables, callers: seq<SymbolId>, p: ClearProgress)
    requires ClearReach(callers, p) && Integrity(t) && PointersAgree(t)
    ensures PointersAgree(PartialClear(t, callers, p)) <==> ClearSurvives(t, callers, p)
  {
    var next := PartialClear(t, callers, p);
    ClearedWereDropped(callers, p);
    AgreeMeans(t);
    AgreeMeans(next);
    ClearedTables(t, callers, p);
    hide PartialClear, PointersAgree, ClearReach, Members;
    forall r <- next.relations | r.kind == POINTER_CALLS ensures InUse(next, r) {
      assert InUse(t, r);
      SameSites(t.sites, next.sites, r);
    }
    if ClearSurvives(t, callers, p) {
      ClearMatches(t, callers, p);
    } else {
      var c :| c in t.calls && c.source in Members(callers[..p.dropped]) - Members(callers[..p.cleared]) &&
        t.calls[c].target.Some?;
      var k := SiteKey(PointerKey(c.source, t.calls[c].target.value), c.file, c.offset);
      assert CallKey(k.relation.source, k.file, k.offset) == c;
      assert NamedBy(next.calls, k) && k !in next.sites;
    }
  }

  lemma ClearMatches(t: Tables, callers: seq<SymbolId>, p: ClearProgress)
    requires ClearReach(callers, p) && Integrity(t) && SitesMatchRows(t) && ClearSurvives(t, callers, p)
    ensures SitesMatchRows(PartialClear(t, callers, p))
  {
    var next := PartialClear(t, callers, p);
    ClearedWereDropped(callers, p);
    ClearedTables(t, callers, p);
    hide PartialClear, ClearReach, Members;
    forall k: SiteKey | k.relation.kind == POINTER_CALLS ensures k in next.sites <==> NamedBy(next.calls, k) {
      var c := CallKey(k.relation.source, k.file, k.offset);
      assert k in t.sites <==> NamedBy(t.calls, k);
    }
  }

  lemma ClearedTables(t: Tables, callers: seq<SymbolId>, p: ClearProgress)
    requires ClearReach(callers, p) && Integrity(t)
    ensures var next := PartialClear(t, callers, p);
      (forall k: SiteKey | k.relation.kind == POINTER_CALLS ::
        k in next.sites <==> k in t.sites && k.relation.source !in Members(callers[..p.dropped])) &&
      (forall c: CallKey :: c in next.calls <==> c in t.calls && c.source !in Members(callers[..p.cleared])) &&
      (forall c <- next.calls :: next.calls[c] == t.calls[c]) &&
      (forall r <- next.relations :: r in t.relations && next.relations[r] == t.relations[r]) &&
      (forall r <- next.relations | r.kind == POINTER_CALLS :: r.source !in Members(callers[..p.dropped]))
  {
    hide Members;
  }
}
