/** What the relation and pointer-call operations do to the fact tables, and what they keep
    (src/storage/RelationSite.cpp, src/storage/PointerCallSite.cpp). */
module FactOperations {
  import opened Text
  import opened PointerBatch
  import opened FactTables

  // ----- addRelationFacts -----

  predicate ValidContext(site: RelationSite) {
    ValidPair(SiteContext(site))
  }

  predicate ValidRelationSite(site: RelationSite) {
    site.relation.kind in {USES, CALLS, DISPATCH_CALLS, POINTER_CALLS, OVERRIDES} &&
    site.relation.source != NO_SYMBOL && site.relation.destination != NO_SYMBOL && site.file != BUILTIN_FILE &&
    site.location.line != 0 && site.location.column != 0 && ValidContext(site)
  }

  predicate SitesBelongToRelations(relations: seq<Relation>, sites: seq<RelationSite>) {
    forall s <- sites :: exists r <- relations :: r.key == s.relation
  }

  predicate ValidUseFacts(relations: seq<Relation>, sites: seq<RelationSite>) {
    (forall r <- relations ::
       r.key.kind == USES && r.key.source != NO_SYMBOL && r.key.destination != NO_SYMBOL) &&
    (forall s <- sites ::
       s.relation.kind == USES && s.relation.source != NO_SYMBOL && s.relation.destination != NO_SYMBOL &&
       s.file != BUILTIN_FILE && s.location.line != 0 && s.location.column != 0) &&
    SitesBelongToRelations(relations, sites)
  }

  /** The call sites whose target is external or has no definition. */
  function ExternalSites(t: Tables): set<SiteKey> {
    set k | k in t.sites && k.relation.kind == CALLS && k.relation.destination in t.symbols &&
            (t.symbols[k.relation.destination].isExternal || k.relation.destination !in t.definitions)
  }

  function RelationFacts(t: Tables, relations: seq<Relation>, sites: seq<RelationSite>): Tables {
    var inserted := t.(relations := Inserted(t.relations, relations));
    var placed := inserted.(sites := Upserted(inserted.sites, sites));
    var counted := Recounted(placed, Keys(relations));
    counted.(external := counted.external + ExternalSites(counted))
  }

  /** The rows a batch refers to exist, so that no foreign key rejects it. */
  predicate RefersToSymbols(t: Tables, relations: seq<Relation>, sites: seq<RelationSite>) {
    (forall r <- relations :: r.key.source in t.symbols && r.key.destination in t.symbols) &&
    ReceiversResolve(t.sites, sites, t.symbols.Keys)
  }

  /** The batches that a sound database stores. */
  predicate AcceptsRelationFacts(t: Tables, relations: seq<Relation>, sites: seq<RelationSite>) {
    SitesBelongToRelations(relations, sites) && (forall s <- sites :: ValidRelationSite(s)) &&
    RefersToSymbols(t, relations, sites)
  }

  predicate AcceptsUseFacts(t: Tables, relations: seq<Relation>, sites: seq<RelationSite>) {
    ValidUseFacts(relations, sites) && (forall s <- sites :: ValidContext(s)) && RefersToSymbols(t, relations, sites)
  }

  // ----- addPointerCallSites and clearPointerCallSites -----

  predicate ValidPointerCall(site: PointerCallSite) {
    site.source != NO_SYMBOL && site.file != BUILTIN_FILE && site.location.line != 0 && site.location.column != 0 &&
    (site.target.Some? ==> site.target.value != NO_SYMBOL) && site.signature != "" && site.expression != ""
  }

  function CallRowOf(site: PointerCallSite): CallRow {
    CallRow(site.target, site.location.line, site.location.column, site.signature, site.expression)
  }

  function CallRows(sites: seq<PointerCallSite>): map<CallKey, CallRow> {
    map k | k in Lasts(sites) :: CallRowOf(Lasts(sites)[k])
  }

  function PointerKey(source: SymbolId, target: SymbolId): RelationKey {
    RelationKey(source, target, POINTER_CALLS, 0)
  }

  /** The sites that the stored rows under the batch's keys stand for. */
  function ReplacedSites(calls: map<CallKey, CallRow>, sites: seq<PointerCallSite>): set<SiteKey> {
    set c | c in Lasts(sites) && c in calls && calls[c].target.Some? ::
      SiteKey(PointerKey(c.source, calls[c].target.value), c.file, c.offset)
  }

  function PointerRelations(sites: seq<PointerCallSite>): seq<Relation> {
    if sites == [] then []
    else
      var first := sites[0];
      (if first.target.Some? then [Relation(PointerKey(first.source, first.target.value), 3, 1)] else []) +
      PointerRelations(sites[1..])
  }

  function PointerSites(sites: seq<PointerCallSite>): seq<RelationSite> {
    if sites == [] then []
    else
      var first := sites[0];
      (if first.target.Some? then
         [RelationSite(PointerKey(first.source, first.target.value), first.file, first.location, None, None)]
       else []) +
      PointerSites(sites[1..])
  }

  function Callers(sites: seq<PointerCallSite>): set<SymbolId> {
    set s | s in sites :: s.source
  }

  function Members(callers: seq<SymbolId>): set<SymbolId> {
    set c | c in callers
  }

  function CallerRelations(t: Tables, callers: set<SymbolId>): set<RelationKey> {
    set r | r in t.relations && r.kind == POINTER_CALLS && r.source in callers
  }

  function Unused(t: Tables, callers: set<SymbolId>): set<RelationKey> {
    set r | r in t.relations && r.kind == POINTER_CALLS && r.source in callers && t.relations[r].count == 0
  }

  /** The tables once the batch's rows and sites are stored, before counting. */
  function PointerStored(t: Tables, observations: seq<PointerCallSite>): Tables {
    var latest := Latest(observations);
    var cleared := DropSites(t, ReplacedSites(t.calls, latest));
    var called := cleared.(calls := cleared.calls + CallRows(latest));
    var related := called.(relations := Inserted(called.relations, PointerRelations(latest)));
    related.(sites := Upserted(related.sites, PointerSites(latest)))
  }

  function PointerFacts(t: Tables, observations: seq<PointerCallSite>): Tables {
    var callers := Callers(Latest(observations));
    var stored := PointerStored(t, observations);
    var counted := Recounted(stored, CallerRelations(stored, callers));
    DropRelations(counted, Unused(counted, callers))
  }

  predicate CallsReferToSymbols(t: Tables, sites: seq<PointerCallSite>) {
    forall s <- sites :: s.source in t.symbols && (s.target.Some? ==> s.target.value in t.symbols)
  }

  /** The batches of pointer calls that a sound database stores. */
  predicate AcceptsPointers(t: Tables, observations: seq<PointerCallSite>) {
    (forall o <- observations :: ValidPointerCall(o)) && CallsReferToSymbols(t, Latest(observations))
  }

  function DropCalls(t: Tables, callers: set<SymbolId>): Tables {
    t.(calls := map c | c in t.calls && c.source !in callers :: t.calls[c])
  }

  function ClearedPointers(t: Tables, callers: set<SymbolId>): Tables {
    DropCalls(DropRelations(t, CallerRelations(t, callers)), callers)
  }

  // ----- membership of the pointer batches -----

  function PointerSiteKey(site: PointerCallSite): SiteKey
    requires site.target.Some?
  {
    SiteKey(PointerKey(site.source, site.target.value), site.file, site.location.offset)
  }

  lemma {:induction false} PointerMembers(sites: seq<PointerCallSite>)
    ensures Keys(PointerRelations(sites)) ==
            set s | s in sites && s.target.Some? :: PointerKey(s.source, s.target.value)
    ensures SiteKeys(PointerSites(sites)) == set s | s in sites && s.target.Some? :: PointerSiteKey(s)
    ensures forall p <- PointerSites(sites) :: p.receiver.None? && p.certainty.None?
  {
    if sites != [] {
      var first, rest := sites[0], sites[1..];
      PointerMembers(rest);
      assert sites == [first] + rest;
      if first.target.Some? {
        var key := PointerKey(first.source, first.target.value);
        KeysConcat([Relation(key, 3, 1)], PointerRelations(rest));
        SiteKeysConcat([RelationSite(key, first.file, first.location, None, None)], PointerSites(rest));
        KeysOfOne(Relation(key, 3, 1), RelationSite(key, first.file, first.location, None, None));
      } else {
        assert [] + PointerRelations(rest) == PointerRelations(rest);
        assert [] + PointerSites(rest) == PointerSites(rest);
      }
    }
  }

  /** The site stands for a row that names its target. */
  predicate NamedBy(rows: map<CallKey, CallRow>, key: SiteKey) {
    key.relation.kind == POINTER_CALLS && key.relation.position == 0 &&
    var call := CallKey(key.relation.source, key.file, key.offset);
    call in rows && rows[call].target == Some(key.relation.destination)
  }

  lemma BatchRows(observations: seq<PointerCallSite>)
    ensures CallRows(Latest(observations)) == CallRows(observations)
    ensures Lasts(Latest(observations)) == Lasts(observations)
    ensures forall c <- Lasts(observations) :: c.source in Callers(Latest(observations))
  {
    LatestIsLast(observations);
    LastsMembers(observations);
    forall c <- Lasts(observations) ensures c.source in Callers(Latest(observations)) {
      assert Lasts(observations)[c] in Latest(observations);
    }
  }

  lemma BatchSites(observations: seq<PointerCallSite>)
    ensures forall key :: key in SiteKeys(PointerSites(Latest(observations))) <==> NamedBy(CallRows(observations), key)
    ensures forall key <- Keys(PointerRelations(Latest(observations))) ::
      key.kind == POINTER_CALLS && key.position == 0 && key.source in Callers(Latest(observations))
    ensures forall key <- SiteKeys(PointerSites(Latest(observations))) ::
      key.relation in Keys(PointerRelations(Latest(observations)))
  {
    var latest := Latest(observations);
    LatestIsLast(observations);
    LastsMembers(observations);
    PointerMembers(latest);
    forall key ensures key in SiteKeys(PointerSites(latest)) <==> NamedBy(CallRows(observations), key) {
      if NamedBy(CallRows(observations), key) {
        var s := Lasts(observations)[CallKey(key.relation.source, key.file, key.offset)];
        assert s in latest && PointerSiteKey(s) == key;
      }
      if key in SiteKeys(PointerSites(latest)) {
        var s :| s in latest && s.target.Some? && PointerSiteKey(s) == key;
        assert KeyOf(s) in Lasts(observations);
      }
    }
    forall key <- SiteKeys(PointerSites(latest)) ensures key.relation in Keys(PointerRelations(latest)) {
      var s :| s in latest && s.target.Some? && PointerSiteKey(s) == key;
    }
  }

  // ----- what addRelationFacts keeps -----

  lemma BelongingKeys(relations: seq<Relation>, sites: seq<RelationSite>)
    requires SitesBelongToRelations(relations, sites)
    ensures forall k <- SiteKeys(sites) :: k.relation in Keys(relations)
  {
  }

  lemma ElsewhereUntouched(t: Tables, relations: seq<Relation>, sites: seq<RelationSite>, r: RelationKey)
    requires SitesBelongToRelations(relations, sites) && r !in Keys(relations)
    ensures var next := RelationFacts(t, relations, sites);
      (r in next.relations <==> r in t.relations) &&
      (r in t.relations ==> next.relations[r] == t.relations[r]) &&
      SitesOf(next.sites, r) == SitesOf(t.sites, r)
  {
    hide Inserted, Upserted, SitesBelongToRelations, ExternalSites;
    BelongingKeys(relations, sites);
    InsertedKeys(t.relations, relations);
    UpsertedKeys(t.sites, sites);
    SameSites(t.sites, Upserted(t.sites, sites), r);
  }

  lemma NamedIsCounted(t: Tables, relations: seq<Relation>, sites: seq<RelationSite>, r: RelationKey)
    requires r in Keys(relations)
    ensures Counted(RelationFacts(t, relations, sites), r)
  {
    hide Inserted, Upserted, ExternalSites;
    InsertedKeys(t.relations, relations);
  }

  /** Every relation named in the batch ends up counted; any other that is counted stays so. */
  lemma RelationFactsCounts(t: Tables, relations: seq<Relation>, sites: seq<RelationSite>, r: RelationKey)
    requires SitesBelongToRelations(relations, sites)
    ensures r in Keys(relations) || Counted(t, r) ==> Counted(RelationFacts(t, relations, sites), r)
  {
    hide RelationFacts;
    if r in Keys(relations) {
      NamedIsCounted(t, relations, sites, r);
    } else {
      ElsewhereUntouched(t, relations, sites, r);
    }
  }

  lemma InsertedIntegrity(t: Tables, relations: seq<Relation>)
    requires Integrity(t) && forall r <- relations :: r.key.source in t.symbols && r.key.destination in t.symbols
    ensures Integrity(t.(relations := Inserted(t.relations, relations)))
  {
    hide Inserted;
    InsertedKeys(t.relations, relations);
  }

  lemma UpsertedIntegrity(t: Tables, sites: seq<RelationSite>)
    requires Integrity(t) && (forall k <- SiteKeys(sites) :: k.relation in t.relations)
    requires ReceiversResolve(t.sites, sites, t.symbols.Keys)
    ensures Integrity(t.(sites := Upserted(t.sites, sites)))
  {
    hide Upserted;
    UpsertedKeys(t.sites, sites);
    UpsertedReceivers(t.sites, sites, t.symbols.Keys);
  }

  lemma RecountedIntegrity(t: Tables, keys: set<RelationKey>)
    requires Integrity(t)
    ensures var counted := Recounted(t, keys);
      Integrity(counted) && Integrity(counted.(external := counted.external + ExternalSites(counted)))
  {
    hide EvidenceKnown;
  }

  lemma RelationFactsIntegrity(t: Tables, relations: seq<Relation>, sites: seq<RelationSite>)
    requires Integrity(t) && SitesBelongToRelations(relations, sites) && RefersToSymbols(t, relations, sites)
    ensures Integrity(RelationFacts(t, relations, sites))
  {
    hide Inserted, Upserted, SitesBelongToRelations, Integrity, Recounted, ExternalSites, SiteKeys, Keys;
    BelongingKeys(relations, sites);
    InsertedKeys(t.relations, relations);
    InsertedIntegrity(t, relations);
    var inserted := t.(relations := Inserted(t.relations, relations));
    UpsertedIntegrity(inserted, sites);
    RecountedIntegrity(inserted.(sites := Upserted(inserted.sites, sites)), Keys(relations));
  }

  // ----- what addPointerCallSites keeps -----

  lemma StoredSites(t: Tables, observations: seq<PointerCallSite>)
    ensures var stored := PointerStored(t, observations);
      (forall k :: k in stored.sites <==>
        NamedBy(CallRows(observations), k) || (k in t.sites && k !in ReplacedSites(t.calls, observations))) &&
      stored.calls == t.calls + CallRows(observations) &&
      stored.relations.Keys == t.relations.Keys + Keys(PointerRelations(Latest(observations))) &&
      (forall r <- t.relations :: stored.relations[r] == t.relations[r]) &&
      stored.symbols == t.symbols && stored.definitions == t.definitions && stored.unresolved == t.unresolved
  {
    hide Inserted, Upserted;
    var latest := Latest(observations);
    BatchRows(observations);
    BatchSites(observations);
    InsertedKeys(t.relations, PointerRelations(latest));
    UpsertedKeys(t.sites - ReplacedSites(t.calls, latest), PointerSites(latest));
  }

  /** Sites of relations of other kinds or callers are untouched. */
  lemma StoredElsewhere(t: Tables, observations: seq<PointerCallSite>, r: RelationKey)
    requires r.kind != POINTER_CALLS || r.source !in Callers(Latest(observations))
    ensures SitesOf(PointerStored(t, observations).sites, r) == SitesOf(t.sites, r)
    ensures r in PointerStored(t, observations).relations <==> r in t.relations
  {
    hide Latest, Lasts, Callers;
    StoredSites(t, observations);
    BatchRows(observations);
    BatchSites(observations);
    hide PointerStored;
    SameSites(t.sites, PointerStored(t, observations).sites, r);
  }

  lemma StoredAgrees(t: Tables, observations: seq<PointerCallSite>, k: SiteKey)
    requires PointersAgree(t) && k.relation.kind == POINTER_CALLS
    ensures var stored := PointerStored(t, observations);
      k in stored.sites <==> NamedBy(stored.calls, k)
  {
    hide Latest, Lasts, Counted;
    StoredSites(t, observations);
    hide PointerStored;
    var call := CallKey(k.relation.source, k.file, k.offset);
    assert k in t.sites <==> NamedBy(t.calls, k);
    if call in CallRows(observations) && k in t.sites {
      assert k in ReplacedSites(t.calls, observations);
    }
  }

  /** Counting and dropping unused relations leaves every site and counts every relation of the callers. */
  lemma CountedPointers(stored: Tables, callers: set<SymbolId>)
    requires forall k <- stored.sites :: k.relation in stored.relations
    ensures var counted := Recounted(stored, CallerRelations(stored, callers));
      var next := DropRelations(counted, Unused(counted, callers));
      next.sites == stored.sites &&
      (forall r :: r in next.relations <==>
        r in stored.relations && !(r.kind == POINTER_CALLS && r.source in callers && SitesOf(stored.sites, r) == {})) &&
      (forall r <- next.relations :: next.relations[r].count ==
        if r.kind == POINTER_CALLS && r.source in callers then |SitesOf(stored.sites, r)|
        else stored.relations[r].count)
  {
    var counted := Recounted(stored, CallerRelations(stored, callers));
    forall r <- Unused(counted, callers) ensures SitesOf(stored.sites, r) == {} {
    }
    forall k <- stored.sites ensures k.relation !in Unused(counted, callers) {
      assert k in SitesOf(stored.sites, k.relation);
    }
  }

  lemma StoredIntegrity(t: Tables, observations: seq<PointerCallSite>)
    requires Integrity(t)
    ensures forall k <- PointerStored(t, observations).sites :: k.relation in PointerStored(t, observations).relations
  {
    hide Latest, Lasts, Inserted, Upserted;
    var latest := Latest(observations);
    BatchSites(observations);
    InsertedKeys(t.relations, PointerRelations(latest));
    UpsertedKeys(t.sites - ReplacedSites(t.calls, latest), PointerSites(latest));
  }

  /** A counted relation stays counted while it exists, and every pointer relation of a caller is counted. */
  lemma PointerFactsCounts(t: Tables, observations: seq<PointerCallSite>, r: RelationKey)
    requires Integrity(t)
    ensures var next := PointerFacts(t, observations);
      r in next.relations &&
      (Counted(t, r) || (r.kind == POINTER_CALLS && r.source in Callers(Latest(observations)))) ==>
        Counted(next, r)
  {
    hide Latest, Callers, PointerStored, Integrity;
    var callers := Callers(Latest(observations));
    StoredIntegrity(t, observations);
    CountedPointers(PointerStored(t, observations), callers);
    StoredSites(t, observations);
    if r.kind != POINTER_CALLS || r.source !in callers {
      StoredElsewhere(t, observations, r);
    }
  }

  /** Every target named by a last observation has a counted relation with at least one site. */
  lemma PointerFactsNamed(t: Tables, observations: seq<PointerCallSite>, key: SiteKey)
    requires Integrity(t) && NamedBy(CallRows(observations), key)
    ensures var next := PointerFacts(t, observations);
      key in next.sites && Counted(next, key.relation) && next.relations[key.relation].count > 0
  {
    hide Latest, PointerStored, Integrity, Lasts;
    var callers := Callers(Latest(observations));
    var stored := PointerStored(t, observations);
    BatchRows(observations);
    StoredIntegrity(t, observations);
    StoredSites(t, observations);
    CountedPointers(stored, callers);
    assert key in SitesOf(stored.sites, key.relation);
    PointerFactsCounts(t, observations, key.relation);
  }

  lemma PointerFactsSites(t: Tables, observations: seq<PointerCallSite>)
    requires Integrity(t) && PointersAgree(t)
    ensures PointerFacts(t, observations).calls == t.calls + CallRows(observations)
    ensures forall k: SiteKey | k.relation.kind == POINTER_CALLS ::
      k in PointerFacts(t, observations).sites <==> NamedBy(PointerFacts(t, observations).calls, k)
  {
    hide Latest, Callers, PointerStored, Lasts, Counted, CallRows, ReplacedSites, NamedBy;
    var stored := PointerStored(t, observations);
    StoredIntegrity(t, observations);
    StoredSites(t, observations);
    CountedPointers(stored, Callers(Latest(observations)));
    hide PointersAgree;
    forall k: SiteKey | k.relation.kind == POINTER_CALLS ensures k in stored.sites <==> NamedBy(stored.calls, k) {
      StoredAgrees(t, observations, k);
    }
  }

  /** After a batch of pointer calls, pointer-call rows and kind-24 sites agree and kind-24 relations are
      counted and in use. */
  lemma PointerFactsAgree(t: Tables, observations: seq<PointerCallSite>)
    requires Integrity(t) && PointersAgree(t)
    ensures PointersAgree(PointerFacts(t, observations))
    ensures PointerFacts(t, observations).calls == t.calls + CallRows(observations)
  {
    hide PointerFacts, Counted, CallRows, Integrity;
    PointerFactsSites(t, observations);
    var next := PointerFacts(t, observations);
    forall r <- next.relations | r.kind == POINTER_CALLS ensures Counted(next, r) && next.relations[r].count > 0 {
      PointerFactsInUse(t, observations, r);
    }
  }

  lemma PointerFactsInUse(t: Tables, observations: seq<PointerCallSite>, r: RelationKey)
    requires Integrity(t) && PointersAgree(t) && r.kind == POINTER_CALLS && r in PointerFacts(t, observations).relations
    ensures var next := PointerFacts(t, observations); Counted(next, r) && next.relations[r].count > 0
  {
    hide Latest, Callers, PointerStored, Lasts, Integrity;
    var callers := Callers(Latest(observations));
    StoredIntegrity(t, observations);
    StoredSites(t, observations);
    CountedPointers(PointerStored(t, observations), callers);
    PointerFactsCounts(t, observations, r);
    if r.source !in callers {
      StoredElsewhere(t, observations, r);
    }
  }

  lemma CalledIntegrity(t: Tables, latest: seq<PointerCallSite>)
    requires Integrity(t) && CallsReferToSymbols(t, latest)
    ensures var cleared := DropSites(t, ReplacedSites(t.calls, latest));
      Integrity(cleared.(calls := cleared.calls + CallRows(latest)))
  {
    hide EvidenceKnown;
    LastsMembers(latest);
  }

  lemma {:induction false} PointerRefs(t: Tables, sites: seq<PointerCallSite>)
    requires CallsReferToSymbols(t, sites)
    ensures RefersToSymbols(t, PointerRelations(sites), PointerSites(sites))
  {
    PointerMembers(sites);
    forall i: nat | i < |PointerSites(sites)| ensures ResolvesAt(t.sites, PointerSites(sites), i, t.symbols.Keys) {
      assert PointerSites(sites)[i] in PointerSites(sites);
    }
    if sites != [] {
      PointerRefs(t, sites[1..]);
    }
    hide PointerSites;
  }

  lemma StoredEnds(t: Tables, observations: seq<PointerCallSite>)
    requires Integrity(t) && CallsReferToSymbols(t, Latest(observations))
    ensures forall r <- PointerStored(t, observations).relations :: r.source in t.symbols && r.destination in t.symbols
  {
    hide Latest, Lasts, Inserted, Upserted, Callers;
    var latest := Latest(observations);
    LatestIsLast(observations);
    LastsMembers(observations);
    PointerMembers(latest);
    StoredSites(t, observations);
    hide PointerStored;
    forall r <- PointerStored(t, observations).relations ensures r.source in t.symbols && r.destination in t.symbols {
      if r !in t.relations {
        var s :| s in latest && s.target.Some? && r == PointerKey(s.source, s.target.value);
      }
    }
  }

  lemma StoredCalls(t: Tables, observations: seq<PointerCallSite>)
    requires Integrity(t) && CallsReferToSymbols(t, Latest(observations))
    ensures forall c <- PointerStored(t, observations).calls ::
      c.source in t.symbols && (PointerStored(t, observations).calls[c].target.Some? ==>
        PointerStored(t, observations).calls[c].target.value in t.symbols)
  {
    hide Latest, Lasts, Inserted, Upserted, Callers;
    LastsMembers(observations);
    LatestIsLast(observations);
    StoredSites(t, observations);
    hide PointerStored;
    var calls := PointerStored(t, observations).calls;
    forall c <- calls ensures c.source in t.symbols && (calls[c].target.Some? ==> calls[c].target.value in t.symbols) {
      if c in Lasts(observations) {
        assert Lasts(observations)[c] in Latest(observations);
      }
    }
  }

  lemma StoredRows(t: Tables, observations: seq<PointerCallSite>)
    requires Integrity(t)
    ensures var stored := PointerStored(t, observations);
      (forall k <- stored.sites :: ReceiverKnown(stored.sites[k], stored.symbols.Keys)) &&
      (forall k <- stored.external :: k in stored.sites && k.relation.destination in stored.symbols)
  {
    hide EvidenceKnown;
    hide Latest, Lasts, Inserted, Upserted, Callers;
    var latest := Latest(observations);
    PointerMembers(latest);
    UpsertedKeys(t.sites - ReplacedSites(t.calls, latest), PointerSites(latest));
    UpsertedReceivers(t.sites - ReplacedSites(t.calls, latest), PointerSites(latest), t.symbols.Keys);
  }

  lemma CountedIntegrity(stored: Tables, callers: set<SymbolId>)
    requires Integrity(stored)
    ensures var counted := Recounted(stored, CallerRelations(stored, callers));
      Integrity(DropRelations(counted, Unused(counted, callers)))
  {
    CountedPointers(stored, callers);
    hide CallerRelations, Unused, Recounted;
  }

  lemma PointerFactsIntegrity(t: Tables, observations: seq<PointerCallSite>)
    requires Integrity(t) && CallsReferToSymbols(t, Latest(observations))
    ensures Integrity(PointerFacts(t, observations))
  {
    hide Latest, Callers, CallRows, NamedBy, ReplacedSites, PointerRelations;
    StoredIntegrity(t, observations);
    StoredEnds(t, observations);
    StoredCalls(t, observations);
    StoredRows(t, observations);
    StoredSites(t, observations);
    hide PointerStored;
    assert Integrity(PointerStored(t, observations));
    CountedIntegrity(PointerStored(t, observations), Callers(Latest(observations)));
  }

  /** Only the last observation of each key matters to a batch. */
  lemma OnlyLastObservationsMatter(t: Tables, left: seq<PointerCallSite>, right: seq<PointerCallSite>)
    requires Lasts(left) == Lasts(right)
    ensures PointerFacts(t, left) == PointerFacts(t, right)
  {
    SameLastsSameBatch(left, right);
  }

  // ----- what clearing callers and deleting symbols keep -----

  lemma ClearedPointersIntegrity(t: Tables, callers: set<SymbolId>)
    requires Integrity(t)
    ensures Integrity(ClearedPointers(t, callers))
  {
    hide EvidenceKnown;
  }

  lemma ClearedPointersKeep(t: Tables, callers: set<SymbolId>)
    requires Integrity(t)
    ensures Integrity(ClearedPointers(t, callers))
    ensures forall r :: r in ClearedPointers(t, callers).relations && Counted(t, r) ==>
      Counted(ClearedPointers(t, callers), r)
    ensures PointersAgree(t) ==> PointersAgree(ClearedPointers(t, callers))
  {
    ClearedPointersIntegrity(t, callers);
    hide Integrity;
    var next := ClearedPointers(t, callers);
    forall r <- next.relations ensures SitesOf(next.sites, r) == SitesOf(t.sites, r) {
      SameSites(t.sites, next.sites, r);
    }
  }

  predicate DeletesReceivers(t: Tables, dead: set<SymbolId>) {
    exists k <- t.sites :: t.sites[k].receiver.Some? && t.sites[k].receiver.value in dead &&
      k.relation.source !in dead && k.relation.destination !in dead
  }

  lemma DropSymbolsIntegrity(t: Tables, dead: set<SymbolId>)
    requires Integrity(t) && !DeletesReceivers(t, dead)
    ensures Integrity(DropSymbols(t, dead))
  {
    hide EvidenceKnown, KeptExpressions, KeptRegions;
    KeptEvidenceKnown(t.expressions, t.regions, t.symbols.Keys, dead);
    assert DropSymbols(t, dead).symbols.Keys == t.symbols.Keys - dead;
  }

  lemma DropSymbolsKeep(t: Tables, dead: set<SymbolId>)
    requires Integrity(t) && !DeletesReceivers(t, dead)
    ensures Integrity(DropSymbols(t, dead))
    ensures forall r :: r in DropSymbols(t, dead).relations && Counted(t, r) ==> Counted(DropSymbols(t, dead), r)
    ensures PointersAgree(t) ==> PointersAgree(DropSymbols(t, dead))
  {
    DropSymbolsIntegrity(t, dead);
    hide Integrity, KeptExpressions, KeptRegions, DeletesReceivers;
    var next := DropSymbols(t, dead);
    forall r <- next.relations ensures SitesOf(next.sites, r) == SitesOf(t.sites, r) {
      SameSites(t.sites, next.sites, r);
    }
  }
}
