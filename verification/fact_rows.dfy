/** What the rows of a stored batch hold, column by column: relations, sites, pointer calls and links to external
    symbols (src/storage/Relation.cpp, src/storage/RelationSite.cpp, src/storage/PointerCallSite.cpp,
    src/analysis/callgraph/RelationSiteContextStore.cpp). */
module FactRows {
  import opened Text
  import opened PointerBatch
  import opened FactTables
  import opened FactOperations
  import opened FactFailures

  // ----- the rows of relations and sites -----

  predicate FirstRelation(batch: seq<Relation>, i: nat, r: RelationKey) {
    i < |batch| && batch[i].key == r && forall j | 0 <= j < i :: batch[j].key != r
  }

  predicate FirstSite(batch: seq<RelationSite>, i: nat, k: SiteKey) {
    i < |batch| && SiteKeyOf(batch[i]) == k && forall j | 0 <= j < i :: SiteKeyOf(batch[j]) != k
  }

  /** A relation that is there keeps its row; a new one has that of its first mention. */
  lemma {:induction false} InsertedRow(relations: map<RelationKey, RelationRow>, batch: seq<Relation>, r: RelationKey)
    requires r in Inserted(relations, batch)
    ensures if r in relations then Inserted(relations, batch)[r] == relations[r]
            else exists i: nat ::
              FirstRelation(batch, i, r) && Inserted(relations, batch)[r] == RelationRow(batch[i].flags, batch[i].count)
  {
    if batch != [] {
      var n := |batch| - 1;
      var before := batch[..n];
      InsertedKeys(relations, before);
      if r in Inserted(relations, before) {
        InsertedRow(relations, before, r);
        if r !in relations {
          var i: nat :| FirstRelation(before, i, r) &&
            Inserted(relations, before)[r] == RelationRow(before[i].flags, before[i].count);
          assert FirstRelation(batch, i, r) && batch[i] == before[i];
        }
      } else {
        forall j | 0 <= j < n ensures batch[j].key != r {
          assert before[j] in before;
        }
        assert FirstRelation(batch, n, r);
      }
    }
  }

  /** A site stands where it was first seen. */
  lemma {:induction false} UpsertedPlace(sites: map<SiteKey, SiteRow>, batch: seq<RelationSite>, k: SiteKey)
    requires k in Upserted(sites, batch)
    ensures var row := Upserted(sites, batch)[k];
      if k in sites then row.line == sites[k].line && row.column == sites[k].column
      else exists i: nat ::
        FirstSite(batch, i, k) && row.line == batch[i].location.line && row.column == batch[i].location.column
  {
    if batch != [] {
      var n := |batch| - 1;
      var before := batch[..n];
      UpsertedKeys(sites, before);
      if k in Upserted(sites, before) {
        UpsertedPlace(sites, before, k);
        if k !in sites {
          var i: nat :| FirstSite(before, i, k) && Upserted(sites, before)[k].line == before[i].location.line &&
            Upserted(sites, before)[k].column == before[i].location.column;
          assert FirstSite(batch, i, k) && batch[i] == before[i];
        }
      } else {
        forall j | 0 <= j < n ensures SiteKeyOf(batch[j]) != k {
          assert before[j] in before && SiteKeyOf(before[j]) in SiteKeys(before);
        }
        assert FirstSite(batch, n, k);
      }
    }
  }

  /** A relation is as it was, or as the batch first says, its count aside. */
  ghost predicate RelationAsSaid(t: Tables, next: Tables, batch: seq<Relation>, r: RelationKey)
    requires r in next.relations
  {
    if r in t.relations then next.relations[r].flags == t.relations[r].flags
    else exists i: nat :: FirstRelation(batch, i, r) && next.relations[r].flags == batch[i].flags
  }

  /** A site stands where it stood, or where the batch first says. */
  ghost predicate SiteAsSaid(t: Tables, next: Tables, batch: seq<RelationSite>, k: SiteKey)
    requires k in next.sites
  {
    var row := next.sites[k];
    if k in t.sites then row.line == t.sites[k].line && row.column == t.sites[k].column
    else exists i: nat ::
      FirstSite(batch, i, k) && row.line == batch[i].location.line && row.column == batch[i].location.column
  }

  predicate OtherTablesSame(t: Tables, next: Tables) {
    next.symbols == t.symbols && next.definitions == t.definitions && next.unresolved == t.unresolved &&
    next.provenance == t.provenance && next.includes == t.includes && next.expressions == t.expressions &&
    next.regions == t.regions
  }

  /** Wherever a batch stops, relations and sites are those there were and those of the part that is through, in the
      words of their first mention; no call is linked, and nothing else changes. */
  lemma PartialFactsRows(t: Tables, relations: seq<Relation>, sites: seq<RelationSite>, p: FactsProgress)
    requires FactsReach(relations, sites, p)
    ensures var next := PartialFacts(t, relations, sites, p);
      (forall r :: r in next.relations <==> r in t.relations || r in Keys(relations[..p.inserted])) &&
      (forall r <- next.relations :: RelationAsSaid(t, next, relations[..p.inserted], r)) &&
      (forall k :: k in next.sites <==> k in t.sites || k in SiteKeys(sites[..p.placed])) &&
      (forall k <- next.sites :: SiteAsSaid(t, next, sites[..p.placed], k)) &&
      next.external == t.external && next.calls == t.calls && OtherTablesSame(t, next)
  {
    hide Inserted, Upserted, FirstRelation, FirstSite, Keys, SiteKeys;
    var next := PartialFacts(t, relations, sites, p);
    InsertedKeys(t.relations, relations[..p.inserted]);
    UpsertedKeys(t.sites, sites[..p.placed]);
    forall r <- next.relations ensures RelationAsSaid(t, next, relations[..p.inserted], r) {
      InsertedRow(t.relations, relations[..p.inserted], r);
    }
    forall k <- next.sites ensures SiteAsSaid(t, next, sites[..p.placed], k) {
      UpsertedPlace(t.sites, sites[..p.placed], k);
    }
  }

  /** The call leads to a symbol that is external or has no definition. */
  predicate CallsOutside(t: Tables, k: SiteKey) {
    k.relation.kind == CALLS &&
    var callee := k.relation.destination;
    callee in t.symbols && (t.symbols[callee].isExternal || callee !in t.definitions)
  }

  /** After an accepted batch relations and sites are those there were and those of the batch, in the words of their
      first mention. The linked calls are exactly those linked before and every stored call, new or old, that leads to
      a symbol that is external or has no definition. */
  lemma RelationFactsRows(t: Tables, relations: seq<Relation>, sites: seq<RelationSite>)
    ensures var next := RelationFacts(t, relations, sites);
      (forall r :: r in next.relations <==> r in t.relations || r in Keys(relations)) &&
      (forall r <- next.relations :: RelationAsSaid(t, next, relations, r)) &&
      (forall k :: k in next.sites <==> k in t.sites || k in SiteKeys(sites)) &&
      (forall k <- next.sites :: SiteAsSaid(t, next, sites, k)) &&
      (forall k :: k in next.external <==> k in t.external || (k in next.sites && CallsOutside(t, k))) &&
      next.calls == t.calls && OtherTablesSame(t, next)
  {
    var p := FactsProgress(|relations|, |sites|, |relations|);
    assert relations[..|relations|] == relations && sites[..|sites|] == sites;
    AllFacts(t, relations, sites);
    PartialFactsRows(t, relations, sites, p);
    hide PartialFacts, RelationFacts, Keys, SiteKeys, FirstRelation, FirstSite;
    var done, next := PartialFacts(t, relations, sites, p), RelationFacts(t, relations, sites);
    forall r <- next.relations ensures RelationAsSaid(t, next, relations, r) {
      assert RelationAsSaid(t, done, relations, r);
    }
    forall k <- next.sites ensures SiteAsSaid(t, next, sites, k) {
      assert SiteAsSaid(t, done, sites, k);
    }
  }

  // ----- the rows of pointer calls -----

  /** The row says what was observed. */
  predicate SaysObservation(row: CallRow, o: PointerCallSite) {
    row.target == o.target && row.line == o.location.line && row.column == o.location.column &&
    row.signature == o.signature && row.expression == o.expression
  }

  predicate IsLastObservation(observations: seq<PointerCallSite>, i: nat, c: CallKey) {
    i < |observations| && KeyOf(observations[i]) == c &&
    forall j | i < j < |observations| :: KeyOf(observations[j]) != c
  }

  lemma {:induction false} LastsAreLast(observations: seq<PointerCallSite>, c: CallKey)
    ensures c in Lasts(observations) <==> exists i: nat :: IsLastObservation(observations, i, c)
    ensures forall i: nat | IsLastObservation(observations, i, c) :: Lasts(observations)[c] == observations[i]
  {
    if observations != [] {
      var n := |observations| - 1;
      var before := observations[..n];
      LastsAreLast(before, c);
      if KeyOf(observations[n]) == c {
        assert IsLastObservation(observations, n, c);
      } else {
        forall i: nat ensures IsLastObservation(observations, i, c) <==> IsLastObservation(before, i, c) {
        }
      }
    }
  }

  /** After an accepted batch the row of each call site that was observed says what was last observed there, column by
      column; every other row is the old one. */
  lemma PointerFactsRows(t: Tables, observations: seq<PointerCallSite>, c: CallKey)
    ensures var next := PointerFacts(t, observations);
      (forall i: nat | IsLastObservation(observations, i, c) ::
         c in next.calls && SaysObservation(next.calls[c], observations[i])) &&
      ((forall o <- observations :: KeyOf(o) != c) ==>
         (c in next.calls <==> c in t.calls) && (c in t.calls ==> next.calls[c] == t.calls[c])) &&
      OtherTablesSame(t, next)
  {
    hide Latest, Inserted, Upserted, ReplacedSites, PointerRelations, PointerSites, Callers, IsLastObservation;
    BatchRows(observations);
    LastsAreLast(observations, c);
    LastsMembers(observations);
    hide Lasts;
  }

  /** Wherever the batch stops, the rows written so far say what was last observed, and the others are as they were. */
  lemma PartialPointersRows(t: Tables, observations: seq<PointerCallSite>, p: PointersProgress, i: nat)
    requires PointersReach(Latest(observations), p) && i < |Latest(observations)|
    ensures var latest, next := Latest(observations), PartialPointers(t, Latest(observations), p);
      var c := KeyOf(latest[i]);
      if i < p.called then c in next.calls && SaysObservation(next.calls[c], latest[i])
      else (c in next.calls <==> c in t.calls) && (c in t.calls ==> next.calls[c] == t.calls[c])
  {
    var latest := Latest(observations);
    LatestIsLast(observations);
    PartialStoredTables(t, latest, p);
    WrittenSoFar(latest, p.called, i);
    hide Latest, PartialStored, Lasts, CallRows, SaysObservation, SortedCallers;
  }

  lemma WrittenSoFar(latest: seq<PointerCallSite>, n: nat, i: nat)
    requires Ascending(latest) && i < |latest| && n <= |latest|
    ensures var rows, c := CallRows(latest[..n]), KeyOf(latest[i]);
      if i < n then c in rows && SaysObservation(rows[c], latest[i]) else c !in rows
  {
    var c, through := KeyOf(latest[i]), latest[..n];
    LastsAreLast(through, c);
    hide Lasts;
    if i < n {
      forall j | i < j < |through| ensures KeyOf(through[j]) != c {
        assert Before(KeyOf(latest[i]), KeyOf(latest[j]));
      }
      assert IsLastObservation(through, i, c);
    } else {
      forall j: nat | j < |through| ensures KeyOf(through[j]) != c {
        assert Before(KeyOf(latest[j]), KeyOf(latest[i]));
      }
    }
  }

  // ----- the relations and sites of pointer calls -----

  /** AS_none: no access is recorded. */
  const NO_ACCESS := 3

  lemma {:induction false} PointerRowsFrom(sites: seq<PointerCallSite>)
    ensures forall x <- PointerRelations(sites) :: x.flags == NO_ACCESS
    ensures forall p <- PointerSites(sites) :: exists s <- sites ::
      s.target.Some? && p == RelationSite(PointerKey(s.source, s.target.value), s.file, s.location, None, None)
  {
    if sites != [] {
      PointerRowsFrom(sites[1..]);
      assert sites == [sites[0]] + sites[1..];
      assert sites[0] in sites && forall s <- sites[1..] :: s in sites;
    }
  }

  /** Counting and dropping leave sites as they were stored, and relations with the flags they were stored with. */
  lemma StoredAndCounted(t: Tables, observations: seq<PointerCallSite>)
    requires Integrity(t)
    ensures var latest, next := Latest(observations), PointerFacts(t, observations);
      next.sites == Upserted(t.sites - ReplacedSites(t.calls, latest), PointerSites(latest)) &&
      forall r <- next.relations :: r in Inserted(t.relations, PointerRelations(latest)) &&
        next.relations[r].flags == Inserted(t.relations, PointerRelations(latest))[r].flags
  {
    StoredIntegrity(t, observations);
    CountedPointers(PointerStored(t, observations), Callers(Latest(observations)));
    hide Latest, Inserted, Upserted, ReplacedSites, PointerRelations, PointerSites, Integrity, SitesOf, Callers;
  }

  /** The row of a site that only pointer calls of the batch put there. */
  lemma PlacedByBatch(left: map<SiteKey, SiteRow>, latest: seq<PointerCallSite>, k: SiteKey, o: PointerCallSite)
    requires k !in left && k in Upserted(left, PointerSites(latest))
    requires forall s <- latest | KeyOf(s) == KeyOf(o) :: s == o
    requires KeyOf(o) == CallKey(k.relation.source, k.file, k.offset)
    ensures Upserted(left, PointerSites(latest))[k] == SiteRow(o.location.line, o.location.column, None, None)
  {
    var batch := PointerSites(latest);
    PointerRowsFrom(latest);
    hide PointerSites, Upserted;
    UpsertedPlace(left, batch, k);
    var row := Upserted(left, batch)[k];
    var j: nat :|
      FirstSite(batch, j, k) && row.line == batch[j].location.line && row.column == batch[j].location.column;
    assert batch[j] in batch;
    var s :| s in latest && s.target.Some? &&
      batch[j] == RelationSite(PointerKey(s.source, s.target.value), s.file, s.location, None, None);
    assert KeyOf(s) == KeyOf(o);
    UpsertedContext(left, batch, k);
    assert AllSay(left, batch, k, Context(None, None));
    assert SiteContext(batch[j]) == Context(None, None);
  }

  lemma NewRelationFlags(relations: map<RelationKey, RelationRow>, latest: seq<PointerCallSite>, r: RelationKey)
    requires r !in relations && r in Inserted(relations, PointerRelations(latest))
    ensures Inserted(relations, PointerRelations(latest))[r].flags == NO_ACCESS
  {
    InsertedRow(relations, PointerRelations(latest), r);
    PointerRowsFrom(latest);
    hide PointerRelations, Inserted;
    var i: nat :| FirstRelation(PointerRelations(latest), i, r) &&
      Inserted(relations, PointerRelations(latest))[r] ==
      RelationRow(PointerRelations(latest)[i].flags, PointerRelations(latest)[i].count);
    assert PointerRelations(latest)[i] in PointerRelations(latest);
  }

  /** A kind-24 site stands where its target was last observed and has no receiver, and a new kind-24 relation has no
      access. */
  lemma PointerFactsPlaces(t: Tables, observations: seq<PointerCallSite>, k: SiteKey, i: nat)
    requires Integrity(t) && PointersAgree(t)
    requires k.relation.kind == POINTER_CALLS && k.relation.position == 0
    requires IsLastObservation(observations, i, CallKey(k.relation.source, k.file, k.offset))
    requires observations[i].target == Some(k.relation.destination)
    ensures var next, place := PointerFacts(t, observations), observations[i].location;
      k in next.sites && next.sites[k] == SiteRow(place.line, place.column, None, None) &&
      (k.relation !in t.relations ==>
         k.relation in next.relations && next.relations[k.relation].flags == NO_ACCESS)
  {
    var o, latest := observations[i], Latest(observations);
    var c := CallKey(k.relation.source, k.file, k.offset);
    LastsAreLast(observations, c);
    BatchRows(observations);
    LatestIsLast(observations);
    PointerFactsNamed(t, observations, k);
    StoredAndCounted(t, observations);
    hide Latest, Inserted, Upserted, Lasts, Integrity, Counted, PointerFacts, PointerSites, PointerRelations;
    var left := t.sites - ReplacedSites(t.calls, latest);
    assert k !in left by {
      assert k in t.sites <==> NamedBy(t.calls, k);
    }
    PlacedByBatch(left, latest, k, o);
    if k.relation !in t.relations {
      NewRelationFlags(t.relations, latest, k.relation);
    }
  }

  // ----- what validation keeps out of the tables -----

  /** A site is of a kind that has sites, between symbols, in a file and at a place. */
  predicate ValidSiteRow(k: SiteKey, row: SiteRow) {
    (k.relation.kind == USES || k.relation.kind == CALLS || k.relation.kind == DISPATCH_CALLS ||
     k.relation.kind == POINTER_CALLS || k.relation.kind == OVERRIDES) &&
    k.relation.source != NO_SYMBOL && k.relation.destination != NO_SYMBOL && k.file != BUILTIN_FILE &&
    row.line > 0 && row.column > 0
  }

  /** A pointer call is made by a symbol, in a file and at a place, and is spelled out. */
  predicate ValidCallRow(c: CallKey, row: CallRow) {
    c.source != NO_SYMBOL && c.file != BUILTIN_FILE && row.line > 0 && row.column > 0 &&
    row.target != Some(NO_SYMBOL) && |row.signature| > 0 && |row.expression| > 0
  }

  ghost predicate RowsValid(t: Tables) {
    (forall k <- t.sites :: ValidSiteRow(k, t.sites[k])) && (forall c <- t.calls :: ValidCallRow(c, t.calls[c]))
  }

  lemma {:induction false} UpsertedRows(sites: map<SiteKey, SiteRow>, batch: seq<RelationSite>)
    requires forall k <- sites :: ValidSiteRow(k, sites[k])
    requires forall s <- batch :: ValidRelationSite(s)
    ensures forall k <- Upserted(sites, batch) :: ValidSiteRow(k, Upserted(sites, batch)[k])
  {
    if batch != [] {
      var n := |batch| - 1;
      assert batch[n] in batch;
      UpsertedRows(sites, batch[..n]);
      hide ValidContext;
    }
  }

  lemma PartialFactsRowsValid(t: Tables, relations: seq<Relation>, sites: seq<RelationSite>, p: FactsProgress)
    requires RowsValid(t) && FactsMayStop(t, relations, sites, p)
    ensures RowsValid(PartialFacts(t, relations, sites, p))
  {
    hide Inserted, Upserted, ValidRelationSite, SitesBelongToRelations, ValidSiteRow;
    UpsertedRows(t.sites, sites[..p.placed]);
  }

  lemma RelationFactsRowsValid(t: Tables, relations: seq<Relation>, sites: seq<RelationSite>)
    requires RowsValid(t) && forall s <- sites :: ValidRelationSite(s)
    ensures RowsValid(RelationFacts(t, relations, sites))
  {
    hide Inserted, Upserted, ValidRelationSite, SitesBelongToRelations, ValidSiteRow, ExternalSites;
    UpsertedRows(t.sites, sites);
  }

  lemma UseSitesValid(relations: seq<Relation>, sites: seq<RelationSite>)
    requires ValidUseFacts(relations, sites) && forall s <- sites :: ValidContext(s)
    ensures forall s <- sites :: ValidRelationSite(s)
  {
  }

  /** Validation lets through exactly what makes a valid row with a valid context. */
  lemma ValidExactly(site: RelationSite, call: PointerCallSite)
    ensures ValidRelationSite(site) <==>
      ValidPair(Context(site.receiver, site.certainty)) &&
      ValidSiteRow(SiteKeyOf(site), SiteRow(site.location.line, site.location.column, site.receiver, site.certainty))
    ensures ValidPointerCall(call) <==>
      ValidCallRow(KeyOf(call), CallRow(call.target, call.location.line, call.location.column, call.signature,
                                        call.expression))
  {
  }

  /** Use facts are exactly the general facts whose relations are all uses between symbols. */
  lemma UseFactsExactly(t: Tables, relations: seq<Relation>, sites: seq<RelationSite>)
    ensures AcceptsUseFacts(t, relations, sites) <==>
      AcceptsRelationFacts(t, relations, sites) &&
      forall r <- relations :: r.key.kind == USES && r.key.source != NO_SYMBOL && r.key.destination != NO_SYMBOL
  {
  }

  /** Use facts add only uses, between symbols. */
  lemma UseFactsRows(t: Tables, relations: seq<Relation>, sites: seq<RelationSite>)
    requires AcceptsUseFacts(t, relations, sites)
    ensures var next := RelationFacts(t, relations, sites);
      (forall r <- next.relations | r !in t.relations ::
         r.kind == USES && r.source != NO_SYMBOL && r.destination != NO_SYMBOL) &&
      (forall k <- next.sites | k !in t.sites :: k.relation.kind == USES)
  {
    RelationFactsRows(t, relations, sites);
    hide RelationFacts, RelationAsSaid, SiteAsSaid, CallsOutside, OtherTablesSame;
  }

  lemma {:induction false} PointerSitesValid(sites: seq<PointerCallSite>)
    requires forall s <- sites :: ValidPointerCall(s)
    ensures forall p <- PointerSites(sites) :: ValidRelationSite(p)
  {
    if sites != [] {
      assert sites[0] in sites;
      PointerSitesValid(sites[1..]);
    }
  }

  lemma PartialPointersRowsValid(t: Tables, observations: seq<PointerCallSite>, p: PointersProgress)
    requires RowsValid(t) && PointersReach(Latest(observations), p)
    requires forall o <- observations :: ValidPointerCall(o)
    ensures RowsValid(PartialPointers(t, Latest(observations), p))
  {
    var latest := Latest(observations);
    LatestIsLast(observations);
    LastsMembers(observations);
    forall o <- latest ensures o in observations && ValidPointerCall(o) {
    }
    PointerSitesValid(latest);
    UpsertedRows(t.sites - ReplacedSites(t.calls, latest[..p.deleted]), PointerSites(latest)[..p.placed]);
    CallRowsValid(latest[..p.called]);
    hide Latest, Inserted, Upserted, ValidRelationSite, ValidPointerCall, ValidSiteRow, ValidCallRow, PointerSites,
      PointerRelations, ReplacedSites, CallRows, Lasts, SortedCallers;
  }

  lemma CallRowsValid(sites: seq<PointerCallSite>)
    requires forall s <- sites :: ValidPointerCall(s)
    ensures forall c <- CallRows(sites) :: ValidCallRow(c, CallRows(sites)[c])
  {
    LastsMembers(sites);
  }
}
