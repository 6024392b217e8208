/** The fact tables with their primary keys, foreign keys and cascades (src/storage/Schema.h), and what each
    statement of src/storage/RelationSite.cpp, src/storage/PointerCallSite.cpp and
    src/storage/CloneRefresh.cpp does to them. */
module FactTables {
  import opened Text
  import opened PointerBatch

  const CALLS := 1
  const OVERRIDES := 6
  const USES := 7
  const DISPATCH_CALLS := 18
  const POINTER_CALLS := 24

  datatype Certainty = Exact | Possible

  datatype RelationKey = RelationKey(source: SymbolId, destination: SymbolId, kind: nat, position: nat)
  datatype SiteKey = SiteKey(relation: RelationKey, file: nat, offset: nat)

  datatype RelationRow = RelationRow(flags: nat, count: nat)
  datatype SiteRow = SiteRow(line: nat, column: nat, receiver: Option<SymbolId>, certainty: Option<Certainty>)
  datatype CallRow = CallRow(target: Option<SymbolId>, line: nat, column: nat, signature: string, expression: string)
  datatype SymbolRow = SymbolRow(usr: string, isExternal: bool)
  datatype ExpressionRow = ExpressionRow(owner: Option<SymbolId>, target: Option<SymbolId>, file: nat)
  datatype RegionRow = RegionRow(symbol: SymbolId, file: nat)
  datatype Provenance = Provenance(path: string, universe: string)

  datatype Tables = Tables(
    symbols: map<SymbolId, SymbolRow>,
    definitions: map<SymbolId, nat>,
    relations: map<RelationKey, RelationRow>,
    sites: map<SiteKey, SiteRow>,
    external: set<SiteKey>,
    calls: map<CallKey, CallRow>,
    unresolved: set<CallKey>,
    provenance: map<nat, Provenance>,
    includes: set<(nat, nat)>,
    expressions: map<nat, ExpressionRow>,
    regions: map<nat, RegionRow>)

  datatype Relation = Relation(key: RelationKey, flags: nat, count: nat)
  datatype RelationSite = RelationSite(relation: RelationKey, file: nat, location: Location,
                                       receiver: Option<SymbolId>, certainty: Option<Certainty>)

  function SiteKeyOf(site: RelationSite): SiteKey {
    SiteKey(site.relation, site.file, site.location.offset)
  }

  // ----- foreign keys and counts -----

  /** No foreign key dangles. */
  ghost predicate Integrity(t: Tables) {
    && (forall r <- t.relations :: r.source in t.symbols && r.destination in t.symbols)
    && (forall k <- t.sites :: k.relation in t.relations)
    && (forall k <- t.sites :: ReceiverKnown(t.sites[k], t.symbols.Keys))
    && (forall k <- t.external :: k in t.sites && k.relation.destination in t.symbols)
    && (forall s <- t.definitions :: s in t.symbols)
    && (forall k <- t.calls :: k.source in t.symbols)
    && (forall k <- t.calls :: t.calls[k].target.Some? ==> t.calls[k].target.value in t.symbols)
    && (forall k <- t.unresolved :: k.source in t.symbols)
    && EvidenceKnown(t.expressions, t.regions, t.symbols.Keys)
  }

  /** Owners and targets of expressions and the symbols of source regions exist. */
  ghost predicate EvidenceKnown(expressions: map<nat, ExpressionRow>, regions: map<nat, RegionRow>,
                                known: set<SymbolId>) {
    && (forall e <- expressions ::
          (expressions[e].owner.Some? ==> expressions[e].owner.value in known) &&
          (expressions[e].target.Some? ==> expressions[e].target.value in known))
    && (forall g <- regions :: regions[g].symbol in known)
  }

  function SitesOf(sites: map<SiteKey, SiteRow>, relation: RelationKey): set<SiteKey> {
    set k | k in sites && k.relation == relation
  }

  predicate Counted(t: Tables, relation: RelationKey) {
    relation in t.relations && t.relations[relation].count == |SitesOf(t.sites, relation)|
  }

  /** While the relation exists its count is its number of sites. */
  predicate CountedIfStored(t: Tables, r: RelationKey) {
    r in t.relations ==> Counted(t, r)
  }

  /** Kind-24 sites and pointer-call rows tell the same story, and kind-24 relations are counted and in use. */
  ghost predicate PointersAgree(t: Tables) {
    && (forall k: SiteKey | k.relation.kind == POINTER_CALLS ::
          k in t.sites <==>
          k.relation.position == 0 &&
          var call := CallKey(k.relation.source, k.file, k.offset);
          call in t.calls && t.calls[call].target == Some(k.relation.destination))
    && (forall r <- t.relations | r.kind == POINTER_CALLS :: Counted(t, r) && t.relations[r].count > 0)
  }

  // ----- statements -----

  /** Deleting relations takes their sites and external references along. */
  function DropRelations(t: Tables, dead: set<RelationKey>): Tables {
    var sites := map k | k in t.sites && k.relation !in dead :: t.sites[k];
    t.(relations := t.relations - dead, sites := sites, external := t.external * sites.Keys)
  }

  function DropSites(t: Tables, dead: set<SiteKey>): Tables {
    t.(sites := t.sites - dead, external := t.external - dead)
  }

  /** Deleting symbols takes along everything that refers to them, except receivers: a receiver that still
      refers to one makes the statement fail. */
  function DropSymbols(t: Tables, dead: set<SymbolId>): Tables {
    var relations := map r | r in t.relations && r.source !in dead && r.destination !in dead :: t.relations[r];
    var sites := map k | k in t.sites && k.relation.source !in dead && k.relation.destination !in dead :: t.sites[k];
    t.(symbols := t.symbols - dead,
       definitions := t.definitions - dead,
       relations := relations,
       sites := sites,
       external := t.external * sites.Keys,
       calls := map c | c in t.calls && c.source !in dead &&
                        !(t.calls[c].target.Some? && t.calls[c].target.value in dead) :: t.calls[c],
       unresolved := (set c | c in t.unresolved && c.source !in dead),
       expressions := KeptExpressions(t.expressions, dead),
       regions := KeptRegions(t.regions, dead))
  }

  function KeptRegions(regions: map<nat, RegionRow>, dead: set<SymbolId>): map<nat, RegionRow> {
    map g | g in regions && regions[g].symbol !in dead :: regions[g]
  }

  lemma KeptEvidenceKnown(expressions: map<nat, ExpressionRow>, regions: map<nat, RegionRow>, known: set<SymbolId>,
                          dead: set<SymbolId>)
    requires EvidenceKnown(expressions, regions, known)
    ensures EvidenceKnown(KeptExpressions(expressions, dead), KeptRegions(regions, dead), known - dead)
  {
  }

  function KeptExpressions(expressions: map<nat, ExpressionRow>, dead: set<SymbolId>): map<nat, ExpressionRow> {
    map e | e in expressions && !Mentions(expressions[e], dead) :: expressions[e]
  }

  predicate Mentions(row: ExpressionRow, symbols: set<SymbolId>) {
    (row.owner.Some? && row.owner.value in symbols) || (row.target.Some? && row.target.value in symbols)
  }

  /** INSERT ... ON CONFLICT DO NOTHING of the first `n` relations. */
  function Inserted(relations: map<RelationKey, RelationRow>, batch: seq<Relation>): map<RelationKey, RelationRow> {
    if batch == [] then relations
    else
      var before := Inserted(relations, batch[..|batch| - 1]);
      var last := batch[|batch| - 1];
      if last.key in before then before else before[last.key := RelationRow(last.flags, last.count)]
  }

  /** A site seen again keeps its context when it agrees and falls back to a possible receiver otherwise. */
  function MergedSite(sites: map<SiteKey, SiteRow>, site: RelationSite): SiteRow {
    var key := SiteKeyOf(site);
    if key in sites then
      var row := sites[key];
      if row.receiver == site.receiver && row.certainty == site.certainty then row
      else row.(receiver := None, certainty := Some(Possible))
    else SiteRow(site.location.line, site.location.column, site.receiver, site.certainty)
  }

  function Upserted(sites: map<SiteKey, SiteRow>, batch: seq<RelationSite>): map<SiteKey, SiteRow> {
    if batch == [] then sites
    else
      var before := Upserted(sites, batch[..|batch| - 1]);
      var last := batch[|batch| - 1];
      before[SiteKeyOf(last) := MergedSite(before, last)]
  }

  function Recounted(t: Tables, keys: set<RelationKey>): Tables {
    t.(relations := map r | r in t.relations ::
         if r in keys then t.relations[r].(count := |SitesOf(t.sites, r)|) else t.relations[r])
  }

  // ----- what the statements leave alone -----

  lemma SameSites(before: map<SiteKey, SiteRow>, after: map<SiteKey, SiteRow>, relation: RelationKey)
    requires forall k: SiteKey | k.relation == relation :: k in before <==> k in after
    ensures SitesOf(before, relation) == SitesOf(after, relation)
  {
  }

  function Keys(relations: seq<Relation>): set<RelationKey> {
    set r | r in relations :: r.key
  }

  function SiteKeys(sites: seq<RelationSite>): set<SiteKey> {
    set s | s in sites :: SiteKeyOf(s)
  }

  lemma KeysOfOne(relation: Relation, site: RelationSite)
    ensures Keys([relation]) == {relation.key}
    ensures SiteKeys([site]) == {SiteKeyOf(site)}
  {
    assert relation in [relation] && site in [site];
  }

  lemma KeysConcat(left: seq<Relation>, right: seq<Relation>)
    ensures Keys(left + right) == Keys(left) + Keys(right)
  {
    assert forall r :: r in left + right <==> r in left || r in right;
  }

  lemma SiteKeysConcat(left: seq<RelationSite>, right: seq<RelationSite>)
    ensures SiteKeys(left + right) == SiteKeys(left) + SiteKeys(right)
  {
    assert forall r :: r in left + right <==> r in left || r in right;
  }

  lemma {:induction false} InsertedKeys(relations: map<RelationKey, RelationRow>, batch: seq<Relation>)
    ensures forall r <- relations :: r in Inserted(relations, batch) && Inserted(relations, batch)[r] == relations[r]
    ensures Inserted(relations, batch).Keys == relations.Keys + Keys(batch)
  {
    if batch != [] {
      var n := |batch| - 1;
      InsertedKeys(relations, batch[..n]);
      assert batch == batch[..n] + [batch[n]];
      assert Keys(batch) == Keys(batch[..n]) + {batch[n].key};
    }
  }

  lemma {:induction false} UpsertedKeys(sites: map<SiteKey, SiteRow>, batch: seq<RelationSite>)
    ensures Upserted(sites, batch).Keys == sites.Keys + SiteKeys(batch)
    ensures forall k <- sites | k !in SiteKeys(batch) :: Upserted(sites, batch)[k] == sites[k]
  {
    if batch != [] {
      var n := |batch| - 1;
      UpsertedKeys(sites, batch[..n]);
      assert batch == batch[..n] + [batch[n]];
      assert SiteKeys(batch) == SiteKeys(batch[..n]) + {SiteKeyOf(batch[n])};
    }
  }

  predicate ReceiverKnown(row: SiteRow, known: set<SymbolId>) {
    row.receiver.Some? ==> row.receiver.value in known
  }

  /** A receiver that nobody knows fails only a new site: a site seen again keeps or loses the receiver it has. */
  predicate ResolvesAt(sites: map<SiteKey, SiteRow>, batch: seq<RelationSite>, i: nat, known: set<SymbolId>)
    requires i < |batch|
  {
    batch[i].receiver.Some? && batch[i].receiver.value !in known ==>
      SiteKeyOf(batch[i]) in sites || SiteKeyOf(batch[i]) in SiteKeys(batch[..i])
  }

  predicate ReceiversResolve(sites: map<SiteKey, SiteRow>, batch: seq<RelationSite>, known: set<SymbolId>) {
    forall i: nat | i < |batch| :: ResolvesAt(sites, batch, i, known)
  }

  lemma ResolvesStep(sites: map<SiteKey, SiteRow>, batch: seq<RelationSite>, n: nat, known: set<SymbolId>)
    requires n < |batch|
    ensures ReceiversResolve(sites, batch[..n + 1], known) <==>
      ReceiversResolve(sites, batch[..n], known) && ResolvesAt(sites, batch, n, known)
  {
    var longer, shorter := batch[..n + 1], batch[..n];
    forall i: nat | i < n ensures ResolvesAt(sites, longer, i, known) <==> ResolvesAt(sites, shorter, i, known) {
      assert longer[..i] == shorter[..i];
    }
    assert longer[..n] == shorter && longer[n] == batch[n];
    assert ResolvesAt(sites, longer, n, known) <==> ResolvesAt(sites, batch, n, known);
    hide ResolvesAt;
    if ReceiversResolve(sites, shorter, known) && ResolvesAt(sites, batch, n, known) {
      forall i: nat | i < n + 1 ensures ResolvesAt(sites, longer, i, known) {
        assert i < n ==> ResolvesAt(sites, shorter, i, known);
      }
    }
    if ReceiversResolve(sites, longer, known) {
      forall i: nat | i < n ensures ResolvesAt(sites, shorter, i, known) {
        assert ResolvesAt(sites, longer, i, known);
      }
    }
  }

  /** Every receiver of the stored sites is one that was stored or a known one of the batch. */
  lemma {:induction false} UpsertedReceivers(sites: map<SiteKey, SiteRow>, batch: seq<RelationSite>,
                                             known: set<SymbolId>)
    requires forall k <- sites :: ReceiverKnown(sites[k], known)
    requires ReceiversResolve(sites, batch, known)
    ensures forall k <- Upserted(sites, batch) :: ReceiverKnown(Upserted(sites, batch)[k], known)
  {
    if batch != [] {
      var last := batch[|batch| - 1];
      var before := Upserted(sites, batch[..|batch| - 1]);
      assert batch[..|batch|] == batch;
      ResolvesStep(sites, batch, |batch| - 1, known);
      UpsertedReceivers(sites, batch[..|batch| - 1], known);
      UpsertedKeys(sites, batch[..|batch| - 1]);
      assert ReceiverKnown(MergedSite(before, last), known);
    }
  }

  // ----- call contexts -----

  /** How surely a receiver is known: not at all, exactly one, or possibly several. */
  datatype Context = Context(receiver: Option<SymbolId>, certainty: Option<Certainty>)

  const POSSIBLE := Context(None, Some(Possible))

  function SiteContext(site: RelationSite): Context {
    Context(site.receiver, site.certainty)
  }

  function RowContext(row: SiteRow): Context {
    Context(row.receiver, row.certainty)
  }

  predicate ValidPair(context: Context) {
    match context.certainty
    case None => context.receiver.None?
    case Some(Exact) => context.receiver.Some?
    case Some(Possible) => context.receiver.None?
  }

  /** Every stored site has a context that the validation would let through. */
  ghost predicate ContextsValid(t: Tables) {
    forall k <- t.sites :: ValidPair(RowContext(t.sites[k]))
  }

  /** Every observation of the site in the batch, and the stored row when there is one, has this context. */
  ghost predicate AllSay(sites: map<SiteKey, SiteRow>, batch: seq<RelationSite>, key: SiteKey, context: Context) {
    (key in sites ==> RowContext(sites[key]) == context) &&
    forall s <- batch | SiteKeyOf(s) == key :: SiteContext(s) == context
  }

  lemma AllSayStep(sites: map<SiteKey, SiteRow>, batch: seq<RelationSite>, last: RelationSite, key: SiteKey,
                   context: Context)
    ensures AllSay(sites, batch + [last], key, context) <==>
      AllSay(sites, batch, key, context) && (SiteKeyOf(last) == key ==> SiteContext(last) == context)
  {
    assert forall s :: s in batch + [last] <==> s in batch || s == last;
  }

  /** A stored site has the one context that all its observations agree on, or a possible receiver when they do
      not; their order does not matter. */
  lemma {:induction false} UpsertedContext(sites: map<SiteKey, SiteRow>, batch: seq<RelationSite>, key: SiteKey)
    requires key in Upserted(sites, batch)
    ensures var context := RowContext(Upserted(sites, batch)[key]);
      AllSay(sites, batch, key, context) || (context == POSSIBLE && forall c :: !AllSay(sites, batch, key, c))
  {
    hide AllSay;
    if batch == [] {
      NoObservation(sites, key);
    } else {
      var n := |batch| - 1;
      var last := batch[n];
      assert batch == batch[..n] + [last];
      forall c ensures AllSay(sites, batch, key, c) <==>
        AllSay(sites, batch[..n], key, c) && (SiteKeyOf(last) == key ==> SiteContext(last) == c)
      {
        AllSayStep(sites, batch[..n], last, key, c);
      }
      if key in Upserted(sites, batch[..n]) {
        UpsertedContext(sites, batch[..n], key);
        var before := RowContext(Upserted(sites, batch[..n])[key]);
        UpsertedKeys(sites, batch[..n]);
        if AllSay(sites, batch[..n], key, before) {
          SayOne(sites, batch[..n], key, before);
        }
      } else {
        UpsertedKeys(sites, batch[..n]);
        Unseen(sites, batch[..n], key, SiteContext(last));
      }
    }
  }

  lemma NoObservation(sites: map<SiteKey, SiteRow>, key: SiteKey)
    requires key in sites
    ensures AllSay(sites, [], key, RowContext(sites[key]))
  {
  }

  lemma SayOne(sites: map<SiteKey, SiteRow>, batch: seq<RelationSite>, key: SiteKey, context: Context)
    requires AllSay(sites, batch, key, context) && (key in sites || key in SiteKeys(batch))
    ensures forall c :: AllSay(sites, batch, key, c) ==> c == context
  {
  }

  lemma Unseen(sites: map<SiteKey, SiteRow>, batch: seq<RelationSite>, key: SiteKey, context: Context)
    requires key !in sites && key !in SiteKeys(batch)
    ensures AllSay(sites, batch, key, context)
  {
    forall s <- batch ensures SiteKeyOf(s) != key {
      assert SiteKeyOf(s) in SiteKeys(batch);
    }
  }

  /** Valid observations leave valid rows. */
  lemma {:induction false} UpsertedValid(sites: map<SiteKey, SiteRow>, batch: seq<RelationSite>)
    requires forall k <- sites :: ValidPair(RowContext(sites[k]))
    requires forall s <- batch :: ValidPair(SiteContext(s))
    ensures forall k <- Upserted(sites, batch) :: ValidPair(RowContext(Upserted(sites, batch)[k]))
  {
    if batch != [] {
      var n := |batch| - 1;
      assert batch[n] in batch;
      UpsertedValid(sites, batch[..n]);
    }
  }
}
