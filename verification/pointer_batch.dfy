/** The identity rows of the fact tables and the reduction of a batch of pointer calls to its last
    observations (src/storage/PointerCallSite.cpp). */
module PointerBatch {
  import opened Text

  datatype SymbolId = SymbolId(file: nat, index: nat)

  const NO_SYMBOL := SymbolId(0, 0)
  const BUILTIN_FILE: nat := 0

  datatype Location = Location(line: nat, column: nat, offset: nat)

  datatype PointerCallSite = PointerCallSite(
    source: SymbolId, target: Option<SymbolId>, file: nat, location: Location, signature: string, expression: string)

  datatype CallKey = CallKey(source: SymbolId, file: nat, offset: nat)

  function KeyOf(site: PointerCallSite): CallKey {
    CallKey(site.source, site.file, site.location.offset)
  }

  predicate Before(a: CallKey, b: CallKey) {
    if a.source.file != b.source.file then a.source.file < b.source.file
    else if a.source.index != b.source.index then a.source.index < b.source.index
    else if a.file != b.file then a.file < b.file
    else a.offset < b.offset
  }

  function Reverse(sites: seq<PointerCallSite>): seq<PointerCallSite> {
    if sites == [] then [] else [sites[|sites| - 1]] + Reverse(sites[..|sites| - 1])
  }

  /** Insertion before every element that is not smaller, so that sorting keeps the order of equal keys. */
  function Insert(site: PointerCallSite, sites: seq<PointerCallSite>): seq<PointerCallSite> {
    if sites == [] || !Before(KeyOf(sites[0]), KeyOf(site)) then [site] + sites
    else [sites[0]] + Insert(site, sites[1..])
  }

  function StableSort(sites: seq<PointerCallSite>): seq<PointerCallSite> {
    if sites == [] then [] else Insert(sites[0], StableSort(sites[1..]))
  }

  /** Of each stretch of equal keys only the first is kept. */
  function Unique(sites: seq<PointerCallSite>): seq<PointerCallSite>
    decreases |sites|
  {
    if |sites| < 2 then sites
    else if KeyOf(sites[0]) == KeyOf(sites[1]) then Unique([sites[0]] + sites[2..])
    else [sites[0]] + Unique(sites[1..])
  }

  function Latest(observations: seq<PointerCallSite>): seq<PointerCallSite> {
    Unique(StableSort(Reverse(observations)))
  }

  // ----- what the reduction keeps -----

  ghost predicate Ascending(sites: seq<PointerCallSite>) {
    forall i, j | 0 <= i < j < |sites| :: Before(KeyOf(sites[i]), KeyOf(sites[j]))
  }

  ghost predicate Sorted(sites: seq<PointerCallSite>) {
    forall i, j | 0 <= i < j < |sites| :: !Before(KeyOf(sites[j]), KeyOf(sites[i]))
  }

  /** The last site of each key. */
  function Lasts(sites: seq<PointerCallSite>): map<CallKey, PointerCallSite> {
    if sites == [] then map[]
    else Lasts(sites[..|sites| - 1])[KeyOf(sites[|sites| - 1]) := sites[|sites| - 1]]
  }

  /** The first site of each key. */
  function Firsts(sites: seq<PointerCallSite>): map<CallKey, PointerCallSite> {
    if sites == [] then map[] else Firsts(sites[1..])[KeyOf(sites[0]) := sites[0]]
  }

  lemma {:induction false} FirstsReverse(sites: seq<PointerCallSite>)
    ensures Firsts(Reverse(sites)) == Lasts(sites)
  {
    if sites != [] {
      FirstsReverse(sites[..|sites| - 1]);
      assert Reverse(sites)[1..] == Reverse(sites[..|sites| - 1]);
    }
  }

  lemma {:induction false} FirstsInsert(site: PointerCallSite, sites: seq<PointerCallSite>)
    ensures Firsts(Insert(site, sites)) == Firsts(sites)[KeyOf(site) := site]
  {
    if sites == [] || !Before(KeyOf(sites[0]), KeyOf(site)) {
      assert ([site] + sites)[1..] == sites;
    } else {
      FirstsInsert(site, sites[1..]);
      assert Insert(site, sites)[1..] == Insert(site, sites[1..]);
    }
  }

  lemma {:induction false} FirstsSort(sites: seq<PointerCallSite>)
    ensures Firsts(StableSort(sites)) == Firsts(sites)
  {
    if sites != [] {
      FirstsSort(sites[1..]);
      FirstsInsert(sites[0], StableSort(sites[1..]));
    }
  }

  lemma {:induction false} InsertSorted(site: PointerCallSite, sites: seq<PointerCallSite>)
    requires Sorted(sites)
    ensures Sorted(Insert(site, sites))
    ensures forall x :: x in Insert(site, sites) <==> x == site || x in sites
  {
    if sites != [] && Before(KeyOf(sites[0]), KeyOf(site)) {
      InsertSorted(site, sites[1..]);
      var rest := Insert(site, sites[1..]);
      forall j | 0 <= j < |rest| ensures !Before(KeyOf(rest[j]), KeyOf(sites[0])) {
        assert rest[j] in rest;
      }
    }
  }

  lemma {:induction false} SortSorted(sites: seq<PointerCallSite>)
    ensures Sorted(StableSort(sites))
  {
    if sites != [] {
      SortSorted(sites[1..]);
      InsertSorted(sites[0], StableSort(sites[1..]));
    }
  }

  lemma {:induction false} UniqueAscending(sites: seq<PointerCallSite>)
    requires Sorted(sites)
    ensures Ascending(Unique(sites)) && Firsts(Unique(sites)) == Firsts(sites)
    ensures forall x <- Unique(sites) :: x in sites
    ensures sites != [] ==> Unique(sites) != [] && Unique(sites)[0] == sites[0]
    decreases |sites|
  {
    if |sites| < 2 {
    } else if KeyOf(sites[0]) == KeyOf(sites[1]) {
      var shorter := [sites[0]] + sites[2..];
      UniqueAscending(shorter);
      assert shorter[1..] == sites[2..];
      assert sites[1..][1..] == sites[2..];
    } else {
      UniqueAscending(sites[1..]);
      var rest := Unique(sites[1..]);
      forall j | 0 <= j < |rest| ensures Before(KeyOf(sites[0]), KeyOf(rest[j])) {
        assert rest[j] in sites[1..];
      }
      assert ([sites[0]] + rest)[1..] == rest;
    }
  }

  /** A batch is reduced to its last observation of every key, in key order. */
  lemma LatestIsLast(observations: seq<PointerCallSite>)
    ensures Ascending(Latest(observations))
    ensures Firsts(Latest(observations)) == Lasts(observations)
    ensures Lasts(Latest(observations)) == Lasts(observations)
    ensures forall x :: x in Latest(observations) <==>
      KeyOf(x) in Lasts(observations) && Lasts(observations)[KeyOf(x)] == x
  {
    FirstsReverse(observations);
    FirstsSort(Reverse(observations));
    SortSorted(Reverse(observations));
    UniqueAscending(StableSort(Reverse(observations)));
    AscendingMembers(Latest(observations));
    AscendingLasts(Latest(observations));
  }

  lemma {:induction false} AscendingMembers(sites: seq<PointerCallSite>)
    requires Ascending(sites)
    ensures forall x :: x in sites <==> KeyOf(x) in Firsts(sites) && Firsts(sites)[KeyOf(x)] == x
  {
    if sites != [] {
      AscendingMembers(sites[1..]);
    }
  }

  lemma {:induction false} AscendingLasts(sites: seq<PointerCallSite>)
    requires Ascending(sites)
    ensures Lasts(sites) == Firsts(sites)
  {
    if |sites| > 0 {
      AscendingMembers(sites);
      LastsMembers(sites);
      FirstsMembers(sites);
    }
  }

  lemma {:induction false} LastsMembers(sites: seq<PointerCallSite>)
    ensures forall k :: k in Lasts(sites) ==> Lasts(sites)[k] in sites && KeyOf(Lasts(sites)[k]) == k
    ensures forall x <- sites :: KeyOf(x) in Lasts(sites)
  {
    if sites != [] {
      LastsMembers(sites[..|sites| - 1]);
    }
  }

  lemma {:induction false} FirstsMembers(sites: seq<PointerCallSite>)
    ensures forall k :: k in Firsts(sites) ==> Firsts(sites)[k] in sites && KeyOf(Firsts(sites)[k]) == k
    ensures forall x <- sites :: KeyOf(x) in Firsts(sites)
  {
    if sites != [] {
      FirstsMembers(sites[1..]);
    }
  }

  /** Only the last observations matter: batches with the same ones reduce to the same list. */
  lemma SameLastsSameBatch(left: seq<PointerCallSite>, right: seq<PointerCallSite>)
    requires Lasts(left) == Lasts(right)
    ensures Latest(left) == Latest(right)
  {
    LatestIsLast(left);
    LatestIsLast(right);
    AscendingIsDetermined(Latest(left), Latest(right));
  }

  lemma {:induction false} AscendingIsDetermined(left: seq<PointerCallSite>, right: seq<PointerCallSite>)
    requires Ascending(left) && Ascending(right)
    requires forall x :: x in left <==> x in right
    ensures left == right
  {
    assert right != [] ==> right[0] in right;
    if left != [] {
      assert left[0] in right && (right != [] ==> right[0] in left);
      assert left[0] == right[0];
      forall x ensures x in left[1..] <==> x in right[1..] {
        assert x in left <==> x in right;
        if x in left[1..] {
          assert x != left[0];
        }
        if x in right[1..] {
          assert x != right[0];
        }
      }
      AscendingIsDetermined(left[1..], right[1..]);
    }
  }

  // ----- the callers of a batch -----

  predicate SymbolBefore(a: SymbolId, b: SymbolId) {
    if a.file != b.file then a.file < b.file else a.index < b.index
  }

  /** Sorting and dropping repetitions, one caller at a time. */
  function AddCaller(caller: SymbolId, callers: seq<SymbolId>): seq<SymbolId> {
    if callers == [] || SymbolBefore(caller, callers[0]) then [caller] + callers
    else if caller == callers[0] then callers
    else [callers[0]] + AddCaller(caller, callers[1..])
  }

  function SortedCallers(sites: seq<PointerCallSite>): seq<SymbolId> {
    if sites == [] then [] else AddCaller(sites[0].source, SortedCallers(sites[1..]))
  }

  ghost predicate StrictlySorted(callers: seq<SymbolId>) {
    forall i, j | 0 <= i < j < |callers| :: SymbolBefore(callers[i], callers[j])
  }

  lemma {:induction false} AddCallerSorted(caller: SymbolId, callers: seq<SymbolId>)
    requires StrictlySorted(callers)
    ensures StrictlySorted(AddCaller(caller, callers))
    ensures forall c :: c in AddCaller(caller, callers) <==> c == caller || c in callers
  {
    if callers != [] && !SymbolBefore(caller, callers[0]) && caller != callers[0] {
      AddCallerSorted(caller, callers[1..]);
      var rest := AddCaller(caller, callers[1..]);
      forall j | 0 <= j < |rest| ensures SymbolBefore(callers[0], rest[j]) {
        assert rest[j] in rest;
      }
    }
  }

  /** The callers in ascending order, each once. */
  lemma {:induction false} SortedCallersOnce(sites: seq<PointerCallSite>)
    ensures StrictlySorted(SortedCallers(sites))
    ensures forall c :: c in SortedCallers(sites) <==> exists s <- sites :: s.source == c
  {
    if sites != [] {
      SortedCallersOnce(sites[1..]);
      AddCallerSorted(sites[0].source, SortedCallers(sites[1..]));
      assert sites == [sites[0]] + sites[1..];
    }
  }
}
