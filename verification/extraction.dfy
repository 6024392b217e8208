/** Extraction runs interleaved with file edits (src/commands/Extract.cpp,
    src/commands/ExtractionFreshness.cpp, src/storage/FileIndexState.cpp). */
module Extraction {
  import opened Text
  import opened Freshness

  type Output = string

  /** The version of each file that was read; a file's version is its modification time. */
  type Snapshot = map<File, Time>

  /** The files that a version of a file includes, and the sources every run into an output selects. */
  datatype World = World(includes: (File, Time) -> set<File>, selection: map<Output, set<File>>)

  /** The stage an extraction is in. `found` is what discovery read for each source, `seen` what was observed
      of each file of the closures, `read` what the parse of each stale source has read so far. */
  datatype Run =
    | Idle
    | Discovering(output: Output, sources: set<File>, force: bool, found: map<File, Snapshot>)
    | Observing(output: Output, sources: set<File>, force: bool, found: map<File, Snapshot>,
                seen: map<File, FileObservation>)
    | Parsing(output: Output, sources: set<File>, found: map<File, Snapshot>, seen: map<File, FileObservation>,
              stale: set<File>, read: map<File, Snapshot>)
    | Recording(output: Output, seen: map<File, FileObservation>, marks: set<File>, records: map<File, IndexState>)

  /** `facts` holds, for each output and source, the snapshot its committed facts were parsed from. */
  datatype State = State(
    clock: Time,
    disk: map<File, Time>,
    git: map<File, string>,
    registry: map<File, IndexState>,
    facts: map<Output, map<File, Snapshot>>,
    run: Run)

  datatype Event =
    // the surroundings, at any moment
    | Edit(file: File)
    | Delete(file: File)
    | GitCommit(file: File, commit: string)
    | ClearIndexState(file: File)
    // the run, in program order
    | Start(output: Output, sources: set<File>, force: bool)
    | Discover(source: File, file: File)
    | FinishDiscovery
    | Observe(file: File, unavailable: bool)
    | Partition
    | Parse(source: File, file: File)
    | Commit
    | Prepare(file: File)
    | Mark
    | Abandon  // an error or rollback before the commit, or a failure to record after it

  // ----- the steps -----

  /** A preprocessor or parser may next read the source itself or a file included by what it has read. */
  predicate MayRead(world: World, source: File, snapshot: Snapshot, file: File) {
    file !in snapshot &&
    (file == source || exists g <- snapshot :: file in world.includes(g, snapshot[g]))
  }

  predicate Complete(world: World, source: File, snapshot: Snapshot) {
    source in snapshot && forall g <- snapshot :: world.includes(g, snapshot[g]) <= snapshot.Keys
  }

  function GitOf(st: State, file: File): Option<string> {
    if file in st.git then Some(st.git[file]) else None
  }

  function MtimeOf(st: State, file: File): Option<Time> {
    if file in st.disk then Some(st.disk[file]) else None
  }

  function RowOf(st: State, file: File): IndexState {
    if file in st.registry then st.registry[file] else IndexState(false, "", None, None)
  }

  function CheckFile(st: State, output: Output, force: bool, file: File, unavailable: bool): FileObservation {
    var mtime := MtimeOf(st, file);
    if force then FileObservation(Some(Forced), mtime)
    else if unavailable then FileObservation(Some(IndexStateUnavailable), mtime)
    else FileObservation(StaleReason(RowOf(st, file), Observed(output, GitOf(st, file), mtime)), mtime)
  }

  predicate InSomeClosure(found: map<File, Snapshot>, file: File) {
    exists s <- found :: file in found[s]
  }

  predicate AllSeen(found: map<File, Snapshot>, seen: map<File, FileObservation>) {
    forall s <- found :: found[s].Keys <= seen.Keys
  }

  predicate JudgedUpToDate(found: map<File, Snapshot>, seen: map<File, FileObservation>, source: File)
    requires source in found && found[source].Keys <= seen.Keys
  {
    forall f <- found[source] :: seen[f].reason.None?
  }

  function StaleSources(found: map<File, Snapshot>, seen: map<File, FileObservation>): set<File>
    requires AllSeen(found, seen)
  {
    set s | s in found && !JudgedUpToDate(found, seen, s)
  }

  /** The union of the closures of the stale sources. */
  function Marks(found: map<File, Snapshot>, stale: set<File>): set<File>
    requires stale <= found.Keys
  {
    set s, f | s in stale && f in found[s] :: f
  }

  /** The program's lists over this run's closures: the sources that its partition loop calls stale are the stale
      ones, and the files that it marks are the marked ones. */
  lemma LoopsMatchSteps(check: Check, included: map<File, seq<File>>, sources: seq<File>, found: map<File, Snapshot>,
                        seen: map<File, FileObservation>)
    requires AllSeen(found, seen) && forall s :: s in sources <==> s in found
    requires forall s <- found, f :: f in Closure(included, s) <==> f in found[s]
    requires forall s <- found, f <- found[s] :: check(f) == seen[f]
    ensures var stale := Select(check, included, sources, false);
      (forall s :: s in stale <==> s in StaleSources(found, seen)) &&
      forall f :: f in FirstSeen(Closures(included, stale)) <==> f in Marks(found, StaleSources(found, seen))
  {
    var stale := Select(check, included, sources, false);
    forall s ensures s in stale <==> s in StaleSources(found, seen) {
      SelectMember(check, included, sources, false, s);
    }
    hide Select;
    FirstSeenMembers(Closures(included, stale));
    ClosuresMembers(included, stale);
  }

  /** The time recorded for a file: the one observed before the parse, or a fresh stat when none was. */
  function RecordedMtime(st: State, seen: map<File, FileObservation>, file: File): Option<Time> {
    if file in seen && seen[file].mtime.Some? then seen[file].mtime else MtimeOf(st, file)
  }

  type Facts = map<Output, map<File, Snapshot>>

  function FactsOf(facts: Facts, output: Output): map<File, Snapshot> {
    if output in facts then facts[output] else map[]
  }

  /** One step; None when the event is not possible in the state. */
  function Step(world: World, st: State, event: Event): Option<State> {
    match event
    case Edit(f) => Some(st.(clock := st.clock + 1, disk := st.disk[f := st.clock + 1]))
    case Delete(f) => Some(st.(disk := st.disk - {f}))
    case GitCommit(f, commit) => Some(st.(git := st.git[f := commit]))
    case ClearIndexState(f) => Some(st.(registry := st.registry - {f}))
    case Start(output, sources, force) =>
      if !st.run.Idle? || output == "" then None
      else Some(st.(run := Discovering(output, sources, force, map s | s in sources :: map[])))
    case Discover(s, f) =>
      (match st.run
       case Discovering(output, sources, force, found) =>
         if s in found && f in st.disk && MayRead(world, s, found[s], f) then
           Some(st.(run := Discovering(output, sources, force, found[s := found[s][f := st.disk[f]]])))
         else None
       case _ => None)
    case FinishDiscovery =>
      (match st.run
       case Discovering(output, sources, force, found) =>
         if forall s <- found :: Complete(world, s, found[s]) then
           Some(st.(run := Observing(output, sources, force, found, map[])))
         else None
       case _ => None)
    case Observe(f, unavailable) =>
      (match st.run
       case Observing(output, sources, force, found, seen) =>
         if f !in seen && InSomeClosure(found, f) then
           var observation := CheckFile(st, output, force, f, unavailable);
           Some(st.(run := Observing(output, sources, force, found, seen[f := observation])))
         else None
       case _ => None)
    case Partition =>
      (match st.run
       case Observing(output, sources, _, found, seen) =>
         if !AllSeen(found, seen) then None
         else
           var stale := StaleSources(found, seen);
           if stale == {} then Some(st.(run := Idle))
           else Some(st.(run := Parsing(output, sources, found, seen, stale, map s | s in stale :: map[])))
       case _ => None)
    case Parse(s, f) =>
      (match st.run
       case Parsing(output, sources, found, seen, stale, read) =>
         if s in read && f in st.disk && MayRead(world, s, read[s], f) then
           Some(st.(run := Parsing(output, sources, found, seen, stale, read[s := read[s][f := st.disk[f]]])))
         else None
       case _ => None)
    case Commit =>
      (match st.run
       case Parsing(output, sources, found, seen, stale, read) =>
         if stale <= found.Keys && forall s <- read :: Complete(world, s, read[s]) then
           Some(st.(facts := st.facts[output := FactsOf(st.facts, output) + read],
                    run := Recording(output, seen, Marks(found, stale), map[])))
         else None
       case _ => None)
    case Prepare(f) =>
      (match st.run
       case Recording(output, seen, marks, records) =>
         if f in marks && f !in records && RecordedMtime(st, seen, f).Some? then
           var record := IndexState(true, output, GitOf(st, f), RecordedMtime(st, seen, f));
           Some(st.(run := Recording(output, seen, marks, records[f := record])))
         else None
       case _ => None)
    case Mark =>
      (match st.run
       case Recording(output, seen, marks, records) =>
         if records.Keys == marks then Some(st.(registry := st.registry + records, run := Idle)) else None
       case _ => None)
    case Abandon => Some(st.(run := Idle))
  }

  function Trace(world: World, st: State, events: seq<Event>): Option<State>
    decreases |events|
  {
    if events == [] then Some(st)
    else
      match Step(world, st, events[0])
      case Some(next) => Trace(world, next, events[1..])
      case None => None
  }

  const EMPTY := State(0, map[], map[], map[], map[], Idle)

  // ----- the invariant -----

  /** The file is, and will stay, at this version or a later one. */
  predicate AtMost(st: State, file: File, version: Time) {
    version <= st.clock && (file in st.disk ==> version <= st.disk[file])
  }

  type Registry = map<File, IndexState>

  function Recorded(registry: Registry, output: Output, file: File): Option<Time> {
    if file in registry && registry[file].indexed && registry[file].factsDb == output
    then registry[file].mtime else None
  }

  ghost predicate IsRoute(world: World, snapshot: Snapshot, source: File, file: File, route: seq<File>) {
    && route != [] && route[0] == source && route[|route| - 1] == file
    && (forall i | 0 <= i < |route| :: route[i] in snapshot)
    && (forall i | 0 <= i < |route| - 1 :: route[i + 1] in world.includes(route[i], snapshot[route[i]]))
  }

  /** Every file read was reached from the source through includes of versions read. */
  ghost predicate Rooted(world: World, snapshot: Snapshot, source: File) {
    forall f <- snapshot :: exists route :: IsRoute(world, snapshot, source, f, route)
  }

  ghost predicate SnapshotOk(world: World, st: State, source: File, snapshot: Snapshot) {
    Rooted(world, snapshot, source) && forall f <- snapshot :: AtMost(st, f, snapshot[f])
  }

  /** Recorded times never exceed the versions the facts were parsed from. */
  ghost predicate RecordsBehind(registry: Registry, output: Output, snapshot: Snapshot) {
    forall f <- snapshot | Recorded(registry, output, f).Some? :: Recorded(registry, output, f).value <= snapshot[f]
  }

  ghost predicate FactsOk(world: World, st: State) {
    && (forall output <- st.facts :: output in world.selection && st.facts[output].Keys <= world.selection[output])
    && (forall output <- st.facts, s <- st.facts[output] ::
          SnapshotOk(world, st, s, st.facts[output][s]) && Complete(world, s, st.facts[output][s]) &&
          RecordsBehind(st.registry, output, st.facts[output][s]))
  }

  ghost predicate RegistryOk(world: World, st: State) {
    && (forall f <- st.registry | st.registry[f].mtime.Some? :: AtMost(st, f, st.registry[f].mtime.value))
    && (forall output <- world.selection, s <- world.selection[output] ::
          Recorded(st.registry, output, s).Some? ==> s in FactsOf(st.facts, output))
  }

  /** Discovery read versions between what is recorded and what is on disk, never older than the facts. */
  ghost predicate FoundOk(world: World, st: State, output: Output, source: File, snapshot: Snapshot) {
    && SnapshotOk(world, st, source, snapshot)
    && RecordsBehind(st.registry, output, snapshot)
    && (forall s <- FactsOf(st.facts, output), f <- FactsOf(st.facts, output)[s] ::
          f in snapshot ==> FactsOf(st.facts, output)[s][f] <= snapshot[f])
  }

  /** An observed time is no older than what discovery read; a file judged up to date has been read at that
      very time by discovery and at no older one by every parse. */
  ghost predicate SeenOk(world: World, st: State, output: Output, sources: set<File>, found: map<File, Snapshot>,
                         file: File, seen: FileObservation)
  {
    && (seen.mtime.Some? ==> AtMost(st, file, seen.mtime.value))
    && (forall s <- found :: file in found[s] && seen.mtime.Some? ==> found[s][file] <= seen.mtime.value)
    && (seen.reason.None? ==>
          && seen.mtime.Some?
          && (forall s <- found :: file in found[s] ==> found[s][file] == seen.mtime.value)
          && (forall s <- FactsOf(st.facts, output) ::
                file in FactsOf(st.facts, output)[s] ==> seen.mtime.value <= FactsOf(st.facts, output)[s][file])
          && (file in sources ==> file in FactsOf(st.facts, output)))
  }

  /** The facts of a source were parsed from exactly the versions observed. */
  ghost predicate ParsedAsSeen(snapshot: Snapshot, seen: map<File, FileObservation>) {
    forall f <- snapshot :: f in seen && seen[f].mtime == Some(snapshot[f])
  }

  /** Nothing was parsed from a version older than the one observed. */
  ghost predicate NotOlderThanSeen(snapshot: Snapshot, seen: map<File, FileObservation>) {
    forall f <- snapshot :: f in seen && seen[f].mtime.Some? ==> seen[f].mtime.value <= snapshot[f]
  }

  ghost predicate Selected(world: World, output: Output, sources: set<File>) {
    output != "" && output in world.selection && world.selection[output] == sources
  }

  /** The record prepared for a file does not claim a version newer than one its facts were parsed from. */
  predicate SafeRecord(facts: map<File, Snapshot>, file: File, record: IndexState) {
    forall s <- facts | file in facts[s] :: record.mtime.Some? && record.mtime.value <= facts[s][file]
  }

  predicate RecordOk(st: State, output: Output, file: File, record: IndexState) {
    record.factsDb == output && record.mtime.Some? && AtMost(st, file, record.mtime.value) &&
    SafeRecord(FactsOf(st.facts, output), file, record)
  }

  ghost predicate RunOk(world: World, st: State) {
    match st.run
    case Idle => true
    case Discovering(output, sources, _, found) =>
      && Selected(world, output, sources) && found.Keys == sources
      && (forall s <- found :: FoundOk(world, st, output, s, found[s]))
    case Observing(output, sources, _, found, seen) =>
      && Selected(world, output, sources) && found.Keys == sources
      && (forall s <- found :: FoundOk(world, st, output, s, found[s]) && Complete(world, s, found[s]))
      && (forall f <- seen :: SeenOk(world, st, output, sources, found, f, seen[f]))
    case Parsing(output, sources, found, seen, stale, read) =>
      && Selected(world, output, sources) && found.Keys == sources && read.Keys == stale && stale <= sources
      && AllSeen(found, seen)
      && (forall f <- seen | seen[f].mtime.Some? :: AtMost(st, f, seen[f].mtime.value))
      && (forall s <- sources - stale ::
            s in FactsOf(st.facts, output) && ParsedAsSeen(FactsOf(st.facts, output)[s], seen))
      && (forall s <- read ::
            SnapshotOk(world, st, s, read[s]) && RecordsBehind(st.registry, output, read[s]) &&
            NotOlderThanSeen(read[s], seen))
    case Recording(output, seen, marks, records) =>
      && output != "" && output in world.selection && output in st.facts
      && st.facts[output].Keys == world.selection[output]
      && (forall f <- seen | seen[f].mtime.Some? :: AtMost(st, f, seen[f].mtime.value))
      && (forall s <- st.facts[output] :: NotOlderThanSeen(st.facts[output][s], seen))
      && (forall f <- records :: RecordOk(st, output, f, records[f]))
  }

  ghost predicate DiskOk(st: State) {
    forall f <- st.disk :: st.disk[f] <= st.clock
  }

  ghost predicate Inv(world: World, st: State) {
    DiskOk(st) && FactsOk(world, st) && RegistryOk(world, st) && RunOk(world, st)
  }

  // ----- the invariant is kept by every step -----

  /** Before the parse the file could be observed, so that its record takes no stat of its own. */
  predicate WasObserved(seen: map<File, FileObservation>, file: File) {
    file in seen && seen[file].mtime.Some?
  }

  /** Every parse of the file read the version that is on disk now. */
  predicate UneditedSinceParse(st: State, facts: map<File, Snapshot>, file: File) {
    forall s <- facts | file in facts[s] :: file in st.disk && facts[s][file] == st.disk[file]
  }

  /** Runs into an output always select the same sources, and a file that has to be looked at afresh when its record
      is prepared has not been edited since it was parsed. */
  predicate Allowed(world: World, st: State, event: Event) {
    match event
    case Start(output, sources, _) => output in world.selection && world.selection[output] == sources
    case Prepare(f) =>
      st.run.Recording? ==>
        WasObserved(st.run.seen, f) || UneditedSinceParse(st, FactsOf(st.facts, st.run.output), f)
    case _ => true
  }

  /** Time has passed: files are unchanged, gone, or written at a later time. */
  ghost predicate Later(st: State, next: State) {
    && st.clock <= next.clock
    && (forall f <- next.disk ::
          next.disk[f] <= next.clock && ((f in st.disk && next.disk[f] == st.disk[f]) || st.clock < next.disk[f]))
    && (forall f <- next.registry :: f in st.registry && next.registry[f] == st.registry[f])
    && next.facts == st.facts
  }

  lemma LaterSnapshot(world: World, st: State, next: State, source: File, snapshot: Snapshot)
    requires Later(st, next) && SnapshotOk(world, st, source, snapshot)
    ensures SnapshotOk(world, next, source, snapshot)
  {
    hide Rooted;
  }

  lemma LaterFacts(world: World, st: State, next: State)
    requires Later(st, next) && FactsOk(world, st)
    ensures FactsOk(world, next)
  {
    hide SnapshotOk, Complete;
    forall output <- next.facts, s <- next.facts[output]
      ensures SnapshotOk(world, next, s, next.facts[output][s]) && Complete(world, s, next.facts[output][s])
      ensures RecordsBehind(next.registry, output, next.facts[output][s])
    {
      assert RecordsBehind(st.registry, output, next.facts[output][s]);
      LaterSnapshot(world, st, next, s, next.facts[output][s]);
    }
  }

  lemma LaterRegistry(world: World, st: State, next: State)
    requires Later(st, next) && RegistryOk(world, st)
    ensures RegistryOk(world, next)
  {
    forall output <- world.selection, s <- world.selection[output]
      ensures Recorded(next.registry, output, s).Some? ==> s in FactsOf(next.facts, output)
    {
      assert Recorded(st.registry, output, s).Some? ==> s in FactsOf(st.facts, output);
    }
  }

  lemma LaterFound(world: World, st: State, next: State, output: Output, source: File, snapshot: Snapshot)
    requires Later(st, next) && FoundOk(world, st, output, source, snapshot)
    ensures FoundOk(world, next, output, source, snapshot)
  {
    hide SnapshotOk;
    LaterSnapshot(world, st, next, source, snapshot);
  }

  lemma LaterRun(world: World, st: State, next: State)
    requires Later(st, next) && RunOk(world, st) && next.run == st.run
    ensures RunOk(world, next)
  {
    hide SnapshotOk, Complete, FoundOk, NotOlderThanSeen, ParsedAsSeen;
    match st.run
    case Idle =>
    case Discovering(output, sources, _, found) =>
      forall s <- found ensures FoundOk(world, next, output, s, found[s]) {
        LaterFound(world, st, next, output, s, found[s]);
      }
    case Observing(output, sources, _, found, seen) =>
      forall s <- found ensures FoundOk(world, next, output, s, found[s]) {
        LaterFound(world, st, next, output, s, found[s]);
      }
      forall f <- seen ensures SeenOk(world, next, output, sources, found, f, seen[f]) {
        assert SeenOk(world, st, output, sources, found, f, seen[f]);
      }
    case Parsing(output, sources, found, seen, stale, read) =>
      forall s <- read ensures SnapshotOk(world, next, s, read[s]) && RecordsBehind(next.registry, output, read[s]) {
        assert RecordsBehind(st.registry, output, read[s]);
        LaterSnapshot(world, st, next, s, read[s]);
      }
    case Recording(output, seen, marks, records) =>
  }

  lemma KeepsSurroundings(world: World, st: State, event: Event)
    requires Inv(world, st) && Step(world, st, event).Some?
    requires event.Edit? || event.Delete? || event.GitCommit? || event.ClearIndexState?
    ensures Inv(world, Step(world, st, event).value)
  {
    var next := Step(world, st, event).value;
    assert Later(st, next);
    LaterFacts(world, st, next);
    LaterRegistry(world, st, next);
    LaterRun(world, st, next);
  }

  lemma RouteExtend(world: World, snapshot: Snapshot, more: Snapshot, source: File, file: File, route: seq<File>)
    requires IsRoute(world, snapshot, source, file, route)
    requires forall f <- snapshot :: f in more && more[f] == snapshot[f]
    ensures IsRoute(world, more, source, file, route)
  {
  }

  lemma RootedRead(world: World, snapshot: Snapshot, source: File, file: File, version: Time)
    requires Rooted(world, snapshot, source) && MayRead(world, source, snapshot, file)
    ensures Rooted(world, snapshot[file := version], source)
  {
    var more := snapshot[file := version];
    forall f <- snapshot ensures exists route :: IsRoute(world, more, source, f, route) {
      var route :| IsRoute(world, snapshot, source, f, route);
      RouteExtend(world, snapshot, more, source, f, route);
    }
    if file == source {
      assert IsRoute(world, more, source, file, [file]);
    } else {
      var g :| g in snapshot && file in world.includes(g, snapshot[g]);
      var route :| IsRoute(world, snapshot, source, g, route);
      RouteExtend(world, snapshot, more, source, g, route);
      assert IsRoute(world, more, source, file, route + [file]);
    }
  }

  lemma ReadSnapshot(world: World, st: State, source: File, snapshot: Snapshot, file: File)
    requires DiskOk(st) && SnapshotOk(world, st, source, snapshot)
    requires MayRead(world, source, snapshot, file) && file in st.disk
    ensures SnapshotOk(world, st, source, snapshot[file := st.disk[file]])
  {
    hide Rooted;
    RootedRead(world, snapshot, source, file, st.disk[file]);
  }

  /** A file read now is at least as new as what is recorded for it and as every parse of it. */
  lemma ReadNow(world: World, st: State, output: Output, snapshot: Snapshot, file: File)
    requires FactsOk(world, st) && RegistryOk(world, st) && RecordsBehind(st.registry, output, snapshot)
    requires file in st.disk
    ensures RecordsBehind(st.registry, output, snapshot[file := st.disk[file]])
    ensures forall s <- FactsOf(st.facts, output) | file in FactsOf(st.facts, output)[s] ::
      FactsOf(st.facts, output)[s][file] <= st.disk[file]
  {
    hide Rooted;
    forall s <- FactsOf(st.facts, output) | file in FactsOf(st.facts, output)[s]
      ensures FactsOf(st.facts, output)[s][file] <= st.disk[file]
    {
      assert SnapshotOk(world, st, s, st.facts[output][s]);
    }
  }

  lemma KeepsDiscover(world: World, st: State, source: File, file: File)
    requires Inv(world, st) && Step(world, st, Discover(source, file)).Some?
    ensures Inv(world, Step(world, st, Discover(source, file)).value)
  {
    hide SnapshotOk, FactsOk, RegistryOk;
    var next := Step(world, st, Discover(source, file)).value;
    SameTables(world, st, next);
    match st.run
    case Discovering(output, sources, force, found) =>
      ReadSnapshot(world, st, source, found[source], file);
      ReadNow(world, st, output, found[source], file);
      forall s <- next.run.found ensures FoundOk(world, next, output, s, next.run.found[s]) {
        if s != source {
          assert FoundOk(world, st, output, s, found[s]);
        }
        SameSnapshot(world, st, next, s, next.run.found[s]);
      }
  }

  /** The stage of the run does not matter to the tables. */
  lemma SameTables(world: World, st: State, next: State)
    requires FactsOk(world, st) && RegistryOk(world, st)
    requires next == st.(run := next.run)
    ensures FactsOk(world, next) && RegistryOk(world, next)
  {
    hide Complete, Rooted;
    forall output <- next.facts, s <- next.facts[output]
      ensures SnapshotOk(world, next, s, next.facts[output][s])
    {
      assert SnapshotOk(world, st, s, next.facts[output][s]);
    }
  }

  lemma SameSnapshot(world: World, st: State, next: State, source: File, snapshot: Snapshot)
    requires next == st.(run := next.run)
    ensures SnapshotOk(world, st, source, snapshot) <==> SnapshotOk(world, next, source, snapshot)
  {
    hide Rooted;
  }

  lemma KeepsFinishDiscovery(world: World, st: State)
    requires Inv(world, st) && Step(world, st, FinishDiscovery).Some?
    ensures Inv(world, Step(world, st, FinishDiscovery).value)
  {
    hide SnapshotOk, FactsOk, RegistryOk;
    var next := Step(world, st, FinishDiscovery).value;
    SameTables(world, st, next);
    forall s <- next.run.found ensures FoundOk(world, next, next.run.output, s, next.run.found[s]) {
      SameSnapshot(world, st, next, s, next.run.found[s]);
    }
  }

  lemma SeenNow(world: World, st: State, output: Output, sources: set<File>, force: bool, found: map<File, Snapshot>,
                file: File, unavailable: bool)
    requires DiskOk(st) && FactsOk(world, st) && RegistryOk(world, st) && Selected(world, output, sources)
    requires forall s <- found :: FoundOk(world, st, output, s, found[s])
    ensures SeenOk(world, st, output, sources, found, file, CheckFile(st, output, force, file, unavailable))
  {
    hide Rooted;
    var seen := CheckFile(st, output, force, file, unavailable);
    forall s <- found | file in found[s] && seen.mtime.Some? ensures found[s][file] <= seen.mtime.value {
      assert FoundOk(world, st, output, s, found[s]);
    }
    if seen.reason.None? {
      assert Recorded(st.registry, output, file) == seen.mtime;
      forall s <- found | file in found[s] ensures found[s][file] == seen.mtime.value {
        assert FoundOk(world, st, output, s, found[s]);
        assert RecordsBehind(st.registry, output, found[s]);
      }
      forall s <- FactsOf(st.facts, output) | file in FactsOf(st.facts, output)[s]
        ensures seen.mtime.value <= FactsOf(st.facts, output)[s][file]
      {
        assert RecordsBehind(st.registry, output, st.facts[output][s]);
      }
    }
  }

  lemma KeepsObserve(world: World, st: State, file: File, unavailable: bool)
    requires Inv(world, st) && Step(world, st, Observe(file, unavailable)).Some?
    ensures Inv(world, Step(world, st, Observe(file, unavailable)).value)
  {
    hide SnapshotOk, FactsOk, RegistryOk, Complete;
    var next := Step(world, st, Observe(file, unavailable)).value;
    SameTables(world, st, next);
    match st.run
    case Observing(output, sources, force, found, seen) =>
      SeenNow(world, st, output, sources, force, found, file, unavailable);
      forall s <- found ensures FoundOk(world, next, output, s, found[s]) {
        assert FoundOk(world, st, output, s, found[s]);
        SameSnapshot(world, st, next, s, found[s]);
      }
      forall f <- next.run.seen ensures SeenOk(world, next, output, sources, found, f, next.run.seen[f]) {
        SameSeen(world, st, next, output, sources, found, f, next.run.seen[f]);
      }
  }

  lemma SameSeen(world: World, st: State, next: State, output: Output, sources: set<File>, found: map<File, Snapshot>,
                 file: File, seen: FileObservation)
    requires next == st.(run := next.run)
    requires SeenOk(world, st, output, sources, found, file, seen)
    ensures SeenOk(world, next, output, sources, found, file, seen)
  {
  }

  // ----- a source judged up to date has current facts -----

  ghost predicate Agree(left: Snapshot, right: Snapshot) {
    forall f <- left | f in right :: left[f] == right[f]
  }

  lemma {:induction false} RouteInside(world: World, left: Snapshot, right: Snapshot, source: File, file: File,
                                       route: seq<File>)
    requires IsRoute(world, left, source, file, route) && Complete(world, source, right) && Agree(left, right)
    ensures file in right
    decreases |route|
  {
    if |route| > 1 {
      var shorter := route[..|route| - 1];
      var last := shorter[|shorter| - 1];
      RouteInside(world, left, right, source, last, shorter);
      assert route[|shorter|] in world.includes(last, left[last]);
    }
  }

  /** Reading to the end from the same source is determined by the versions read. */
  lemma SameClosure(world: World, left: Snapshot, right: Snapshot, source: File)
    requires Rooted(world, left, source) && Complete(world, source, left)
    requires Rooted(world, right, source) && Complete(world, source, right)
    requires Agree(left, right)
    ensures left == right
  {
    hide IsRoute, Complete;
    forall f <- left ensures f in right {
      var route :| IsRoute(world, left, source, f, route);
      RouteInside(world, left, right, source, f, route);
    }
    forall f <- right ensures f in left {
      var route :| IsRoute(world, right, source, f, route);
      RouteInside(world, right, left, source, f, route);
    }
  }

  /** The facts of a source judged up to date were parsed from exactly the versions this run discovered
      and observed: no file of its closure is missing, older or newer. */
  lemma UpToDateIsFresh(world: World, st: State, source: File)
    requires Inv(world, st) && st.run.Observing? && AllSeen(st.run.found, st.run.seen)
    requires source in st.run.sources && JudgedUpToDate(st.run.found, st.run.seen, source)
    ensures source in FactsOf(st.facts, st.run.output)
    ensures FactsOf(st.facts, st.run.output)[source] == st.run.found[source]
    ensures ParsedAsSeen(FactsOf(st.facts, st.run.output)[source], st.run.seen)
  {
    var output, found := st.run.output, st.run.found[source];
    JudgedSource(world, st, source);
    var parsed := st.facts[output][source];
    forall f <- found ensures st.run.seen[f].mtime == Some(found[f]) && (f in parsed ==> found[f] == parsed[f]) {
      JudgedFile(world, st, source, f);
    }
    hide *;
    assert Agree(found, parsed) by {
      AgreeEverywhere(found, parsed);
    }
    SameClosure(world, found, parsed, source);
    AllAsSeen(found, st.run.seen);
  }

  lemma AgreeEverywhere(left: Snapshot, right: Snapshot)
    requires forall f <- left :: f in right ==> left[f] == right[f]
    ensures Agree(left, right)
  {
  }

  lemma AllAsSeen(snapshot: Snapshot, seen: map<File, FileObservation>)
    requires forall f <- snapshot :: f in seen && seen[f].mtime == Some(snapshot[f])
    ensures ParsedAsSeen(snapshot, seen)
  {
  }

  /** A source judged up to date has facts; they were read to the end, and so was what this run discovered. */
  lemma JudgedSource(world: World, st: State, source: File)
    requires Inv(world, st) && st.run.Observing? && AllSeen(st.run.found, st.run.seen)
    requires source in st.run.sources && JudgedUpToDate(st.run.found, st.run.seen, source)
    ensures st.run.output in st.facts && source in st.facts[st.run.output]
    ensures FactsOf(st.facts, st.run.output) == st.facts[st.run.output]
    ensures var parsed := st.facts[st.run.output][source];
      Rooted(world, parsed, source) && Complete(world, source, parsed)
    ensures Rooted(world, st.run.found[source], source) && Complete(world, source, st.run.found[source])
  {
    hide Rooted, RegistryOk, IsRoute, RecordsBehind;
    var output, found := st.run.output, st.run.found[source];
    assert Complete(world, source, found) && FoundOk(world, st, output, source, found);
    assert SeenOk(world, st, output, st.run.sources, st.run.found, source, st.run.seen[source]);
    assert SnapshotOk(world, st, source, st.facts[output][source]);
  }

  /** Each file of its closure was seen at the time it was read, and parsed at that version if it was parsed. */
  lemma JudgedFile(world: World, st: State, source: File, file: File)
    requires Inv(world, st) && st.run.Observing? && AllSeen(st.run.found, st.run.seen)
    requires source in st.run.sources && source in st.run.found && file in st.run.found[source]
    requires st.run.seen[file].reason.None?
    ensures st.run.seen[file].mtime == Some(st.run.found[source][file])
    ensures source in FactsOf(st.facts, st.run.output) && file in FactsOf(st.facts, st.run.output)[source] ==>
      FactsOf(st.facts, st.run.output)[source][file] == st.run.found[source][file]
  {
    hide FactsOk, RegistryOk, SnapshotOk, RecordsBehind, Complete;
    assert FoundOk(world, st, st.run.output, source, st.run.found[source]);
    assert SeenOk(world, st, st.run.output, st.run.sources, st.run.found, file, st.run.seen[file]);
  }

  lemma KeepsPartition(world: World, st: State)
    requires Inv(world, st) && Step(world, st, Partition).Some?
    ensures Inv(world, Step(world, st, Partition).value)
  {
    hide SnapshotOk, FactsOk, RegistryOk, Complete, FoundOk, ParsedAsSeen, SeenOk, AtMost, RecordsBehind,
      NotOlderThanSeen, JudgedUpToDate;
    var next := Step(world, st, Partition).value;
    SameTables(world, st, next);
    match st.run
    case Observing(output, sources, force, found, seen) =>
      var stale := StaleSources(found, seen);
      if stale != {} {
        forall s <- sources - stale
          ensures s in FactsOf(st.facts, output) && ParsedAsSeen(FactsOf(st.facts, output)[s], seen)
        {
          UpToDateIsFresh(world, st, s);
        }
        SeenTimes(world, st, next);
        forall s <- next.run.read
          ensures SnapshotOk(world, next, s, next.run.read[s]) && NotOlderThanSeen(next.run.read[s], seen)
          ensures RecordsBehind(next.registry, output, next.run.read[s])
        {
          EmptySnapshot(world, next, s, output, seen);
        }
      }
  }

  lemma SeenTimes(world: World, st: State, next: State)
    requires RunOk(world, st) && st.run.Observing? && next == st.(run := next.run)
    ensures forall f <- st.run.seen | st.run.seen[f].mtime.Some? :: AtMost(next, f, st.run.seen[f].mtime.value)
  {
    hide FoundOk, Complete;
    forall f <- st.run.seen | st.run.seen[f].mtime.Some? ensures AtMost(next, f, st.run.seen[f].mtime.value) {
      assert SeenOk(world, st, st.run.output, st.run.sources, st.run.found, f, st.run.seen[f]);
    }
  }

  lemma EmptySnapshot(world: World, st: State, source: File, output: Output, seen: map<File, FileObservation>)
    ensures SnapshotOk(world, st, source, map[]) && NotOlderThanSeen(map[], seen)
    ensures RecordsBehind(st.registry, output, map[])
  {
  }

  lemma KeepsStart(world: World, st: State, output: Output, sources: set<File>, force: bool)
    requires Inv(world, st) && Step(world, st, Start(output, sources, force)).Some?
    requires Allowed(world, st, Start(output, sources, force))
    ensures Inv(world, Step(world, st, Start(output, sources, force)).value)
  {
    hide SnapshotOk, FactsOk, RegistryOk;
    var next := Step(world, st, Start(output, sources, force)).value;
    SameTables(world, st, next);
    forall s <- sources ensures FoundOk(world, next, output, s, map[]) {
      EmptySnapshot(world, next, s, output, map[]);
    }
  }

  lemma KeepsParse(world: World, st: State, source: File, file: File)
    requires Inv(world, st) && Step(world, st, Parse(source, file)).Some?
    ensures Inv(world, Step(world, st, Parse(source, file)).value)
  {
    hide SnapshotOk, FactsOk, RegistryOk, ParsedAsSeen;
    var next := Step(world, st, Parse(source, file)).value;
    SameTables(world, st, next);
    match st.run
    case Parsing(output, sources, found, seen, stale, read) =>
      ReadSnapshot(world, st, source, read[source], file);
      ReadNow(world, st, output, read[source], file);
      forall s <- next.run.read
        ensures SnapshotOk(world, next, s, next.run.read[s])
      {
        SameSnapshot(world, st, next, s, next.run.read[s]);
      }
      assert NotOlderThanSeen(next.run.read[source], seen);
  }

  lemma KeepsCommit(world: World, st: State)
    requires Inv(world, st) && Step(world, st, Commit).Some?
    ensures Inv(world, Step(world, st, Commit).value)
  {
    var next := Step(world, st, Commit).value;
    CommitFacts(world, st, next);
    CommitSeen(world, st, next);
    hide FactsOk, RegistryOk, NotOlderThanSeen, AtMost;
    assert RunOk(world, next);
  }

  lemma CommitSeen(world: World, st: State, next: State)
    requires RunOk(world, st) && Step(world, st, Commit) == Some(next)
    ensures next.run.Recording? && next.run.output in next.facts && next.run.records == map[] &&
            next.run.output in world.selection && next.run.output != ""
    ensures next.run.output in st.facts ==> st.facts[next.run.output].Keys <= world.selection[next.run.output] ==>
            next.facts[next.run.output].Keys == world.selection[next.run.output]
    ensures next.run.output !in st.facts ==>
            next.facts[next.run.output].Keys == world.selection[next.run.output]
    ensures forall s <- next.facts[next.run.output] :: s in world.selection[next.run.output] ==>
            NotOlderThanSeen(next.facts[next.run.output][s], next.run.seen)
    ensures forall f <- next.run.seen | next.run.seen[f].mtime.Some? :: AtMost(next, f, next.run.seen[f].mtime.value)
  {
    hide SnapshotOk, RecordsBehind, Complete;
    match st.run
    case Parsing(output, sources, found, seen, stale, read) =>
      var before := FactsOf(st.facts, output);
      forall s <- next.facts[output] | s in sources ensures NotOlderThanSeen(next.facts[output][s], seen) {
        if s !in read {
          assert ParsedAsSeen(before[s], seen);
        }
      }
  }

  lemma CommitFacts(world: World, st: State, next: State)
    requires Inv(world, st) && Step(world, st, Commit) == Some(next)
    ensures FactsOk(world, next) && RegistryOk(world, next)
  {
    hide Rooted, AtMost;
    forall o <- next.facts, s <- next.facts[o]
      ensures SnapshotOk(world, next, s, next.facts[o][s]) && Complete(world, s, next.facts[o][s]) &&
              RecordsBehind(next.registry, o, next.facts[o][s])
    {
      var snapshot := next.facts[o][s];
      if o == st.run.output && s in st.run.read {
        assert SnapshotOk(world, st, s, snapshot);
      } else {
        assert snapshot == st.facts[o][s];
        assert SnapshotOk(world, st, s, snapshot);
      }
      TablesSnapshot(world, st, next, s, snapshot);
    }
    assert forall f <- next.registry | next.registry[f].mtime.Some? ::
      AtMost(next, f, next.registry[f].mtime.value) by {
      forall f <- next.registry | next.registry[f].mtime.Some? ensures AtMost(next, f, next.registry[f].mtime.value) {
        SameAtMost(st, next, f, next.registry[f].mtime.value);
      }
    }
  }

  lemma TablesSnapshot(world: World, st: State, next: State, source: File, snapshot: Snapshot)
    requires SnapshotOk(world, st, source, snapshot) && next.disk == st.disk && next.clock == st.clock
    ensures SnapshotOk(world, next, source, snapshot)
  {
    hide Rooted;
  }

  lemma SameAtMost(st: State, next: State, file: File, version: Time)
    requires AtMost(st, file, version) && next.disk == st.disk && next.clock == st.clock
    ensures AtMost(next, file, version)
  {
  }

  lemma KeepsPrepare(world: World, st: State, file: File)
    requires Inv(world, st) && Step(world, st, Prepare(file)).Some? && Allowed(world, st, Prepare(file))
    ensures Inv(world, Step(world, st, Prepare(file)).value)
  {
    hide FactsOk, RegistryOk, NotOlderThanSeen;
    SameTables(world, st, Step(world, st, Prepare(file)).value);
    PreparedExactly(world, st, file);
    hide SafeRecord, UneditedSinceParse;
  }

  /** The record prepared in one step is safe exactly if the file was observed before the parse, or has not been
      edited since. */
  lemma PreparedExactly(world: World, st: State, file: File)
    requires Inv(world, st) && Step(world, st, Prepare(file)).Some?
    ensures
      var facts := FactsOf(st.facts, st.run.output);
      var record := Step(world, st, Prepare(file)).value.run.records[file];
      (SafeRecord(facts, file, record) <==>
        WasObserved(st.run.seen, file) || UneditedSinceParse(st, facts, file)) &&
      record.mtime.Some? && AtMost(st, file, record.mtime.value)
  {
    hide RegistryOk, Rooted, Complete;
    var facts, seen := FactsOf(st.facts, st.run.output), st.run.seen;
    if WasObserved(seen, file) {
      forall s <- facts | file in facts[s] ensures seen[file].mtime.value <= facts[s][file] {
        assert NotOlderThanSeen(facts[s], seen);
      }
    } else {
      forall s <- facts | file in facts[s] ensures facts[s][file] <= st.disk[file] {
        assert SnapshotOk(world, st, s, facts[s]);
      }
    }
  }

  lemma MarkedBehind(st: State, registry: Registry, output: Output, source: File)
    requires st.run.Recording? && registry == st.registry + st.run.records
    requires forall f <- st.run.records :: RecordOk(st, st.run.output, f, st.run.records[f])
    requires output in st.facts && source in st.facts[output]
    requires RecordsBehind(st.registry, output, st.facts[output][source])
    ensures RecordsBehind(registry, output, st.facts[output][source])
  {
    hide AtMost;
  }

  lemma KeepsMark(world: World, st: State)
    requires Inv(world, st) && Step(world, st, Mark).Some?
    ensures Inv(world, Step(world, st, Mark).value)
  {
    hide Rooted, Complete, IsRoute;
    var next := Step(world, st, Mark).value;
    var output := st.run.output;
    forall o <- next.facts, s <- next.facts[o]
      ensures SnapshotOk(world, next, s, next.facts[o][s]) && RecordsBehind(next.registry, o, next.facts[o][s])
    {
      assert SnapshotOk(world, st, s, st.facts[o][s]) && RecordsBehind(st.registry, o, st.facts[o][s]);
      TablesSnapshot(world, st, next, s, st.facts[o][s]);
      MarkedBehind(st, next.registry, o, s);
    }
  }

  /** Every possible step keeps the invariant. */
  lemma KeepsInv(world: World, st: State, event: Event)
    requires Inv(world, st) && Allowed(world, st, event) && Step(world, st, event).Some?
    ensures Inv(world, Step(world, st, event).value)
  {
    hide Inv, Allowed;
    match event
    case Edit(_) => KeepsSurroundings(world, st, event);
    case Delete(_) => KeepsSurroundings(world, st, event);
    case GitCommit(_, _) => KeepsSurroundings(world, st, event);
    case ClearIndexState(_) => KeepsSurroundings(world, st, event);
    case Start(output, sources, force) => KeepsStart(world, st, output, sources, force);
    case Discover(source, file) => KeepsDiscover(world, st, source, file);
    case FinishDiscovery => KeepsFinishDiscovery(world, st);
    case Observe(file, unavailable) => KeepsObserve(world, st, file, unavailable);
    case Partition => KeepsPartition(world, st);
    case Parse(source, file) => KeepsParse(world, st, source, file);
    case Commit => KeepsCommit(world, st);
    case Prepare(file) => KeepsPrepare(world, st, file);
    case Mark => KeepsMark(world, st);
    case Abandon => KeepsAbandon(world, st);
  }

  lemma KeepsAbandon(world: World, st: State)
    requires Inv(world, st)
    ensures Inv(world, st.(run := Idle))
  {
    hide FactsOk, RegistryOk;
    SameTables(world, st, st.(run := Idle));
  }

  // ----- whole runs -----

  /** Every event of the sequence is possible and allowed where it happens. */
  ghost predicate AllowedTrace(world: World, st: State, events: seq<Event>)
    decreases |events|
  {
    events == [] ||
    (Allowed(world, st, events[0]) && Step(world, st, events[0]).Some? &&
     AllowedTrace(world, Step(world, st, events[0]).value, events[1..]))
  }

  lemma {:induction false} TraceInv(world: World, st: State, events: seq<Event>)
    requires Inv(world, st) && AllowedTrace(world, st, events)
    ensures Trace(world, st, events).Some? && Inv(world, Trace(world, st, events).value)
    decreases |events|
  {
    hide Inv, Allowed, Step;
    if events != [] {
      KeepsInv(world, st, events[0]);
      TraceInv(world, Step(world, st, events[0]).value, events[1..]);
    }
  }

  /** Over every run of edits, deletions, git commits, wiped index states and extractions, a source judged
      up to date has committed facts that were parsed from exactly the versions the judging run discovered
      and observed; what is on disk now is never older. */
  lemma JudgedFreshIsFresh(world: World, events: seq<Event>, st: State, source: File)
    requires AllowedTrace(world, EMPTY, events) && Trace(world, EMPTY, events) == Some(st)
    requires st.run.Observing? && AllSeen(st.run.found, st.run.seen)
    requires source in st.run.sources && source in st.run.found && JudgedUpToDate(st.run.found, st.run.seen, source)
    ensures source in FactsOf(st.facts, st.run.output)
    ensures var parsed := FactsOf(st.facts, st.run.output)[source];
      parsed == st.run.found[source] && ParsedAsSeen(parsed, st.run.seen) &&
      forall f <- parsed | f in st.disk :: parsed[f] <= st.disk[f]
  {
    hide Step;
    TraceInv(world, EMPTY, events);
    UpToDateIsFresh(world, st, source);
    assert FoundOk(world, st, st.run.output, source, st.run.found[source]);
  }

  // ----- exactly when recording is safe -----

  predicate Surroundings(events: seq<Event>) {
    forall e <- events :: e.Edit? || e.Delete? || e.GitCommit? || e.ClearIndexState?
  }

  lemma {:induction false} SurroundingsKeep(world: World, st: State, events: seq<Event>)
    requires Inv(world, st) && Surroundings(events)
    ensures Trace(world, st, events).Some?
    ensures var next := Trace(world, st, events).value;
      Inv(world, next) && next.run == st.run && next.facts == st.facts
    decreases |events|
  {
    hide Inv;
    if events != [] {
      KeepsSurroundings(world, st, events[0]);
      SurroundingsKeep(world, Step(world, st, events[0]).value, events[1..]);
    }
  }

  predicate Parsed(facts: map<File, Snapshot>, file: File) {
    exists s <- facts :: file in facts[s]
  }

  /** The record that preparing the file writes after the events, if it can be prepared then. */
  function RecordAfter(world: World, st: State, events: seq<Event>, file: File): Option<IndexState> {
    match Trace(world, st, events)
    case None => None
    case Some(next) =>
      match Step(world, next, Prepare(file))
      case Some(State(_, _, _, _, _, Recording(_, _, _, records))) =>
        if file in records then Some(records[file]) else None
      case _ => None
  }

  ghost predicate AlwaysSafe(world: World, st: State, facts: map<File, Snapshot>, file: File) {
    forall events | Surroundings(events) && RecordAfter(world, st, events, file).Some? ::
      SafeRecord(facts, file, RecordAfter(world, st, events, file).value)
  }

  /** Once facts are committed, the record of a marked file is safe whatever happens to files before it is
      prepared, exactly when the file was observed before the parse (so that no fresh stat is taken) or no
      parse has read it. */
  lemma SafeExactlyWhenObserved(world: World, st: State, file: File)
    requires Inv(world, st) && st.run.Recording? && file in st.run.marks && file !in st.run.records
    ensures AlwaysSafe(world, st, st.facts[st.run.output], file) <==>
      WasObserved(st.run.seen, file) || !Parsed(st.facts[st.run.output], file)
  {
    var facts, seen := st.facts[st.run.output], st.run.seen;
    if WasObserved(seen, file) || !Parsed(facts, file) {
      forall events | Surroundings(events) && RecordAfter(world, st, events, file).Some?
        ensures SafeRecord(facts, file, RecordAfter(world, st, events, file).value)
      {
        SurroundingsKeep(world, st, events);
        ObservedRecord(world, st, events, file);
      }
    } else {
      UnobservedRecord(world, st, file);
    }
  }

  lemma ObservedRecord(world: World, st: State, events: seq<Event>, file: File)
    requires Inv(world, st) && st.run.Recording? && file in st.run.marks && file !in st.run.records
    requires Trace(world, st, events).Some? && Trace(world, st, events).value.run == st.run
    requires WasObserved(st.run.seen, file) || !Parsed(st.facts[st.run.output], file)
    requires RecordAfter(world, st, events, file).Some?
    ensures SafeRecord(st.facts[st.run.output], file, RecordAfter(world, st, events, file).value)
  {
    hide Trace, FactsOk, RegistryOk, AtMost;
    var facts := st.facts[st.run.output];
    forall s <- facts | file in facts[s] ensures st.run.seen[file].mtime.value <= facts[s][file] {
      assert NotOlderThanSeen(facts[s], st.run.seen);
    }
  }

  lemma UnobservedRecord(world: World, st: State, file: File)
    requires Inv(world, st) && st.run.Recording? && file in st.run.marks && file !in st.run.records
    requires !WasObserved(st.run.seen, file) && Parsed(st.facts[st.run.output], file)
    ensures !AlwaysSafe(world, st, st.facts[st.run.output], file)
  {
    hide RegistryOk, Rooted, Complete;
    var facts := st.facts[st.run.output];
    var next := st.(clock := st.clock + 1, disk := st.disk[file := st.clock + 1]);
    var events := [Edit(file)];
    assert events[1..] == [];
    assert Step(world, st, Edit(file)) == Some(next);
    assert Trace(world, next, []) == Some(next);
    assert Trace(world, st, events) == Some(next);
    assert RecordedMtime(next, st.run.seen, file) == Some(st.clock + 1);
    var record := RecordAfter(world, st, events, file);
    assert record.Some? && record.value.mtime == Some(st.clock + 1);
    var s :| s in facts && file in facts[s];
    assert SnapshotOk(world, st, s, facts[s]);
    assert !SafeRecord(facts, file, record.value);
  }

  // ----- a run that nothing disturbs leaves nothing to do -----

  /** The file row says what a run into the output would observe now. */
  predicate RowFresh(st: State, output: Output, file: File) {
    file in st.disk &&
    RowOf(st, file) == IndexState(true, output, GitOf(st, file), Some(st.disk[file]))
  }

  predicate Current(st: State, snapshot: Snapshot) {
    forall f <- snapshot :: f in st.disk && st.disk[f] == snapshot[f]
  }

  /** Every selected source has facts of the versions on disk, and every file of its closure a fresh row. */
  ghost predicate Settled(world: World, st: State, output: Output) {
    output != "" && output in world.selection &&
    forall s <- world.selection[output] ::
      s in FactsOf(st.facts, output) && Current(st, FactsOf(st.facts, output)[s]) &&
      forall f <- FactsOf(st.facts, output)[s] :: RowFresh(st, output, f)
  }

  /** A step of the run itself that neither gives up nor fails to read a file row. */
  predicate Undisturbed(event: Event) {
    match event
    case Edit(_) => false
    case Delete(_) => false
    case GitCommit(_, _) => false
    case ClearIndexState(_) => false
    case Abandon => false
    case Observe(_, unavailable) => !unavailable
    case _ => true
  }

  ghost predicate Closed(world: World, st: State, source: File, snapshot: Snapshot) {
    Rooted(world, snapshot, source) && Complete(world, source, snapshot) && Current(st, snapshot)
  }

  lemma ClosedOnce(world: World, st: State, source: File, left: Snapshot, right: Snapshot)
    requires Closed(world, st, source, left) && Closed(world, st, source, right)
    ensures left == right
  {
    hide Rooted, Complete;
    SameClosure(world, left, right, source);
  }

  /** What holds while nothing disturbs the run: everything read and seen is still so. */
  ghost predicate Quiet(world: World, st: State, output: Output) {
    match st.run
    case Idle => Settled(world, st, output)
    case Discovering(o, _, _, found) => o == output && forall s <- found :: Current(st, found[s])
    case Observing(o, _, force, found, seen) =>
      && o == output
      && (forall s <- found :: Closed(world, st, s, found[s]))
      && (forall f <- seen :: seen[f] == CheckFile(st, output, force, f, false))
    case Parsing(o, _, found, seen, stale, read) =>
      && o == output
      && (forall s <- found :: Closed(world, st, s, found[s]))
      && (forall f <- seen :: seen[f].mtime == MtimeOf(st, f))
      && (forall s <- found.Keys - stale ::
            FreshSource(st, output, s, found[s]))
      && (forall s <- read :: Current(st, read[s]))
    case Recording(o, seen, marks, records) =>
      && o == output
      && (forall f <- seen :: seen[f].mtime == MtimeOf(st, f))
      && (forall s <- FactsOf(st.facts, output) ::
            Current(st, FactsOf(st.facts, output)[s]) &&
            forall f <- FactsOf(st.facts, output)[s] :: f in marks || RowFresh(st, output, f))
      && (forall f <- records | f in st.disk ::
            records[f] == IndexState(true, output, GitOf(st, f), Some(st.disk[f])))
  }

  ghost predicate FreshSource(st: State, output: Output, source: File, snapshot: Snapshot) {
    source in FactsOf(st.facts, output) && FactsOf(st.facts, output)[source] == snapshot &&
    forall f <- snapshot :: RowFresh(st, output, f)
  }

  lemma QuietFresh(world: World, st: State, output: Output, source: File)
    requires Inv(world, st) && Quiet(world, st, output) && st.run.Observing?
    requires AllSeen(st.run.found, st.run.seen) && source in st.run.sources
    requires JudgedUpToDate(st.run.found, st.run.seen, source)
    ensures FreshSource(st, output, source, st.run.found[source])
  {
    hide Inv;
    SourceKnown(world, st, source);
    UpToDateIsFresh(world, st, source);
    forall f <- st.run.found[source] ensures RowFresh(st, output, f) {
      RowOfJudged(st, output, st.run.force, f, st.run.seen[f]);
    }
  }

  lemma SourceKnown(world: World, st: State, source: File)
    requires Inv(world, st) && st.run.Observing? && source in st.run.sources
    ensures source in st.run.found
  {
  }

  lemma RowOfJudged(st: State, output: Output, force: bool, file: File, seen: FileObservation)
    requires seen == CheckFile(st, output, force, file, false) && seen.reason.None?
    ensures RowFresh(st, output, file)
  {
  }

  lemma QuietPartition(world: World, st: State, output: Output)
    requires Inv(world, st) && Quiet(world, st, output) && Step(world, st, Partition).Some?
    ensures Quiet(world, Step(world, st, Partition).value, output)
  {
    match st.run
    case Observing(_, sources, force, found, seen) =>
      var stale := StaleSources(found, seen);
      assert Selected(world, output, sources) && found.Keys == sources;
      forall s <- sources - stale ensures FreshSource(st, output, s, found[s]) && Closed(world, st, s, found[s]) {
        QuietFresh(world, st, output, s);
      }
      QuietPartitioned(world, st, output, stale);
  }

  lemma QuietPartitioned(world: World, st: State, output: Output, stale: set<File>)
    requires Quiet(world, st, output) && Step(world, st, Partition).Some?
    requires st.run.Observing? && stale == StaleSources(st.run.found, st.run.seen)
    requires Selected(world, output, st.run.sources) && st.run.found.Keys == st.run.sources
    requires forall s <- st.run.sources - stale ::
      FreshSource(st, output, s, st.run.found[s]) && Closed(world, st, s, st.run.found[s])
    ensures Quiet(world, Step(world, st, Partition).value, output)
  {
    hide Closed, JudgedUpToDate, CheckFile, FreshSource, Settled, Complete, Current, RowFresh;
    PartitionStep(world, st);
    hide Step;
    var next := Step(world, st, Partition).value;
    var found, seen := st.run.found, st.run.seen;
    if stale == {} {
      SettledFromFresh(world, st, output);
    } else {
      forall f <- seen ensures seen[f].mtime == MtimeOf(next, f) {
        CheckedMtime(st, next, output, st.run.force, f);
      }
      forall s <- found ensures Closed(world, next, s, found[s]) {
        ClosedKept(world, st, next, s, found[s]);
      }
      forall s <- st.run.sources - stale ensures FreshSource(next, output, s, found[s]) {
        FreshSourceKept(st, next, output, s, found[s]);
      }
      NothingCurrent(next);
    }
  }

  lemma PartitionStep(world: World, st: State)
    requires st.run.Observing? && Step(world, st, Partition).Some?
    ensures AllSeen(st.run.found, st.run.seen)
    ensures var next, stale := Step(world, st, Partition).value, StaleSources(st.run.found, st.run.seen);
      next == st.(run := next.run) &&
      if stale == {} then next.run == Idle
      else next.run.Parsing? && next.run.output == st.run.output && next.run.found == st.run.found &&
           next.run.seen == st.run.seen && next.run.stale == stale &&
           forall s <- next.run.read :: next.run.read[s] == map[]
  {
  }

  lemma SettledFromFresh(world: World, st: State, output: Output)
    requires st.run.Observing? && Selected(world, output, st.run.sources) && st.run.found.Keys == st.run.sources
    requires forall s <- st.run.sources ::
      FreshSource(st, output, s, st.run.found[s]) && Closed(world, st, s, st.run.found[s])
    ensures Settled(world, st.(run := Idle), output)
  {
    hide Rooted, Complete;
  }

  lemma CheckedMtime(st: State, next: State, output: Output, force: bool, file: File)
    requires next == st.(run := next.run)
    ensures CheckFile(st, output, force, file, false).mtime == MtimeOf(next, file)
  {
  }

  lemma ClosedKept(world: World, st: State, next: State, source: File, snapshot: Snapshot)
    requires Closed(world, st, source, snapshot) && next == st.(run := next.run)
    ensures Closed(world, next, source, snapshot)
  {
    hide Rooted, Complete;
  }

  lemma NothingCurrent(st: State)
    ensures Current(st, map[])
  {
  }

  lemma FreshSourceKept(st: State, next: State, output: Output, source: File, snapshot: Snapshot)
    requires FreshSource(st, output, source, snapshot) && next == st.(run := next.run)
    ensures FreshSource(next, output, source, snapshot)
  {
  }

  lemma QuietCommit(world: World, st: State, output: Output)
    requires Inv(world, st) && Quiet(world, st, output) && Step(world, st, Commit).Some?
    ensures Quiet(world, Step(world, st, Commit).value, output)
  {
    hide FactsOk, RegistryOk, SnapshotOk, Complete, RecordsBehind, NotOlderThanSeen, ParsedAsSeen, AtMost, Current,
      RowFresh, FreshSource, Closed;
    var next := Step(world, st, Commit).value;
    forall s <- FactsOf(next.facts, output)
      ensures Current(next, next.facts[output][s])
      ensures forall f <- next.facts[output][s] :: f in next.run.marks || RowFresh(next, output, f)
    {
      QuietCommitted(world, st, output, s);
    }
  }

  /** A source parsed in this run was parsed at the versions on disk, and all its files are marked; any other has
      fresh rows. */
  lemma QuietCommitted(world: World, st: State, output: Output, source: File)
    requires Inv(world, st) && Quiet(world, st, output) && Step(world, st, Commit).Some?
    requires var next := Step(world, st, Commit).value; source in FactsOf(next.facts, output)
    ensures var next := Step(world, st, Commit).value;
      Current(next, next.facts[output][source]) &&
      forall f <- next.facts[output][source] :: f in next.run.marks || RowFresh(next, output, f)
  {
    hide FactsOk, RegistryOk, Rooted, Complete, SnapshotOk, RecordsBehind, NotOlderThanSeen, ParsedAsSeen, AtMost,
      Current, RowFresh, Step;
    CommitStep(world, st);
    assert Selected(world, output, st.run.sources) && st.run.found.Keys == st.run.sources;
    if source in FactsOf(st.facts, output) {
      SelectedFacts(world, st, output, source);
    }
    assert st.run.read.Keys == st.run.stale && Closed(world, st, source, st.run.found[source]);
    var next := Step(world, st, Commit).value;
    if source in st.run.stale {
      ReadClosed(world, st, output, source);
    } else {
      assert FreshSource(st, output, source, st.run.found[source]);
    }
    CommittedSource(st, next, output, source, st.run.found, st.run.stale);
  }

  lemma SelectedFacts(world: World, st: State, output: Output, source: File)
    requires FactsOk(world, st) && source in FactsOf(st.facts, output)
    ensures output in world.selection && source in world.selection[output]
  {
  }

  lemma CommittedSource(st: State, next: State, output: Output, source: File, found: map<File, Snapshot>,
                        stale: set<File>)
    requires next == st.(facts := next.facts, run := next.run) && next.run.Recording? && stale <= found.Keys
    requires next.run.marks == Marks(found, stale) && source in found && Current(st, found[source])
    requires source in stale || FreshSource(st, output, source, found[source])
    ensures Current(next, found[source])
    ensures forall f <- found[source] :: f in next.run.marks || RowFresh(next, output, f)
  {
  }

  lemma CommitStep(world: World, st: State)
    requires Step(world, st, Commit).Some?
    ensures st.run.Parsing? && st.run.stale <= st.run.found.Keys
    ensures forall s <- st.run.read :: Complete(world, s, st.run.read[s])
    ensures var next := Step(world, st, Commit).value;
      next == st.(facts := next.facts, run := next.run) && next.run.Recording? &&
      FactsOf(next.facts, st.run.output) == FactsOf(st.facts, st.run.output) + st.run.read &&
      next.run.output == st.run.output && next.run.seen == st.run.seen && next.run.records == map[] &&
      next.run.marks == Marks(st.run.found, st.run.stale)
  {
    hide Complete;
  }

  /** The parse read what discovery read, and that is what is on disk. */
  lemma ReadClosed(world: World, st: State, output: Output, source: File)
    requires Inv(world, st) && Quiet(world, st, output) && st.run.Parsing? && source in st.run.stale
    requires source in st.run.read && Complete(world, source, st.run.read[source]) && source in st.run.found
    ensures st.run.read[source] == st.run.found[source] && Current(st, st.run.read[source])
  {
    hide FactsOk, RegistryOk, Rooted, RecordsBehind, NotOlderThanSeen, ParsedAsSeen, Complete;
    assert SnapshotOk(world, st, source, st.run.read[source]);
    assert Closed(world, st, source, st.run.found[source]);
    ClosedOnce(world, st, source, st.run.found[source], st.run.read[source]);
  }

  lemma QuietDiscovery(world: World, st: State, output: Output)
    requires Inv(world, st) && Quiet(world, st, output) && Step(world, st, FinishDiscovery).Some?
    ensures Quiet(world, Step(world, st, FinishDiscovery).value, output)
  {
    hide FactsOk, RegistryOk, Rooted, Complete;
    forall s <- st.run.found ensures Rooted(world, st.run.found[s], s) {
      assert FoundOk(world, st, output, s, st.run.found[s]);
    }
  }

  lemma QuietMark(world: World, st: State, output: Output)
    requires Inv(world, st) && Quiet(world, st, output) && Step(world, st, Mark).Some?
    ensures Settled(world, Step(world, st, Mark).value, output)
  {
    hide FactsOk, RegistryOk, NotOlderThanSeen, AtMost;
  }

  lemma QuietStep(world: World, st: State, output: Output, event: Event)
    requires Inv(world, st) && Quiet(world, st, output) && Step(world, st, event).Some?
    requires Undisturbed(event) && (event.Start? ==> event.output == output)
    ensures Quiet(world, Step(world, st, event).value, output)
  {
    match event
    case Partition => QuietPartition(world, st, output);
    case Commit => QuietCommit(world, st, output);
    case FinishDiscovery => QuietDiscovery(world, st, output);
    case Mark => QuietMark(world, st, output);
    case Observe(file, _) => QuietObserve(world, st, output, file);
    case Prepare(file) => QuietPrepare(world, st, output, file);
    case Start(_, sources, force) => QuietStart(world, st, output, sources, force);
    case Discover(source, file) => QuietDiscover(world, st, output, source, file);
    case Parse(source, file) => QuietParse(world, st, output, source, file);
    case _ => assert false;
  }

  lemma QuietObserve(world: World, st: State, output: Output, file: File)
    requires Quiet(world, st, output) && Step(world, st, Observe(file, false)).Some?
    ensures Quiet(world, Step(world, st, Observe(file, false)).value, output)
  {
    hide Rooted, Complete, StaleReason;
  }

  lemma QuietPrepare(world: World, st: State, output: Output, file: File)
    requires Quiet(world, st, output) && Step(world, st, Prepare(file)).Some?
    ensures Quiet(world, Step(world, st, Prepare(file)).value, output)
  {
  }

  lemma QuietStart(world: World, st: State, output: Output, sources: set<File>, force: bool)
    requires Step(world, st, Start(output, sources, force)).Some?
    ensures Quiet(world, Step(world, st, Start(output, sources, force)).value, output)
  {
    hide Settled, Closed, FreshSource, Complete;
  }

  lemma QuietDiscover(world: World, st: State, output: Output, source: File, file: File)
    requires Quiet(world, st, output) && Step(world, st, Discover(source, file)).Some?
    ensures Quiet(world, Step(world, st, Discover(source, file)).value, output)
  {
    hide Settled, Closed, FreshSource, Complete, MayRead;
  }

  lemma QuietParse(world: World, st: State, output: Output, source: File, file: File)
    requires Quiet(world, st, output) && Step(world, st, Parse(source, file)).Some?
    ensures Quiet(world, Step(world, st, Parse(source, file)).value, output)
  {
    hide Settled, Complete, MayRead, Rooted;
  }

  lemma {:induction false} QuietTrace(world: World, st: State, output: Output, events: seq<Event>)
    requires Inv(world, st) && Quiet(world, st, output) && AllowedTrace(world, st, events)
    requires forall e <- events :: Undisturbed(e) && (e.Start? ==> e.output == output)
    ensures Trace(world, st, events).Some?
    ensures Inv(world, Trace(world, st, events).value) && Quiet(world, Trace(world, st, events).value, output)
    decreases |events|
  {
    hide Inv, Quiet, Step, Allowed;
    if events != [] {
      KeepsInv(world, st, events[0]);
      QuietStep(world, st, output, events[0]);
      QuietTrace(world, Step(world, st, events[0]).value, output, events[1..]);
    }
  }

  /** From any reachable state between runs, a run that nothing disturbs ends with every source settled:
      marked files, skipped sources and all. */
  lemma UndisturbedRunSettles(world: World, st: State, output: Output, force: bool, events: seq<Event>)
    requires Inv(world, st) && st.run.Idle?
    requires output in world.selection
    requires AllowedTrace(world, st, [Start(output, world.selection[output], force)] + events)
    requires forall e <- events :: Undisturbed(e) && (e.Start? ==> e.output == output)
    requires var last := Trace(world, st, [Start(output, world.selection[output], force)] + events);
      last.Some? && last.value.run.Idle?
    ensures Settled(world, Trace(world, st, [Start(output, world.selection[output], force)] + events).value, output)
  {
    hide Inv, Settled;
    var start := Start(output, world.selection[output], force);
    assert ([start] + events)[1..] == events;
    KeepsInv(world, st, start);
    QuietTrace(world, Step(world, st, start).value, output, events);
  }

  /** When every source is settled, a run that nothing disturbs and that is not forced judges every source
      up to date. */
  lemma SettledMeansNothingStale(world: World, st: State, output: Output, events: seq<Event>)
    requires Inv(world, st) && st.run.Idle? && Settled(world, st, output)
    requires AllowedTrace(world, st, [Start(output, world.selection[output], false)] + events)
    requires forall e <- events :: Undisturbed(e) && !e.Start? && !e.Commit? && !e.Mark?
    requires var last := Trace(world, st, [Start(output, world.selection[output], false)] + events);
      last.Some? && last.value.run.Observing? && AllSeen(last.value.run.found, last.value.run.seen)
    ensures var last := Trace(world, st, [Start(output, world.selection[output], false)] + events).value;
      StaleSources(last.run.found, last.run.seen) == {}
  {
    var start := Start(output, world.selection[output], false);
    var first := Step(world, st, start).value;
    assert ([start] + events)[1..] == events;
    KeepsInv(world, st, start);
    QuietTrace(world, first, output, events);
    Unchanged(world, first, events);
    var last := Trace(world, first, events).value;
    assert Settled(world, last.(run := Idle), output);
    NothingStale(world, last, output);
  }

  /** Still on the way to judging, and not forced. */
  predicate Unforced(run: Run) {
    match run
    case Discovering(_, _, force, _) => !force
    case Observing(_, _, force, _, _) => !force
    case _ => true
  }

  lemma UnchangedStep(world: World, st: State, event: Event)
    requires Undisturbed(event) && !event.Start? && !event.Commit? && !event.Mark? && Step(world, st, event).Some?
    ensures var next := Step(world, st, event).value;
      next == st.(run := next.run) && (Unforced(st.run) ==> Unforced(next.run))
  {
    hide Complete, MayRead, CheckFile, StaleSources, Marks, RecordedMtime;
  }

  /** Before a commit, undisturbed steps change nothing but the run. */
  lemma {:induction false} Unchanged(world: World, st: State, events: seq<Event>)
    requires forall e <- events :: Undisturbed(e) && !e.Start? && !e.Commit? && !e.Mark?
    requires Trace(world, st, events).Some?
    ensures var last := Trace(world, st, events).value;
      last == st.(run := last.run) && (Unforced(st.run) ==> Unforced(last.run))
    decreases |events|
  {
    hide Step;
    if events != [] {
      assert events[0] in events;
      UnchangedStep(world, st, events[0]);
      Unchanged(world, Step(world, st, events[0]).value, events[1..]);
    }
  }

  lemma NothingStale(world: World, st: State, output: Output)
    requires Inv(world, st) && Quiet(world, st, output) && st.run.Observing? && !st.run.force
    requires Settled(world, st.(run := Idle), output)
    requires AllSeen(st.run.found, st.run.seen)
    ensures StaleSources(st.run.found, st.run.seen) == {}
  {
    hide RegistryOk, Rooted, Complete, SeenOk, FoundOk;
    forall s <- st.run.found ensures JudgedUpToDate(st.run.found, st.run.seen, s) {
      var parsed := FactsOf(st.facts, output)[s];
      assert SnapshotOk(world, st, s, parsed);
      assert Closed(world, st, s, parsed) && Closed(world, st, s, st.run.found[s]);
      ClosedOnce(world, st, s, parsed, st.run.found[s]);
      forall f <- st.run.found[s] ensures st.run.seen[f].reason.None? {
        assert RowFresh(st.(run := Idle), output, f);
        assert st.run.seen[f] == CheckFile(st, output, false, f, false);
      }
    }
  }

  // ----- what goes wrong when a marked file was not observed -----

  lemma {:induction false} TraceConcat(world: World, st: State, first: seq<Event>, second: seq<Event>)
    requires Trace(world, st, first).Some?
    ensures Trace(world, st, first + second) == Trace(world, Trace(world, st, first).value, second)
    decreases |first|
  {
    hide Step;
    if first == [] {
      assert first + second == second;
    } else {
      assert (first + second)[1..] == first[1..] + second;
      TraceConcat(world, Step(world, st, first[0]).value, first[1..], second);
    }
  }

  lemma TwoSteps(world: World, st: State, one: Event, next: State, two: Event, last: State)
    requires Step(world, st, one) == Some(next) && Step(world, next, two) == Some(last)
    ensures Trace(world, st, [one, two]) == Some(last)
  {
    hide Step;
    assert [one, two][1..] == [two] && [two][1..] == [];
    assert Trace(world, last, []) == Some(last);
    assert Trace(world, next, [two]) == Some(last);
  }

  /** A judgement that is wrong: the source counts as up to date with facts of another version. */
  predicate WronglyFresh(st: State, source: File) {
    st.run.Observing? && AllSeen(st.run.found, st.run.seen) && source in st.run.found &&
    JudgedUpToDate(st.run.found, st.run.seen, source) &&
    source in FactsOf(st.facts, st.run.output) && FactsOf(st.facts, st.run.output)[source] != st.run.found[source]
  }

  /** On the way to judging: what discovery reads is reached from its source and on disk, and files are checked as they
      are. */
  ghost predicate Looking(world: World, st: State, output: Output) {
    match st.run
    case Discovering(o, _, force, found) =>
      o == output && !force && forall s <- found :: Rooted(world, found[s], s) && Current(st, found[s])
    case Observing(o, _, force, found, seen) =>
      o == output && !force && (forall s <- found :: Closed(world, st, s, found[s])) &&
      forall f <- seen :: seen[f] == CheckFile(st, output, false, f, false)
    case _ => true
  }

  lemma LookingStep(world: World, st: State, output: Output, event: Event)
    requires Looking(world, st, output) && Step(world, st, event).Some?
    requires Undisturbed(event) && !event.Start? && !event.Commit? && !event.Mark?
    ensures Looking(world, Step(world, st, event).value, output)
  {
    match event
    case Discover(source, file) => LookingDiscover(world, st, output, source, file);
    case FinishDiscovery => LookingFinish(world, st, output);
    case Observe(file, _) => LookingObserve(world, st, output, file);
    case _ => hide Rooted, Complete, CheckFile, MayRead;
  }

  lemma LookingDiscover(world: World, st: State, output: Output, source: File, file: File)
    requires Looking(world, st, output) && Step(world, st, Discover(source, file)).Some?
    ensures Looking(world, Step(world, st, Discover(source, file)).value, output)
  {
    RootedRead(world, st.run.found[source], source, file, st.disk[file]);
    hide Rooted, MayRead;
  }

  lemma LookingFinish(world: World, st: State, output: Output)
    requires Looking(world, st, output) && Step(world, st, FinishDiscovery).Some?
    ensures Looking(world, Step(world, st, FinishDiscovery).value, output)
  {
    hide Rooted, Complete;
  }

  lemma LookingObserve(world: World, st: State, output: Output, file: File)
    requires Looking(world, st, output) && Step(world, st, Observe(file, false)).Some?
    ensures Looking(world, Step(world, st, Observe(file, false)).value, output)
  {
    hide Rooted, Complete, StaleReason;
  }

  lemma {:induction false} LookingTrace(world: World, st: State, output: Output, events: seq<Event>)
    requires Looking(world, st, output) && Trace(world, st, events).Some?
    requires forall e <- events :: Undisturbed(e) && !e.Start? && !e.Commit? && !e.Mark?
    ensures Looking(world, Trace(world, st, events).value, output)
    decreases |events|
  {
    hide Looking, Step;
    if events != [] {
      assert events[0] in events;
      LookingStep(world, st, output, events[0]);
      LookingTrace(world, Step(world, st, events[0]).value, output, events[1..]);
    }
  }

  /** From any state between runs, sound or not, the next run that nothing disturbs and that is not forced discovers
      the closure on disk and judges a source up to date exactly if every file of that closure has a fresh row. So it
      is wrong about a source exactly if, besides, the source has facts and they are not those of the closure. */
  lemma JudgedExactly(world: World, st: State, output: Output, sources: set<File>, events: seq<Event>, last: State,
                      source: File)
    requires st.run.Idle? && Trace(world, st, [Start(output, sources, false)] + events) == Some(last)
    requires forall e <- events :: Undisturbed(e) && !e.Start? && !e.Commit? && !e.Mark?
    requires last.run.Observing? && AllSeen(last.run.found, last.run.seen) && source in last.run.found
    ensures last.run.output == output && Closed(world, st, source, last.run.found[source])
    ensures JudgedUpToDate(last.run.found, last.run.seen, source) <==>
      forall f <- last.run.found[source] :: RowFresh(st, output, f)
    ensures WronglyFresh(last, source) <==>
      (forall f <- last.run.found[source] :: RowFresh(st, output, f)) &&
      source in FactsOf(st.facts, output) && FactsOf(st.facts, output)[source] != last.run.found[source]
  {
    hide Rooted, Complete;
    var start := Start(output, sources, false);
    var first := Step(world, st, start).value;
    assert ([start] + events)[1..] == events;
    assert first.run.found == map s | s in sources :: map[];
    forall s <- first.run.found ensures Rooted(world, first.run.found[s], s) {
      EmptySnapshot(world, first, s, output, map[]);
      NothingRooted(world, s);
    }
    assert Looking(world, first, output);
    LookingTrace(world, first, output, events);
    Unchanged(world, first, events);
    assert last == st.(run := last.run);
    ClosedKept(world, last, st, source, last.run.found[source]);
    forall f <- last.run.found[source] ensures last.run.seen[f].reason.None? <==> RowFresh(st, output, f) {
      FreshExactly(st, last, output, f);
    }
    hide Trace, Step, Closed, RowFresh, CheckFile;
  }

  lemma NothingRooted(world: World, source: File)
    ensures Rooted(world, map[], source)
  {
  }

  lemma FreshExactly(st: State, last: State, output: Output, file: File)
    requires last == st.(run := last.run) && output != "" && last.run.Observing? && file in last.run.seen
    requires last.run.seen[file] == CheckFile(last, output, false, file, false)
    ensures last.run.seen[file].reason.None? <==> RowFresh(st, output, file)
  {
  }

  /** One source without includes. */
  function Lone(a: File): World {
    World((f, v) => {}, map["o" := {a}])
  }

  function At(a: File, version: Time): map<File, Snapshot> {
    map[a := map[a := version]]
  }

  lemma LoneDiscovery(a: File, version: Time, st: State, next: State)
    requires st.run.Idle? && st.disk == map[a := version]
    requires next == st.(run := Observing("o", {a}, false, At(a, version), map[]))
    ensures Trace(Lone(a), st, [Start("o", {a}, false), Discover(a, a)] + [FinishDiscovery]) == Some(next)
  {
    var none: Snapshot := map[];
    var begun := st.(run := Discovering("o", {a}, false, map[a := none]));
    var read := st.(run := Discovering("o", {a}, false, At(a, version)));
    assert Step(Lone(a), st, Start("o", {a}, false)) == Some(begun) by {
      assert Step(Lone(a), st, Start("o", {a}, false)).value.run.found == map[a := none];
    }
    assert Step(Lone(a), begun, Discover(a, a)) == Some(read) by {
      assert map[a := none][a := none[a := version]] == At(a, version);
    }
    TwoSteps(Lone(a), st, Start("o", {a}, false), begun, Discover(a, a), read);
    TraceConcat(Lone(a), st, [Start("o", {a}, false), Discover(a, a)], [FinishDiscovery]);
    assert [FinishDiscovery][1..] == [];
    assert Step(Lone(a), read, FinishDiscovery) == Some(next);
    assert Trace(Lone(a), next, []) == Some(next);
  }

  function Discovery(a: File): seq<Event> {
    [Start("o", {a}, false), Discover(a, a)] + [FinishDiscovery]
  }

  /** The source vanishes before it is observed, is written again before it is parsed and once more before
      its record is prepared, so that the record takes the time of a fresh stat; then the next run judges. */
  function VanishingSource(a: File): seq<Event> {
    [Edit(a)] + Discovery(a) + [Delete(a), Observe(a, false)] + [Partition, Edit(a)] + [Parse(a, a), Commit] +
    [Edit(a), Prepare(a)] + [Mark] + Discovery(a) + [Observe(a, false)]
  }

  /** A state before anything is committed. */
  function Stage(a: File, run: Run, clock: Time, disk: map<File, Time>): State {
    State(clock, disk, map[], map[], map[], run)
  }

  lemma VanishObserve(a: File, next: State)
    requires next == Stage(a, Observing("o", {a}, false, At(a, 1), map[a := FileObservation(Some(NotIndexed), None)]),
                           1, map[])
    ensures Trace(Lone(a), Stage(a, Observing("o", {a}, false, At(a, 1), map[]), 1, map[a := 1]),
                  [Delete(a), Observe(a, false)]) == Some(next)
  {
    var st := Stage(a, Observing("o", {a}, false, At(a, 1), map[]), 1, map[a := 1]);
    var gone := st.(disk := map[]);
    assert Step(Lone(a), st, Delete(a)) == Some(gone);
    assert Step(Lone(a), gone, Observe(a, false)) == Some(next);
    TwoSteps(Lone(a), st, Delete(a), gone, Observe(a, false), next);
  }

  lemma VanishPartition(a: File, next: State)
    requires next == Stage(a, Parsing("o", {a}, At(a, 1), map[a := FileObservation(Some(NotIndexed), None)], {a},
                                      map[a := map[]]), 2, map[a := 2])
    ensures Trace(Lone(a),
                  Stage(a, Observing("o", {a}, false, At(a, 1), map[a := FileObservation(Some(NotIndexed), None)]),
                                 1, map[]), [Partition, Edit(a)]) == Some(next)
  {
    var seen := map[a := FileObservation(Some(NotIndexed), None)];
    var st := Stage(a, Observing("o", {a}, false, At(a, 1), seen), 1, map[]);
    var none: Snapshot := map[];
    var parsing := st.(run := Parsing("o", {a}, At(a, 1), seen, {a}, map[a := none]));
    assert Step(Lone(a), st, Partition) == Some(parsing) by {
      assert a in At(a, 1)[a] && !JudgedUpToDate(At(a, 1), seen, a);
      assert AllSeen(At(a, 1), seen);
      assert StaleSources(At(a, 1), seen) == {a};
      assert Step(Lone(a), st, Partition).value.run.read == map[a := none];
    }
    assert Step(Lone(a), parsing, Edit(a)) == Some(next);
    TwoSteps(Lone(a), st, Partition, parsing, Edit(a), next);
  }

  lemma VanishCommit(a: File, next: State)
    requires next == State(2, map[a := 2], map[], map[], map["o" := At(a, 2)],
                           Recording("o", map[a := FileObservation(Some(NotIndexed), None)], {a}, map[]))
    ensures Trace(Lone(a), Stage(a, Parsing("o", {a}, At(a, 1), map[a := FileObservation(Some(NotIndexed), None)], {a},
                                            map[a := map[]]), 2, map[a := 2]), [Parse(a, a), Commit]) == Some(next)
  {
    var seen := map[a := FileObservation(Some(NotIndexed), None)];
    var none: Snapshot := map[];
    var st := Stage(a, Parsing("o", {a}, At(a, 1), seen, {a}, map[a := none]), 2, map[a := 2]);
    var parsed := st.(run := Parsing("o", {a}, At(a, 1), seen, {a}, At(a, 2)));
    assert Step(Lone(a), st, Parse(a, a)) == Some(parsed) by {
      assert map[a := none][a := none[a := 2]] == At(a, 2);
    }
    LoneCommit(a, seen, parsed, next);
    TwoSteps(Lone(a), st, Parse(a, a), parsed, Commit, next);
  }

  lemma LoneCommit(a: File, seen: map<File, FileObservation>, parsed: State, next: State)
    requires parsed == Stage(a, Parsing("o", {a}, At(a, 1), seen, {a}, At(a, 2)), 2, map[a := 2])
    requires next == State(2, map[a := 2], map[], map[], map["o" := At(a, 2)], Recording("o", seen, {a}, map[]))
    ensures Step(Lone(a), parsed, Commit) == Some(next)
  {
    assert a in At(a, 1)[a] && Marks(At(a, 1), {a}) == {a};
    assert FactsOf(map[], "o") + At(a, 2) == At(a, 2);
    assert Complete(Lone(a), a, At(a, 2)[a]);
  }

  lemma VanishRecord(a: File, next: State)
    requires next == State(3, map[a := 3], map[], map[], map["o" := At(a, 2)],
                           Recording("o", map[a := FileObservation(Some(NotIndexed), None)], {a},
                                     map[a := IndexState(true, "o", None, Some(3))]))
    ensures Trace(Lone(a), State(2, map[a := 2], map[], map[], map["o" := At(a, 2)],
                                 Recording("o", map[a := FileObservation(Some(NotIndexed), None)], {a}, map[])),
                  [Edit(a), Prepare(a)]) == Some(next)
  {
    var seen := map[a := FileObservation(Some(NotIndexed), None)];
    var st := State(2, map[a := 2], map[], map[], map["o" := At(a, 2)], Recording("o", seen, {a}, map[]));
    var edited := st.(clock := 3, disk := map[a := 3]);
    assert Step(Lone(a), st, Edit(a)) == Some(edited) by {
      assert map[a := 2][a := 3] == map[a := 3];
    }
    assert Step(Lone(a), edited, Prepare(a)) == Some(next);
    TwoSteps(Lone(a), st, Edit(a), edited, Prepare(a), next);
  }

  lemma OneStep(world: World, st: State, event: Event, next: State)
    requires Step(world, st, event) == Some(next)
    ensures Trace(world, st, [event]) == Some(next)
  {
    hide Step;
    assert [event][1..] == [];
    assert Trace(world, next, []) == Some(next);
  }

  /** The concrete run ends with the only source judged up to date while its facts are of an older version. */
  lemma VanishingSourceIsWronglyFresh(a: File)
    ensures var last := Trace(Lone(a), EMPTY, VanishingSource(a));
      last.Some? && WronglyFresh(last.value, a)
  {
    hide Step, Trace;
    var w, seen := Lone(a), map[a := FileObservation(Some(NotIndexed), None)];
    var row := IndexState(true, "o", None, Some(3));
    var s1 := Stage(a, Idle, 1, map[a := 1]);
    var s2 := Stage(a, Observing("o", {a}, false, At(a, 1), map[]), 1, map[a := 1]);
    var s3 := Stage(a, Observing("o", {a}, false, At(a, 1), seen), 1, map[]);
    var s4 := Stage(a, Parsing("o", {a}, At(a, 1), seen, {a}, map[a := map[]]), 2, map[a := 2]);
    var s5 := State(2, map[a := 2], map[], map[], map["o" := At(a, 2)], Recording("o", seen, {a}, map[]));
    var s6 := State(3, map[a := 3], map[], map[], map["o" := At(a, 2)], Recording("o", seen, {a}, map[a := row]));
    var s7 := State(3, map[a := 3], map[], map[a := row], map["o" := At(a, 2)], Idle);
    var s8 := s7.(run := Observing("o", {a}, false, At(a, 3), map[]));
    var s9 := s7.(run := Observing("o", {a}, false, At(a, 3), map[a := FileObservation(None, Some(3))]));
    VanishEnds(a, s1, s6, s7, s8, s9);
    LoneDiscovery(a, 1, s1, s2);
    VanishObserve(a, s3);
    VanishPartition(a, s4);
    VanishCommit(a, s5);
    VanishRecord(a, s6);
    LoneDiscovery(a, 3, s7, s8);
    var events := [Edit(a)];
    TraceConcat(w, EMPTY, events, Discovery(a));
    events := events + Discovery(a);
    TraceConcat(w, EMPTY, events, [Delete(a), Observe(a, false)]);
    events := events + [Delete(a), Observe(a, false)];
    TraceConcat(w, EMPTY, events, [Partition, Edit(a)]);
    events := events + [Partition, Edit(a)];
    TraceConcat(w, EMPTY, events, [Parse(a, a), Commit]);
    events := events + [Parse(a, a), Commit];
    TraceConcat(w, EMPTY, events, [Edit(a), Prepare(a)]);
    events := events + [Edit(a), Prepare(a)];
    TraceConcat(w, EMPTY, events, [Mark]);
    events := events + [Mark];
    TraceConcat(w, EMPTY, events, Discovery(a));
    events := events + Discovery(a);
    TraceConcat(w, EMPTY, events, [Observe(a, false)]);
    assert WronglyFresh(s9, a) by {
      assert s9.facts["o"][a][a] == 2 && s9.run.found[a][a] == 3;
    }
  }

  lemma VanishEnds(a: File, s1: State, s6: State, s7: State, s8: State, s9: State)
    requires s1 == Stage(a, Idle, 1, map[a := 1])
    requires s6 == State(3, map[a := 3], map[], map[], map["o" := At(a, 2)],
                         Recording("o", map[a := FileObservation(Some(NotIndexed), None)], {a},
                                   map[a := IndexState(true, "o", None, Some(3))]))
    requires s7 == State(3, map[a := 3], map[], map[a := IndexState(true, "o", None, Some(3))], map["o" := At(a, 2)],
                         Idle)
    requires s8 == s7.(run := Observing("o", {a}, false, At(a, 3), map[]))
    requires s9 == s7.(run := Observing("o", {a}, false, At(a, 3), map[a := FileObservation(None, Some(3))]))
    ensures Trace(Lone(a), EMPTY, [Edit(a)]) == Some(s1)
    ensures Trace(Lone(a), s6, [Mark]) == Some(s7)
    ensures Trace(Lone(a), s8, [Observe(a, false)]) == Some(s9)
  {
    OneStep(Lone(a), EMPTY, Edit(a), s1);
    var row := map[a := IndexState(true, "o", None, Some(3))];
    assert map[] + row == row;
    OneStep(Lone(a), s6, Mark, s7);
    OneStep(Lone(a), s8, Observe(a, false), s9);
  }
}
