/** The cache of file ids in front of the project database (src/storage/FileManager.cpp), and the clone selected
    for the running operation (src/storage/CloneContext.cpp). The file system does not change during a run. */
module FileManagerCache {
  import opened Text

  type FileId = nat

  datatype Clone = Clone(repository: int, path: string)

  /** Where the registry keeps a file: its component, directory and name. */
  datatype Place = Place(component: int, directory: string, name: string)

  /** The clone that every repository uses by default, and the ids of the registered files. */
  datatype Registry = Registry(active: map<int, Clone>, files: map<Place, FileId>)

  /** What the world outside decides: how a path is spelled absolutely, what it resolves to, and which place of
      the registry an identity names while the given clones are in use. */
  datatype World = World(
    requested: string -> Option<string>,
    canonical: string -> Option<string>,
    place: (map<int, Clone>, Option<Clone>, string) -> Option<Place>)

  function StoredId(world: World, registry: Registry, selected: Option<Clone>, identity: string): Option<FileId> {
    var place := world.place(registry.active, selected, identity);
    if place.Some? && place.value in registry.files then Some(registry.files[place.value]) else None
  }

  /** The lookup without a cache: the spelling of the caller first, then what it resolves to. */
  function Uncached(world: World, registry: Registry, selected: Option<Clone>, path: string): Option<FileId> {
    var canonical, requested := world.canonical(path), world.requested(path);
    var first :=
      if requested.Some? && requested != canonical then StoredId(world, registry, selected, requested.value)
      else None;
    if first.Some? then first
    else if canonical.Some? then StoredId(world, registry, selected, canonical.value)
    else None
  }

  /** The spelling names a place where a file is registered under the id. */
  predicate Leads(world: World, registry: Registry, selected: Option<Clone>, spelling: Option<string>, id: FileId) {
    spelling.Some? &&
    match world.place(registry.active, selected, spelling.value)
    case Some(place) => place in registry.files && registry.files[place] == id
    case None => false
  }

  /** A file is found exactly if the spelling of the caller leads to it, or leads nowhere and what it resolves to leads
      to it. */
  lemma FoundExactly(world: World, registry: Registry, selected: Option<Clone>, path: string, id: FileId)
    ensures var requested, canonical := world.requested(path), world.canonical(path);
      Uncached(world, registry, selected, path) == Some(id) <==>
      Leads(world, registry, selected, requested, id) ||
      ((forall other: FileId :: !Leads(world, registry, selected, requested, other)) &&
       Leads(world, registry, selected, canonical, id))
  {
    var requested, canonical := world.requested(path), world.canonical(path);
    LeadsExactly(world, registry, selected, requested);
    LeadsExactly(world, registry, selected, canonical);
    hide Leads;
    if requested.Some? && StoredId(world, registry, selected, requested.value).Some? {
      assert Leads(world, registry, selected, requested,
                   StoredId(world, registry, selected, requested.value).value);
    }
  }

  lemma LeadsExactly(world: World, registry: Registry, selected: Option<Clone>, spelling: Option<string>)
    ensures forall id: FileId :: Leads(world, registry, selected, spelling, id) <==>
      spelling.Some? && StoredId(world, registry, selected, spelling.value) == Some(id)
  {
  }

  // ----- the selected clone -----

  /** The clone context of one thread: every change of the selection takes a new revision. */
  class CloneContext {
    var selected: Option<Clone>
    var revision: nat
    var previous: seq<Option<Clone>>
    /** The selection at each revision so far. */
    ghost var history: seq<Option<Clone>>

    ghost predicate Valid()
      reads this
    {
      |history| == revision + 1 && history[revision] == selected
    }

    constructor ()
      ensures Valid() && selected == None && revision == 0 && previous == []
    {
      selected, revision, previous, history := None, 0, [], [None];
    }

    method Enter(clone: Option<Clone>)
      requires Valid()
      modifies this
      ensures Valid() && selected == clone && previous == old(previous) + [old(selected)]
      ensures revision == old(revision) + 1 && history == old(history) + [clone]
    {
      previous, selected := previous + [selected], clone;
      revision := revision + 1;
      history := history + [clone];
    }

    /** Leaving the innermost scope brings back the selection from before it. */
    method Leave()
      requires Valid() && previous != []
      modifies this
      ensures Valid() && selected == old(previous)[|old(previous)| - 1]
      ensures previous == old(previous)[..|old(previous)| - 1]
      ensures revision == old(revision) + 1 && history == old(history) + [selected]
    {
      selected, previous := previous[|previous| - 1], previous[..|previous| - 1];
      revision := revision + 1;
      history := history + [selected];
    }
  }

  // ----- the manager -----

  /** Every cached id is the stored one while the given clone is selected. */
  ghost predicate CacheRight(world: World, registry: Registry, selected: Option<Clone>, cache: map<string, FileId>) {
    forall identity <- cache :: StoredId(world, registry, selected, identity) == Some(cache[identity])
  }

  /** Registering more files leaves the cached ids right: only found ids are cached. */
  lemma MoreFiles(world: World, registry: Registry, more: map<Place, FileId>, selected: Option<Clone>,
                  cache: map<string, FileId>)
    requires CacheRight(world, registry, selected, cache)
    requires forall place <- registry.files :: place in more && more[place] == registry.files[place]
    ensures CacheRight(world, registry.(files := more), selected, cache)
  {
    forall identity <- cache
      ensures StoredId(world, registry.(files := more), selected, identity) == Some(cache[identity])
    {
      assert StoredId(world, registry, selected, identity) == Some(cache[identity]);
    }
  }

  class FileManager {
    const world: World
    const context: CloneContext
    var registry: Registry
    var fileIds: map<string, FileId>
    var cloneContextRevision: nat

    /** The cache is right for the selection of the revision it was filled at. */
    ghost predicate Valid()
      reads this, context
    {
      && context.Valid() && cloneContextRevision <= context.revision
      && CacheRight(world, registry, context.history[cloneContextRevision], fileIds)
    }

    constructor (world: World, context: CloneContext, registry: Registry)
      requires context.Valid()
      ensures Valid() && this.world == world && this.context == context && this.registry == registry && fileIds == map[]
    {
      this.world, this.context, this.registry, fileIds, cloneContextRevision := world, context, registry, map[], 0;
    }

    /** One identity through the cache; a found id is remembered, a miss is not. */
    method Resolve(identity: string) returns (id: Option<FileId>)
      requires Valid() && cloneContextRevision == context.revision
      modifies this`fileIds
      ensures Valid()
      ensures id == StoredId(world, registry, context.selected, identity)
      ensures fileIds == if id.Some? then old(fileIds)[identity := id.value] else old(fileIds)
    {
      if identity in fileIds {
        return Some(fileIds[identity]);
      }
      id := StoredId(world, registry, context.selected, identity);
      if id.Some? {
        fileIds := fileIds[identity := id.value];
      }
    }

    /** The cached lookup answers what the uncached one would. */
    method GetId(path: string) returns (id: Option<FileId>)
      requires Valid()
      modifies this`fileIds, this`cloneContextRevision
      ensures Valid() && registry == old(registry)
      ensures id == Uncached(world, registry, context.selected, path)
      ensures old(cloneContextRevision) == context.revision ==> old(fileIds).Keys <= fileIds.Keys
      ensures id.Some? ==> exists identity <- fileIds ::
        world.requested(path) == Some(identity) || world.canonical(path) == Some(identity)
    {
      if cloneContextRevision != context.revision {
        fileIds, cloneContextRevision := map[], context.revision;
      }
      var canonical := world.canonical(path);
      var requested := world.requested(path);
      if requested.Some? && requested != canonical {
        id := Resolve(requested.value);
        if id.Some? {
          return;
        }
      }
      if canonical.None? {
        return None;
      }
      id := Resolve(canonical.value);
    }

    /** Registers files under new ids; what is registered stays. */
    method AddBulk(places: seq<Place>, ids: seq<FileId>) returns (ok: bool)
      requires Valid() && |places| == |ids|
      modifies this`registry
      ensures Valid() && registry.active == old(registry).active
      ensures forall place <- old(registry).files ::
        place in registry.files && registry.files[place] == old(registry).files[place]
      ensures ok ==> forall place <- places :: place in registry.files
      ensures forall place <- registry.files | place !in old(registry).files ::
        exists i | 0 <= i < |places| :: places[i] == place && registry.files[place] == ids[i]
      ensures !ok ==> registry == old(registry)
    {
      ok := *;
      if !ok {
        return;
      }
      var files := registry.files;
      for i := 0 to |places|
        invariant forall place <- registry.files :: place in files && files[place] == registry.files[place]
        invariant forall place <- places[..i] :: place in files
        invariant forall place <- files | place !in registry.files ::
          exists j | 0 <= j < i :: places[j] == place && files[place] == ids[j]
      {
        assert places[..i + 1] == places[..i] + [places[i]];
        if places[i] !in files {
          files := files[places[i] := ids[i]];
        }
      }
      assert places[..|places|] == places;
      MoreFiles(world, registry, files, context.history[cloneContextRevision], fileIds);
      registry := registry.(files := files);
    }

    /** Switching the default clone of a repository forgets every cached id. */
    method SwitchActiveClone(repository: int, clone: Clone) returns (ok: bool)
      requires Valid()
      modifies this`registry, this`fileIds
      ensures Valid() && registry.files == old(registry).files
      ensures registry.active == if ok then old(registry).active[repository := clone] else old(registry).active
    {
      ok := *;
      if ok {
        registry := registry.(active := registry.active[repository := clone]);
        fileIds := map[];
      }
    }
  }

  // ----- whole runs -----

  datatype Command =
    | EnterScope(clone: Option<Clone>)
    | LeaveScope
    | Lookup(path: string)
    | Register(places: seq<Place>, ids: seq<FileId>)
    | Switch(repository: int, active: Clone)

  /** What a command reports. */
  datatype Answer = Found(id: Option<FileId>) | Done(ok: bool)

  /** What lookups depend on between two commands. */
  datatype Moment = Moment(registry: Registry, selected: Option<Clone>, previous: seq<Option<Clone>>)

  ghost function Now(manager: FileManager): Moment
    reads manager, manager.context
  {
    Moment(manager.registry, manager.context.selected, manager.context.previous)
  }

  /** The registry after a registration: what was there stays, and what is new was asked for. */
  ghost predicate Registered(before: Registry, places: seq<Place>, ids: seq<FileId>, ok: bool, after: Registry) {
    && before.active == after.active
    && (forall place <- before.files :: place in after.files && after.files[place] == before.files[place])
    && (forall place <- after.files | place !in before.files ::
          exists i | 0 <= i < |places| && i < |ids| :: places[i] == place && after.files[place] == ids[i])
    && (if ok then forall place <- places :: place in after.files else before == after)
  }

  /** One command, without any cache. */
  ghost predicate Follows(world: World, before: Moment, command: Command, answer: Answer, after: Moment) {
    match command
    case EnterScope(clone) =>
      answer == Done(true) && after == Moment(before.registry, clone, before.previous + [before.selected])
    case LeaveScope =>
      var n := |before.previous|;
      answer == Done(n > 0) &&
      after == if n > 0 then Moment(before.registry, before.previous[n - 1], before.previous[..n - 1]) else before
    case Lookup(path) =>
      answer == Found(Uncached(world, before.registry, before.selected, path)) && after == before
    case Register(places, ids) =>
      answer.Done? && after == before.(registry := after.registry) &&
      Registered(before.registry, places, ids, answer.ok, after.registry)
    case Switch(repository, clone) =>
      answer.Done? &&
      after == if answer.ok then before.(registry := Switched(before.registry, repository, clone)) else before
  }

  function Switched(registry: Registry, repository: int, clone: Clone): Registry {
    registry.(active := registry.active[repository := clone])
  }

  /** Over every script the cached manager is step by step the uncached one: there is a log of what lookups
      depend on, linked from the old state to the new one by the commands and their answers, and each lookup
      answers for its own moment of the log. */
  method Run(manager: FileManager, script: seq<Command>) returns (answers: seq<Answer>, ghost log: seq<Moment>)
    requires manager.Valid()
    modifies manager, manager.context
    ensures manager.Valid() && |answers| == |script| && |log| == |script| + 1
    ensures log[0] == old(Now(manager)) && log[|script|] == Now(manager)
    ensures forall i: nat | i < |script| :: Follows(manager.world, log[i], script[i], answers[i], log[i + 1])
    ensures forall i: nat | i < |script| :: script[i].Lookup? ==>
      answers[i] == Found(Uncached(manager.world, log[i].registry, log[i].selected, script[i].path))
  {
    hide CacheRight, Uncached, Registered;
    answers, log := [], [Now(manager)];
    for i := 0 to |script|
      invariant manager.Valid() && |answers| == i && |log| == i + 1
      invariant log[0] == old(Now(manager)) && log[i] == Now(manager)
      invariant forall j: nat | j < i :: Follows(manager.world, log[j], script[j], answers[j], log[j + 1])
    {
      var answer := Perform(manager, script[i]);
      answers, log := answers + [answer], log + [Now(manager)];
    }
    forall i: nat | i < |script| && script[i].Lookup?
      ensures answers[i] == Found(Uncached(manager.world, log[i].registry, log[i].selected, script[i].path))
    {
      assert Follows(manager.world, log[i], script[i], answers[i], log[i + 1]);
    }
  }

  method Perform(manager: FileManager, command: Command) returns (answer: Answer)
    requires manager.Valid()
    modifies manager, manager.context
    ensures manager.Valid() && Follows(manager.world, old(Now(manager)), command, answer, Now(manager))
  {
    hide CacheRight, Uncached;
    var ok := true;
    match command
    case EnterScope(clone) =>
      manager.context.Enter(clone);
      return Done(true);
    case LeaveScope =>
      ok := manager.context.previous != [];
      if ok {
        manager.context.Leave();
      }
      return Done(ok);
    case Lookup(path) =>
      var id := manager.GetId(path);
      return Found(id);
    case Register(places, ids) =>
      ok := |places| == |ids|;
      if ok {
        ok := manager.AddBulk(places, ids);
      }
      return Done(ok);
    case Switch(repository, clone) =>
      ok := manager.SwitchActiveClone(repository, clone);
      return Done(ok);
  }
}
