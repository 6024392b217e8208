/** Importing a project configuration over an existing registry: which files keep their index state
    (src/storage/FileDatabase.cpp). */
module ImportUpsert {
  import opened Text

  /** A file within a repository, the way the upsert finds it. */
  datatype Key = Key(component: string, directory: string, name: string)

  /** The stored command; a column may be empty or missing. */
  datatype Command = Command(driver: Option<string>, workingDirectory: Option<string>, compileOptions: Option<string>)

  datatype IndexState = IndexState(indexed: bool, indexedAt: Option<string>, mtime: Option<nat>,
                                   factsDb: Option<string>, gitCommit: Option<string>)

  const WIPED := IndexState(false, None, None, None, None)

  datatype FileRow = FileRow(command: Command, overridden: bool, index: IndexState)

  datatype ProjectFile = ProjectFile(key: Key, driver: string, workingDirectory: string, compileOptions: string)

  datatype Configuration = Configuration(repository: string, clone: string, components: seq<string>,
                                         files: seq<ProjectFile>, preserveOverrides: bool)

  /** The files of every repository. */
  type Files = map<(string, Key), FileRow>

  datatype PriorOptions = PriorOptions(driver: string, workingDirectory: string, compileOptions: string)

  function Coalesce(value: Option<string>): string {
    match value
    case Some(text) => text
    case None => ""
  }

  function Prior(command: Command): PriorOptions {
    PriorOptions(Coalesce(command.driver), Coalesce(command.workingDirectory), Coalesce(command.compileOptions))
  }

  function Options(file: ProjectFile): PriorOptions {
    PriorOptions(file.driver, file.workingDirectory, file.compileOptions)
  }

  /** What a file of the batch writes when it may. */
  function NewCommand(file: ProjectFile): Command {
    Command(Some(file.driver), if file.workingDirectory == "" then None else Some(file.workingDirectory),
            Some(file.compileOptions))
  }

  predicate Valid(configuration: Configuration) {
    configuration.clone != "" && configuration.repository != "" && configuration.components != [] &&
    (forall c <- configuration.components :: c != "") &&
    (forall i, j | 0 <= i < j < |configuration.components| ::
      configuration.components[i] != configuration.components[j]) &&
    (forall f <- configuration.files ::
       f.key.name != "" && f.key.component in configuration.components && f.compileOptions != "")
  }

  /** What validation rejects, naming the component or the file. */
  datatype Problem =
    | NoClone | NoRepository | NoComponents | EmptyPath(component: nat) | TwicePath(component: nat)
    | EmptyName(file: nat) | UnknownComponent(file: nat) | NoOptions(file: nat)

  predicate ComponentHas(configuration: Configuration, problem: Problem, i: nat)
    requires i < |configuration.components|
  {
    match problem
    case EmptyPath(j) => j == i && configuration.components[i] == ""
    case TwicePath(j) => j == i && configuration.components[i] in configuration.components[..i]
    case _ => false
  }

  predicate FileHas(configuration: Configuration, problem: Problem, i: nat)
    requires i < |configuration.files|
  {
    var file := configuration.files[i];
    match problem
    case EmptyName(j) => j == i && file.key.name == ""
    case UnknownComponent(j) => j == i && file.key.component !in configuration.components
    case NoOptions(j) => j == i && file.compileOptions == ""
    case _ => false
  }

  /** The configuration has the problem. */
  ghost predicate Has(configuration: Configuration, problem: Problem) {
    match problem
    case NoClone => configuration.clone == ""
    case NoRepository => configuration.repository == ""
    case NoComponents => configuration.components == []
    case EmptyPath(i) => i < |configuration.components| && ComponentHas(configuration, problem, i)
    case TwicePath(i) => i < |configuration.components| && ComponentHas(configuration, problem, i)
    case EmptyName(i) => i < |configuration.files| && FileHas(configuration, problem, i)
    case UnknownComponent(i) => i < |configuration.files| && FileHas(configuration, problem, i)
    case NoOptions(i) => i < |configuration.files| && FileHas(configuration, problem, i)
  }

  /** validateProjectConfiguration: the first problem it comes upon, or none. */
  method Validate(configuration: Configuration) returns (problem: Option<Problem>)
    ensures problem.None? <==> Valid(configuration)
    ensures problem.Some? ==> Has(configuration, problem.value)
  {
    if configuration.clone == "" {
      return Some(NoClone);
    }
    if configuration.repository == "" {
      return Some(NoRepository);
    }
    if configuration.components == [] {
      return Some(NoComponents);
    }
    var paths: set<string> := {};
    for i := 0 to |configuration.components|
      invariant forall p :: p in paths <==> p in configuration.components[..i]
      invariant forall j | 0 <= j < i :: configuration.components[j] != ""
      invariant forall j, k | 0 <= j < k < i :: configuration.components[j] != configuration.components[k]
    {
      var path := configuration.components[i];
      assert path in configuration.components;
      if path == "" {
        return Some(EmptyPath(i));
      }
      if path in paths {
        return Some(TwicePath(i));
      }
      paths := paths + {path};
    }
    for i := 0 to |configuration.files|
      invariant forall f <- configuration.files[..i] ::
        f.key.name != "" && f.key.component in configuration.components && f.compileOptions != ""
    {
      var file := configuration.files[i];
      if file.key.name == "" {
        return Some(EmptyName(i));
      }
      if file.key.component !in paths {
        return Some(UnknownComponent(i));
      }
      if file.compileOptions == "" {
        return Some(NoOptions(i));
      }
    }
    return None;
  }

  // ----- the operation -----

  datatype UpsertInput = UpsertInput(file: ProjectFile, same: bool)

  /** The commands of the repository before the import. */
  function PriorCompileOptions(files: Files, repository: string): map<Key, PriorOptions> {
    map k | k in files && k.0 == repository :: k.1 := Prior(files[k].command)
  }

  predicate Unchanged(prior: map<Key, PriorOptions>, file: ProjectFile) {
    file.key in prior && prior[file.key] == Options(file)
  }

  /** INSERT ... ON CONFLICT DO UPDATE of one file; every column is decided from the row as it was. */
  function Upserted(files: Files, repository: string, input: UpsertInput, preserve: bool): Files {
    var key := (repository, input.file.key);
    if key in files then
      var row := files[key];
      var held := preserve && row.overridden;
      files[key := FileRow(
        if held then row.command else NewCommand(input.file),
        if preserve then row.overridden else false,
        if input.same || held then row.index else WIPED)]
    else
      files[key := FileRow(NewCommand(input.file), false, WIPED)]
  }

  function Imported(files: Files, prior: map<Key, PriorOptions>, repository: string, batch: seq<ProjectFile>,
                    preserve: bool): Files
  {
    if batch == [] then files
    else
      var last := batch[|batch| - 1];
      Upserted(Imported(files, prior, repository, batch[..|batch| - 1], preserve), repository,
               UpsertInput(last, Unchanged(prior, last)), preserve)
  }

  /** Every file of the batch is compared with the commands before the import. */
  method Compared(prior: map<Key, PriorOptions>, batch: seq<ProjectFile>) returns (inputs: seq<UpsertInput>)
    ensures |inputs| == |batch|
    ensures forall i | 0 <= i < |batch| :: inputs[i] == UpsertInput(batch[i], Unchanged(prior, batch[i]))
  {
    hide Unchanged;
    inputs := [];
    for i := 0 to |batch|
      invariant |inputs| == i
      invariant forall j | 0 <= j < i :: inputs[j] == UpsertInput(batch[j], Unchanged(prior, batch[j]))
    {
      inputs := inputs + [UpsertInput(batch[i], Unchanged(prior, batch[i]))];
    }
  }

  class FileDatabase {
    var files: Files
    /** How often the database has refused what was in order. */
    ghost var faults: nat

    constructor (files: Files)
      ensures this.files == files && faults == 0
    {
      this.files, faults := files, 0;
    }

    /** The database may refuse anything. */
    method Attempt() returns (fault: bool)
      modifies `faults
      ensures faults == if fault then old(faults) + 1 else old(faults)
    {
      fault := *;
      if fault {
        faults := faults + 1;
      }
    }

    /** An import that fails anywhere leaves the registry as it was. */
    method ReplaceProjectConfiguration(configuration: Configuration) returns (ok: bool, fault: bool)
      modifies this
      ensures ok ==> Valid(configuration)
      ensures ok ==> files == Imported(old(files), PriorCompileOptions(old(files), configuration.repository),
                                       configuration.repository, configuration.files, configuration.preserveOverrides)
      ensures !ok ==> (fault || !Valid(configuration)) && files == old(files)
      ensures faults >= old(faults) && (ok <==> Valid(configuration) && faults == old(faults))
      ensures fault <==> faults > old(faults)
    {
      hide Valid, Unchanged, PriorCompileOptions, Upserted;
      fault := false;
      var problem := Validate(configuration);
      if problem.Some? {
        return false, false;
      }
      var before := files;
      var prior := PriorCompileOptions(files, configuration.repository);
      var inputs := Compared(prior, configuration.files);
      for i := 0 to |inputs|
        invariant faults == old(faults)
        invariant files == Imported(before, prior, configuration.repository, configuration.files[..i],
                                    configuration.preserveOverrides)
      {
        assert configuration.files[..i + 1][..i] == configuration.files[..i];
        fault := Attempt();
        if fault {
          files := before;
          return false, true;
        }
        files := Upserted(files, configuration.repository, inputs[i], configuration.preserveOverrides);
      }
      assert configuration.files[..|inputs|] == configuration.files;
      return true, false;
    }
  }

  // ----- what an import does to the index states -----

  /** The row keeps its index state: its override is preserved, or no file of the batch changes its command. */
  predicate Keeps(row: FileRow, key: Key, batch: seq<ProjectFile>, preserve: bool) {
    (preserve && row.overridden) || forall f <- batch :: f.key == key ==> Options(f) == Prior(row.command)
  }

  predicate Named(batch: seq<ProjectFile>, key: Key) {
    exists f <- batch :: f.key == key
  }

  lemma BatchStep(batch: seq<ProjectFile>, last: ProjectFile, row: FileRow, key: Key, preserve: bool)
    ensures Named(batch + [last], key) <==> Named(batch, key) || last.key == key
    ensures Keeps(row, key, batch + [last], preserve) <==>
      Keeps(row, key, batch, preserve) &&
      ((preserve && row.overridden) || (last.key == key ==> Options(last) == Prior(row.command)))
  {
    assert forall f :: f in batch + [last] <==> f in batch || f == last;
  }

  lemma PriorOf(files: Files, repository: string, key: Key)
    requires (repository, key) in files
    ensures var prior := PriorCompileOptions(files, repository);
      key in prior && prior[key] == Prior(files[(repository, key)].command)
  {
    var stored := (repository, key);
    assert stored in files && stored.0 == repository && stored.1 == key;
  }

  /** A file not named in the batch, or of another repository, is untouched. */
  lemma {:induction false} OthersUntouched(files: Files, prior: map<Key, PriorOptions>, repository: string,
                                           batch: seq<ProjectFile>, preserve: bool, other: string, key: Key)
    requires other != repository || !Named(batch, key)
    ensures var after := Imported(files, prior, repository, batch, preserve);
      ((other, key) in after <==> (other, key) in files) &&
      ((other, key) in files ==> after[(other, key)] == files[(other, key)])
  {
    if batch != [] {
      var n := |batch| - 1;
      assert batch == batch[..n] + [batch[n]];
      assert batch[n] in batch;
      OthersUntouched(files, prior, repository, batch[..n], preserve, other, key);
    }
  }

  /** An existing row that the batch names, duplicates included: its index state is kept whole or wiped whole, and
      it is kept exactly if the override is preserved or no file of the batch changes the command. */
  lemma {:induction false} IndexStateKeptExactly(files: Files, repository: string, batch: seq<ProjectFile>,
                                                 preserve: bool, key: Key)
    requires (repository, key) in files && Named(batch, key)
    ensures var prior := PriorCompileOptions(files, repository);
      var row := files[(repository, key)];
      var after := Imported(files, prior, repository, batch, preserve);
      (repository, key) in after &&
      after[(repository, key)].index == (if Keeps(row, key, batch, preserve) then row.index else WIPED) &&
      after[(repository, key)].overridden == (preserve && row.overridden)
  {
    hide Named, Keeps, PriorCompileOptions;
    var prior := PriorCompileOptions(files, repository);
    var row := files[(repository, key)];
    var n := |batch| - 1;
    NamedNotEmpty(batch, key);
    PriorOf(files, repository, key);
    assert batch == batch[..n] + [batch[n]];
    BatchStep(batch[..n], batch[n], row, key, preserve);
    if Named(batch[..n], key) {
      IndexStateKeptExactly(files, repository, batch[..n], preserve, key);
    } else {
      OthersUntouched(files, prior, repository, batch[..n], preserve, repository, key);
      NothingChanges(row, key, batch[..n], preserve);
    }
  }

  lemma NamedNotEmpty(batch: seq<ProjectFile>, key: Key)
    requires Named(batch, key)
    ensures batch != []
  {
  }

  lemma NothingChanges(row: FileRow, key: Key, batch: seq<ProjectFile>, preserve: bool)
    requires !Named(batch, key)
    ensures Keeps(row, key, batch, preserve)
  {
  }

  /** The stored command afterwards: the preserved override, or the last file of the batch that names it. */
  lemma {:induction false} CommandAfterImport(files: Files, repository: string, batch: seq<ProjectFile>,
                                              preserve: bool, key: Key)
    requires (repository, key) in files
    ensures var row := files[(repository, key)];
      var after := Imported(files, PriorCompileOptions(files, repository), repository, batch, preserve);
      (repository, key) in after &&
      after[(repository, key)].command ==
        (if (preserve && row.overridden) || !Named(batch, key) then row.command else NewCommand(LastNamed(batch, key)))
  {
    hide PriorCompileOptions, Named;
    var prior := PriorCompileOptions(files, repository);
    NamedSteps(batch, key);
    if batch != [] {
      var n := |batch| - 1;
      CommandAfterImport(files, repository, batch[..n], preserve, key);
      if Named(batch[..n], key) {
        IndexStateKeptExactly(files, repository, batch[..n], preserve, key);
      } else {
        OthersUntouched(files, prior, repository, batch[..n], preserve, repository, key);
      }
    }
  }

  lemma NamedSteps(batch: seq<ProjectFile>, key: Key)
    ensures !Named([], key)
    ensures batch != [] ==>
      (Named(batch, key) <==> Named(batch[..|batch| - 1], key) || batch[|batch| - 1].key == key)
  {
    if batch != [] {
      assert batch == batch[..|batch| - 1] + [batch[|batch| - 1]];
    }
  }

  function LastNamed(batch: seq<ProjectFile>, key: Key): (file: ProjectFile)
    requires Named(batch, key)
    ensures file in batch && file.key == key
  {
    var last := batch[|batch| - 1];
    if last.key == key then last
    else
      assert batch == batch[..|batch| - 1] + [last];
      LastNamed(batch[..|batch| - 1], key)
  }

  lemma NotPrior(files: Files, repository: string, key: Key)
    requires (repository, key) !in files
    ensures key !in PriorCompileOptions(files, repository)
  {
  }

  /** The row that an import leaves for a file that was not stored: the command of the last file of the batch that names
      it, no override, and nothing indexed. */
  predicate NewRow(row: FileRow, last: ProjectFile) {
    row.command.driver == Some(last.driver) && row.command.compileOptions == Some(last.compileOptions) &&
    row.command.workingDirectory == (if last.workingDirectory == "" then None else Some(last.workingDirectory)) &&
    !row.overridden && !row.index.indexed && row.index.indexedAt.None? && row.index.mtime.None? &&
    row.index.factsDb.None? && row.index.gitCommit.None?
  }

  /** A file that is named and was not stored is stored afterwards, however often the batch names it. */
  lemma {:induction false} NewFileStored(files: Files, repository: string, batch: seq<ProjectFile>, preserve: bool,
                                         key: Key)
    requires (repository, key) !in files && Named(batch, key)
    ensures var after := Imported(files, PriorCompileOptions(files, repository), repository, batch, preserve);
      (repository, key) in after && NewRow(after[(repository, key)], LastNamed(batch, key))
  {
    hide PriorCompileOptions, Named;
    var prior := PriorCompileOptions(files, repository);
    NamedNotEmpty(batch, key);
    NamedSteps(batch, key);
    NotPrior(files, repository, key);
    var n := |batch| - 1;
    if Named(batch[..n], key) {
      NewFileStored(files, repository, batch[..n], preserve, key);
    } else {
      OthersUntouched(files, prior, repository, batch[..n], preserve, repository, key);
    }
  }

  /** The files stored afterwards are those stored before and those named, each under the repository. */
  lemma {:induction false} FilesAfterImport(files: Files, prior: map<Key, PriorOptions>, repository: string,
                                            batch: seq<ProjectFile>, preserve: bool, other: string, key: Key)
    ensures (other, key) in Imported(files, prior, repository, batch, preserve) <==>
      (other, key) in files || (other == repository && Named(batch, key))
  {
    hide Named;
    NamedSteps(batch, key);
    if batch != [] {
      FilesAfterImport(files, prior, repository, batch[..|batch| - 1], preserve, other, key);
    }
  }

  /** A row that keeps its index state means the same command as before. */
  lemma KeptMeansSameCommand(files: Files, repository: string, batch: seq<ProjectFile>, preserve: bool, key: Key)
    requires (repository, key) in files && Keeps(files[(repository, key)], key, batch, preserve)
    ensures var after := Imported(files, PriorCompileOptions(files, repository), repository, batch, preserve);
      (repository, key) in after && Prior(after[(repository, key)].command) == Prior(files[(repository, key)].command)
  {
    hide PriorCompileOptions;
    CommandAfterImport(files, repository, batch, preserve, key);
    if Named(batch, key) && !(preserve && files[(repository, key)].overridden) {
      var last := LastNamed(batch, key);
      assert Options(last) == Prior(files[(repository, key)].command);
      assert Prior(NewCommand(last)) == Options(last);
    }
  }

  /** The other direction fails when a batch names a file twice: a change that is taken back still wipes the
      state. */
  lemma TakenBackStillWipes(files: Files, repository: string, key: Key, changed: ProjectFile, same: ProjectFile)
    requires (repository, key) in files && changed.key == key && same.key == key
    requires Options(same) == Prior(files[(repository, key)].command) && Options(changed) != Options(same)
    ensures var after := Imported(files, PriorCompileOptions(files, repository), repository, [changed, same], false);
      (repository, key) in after && after[(repository, key)].index == WIPED &&
      Prior(after[(repository, key)].command) == Prior(files[(repository, key)].command)
  {
    hide PriorCompileOptions;
    var batch := [changed, same];
    assert changed in batch && batch[1] == same && batch[1] in batch;
    assert Named(batch, key);
    IndexStateKeptExactly(files, repository, batch, false, key);
    CommandAfterImport(files, repository, batch, false, key);
    assert LastNamed(batch, key) == same;
  }
}
