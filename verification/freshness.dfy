/** The freshness decision of an extraction (src/commands/ExtractionFreshness.cpp) and the files a
    successful extraction marks (src/commands/Extract.cpp). */
module Freshness {
  import opened Text

  datatype File = File(path: string)
  type Time = nat

  /** What the file row says; `factsDb` is "" where the column is NULL. */
  datatype IndexState = IndexState(indexed: bool, factsDb: string, gitCommit: Option<string>, mtime: Option<Time>)

  datatype Observed = Observed(factsDb: string, gitCommit: Option<string>, mtime: Option<Time>)

  datatype Reason =
    | NotIndexed | FactsDatabaseChanged | GitCommitChanged | MtimeUnavailable | MtimeChanged
    | Forced | IndexStateUnavailable

  /** One file's verdict, None when it is up to date, and the modification time seen while judging it. */
  datatype FileObservation = FileObservation(reason: Option<Reason>, mtime: Option<Time>)

  function StaleReason(state: IndexState, now: Observed): Option<Reason> {
    if !state.indexed || state.factsDb == "" then Some(NotIndexed)
    else if state.factsDb != now.factsDb then Some(FactsDatabaseChanged)
    else if state.gitCommit != now.gitCommit then Some(GitCommitChanged)
    else if now.mtime.None? || state.mtime.None? then Some(MtimeUnavailable)
    else if now.mtime != state.mtime then Some(MtimeChanged)
    else None
  }

  datatype Staleness = Staleness(file: File, reason: Reason)

  datatype Partitioned = Partitioned(
    stale: seq<File>,
    upToDate: seq<File>,
    staleReasons: map<File, Staleness>,
    observedMtime: map<File, Time>)

  // ----- what a partition is -----

  type Check = File -> FileObservation

  function Closure(included: map<File, seq<File>>, source: File): seq<File> {
    if source in included then included[source] else [source]
  }

  predicate UpToDate(check: Check, closure: seq<File>) {
    forall f <- closure :: check(f).reason.None?
  }

  /** The sources with the given verdict, in their order. */
  function Select(check: Check, included: map<File, seq<File>>, sources: seq<File>, wanted: bool): seq<File> {
    if sources == [] then []
    else
      var last := sources[|sources| - 1];
      var before := Select(check, included, sources[..|sources| - 1], wanted);
      if UpToDate(check, Closure(included, last)) == wanted then before + [last] else before
  }

  ghost predicate Visited(included: map<File, seq<File>>, sources: seq<File>, file: File) {
    exists s <- sources :: file in Closure(included, s)
  }

  /** The first file of the closure that is not up to date explains the verdict. */
  ghost predicate Explains(check: Check, closure: seq<File>, staleness: Staleness) {
    exists i | 0 <= i < |closure| ::
      closure[i] == staleness.file && check(closure[i]).reason == Some(staleness.reason) &&
      UpToDate(check, closure[..i])
  }

  ghost predicate Distinct(files: seq<File>) {
    forall i, j | 0 <= i < j < |files| :: files[i] != files[j]
  }

  lemma DistinctAppend(files: seq<File>, file: File)
    requires Distinct(files) && file !in files
    ensures Distinct(files + [file])
  {
  }

  /** The memo holds the verdict of every file asked, each asked once, and every readable time is kept. */
  ghost predicate Remembered(check: Check, observations: map<File, FileObservation>, asked: seq<File>,
                             observedMtime: map<File, Time>) {
    && (forall f <- observations :: observations[f] == check(f))
    && (forall f :: f in asked <==> f in observations)
    && Distinct(asked)
    && (forall f :: f in observedMtime <==> f in observations && check(f).mtime.Some?)
    && (forall f <- observedMtime :: check(f).mtime == Some(observedMtime[f]))
  }

  /** One closure is observed through the memo; the first file that is not up to date is reported. */
  method ObserveClosure(check: Check, closure: seq<File>, observations: map<File, FileObservation>,
                        ghost asked: seq<File>, observedMtime: map<File, Time>)
    returns (memo: map<File, FileObservation>, ghost asking: seq<File>, times: map<File, Time>,
             first: Option<Staleness>)
    requires Remembered(check, observations, asked, observedMtime)
    ensures Remembered(check, memo, asking, times)
    ensures forall f :: f in memo <==> f in observations || f in closure
    ensures first.None? <==> UpToDate(check, closure)
    ensures first.Some? ==> Explains(check, closure, first.value)
  {
    hide Distinct;
    memo, asking, times, first := observations, asked, observedMtime, None;
    for i := 0 to |closure|
      invariant Remembered(check, memo, asking, times)
      invariant forall f :: f in memo <==> f in observations || f in closure[..i]
      invariant first.None? <==> UpToDate(check, closure[..i])
      invariant first.Some? ==> Explains(check, closure, first.value)
    {
      var file := closure[i];
      assert closure[..i + 1] == closure[..i] + [file];
      if file !in memo {
        DistinctAppend(asking, file);
        memo := memo[file := check(file)];
        asking := asking + [file];
      }
      var observation := memo[file];
      if observation.mtime.Some? {
        times := times[file := observation.mtime.value];
      }
      if first.None? && observation.reason.Some? {
        first := Some(Staleness(file, observation.reason.value));
      }
    }
    assert closure[..|closure|] == closure;
  }

  ghost predicate Explained(check: Check, included: map<File, seq<File>>, sources: seq<File>,
                            staleReasons: map<File, Staleness>)
  {
    && (forall s <- sources :: s in staleReasons <==> !UpToDate(check, Closure(included, s)))
    && (forall s <- staleReasons :: s in sources && Explains(check, Closure(included, s), staleReasons[s]))
  }

  /** What the partition loop has established for the sources it has passed. */
  ghost predicate Parted(check: Check, included: map<File, seq<File>>, sources: seq<File>, result: Partitioned,
                         observations: map<File, FileObservation>, asked: seq<File>)
  {
    && result.stale == Select(check, included, sources, false)
    && result.upToDate == Select(check, included, sources, true)
    && Explained(check, included, sources, result.staleReasons)
    && Remembered(check, observations, asked, result.observedMtime)
    && forall f :: f in observations <==> Visited(included, sources, f)
  }

  /** `check` stands for stat, registry lookup and git lookup of one file; `asked` lists the files it was
      applied to, in order. */
  method PartitionSources(check: Check, sources: seq<File>, included: map<File, seq<File>>)
    returns (result: Partitioned, ghost observations: map<File, FileObservation>, ghost asked: seq<File>)
    ensures result.stale == Select(check, included, sources, false)
    ensures result.upToDate == Select(check, included, sources, true)
    ensures Explained(check, included, sources, result.staleReasons)
    ensures forall s :: s in result.stale <==> s in sources && !UpToDate(check, Closure(included, s))
    ensures forall s :: s in result.upToDate <==> s in sources && UpToDate(check, Closure(included, s))
    ensures forall s <- sources | s in included ::
      (s in result.stale <==> exists f <- included[s] :: check(f).reason.Some?)
    ensures forall s <- sources | s !in included :: (s in result.stale <==> check(s).reason.Some?)
    ensures Parted(check, included, sources, result, observations, asked)
  {
    hide *;
    result, asked := Partitioned([], [], map[], map[]), [];
    var memo: map<File, FileObservation> := map[];
    ghost var done: seq<File> := [];
    PartedEmpty(check, included);
    for n := 0 to |sources|
      invariant done == sources[..n]
      invariant Remembered(check, memo, asked, result.observedMtime)
      invariant Parted(check, included, done, result, memo, asked)
    {
      var source := sources[n];
      var seen, times, first;
      ghost var asking;
      seen, asking, times, first := ObserveClosure(check, Closure(included, source), memo, asked, result.observedMtime);
      PartedStep(check, included, done, result, memo, asked, source, seen, asking, times, first);
      result, memo, asked, done := Advance(result, source, times, first), seen, asking, done + [source];
      PartedMemo(check, included, done, result, memo, asked);
    }
    assert done == sources;
    observations := memo;
    PartedParts(check, included, sources, result, memo, asked);
    forall s ensures s in result.stale <==> s in sources && !UpToDate(check, Closure(included, s))
      ensures s in result.upToDate <==> s in sources && UpToDate(check, Closure(included, s))
    {
      SelectMember(check, included, sources, false, s);
      SelectMember(check, included, sources, true, s);
    }
    ClosureMeans(check, included);
  }

  /** A source is up to date if the files discovered for it are; one that discovery did not see stands for itself. */
  lemma ClosureMeans(check: Check, included: map<File, seq<File>>)
    ensures forall s <- included ::
      UpToDate(check, Closure(included, s)) <==> forall f <- included[s] :: check(f).reason.None?
    ensures forall s | s !in included :: UpToDate(check, Closure(included, s)) <==> check(s).reason.None?
  {
  }

  /** The source joins its part, explained by its first stale file. */
  function Advance(result: Partitioned, source: File, times: map<File, Time>, first: Option<Staleness>): Partitioned {
    match first
    case None => result.(upToDate := result.upToDate + [source], observedMtime := times)
    case Some(_) =>
      result.(stale := result.stale + [source], staleReasons := Explain(result.staleReasons, source, first),
              observedMtime := times)
  }

  lemma PartedEmpty(check: Check, included: map<File, seq<File>>)
    ensures Parted(check, included, [], Partitioned([], [], map[], map[]), map[], [])
    ensures Remembered(check, map[], [], map[])
  {
  }

  lemma PartedParts(check: Check, included: map<File, seq<File>>, sources: seq<File>, result: Partitioned,
                    observations: map<File, FileObservation>, asked: seq<File>)
    requires Parted(check, included, sources, result, observations, asked)
    ensures result.stale == Select(check, included, sources, false)
    ensures result.upToDate == Select(check, included, sources, true)
    ensures Explained(check, included, sources, result.staleReasons)
  {
  }

  lemma PartedMemo(check: Check, included: map<File, seq<File>>, sources: seq<File>, result: Partitioned,
                   observations: map<File, FileObservation>, asked: seq<File>)
    requires Parted(check, included, sources, result, observations, asked)
    ensures Remembered(check, observations, asked, result.observedMtime)
  {
  }

  lemma PartedStep(check: Check, included: map<File, seq<File>>, sources: seq<File>, result: Partitioned,
                   observations: map<File, FileObservation>, asked: seq<File>, source: File,
                   seen: map<File, FileObservation>, asking: seq<File>, times: map<File, Time>,
                   first: Option<Staleness>)
    requires Parted(check, included, sources, result, observations, asked)
    requires Remembered(check, seen, asking, times)
    requires forall f :: f in seen <==> f in observations || f in Closure(included, source)
    requires first.None? <==> UpToDate(check, Closure(included, source))
    requires first.Some? ==> Explains(check, Closure(included, source), first.value)
    ensures Parted(check, included, sources + [source],
              Advance(result, source, times, first),
              seen, asking)
  {
    hide Select, UpToDate, Explains, Explained, Remembered, Visited;
    VisitedStep(included, sources, source);
    ExplainedStep(check, included, sources, result.staleReasons, source, first);
    SelectStep(check, included, sources, source, true);
    SelectStep(check, included, sources, source, false);
  }

  /** The verdict on one more source, recorded unless the source was explained before. */
  function Explain(staleReasons: map<File, Staleness>, source: File, first: Option<Staleness>): map<File, Staleness> {
    if first.Some? && source !in staleReasons then staleReasons[source := first.value] else staleReasons
  }

  lemma ExplainedStep(check: Check, included: map<File, seq<File>>, sources: seq<File>,
                      staleReasons: map<File, Staleness>, source: File, first: Option<Staleness>)
    requires Explained(check, included, sources, staleReasons)
    requires first.None? <==> UpToDate(check, Closure(included, source))
    requires first.Some? ==> Explains(check, Closure(included, source), first.value)
    ensures Explained(check, included, sources + [source], Explain(staleReasons, source, first))
  {
    hide UpToDate, Explains;
  }

  lemma SelectStep(check: Check, included: map<File, seq<File>>, sources: seq<File>, source: File, wanted: bool)
    ensures Select(check, included, sources + [source], wanted) ==
            var before := Select(check, included, sources, wanted);
            if UpToDate(check, Closure(included, source)) == wanted then before + [source] else before
  {
    assert (sources + [source])[..|sources|] == sources;
  }

  lemma VisitedStep(included: map<File, seq<File>>, sources: seq<File>, source: File)
    ensures forall f ::
      Visited(included, sources + [source], f) <==> Visited(included, sources, f) || f in Closure(included, source)
  {
    forall f | f in Closure(included, source) ensures Visited(included, sources + [source], f) {
      assert source in sources + [source];
    }
    forall f | Visited(included, sources, f) ensures Visited(included, sources + [source], f) {
      var s :| s in sources && f in Closure(included, s);
      assert s in sources + [source];
    }
  }

  /** A source is in exactly one part: up to date when every file of its closure is. */
  lemma {:induction false} SelectMember(check: Check, included: map<File, seq<File>>, sources: seq<File>, wanted: bool,
                                        source: File)
    ensures source in Select(check, included, sources, wanted) <==>
            source in sources && UpToDate(check, Closure(included, source)) == wanted
  {
    if sources != [] {
      var last := |sources| - 1;
      SelectMember(check, included, sources[..last], wanted, source);
      assert sources == sources[..last] + [sources[last]];
    }
  }

  // ----- the files to mark -----

  /** The first occurrences of a list, in order. */
  function FirstSeen(files: seq<File>): seq<File> {
    if files == [] then []
    else
      var before := FirstSeen(files[..|files| - 1]);
      var last := files[|files| - 1];
      if last in before then before else before + [last]
  }

  function Closures(included: map<File, seq<File>>, sources: seq<File>): seq<File> {
    if sources == [] then []
    else Closures(included, sources[..|sources| - 1]) + Closure(included, sources[|sources| - 1])
  }

  method AddUnseen(files: seq<File>, seen: set<File>, closure: seq<File>, ghost before: seq<File>)
    returns (result: seq<File>, seeing: set<File>)
    requires files == FirstSeen(before) && forall f :: f in seen <==> f in files
    ensures result == FirstSeen(before + closure) && forall f :: f in seeing <==> f in result
  {
    result, seeing := files, seen;
    assert before + closure[..0] == before;
    for i := 0 to |closure|
      invariant result == FirstSeen(before + closure[..i])
      invariant forall f :: f in seeing <==> f in result
    {
      var file := closure[i];
      ghost var longer := before + closure[..i + 1];
      assert longer[..|longer| - 1] == before + closure[..i];
      if file !in seeing {
        seeing := seeing + {file};
        result := result + [file];
      }
    }
    assert closure[..|closure|] == closure;
  }

  method FilesToMark(stale: seq<File>, included: map<File, seq<File>>) returns (result: seq<File>)
    ensures result == FirstSeen(Closures(included, stale))
    ensures Distinct(result) && forall f :: f in result <==> Visited(included, stale, f)
  {
    result := [];
    var seen: set<File> := {};
    for n := 0 to |stale|
      invariant result == FirstSeen(Closures(included, stale[..n]))
      invariant forall f :: f in seen <==> f in result
    {
      assert stale[..n + 1][..n] == stale[..n];
      result, seen := AddUnseen(result, seen, Closure(included, stale[n]), Closures(included, stale[..n]));
    }
    assert stale[..|stale|] == stale;
    FirstSeenMembers(Closures(included, stale));
    ClosuresMembers(included, stale);
  }

  /** First-seen order repeats nothing and drops nothing. */
  lemma {:induction false} FirstSeenMembers(files: seq<File>)
    ensures forall f :: f in FirstSeen(files) <==> f in files
    ensures Distinct(FirstSeen(files))
  {
    if files != [] {
      FirstSeenMembers(files[..|files| - 1]);
      assert files == files[..|files| - 1] + [files[|files| - 1]];
    }
  }

  lemma {:induction false} ClosuresMembers(included: map<File, seq<File>>, sources: seq<File>)
    ensures forall f :: f in Closures(included, sources) <==> Visited(included, sources, f)
  {
    if sources != [] {
      var last := |sources| - 1;
      ClosuresMembers(included, sources[..last]);
      assert sources == sources[..last] + [sources[last]];
    }
  }
}
