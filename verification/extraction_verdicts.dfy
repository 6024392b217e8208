/** What an extraction decides about each file and source, over every run, disturbed or not: forced runs, file rows
    that cannot be read, and the rule that a verdict names (src/commands/ExtractionFreshness.cpp,
    src/commands/Extract.cpp). */
module ExtractionVerdicts {
  import opened Text
  import opened Freshness
  import opened Extraction

  // ----- the rule that a verdict names -----

  /** The rules in the order in which they are asked. */
  const RULES := [NotIndexed, FactsDatabaseChanged, GitCommitChanged, MtimeUnavailable, MtimeChanged]

  predicate Broken(rule: Reason, row: IndexState, now: Observed) {
    match rule
    case NotIndexed => !(row.indexed && row.factsDb != "")
    case FactsDatabaseChanged => row.factsDb != now.factsDb
    case GitCommitChanged => row.gitCommit != now.gitCommit
    case MtimeUnavailable => row.mtime == None || now.mtime == None
    case MtimeChanged => row.mtime != now.mtime
    case _ => false
  }

  /** The reason is the first rule that is broken. */
  ghost predicate FirstBroken(reason: Option<Reason>, row: IndexState, now: Observed) {
    match reason
    case None => forall rule <- RULES :: !Broken(rule, row, now)
    case Some(named) =>
      exists i | 0 <= i < |RULES| ::
        RULES[i] == named && Broken(named, row, now) && forall j | 0 <= j < i :: !Broken(RULES[j], row, now)
  }

  lemma NamesFirstBroken(row: IndexState, now: Observed)
    ensures FirstBroken(StaleReason(row, now), row, now)
  {
    var reason := StaleReason(row, now);
    if reason.Some? {
      var i := if reason == Some(NotIndexed) then 0 else if reason == Some(FactsDatabaseChanged) then 1
               else if reason == Some(GitCommitChanged) then 2 else if reason == Some(MtimeUnavailable) then 3 else 4;
      assert RULES[i] == reason.value && Broken(reason.value, row, now);
    }
  }

  // ----- every verdict of a run -----

  /** The verdict on a file as the state is, by the kind of the run and whether its row can be read. */
  ghost predicate VerdictAt(st: State, output: Output, force: bool, file: File, unavailable: bool,
                            seen: FileObservation) {
    seen.mtime == MtimeOf(st, file) &&
    if force then seen.reason == Some(Forced)
    else if unavailable then seen.reason == Some(IndexStateUnavailable)
    else FirstBroken(seen.reason, RowOf(st, file), Observed(output, GitOf(st, file), MtimeOf(st, file)))
  }

  /** The verdict was given at one event of the run, on the state as it was then. */
  ghost predicate Given(world: World, st: State, events: seq<Event>, output: Output, force: bool, file: File,
                        seen: FileObservation) {
    exists k: nat | k < |events| :: GivenBy(world, st, events, output, force, file, seen, k)
  }

  ghost predicate GivenBy(world: World, st: State, events: seq<Event>, output: Output, force: bool, file: File,
                          seen: FileObservation, k: nat)
    requires k < |events|
  {
    events[k].Observe? && events[k].file == file && Trace(world, st, events[..k]).Some? &&
    VerdictAt(Trace(world, st, events[..k]).value, output, force, file, events[k].unavailable, seen)
  }

  /** The run started with these arguments, as far as it has come. */
  ghost predicate Started(world: World, st: State, output: Output, sources: set<File>, force: bool) {
    match st.run
    case Idle => true
    case Discovering(o, s, f, found) => o == output && s == sources && f == force && found.Keys == sources
    case Observing(o, s, f, found, _) =>
      o == output && s == sources && f == force && found.Keys == sources &&
      forall source <- found :: source in found[source]
    case Parsing(o, s, found, seen, stale, read) =>
      o == output && s == sources && found.Keys == sources && AllSeen(found, seen) && stale != {} &&
      read.Keys == stale == StaleSources(found, seen) && forall source <- found :: source in found[source]
    case Recording(o, _, _, _) => o == output
  }

  lemma StartedStep(world: World, st: State, event: Event, output: Output, sources: set<File>, force: bool)
    requires Started(world, st, output, sources, force) && !event.Start? && Step(world, st, event).Some?
    ensures Started(world, Step(world, st, event).value, output, sources, force)
  {
    hide MayRead, CheckFile, JudgedUpToDate, Marks, RecordedMtime;
    if !event.Partition? {
      hide AllSeen, StaleSources;
    }
  }

  function SeenOf(run: Run): map<File, FileObservation> {
    match run
    case Observing(_, _, _, _, seen) => seen
    case Parsing(_, _, _, seen, _, _) => seen
    case Recording(_, seen, _, _) => seen
    case _ => map[]
  }

  /** A step keeps the verdicts there are, and only looking at a file adds one. */
  lemma SeenStep(world: World, st: State, event: Event, output: Output, sources: set<File>, force: bool)
    requires Started(world, st, output, sources, force) && Step(world, st, event).Some? && !event.Start?
    ensures forall f <- SeenOf(Step(world, st, event).value.run) ::
      var seen := SeenOf(Step(world, st, event).value.run)[f];
      (f in SeenOf(st.run) && SeenOf(st.run)[f] == seen) ||
      (event.Observe? && event.file == f && VerdictAt(st, output, force, f, event.unavailable, seen))
  {
    hide MayRead, Complete, JudgedUpToDate, Marks, RecordedMtime, StaleReason, FirstBroken;
    if event.Observe? {
      NamesFirstBroken(RowOf(st, event.file), Observed(output, GitOf(st, event.file), MtimeOf(st, event.file)));
    }
  }

  lemma {:induction false} LastStep(world: World, st: State, events: seq<Event>)
    requires events != [] && Trace(world, st, events).Some?
    ensures var before := Trace(world, st, events[..|events| - 1]);
      before.Some? && Step(world, before.value, events[|events| - 1]) == Trace(world, st, events)
    decreases |events|
  {
    hide Step;
    if |events| == 1 {
      assert events[1..] == [];
    } else {
      assert events[1..][..|events| - 2] == events[..|events| - 1][1..];
      LastStep(world, Step(world, st, events[0]).value, events[1..]);
    }
  }

  lemma MoreEvents(world: World, st: State, events: seq<Event>, event: Event, output: Output, force: bool, file: File,
                   seen: FileObservation)
    requires Given(world, st, events, output, force, file, seen)
    ensures Given(world, st, events + [event], output, force, file, seen)
  {
    hide VerdictAt, Trace;
    var k: nat :| k < |events| && GivenBy(world, st, events, output, force, file, seen, k);
    assert (events + [event])[..k] == events[..k] && (events + [event])[k] == events[k];
    assert GivenBy(world, st, events + [event], output, force, file, seen, k);
  }

  /** In every run of the program, whatever happens around it, the verdict on each file was given at one look at it: a
      forced run says so, a row that cannot be read is said to be unavailable, and otherwise the verdict names the
      first rule that row, commit and modification time broke at that moment, or none if none was broken. */
  lemma {:induction false} VerdictsExactly(world: World, st: State, output: Output, sources: set<File>, force: bool,
                                           events: seq<Event>, last: State)
    requires Started(world, st, output, sources, force) && SeenOf(st.run) == map[]
    requires Trace(world, st, events) == Some(last) && forall e <- events :: !e.Start?
    ensures Started(world, last, output, sources, force)
    ensures forall f <- SeenOf(last.run) :: Given(world, st, events, output, force, f, SeenOf(last.run)[f])
    decreases |events|
  {
    hide Step, Started, VerdictAt, SeenOf, Given;
    if events != [] {
      var n := |events| - 1;
      var before, event := events[..n], events[n];
      LastStep(world, st, events);
      var mid := Trace(world, st, before).value;
      assert events == before + [event] && event in events;
      VerdictsExactly(world, st, output, sources, force, before, mid);
      StartedStep(world, mid, event, output, sources, force);
      SeenStep(world, mid, event, output, sources, force);
      forall f <- SeenOf(last.run) ensures Given(world, st, events, output, force, f, SeenOf(last.run)[f]) {
        if f in SeenOf(mid.run) && SeenOf(mid.run)[f] == SeenOf(last.run)[f] {
          MoreEvents(world, st, before, event, output, force, f, SeenOf(mid.run)[f]);
        } else {
          GivenNow(world, st, events, output, force, f, SeenOf(last.run)[f]);
        }
      }
    }
  }

  lemma GivenNow(world: World, st: State, events: seq<Event>, output: Output, force: bool, file: File,
                 seen: FileObservation)
    requires events != [] && GivenBy(world, st, events, output, force, file, seen, |events| - 1)
    ensures Given(world, st, events, output, force, file, seen)
  {
  }

  lemma StartStep(world: World, st: State, output: Output, sources: set<File>, force: bool, events: seq<Event>)
    requires Trace(world, st, [Start(output, sources, force)] + events).Some?
    ensures st.run.Idle? && output != ""
    ensures var first := Step(world, st, Start(output, sources, force)).value;
      Started(world, first, output, sources, force) && SeenOf(first.run) == map[] &&
      first == st.(run := first.run) &&
      Trace(world, first, events) == Trace(world, st, [Start(output, sources, force)] + events)
  {
    assert ([Start(output, sources, force)] + events)[1..] == events;
  }

  // ----- forced runs -----

  /** Every verdict of a forced run is that it was forced, and every selected source is stale: with any source
      selected the next step parses all of them. */
  lemma ForcedRunParsesAll(world: World, st: State, output: Output, sources: set<File>, events: seq<Event>, last: State)
    requires Trace(world, st, [Start(output, sources, true)] + events) == Some(last)
    requires last.run.Observing? && forall e <- events :: !e.Start?
    ensures last.run.output == output && last.run.found.Keys == sources
    ensures forall f <- last.run.seen :: last.run.seen[f].reason == Some(Forced)
    ensures AllSeen(last.run.found, last.run.seen) ==>
      StaleSources(last.run.found, last.run.seen) == sources &&
      (sources != {} ==>
         var next := Step(world, last, Partition);
         next.Some? && next.value.run.Parsing? && next.value.run.stale == sources &&
         next.value.run.read == map s | s in sources :: map[])
  {
    StartStep(world, st, output, sources, true, events);
    var first := Step(world, st, Start(output, sources, true)).value;
    VerdictsExactly(world, first, output, sources, true, events, last);
    hide Trace, CheckFile, Given;
    forall f <- last.run.seen ensures last.run.seen[f].reason == Some(Forced) {
      GivenForced(world, first, events, output, f, SeenOf(last.run)[f]);
    }
  }

  lemma GivenForced(world: World, st: State, events: seq<Event>, output: Output, file: File, seen: FileObservation)
    requires Given(world, st, events, output, true, file, seen)
    ensures seen.reason == Some(Forced)
  {
  }

  /** A forced run replaces the facts of every selected source by what it parsed, and marks all their closures. */
  lemma ForcedRunReplacesAll(world: World, st: State, output: Output, sources: set<File>, events: seq<Event>,
                             mid: State, last: State)
    requires Trace(world, st, [Start(output, sources, true)] + events) == Some(mid)
    requires Step(world, mid, Commit) == Some(last) && forall e <- events :: !e.Start?
    ensures mid.run.Parsing? && mid.run.found.Keys == mid.run.read.Keys == sources
    ensures forall s <- sources ::
      s in FactsOf(last.facts, output) && FactsOf(last.facts, output)[s] == mid.run.read[s] &&
      Complete(world, s, mid.run.read[s])
    ensures forall s <- FactsOf(mid.facts, output).Keys - sources ::
      s in FactsOf(last.facts, output) && FactsOf(last.facts, output)[s] == FactsOf(mid.facts, output)[s]
    ensures last.run.Recording? && forall f :: f in last.run.marks <==> InSomeClosure(mid.run.found, f)
  {
    StartStep(world, st, output, sources, true, events);
    var first := Step(world, st, Start(output, sources, true)).value;
    VerdictsExactly(world, first, output, sources, true, events, mid);
    forall f <- SeenOf(mid.run) ensures SeenOf(mid.run)[f].reason == Some(Forced) {
      GivenForced(world, first, events, output, f, SeenOf(mid.run)[f]);
    }
    hide Trace, Given;
    AllForced(world, mid, output, sources);
    CommitReplaces(world, mid, output, last);
  }

  lemma AllForced(world: World, st: State, output: Output, sources: set<File>)
    requires Started(world, st, output, sources, true) && st.run.Parsing?
    requires forall f <- SeenOf(st.run) :: SeenOf(st.run)[f].reason == Some(Forced)
    ensures st.run.output == output && st.run.stale == st.run.found.Keys == st.run.read.Keys == sources
  {
    forall s <- sources ensures s in st.run.stale {
      assert s in st.run.found[s] && s in SeenOf(st.run);
    }
  }

  lemma CommitReplaces(world: World, st: State, output: Output, next: State)
    requires st.run.Parsing? && st.run.output == output && st.run.stale == st.run.found.Keys == st.run.read.Keys
    requires Step(world, st, Commit) == Some(next)
    ensures var was, now, read := FactsOf(st.facts, output), FactsOf(next.facts, output), st.run.read;
      (forall s <- read :: s in now && now[s] == read[s] && Complete(world, s, read[s])) &&
      forall s <- was.Keys - read.Keys :: s in now && now[s] == was[s]
    ensures next.run.Recording? && forall f :: f in next.run.marks <==> InSomeClosure(st.run.found, f)
  {
    hide Complete;
  }

  // ----- rows that cannot be read -----

  lemma {:induction false} Split(world: World, st: State, events: seq<Event>, k: nat)
    requires k <= |events| && Trace(world, st, events).Some?
    ensures Trace(world, st, events[..k]).Some?
    ensures Trace(world, Trace(world, st, events[..k]).value, events[k..]) == Trace(world, st, events)
    decreases k
  {
    hide Step;
    if k == 0 {
      assert events[..0] == [] && events[0..] == events;
    } else {
      assert events[..k][1..] == events[1..][..k - 1] && events[1..][k - 1..] == events[k..];
      Split(world, Step(world, st, events[0]).value, events[1..], k - 1);
    }
  }

  /** The verdict on a file, once given, is the one that counts. */
  predicate Decided(run: Run, file: File, seen: FileObservation) {
    !run.Discovering? && (run.Observing? ==> file in run.seen && run.seen[file] == seen)
  }

  lemma {:induction false} StaysDecided(world: World, st: State, events: seq<Event>, file: File, seen: FileObservation)
    requires Decided(st.run, file, seen) && Trace(world, st, events).Some? && forall e <- events :: !e.Start?
    ensures Decided(Trace(world, st, events).value.run, file, seen)
    decreases |events|
  {
    if events != [] {
      var next := Step(world, st, events[0]).value;
      assert events[0] in events;
      DecidedStep(world, st, events[0], file, seen);
      hide Step, Decided;
      StaysDecided(world, next, events[1..], file, seen);
    }
  }

  lemma DecidedStep(world: World, st: State, event: Event, file: File, seen: FileObservation)
    requires Decided(st.run, file, seen) && Step(world, st, event).Some? && !event.Start?
    ensures Decided(Step(world, st, event).value.run, file, seen)
  {
    hide MayRead, Complete, CheckFile, AllSeen, StaleSources, Marks, RecordedMtime;
  }

  /** Each look at a file in a run decides its verdict, on the state as it is then. */
  lemma LookDecides(world: World, st: State, output: Output, sources: set<File>, force: bool, events: seq<Event>,
                    k: nat, last: State)
    requires Trace(world, st, [Start(output, sources, force)] + events) == Some(last)
    requires last.run.Observing? && forall e <- events :: !e.Start?
    requires k < |events| && events[k].Observe?
    ensures var at, file := Trace(world, st, [Start(output, sources, force)] + events[..k]), events[k].file;
      at.Some? && file in last.run.seen &&
      VerdictAt(at.value, output, force, file, events[k].unavailable, last.run.seen[file])
  {
    StartStep(world, st, output, sources, force, events);
    var first := Step(world, st, Start(output, sources, force)).value;
    var file := events[k].file;
    Split(world, first, events, k);
    var at := Trace(world, first, events[..k]).value;
    assert ([Start(output, sources, force)] + events[..k])[1..] == events[..k];
    VerdictsExactly(world, first, output, sources, force, events[..k], at);
    assert events[k..][0] == events[k] && events[k..][1..] == events[k + 1..];
    var next := Step(world, at, events[k]).value;
    SeenStep(world, at, events[k], output, sources, force);
    Looked(world, at, events[k]);
    hide Trace, Given, VerdictAt, Started, Step;
    StaysDecided(world, next, events[k + 1..], file, SeenOf(next.run)[file]);
  }

  lemma Looked(world: World, st: State, event: Event)
    requires event.Observe? && Step(world, st, event).Some?
    ensures event.file !in SeenOf(st.run) && event.file in SeenOf(Step(world, st, event).value.run)
    ensures Decided(Step(world, st, event).value.run, event.file, SeenOf(Step(world, st, event).value.run)[event.file])
  {
    hide CheckFile;
  }

  /** When the row of a file cannot be read, an unforced run says so, and every source with the file in its closure is
      stale. */
  lemma UnavailableIsStale(world: World, st: State, output: Output, sources: set<File>, events: seq<Event>, k: nat,
                           last: State)
    requires Trace(world, st, [Start(output, sources, false)] + events) == Some(last)
    requires last.run.Observing? && forall e <- events :: !e.Start?
    requires k < |events| && events[k].Observe? && events[k].unavailable
    ensures var file := events[k].file;
      file in last.run.seen && last.run.seen[file].reason == Some(IndexStateUnavailable) &&
      (AllSeen(last.run.found, last.run.seen) ==>
         forall s <- last.run.found | file in last.run.found[s] :: s in StaleSources(last.run.found, last.run.seen))
  {
    LookDecides(world, st, output, sources, false, events, k, last);
    hide Trace;
  }

  // ----- what makes a source stale -----

  /** The file is written, its commit is no longer the recorded one, or its row is wiped. */
  predicate Unsettles(st: State, event: Event, file: File) {
    match event
    case Edit(f) => f == file
    case GitCommit(f, commit) => f == file && RowOf(st, file).gitCommit != Some(commit)
    case ClearIndexState(f) => f == file
    case _ => false
  }

  /** After such an event the next undisturbed unforced run finds every source stale that has the file in its
      closure. */
  lemma UnsettledIsStale(world: World, st: State, event: Event, file: File, output: Output, sources: set<File>,
                         events: seq<Event>, last: State, source: File)
    requires Inv(world, st) && st.run.Idle? && Unsettles(st, event, file)
    requires Trace(world, st, [event, Start(output, sources, false)] + events) == Some(last)
    requires forall e <- events :: Undisturbed(e) && !e.Start? && !e.Commit? && !e.Mark?
    requires last.run.Observing? && AllSeen(last.run.found, last.run.seen)
    requires source in last.run.found && file in last.run.found[source]
    ensures !JudgedUpToDate(last.run.found, last.run.seen, source)
  {
    var next := Step(world, st, event).value;
    assert ([event, Start(output, sources, false)] + events)[1..] == [Start(output, sources, false)] + events;
    NotFresh(world, st, event, file, output);
    hide Inv, Step, RowFresh;
    JudgedExactly(world, next, output, sources, events, last, source);
  }

  lemma NotFresh(world: World, st: State, event: Event, file: File, output: Output)
    requires Inv(world, st) && st.run.Idle? && Unsettles(st, event, file)
    ensures Step(world, st, event).Some? && Step(world, st, event).value.run.Idle?
    ensures !RowFresh(Step(world, st, event).value, output, file)
  {
    hide FactsOk;
  }

  // ----- what a run records -----

  /** The record of the file was prepared at one event of the run: it names the output and the commit of that moment,
      and the time that was observed before the parse, or that of the moment when none was. */
  ghost predicate PreparedAt(world: World, st: State, events: seq<Event>, file: File, record: IndexState, k: nat)
    requires st.run.Recording? && k < |events|
  {
    events[k] == Prepare(file) && Trace(world, st, events[..k]).Some? && record.indexed &&
    record.factsDb == st.run.output && record.mtime.Some? &&
    var at := Trace(world, st, events[..k]).value;
    record.gitCommit == GitOf(at, file) &&
    record.mtime == if WasObserved(st.run.seen, file) then st.run.seen[file].mtime else MtimeOf(at, file)
  }

  ghost predicate PreparedIn(world: World, st: State, events: seq<Event>, file: File, record: IndexState)
    requires st.run.Recording?
  {
    exists k: nat | k < |events| :: PreparedAt(world, st, events, file, record, k)
  }

  /** Recording what was committed, with these records, or done with it. */
  ghost predicate StillRecording(world: World, st: State, events: seq<Event>, run: Run)
    requires st.run.Recording?
  {
    run.Idle? ||
    (run.Recording? && run.output == st.run.output && run.seen == st.run.seen && run.marks == st.run.marks &&
     forall f <- run.records :: PreparedIn(world, st, events, f, run.records[f]))
  }

  lemma MorePrepared(world: World, st: State, events: seq<Event>, event: Event, file: File, record: IndexState)
    requires st.run.Recording? && PreparedIn(world, st, events, file, record)
    ensures PreparedIn(world, st, events + [event], file, record)
  {
    hide Trace;
    var k: nat :| k < |events| && PreparedAt(world, st, events, file, record, k);
    assert (events + [event])[..k] == events[..k] && (events + [event])[k] == events[k];
    assert PreparedAt(world, st, events + [event], file, record, k);
  }

  lemma RecordingStep(world: World, st: State, event: Event)
    requires st.run.Recording? && Step(world, st, event).Some? && !event.Start?
    ensures var next := Step(world, st, event).value.run;
      next.Idle? ||
      (next.Recording? && next.output == st.run.output && next.seen == st.run.seen && next.marks == st.run.marks &&
       forall f <- next.records :: (f in st.run.records && next.records[f] == st.run.records[f]) ||
         (event == Prepare(f) && next.records[f].mtime.Some? && next.records[f] ==
            IndexState(true, st.run.output, GitOf(st, f),
                       if WasObserved(st.run.seen, f) then st.run.seen[f].mtime else MtimeOf(st, f))))
  {
    hide MayRead, Complete, CheckFile, AllSeen, StaleSources;
  }

  lemma IdleStays(world: World, st: State, event: Event)
    requires st.run.Idle? && Step(world, st, event).Some? && !event.Start?
    ensures Step(world, st, event).value.run.Idle?
  {
  }

  lemma {:induction false} RecordsPrepared(world: World, st: State, events: seq<Event>)
    requires st.run.Recording? && st.run.records == map[] && Trace(world, st, events).Some?
    requires forall e <- events :: !e.Start?
    ensures StillRecording(world, st, events, Trace(world, st, events).value.run)
    decreases |events|
  {
    if events != [] {
      var n := |events| - 1;
      var before, event := events[..n], events[n];
      LastStep(world, st, events);
      var mid, last := Trace(world, st, before).value, Trace(world, st, events).value;
      assert events == before + [event] && event in events;
      RecordsPrepared(world, st, before);
      hide Step, Trace, PreparedIn;
      if mid.run.Idle? {
        IdleStays(world, mid, event);
      } else {
        RecordingStep(world, mid, event);
        if last.run.Recording? {
          forall f <- last.run.records ensures PreparedIn(world, st, events, f, last.run.records[f]) {
            if f in mid.run.records && last.run.records[f] == mid.run.records[f] {
              MorePrepared(world, st, before, event, f, mid.run.records[f]);
            } else {
              PreparedNow(world, st, events, f, last.run.records[f]);
            }
          }
        }
      }
    }
  }

  lemma PreparedNow(world: World, st: State, events: seq<Event>, file: File, record: IndexState)
    requires st.run.Recording? && events != [] && PreparedAt(world, st, events, file, record, |events| - 1)
    ensures PreparedIn(world, st, events, file, record)
  {
  }

  /** A run ends by writing, for every marked file, the record that was prepared for it, and leaves all other rows. */
  lemma RunRecordsExactly(world: World, st: State, events: seq<Event>, last: State)
    requires st.run.Recording? && st.run.records == map[] && forall e <- events :: !e.Start?
    requires Trace(world, st, events).Some? && Step(world, Trace(world, st, events).value, Mark) == Some(last)
    ensures last.run == Idle
    ensures forall f <- st.run.marks ::
      f in last.registry && PreparedIn(world, st, events, f, last.registry[f])
    ensures var before := Trace(world, st, events).value.registry;
      forall f | f !in st.run.marks ::
        (f in last.registry <==> f in before) && (f in before ==> last.registry[f] == before[f])
  {
    RecordsPrepared(world, st, events);
    hide Trace, PreparedIn;
  }

  // ----- runs that give up -----

  /** The files whose rows the events wipe. */
  function Wiped(events: seq<Event>): set<File> {
    set e | e in events && e.ClearIndexState? :: e.file
  }

  lemma {:induction false} NothingStored(world: World, st: State, events: seq<Event>)
    requires Trace(world, st, events).Some? && forall e <- events :: !e.Commit? && !e.Mark?
    ensures var last := Trace(world, st, events).value;
      last.facts == st.facts && last.registry == st.registry - Wiped(events)
    decreases |events|
  {
    if events == [] {
      assert st.registry - {} == st.registry;
    } else {
      var rest, next := events[1..], Step(world, st, events[0]).value;
      assert events == [events[0]] + rest && events[0] in events;
      StoresNothing(world, st, events[0]);
      hide Step;
      NothingStored(world, next, rest);
      if events[0].ClearIndexState? {
        assert Wiped(events) == {events[0].file} + Wiped(rest);
        assert st.registry - {events[0].file} - Wiped(rest) == st.registry - Wiped(events);
      } else {
        assert Wiped(events) == Wiped(rest);
      }
    }
  }

  lemma StoresNothing(world: World, st: State, event: Event)
    requires Step(world, st, event).Some? && !event.Commit? && !event.Mark?
    ensures var next := Step(world, st, event).value;
      next.facts == st.facts &&
      next.registry == if event.ClearIndexState? then st.registry - {event.file} else st.registry
  {
    hide MayRead, Complete, CheckFile, AllSeen, StaleSources, RecordedMtime;
  }

  /** A run that gives up before its commit leaves facts and rows as they were, but for rows wiped by others. */
  lemma AbandonedLeaves(world: World, st: State, events: seq<Event>, last: State)
    requires Trace(world, st, events + [Abandon]) == Some(last) && forall e <- events :: !e.Commit? && !e.Mark?
    ensures last.run == Idle && last.facts == st.facts && last.registry == st.registry - Wiped(events)
  {
    LastStep(world, st, events + [Abandon]);
    assert (events + [Abandon])[..|events|] == events;
    NothingStored(world, st, events);
  }
}
