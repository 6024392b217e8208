/** The batch runner: at most a given number of child processes at a time, stopped by a signal, with one serial
    retry of the children that met a locked database (scripts/facts_batch_run.py, facts_batch_retry.py,
    facts_batch_process.py). The children, the clock and the signals are the nondeterministic environment; a
    source is named by its position in the list. */
module Batch {
  import opened Text

  /** A running child of one source. */
  datatype Child = Child(pid: nat, job: nat)

  datatype Failure = Failure(job: nat, status: int)

  datatype Outcome = LaunchError | Exit(code: int)

  const SIGINT := 2
  const SIGTERM := 15

  function Jobs(active: seq<Child>): set<nat> {
    set c | c in active :: c.job
  }

  function FailedJobs(failed: seq<Failure>): set<nat> {
    set f | f in failed :: f.job
  }

  ghost predicate DistinctJobs(active: seq<Child>) {
    forall i, j | 0 <= i < j < |active| :: active[i].job != active[j].job
  }

  ghost predicate DistinctPids(active: seq<Child>) {
    forall i, j | 0 <= i < j < |active| :: active[i].pid != active[j].pid
  }

  ghost predicate DistinctFailures(failed: seq<Failure>) {
    forall i, j | 0 <= i < j < |failed| :: failed[i].job != failed[j].job
  }

  /** del active[process]. */
  function Without(active: seq<Child>, pid: nat): seq<Child> {
    if active == [] then []
    else if active[0].pid == pid then active[1..]
    else [active[0]] + Without(active[1..], pid)
  }

  lemma {:induction false} WithoutMiddle(kept: seq<Child>, child: Child, rest: seq<Child>)
    requires DistinctPids(kept + [child] + rest)
    ensures Without(kept + [child] + rest, child.pid) == kept + rest
  {
    var all := kept + [child] + rest;
    if kept == [] {
      assert all[0] == child && all[1..] == rest;
    } else {
      assert all[0] == kept[0] && all[|kept|] == child;
      assert all[1..] == kept[1..] + [child] + rest;
      forall i, j | 0 <= i < j < |all| - 1 ensures all[1..][i].pid != all[1..][j].pid {
        assert all[i + 1].pid != all[j + 1].pid;
      }
      WithoutMiddle(kept[1..], child, rest);
    }
  }

  /** What is known about the children launched so far: `next` sources were started, `finished` of them have
      ended with the statuses in `last`. */
  datatype Ledger = Ledger(next: nat, finished: set<nat>, last: map<nat, int>)

  /** Every source started is either running or finished, once. */
  ghost predicate Accounted(ledger: Ledger, active: seq<Child>, completed: nat) {
    && DistinctJobs(active) && DistinctPids(active)
    && (forall job: nat :: job in Jobs(active) || job in ledger.finished <==> job < ledger.next)
    && (forall job <- ledger.finished :: job !in Jobs(active))
    && |ledger.finished| == completed
    && ledger.finished <= ledger.last.Keys
  }

  /** A failure carries the status of the last attempt, or says that a signal stopped it. */
  predicate FailureExplained(ledger: Ledger, failure: Failure, interrupted: int) {
    failure.job in ledger.finished && failure.job in ledger.last && failure.status != 0 &&
    (failure.status == ledger.last[failure.job] || (interrupted != 0 && failure.status == 128 + interrupted))
  }

  /** The failures are listed once each, and no attempt that ended badly is missing. */
  ghost predicate Reported(ledger: Ledger, failed: seq<Failure>, interrupted: int) {
    && DistinctFailures(failed)
    && (forall f <- failed :: FailureExplained(ledger, f, interrupted))
    && (forall job <- ledger.finished :: job in ledger.last && (ledger.last[job] != 0 ==> job in FailedJobs(failed)))
  }

  ghost predicate Signalled(interrupted: int) {
    interrupted == 0 || interrupted == SIGINT || interrupted == SIGTERM
  }

  lemma WithoutKeeps(ledger: Ledger, active: seq<Child>, completed: nat, i: nat, status: int)
    requires Accounted(ledger, active, completed) && i < |active|
    ensures var job := active[i].job;
      job !in ledger.finished && job < ledger.next &&
      Accounted(Ended(ledger, job, status), active[..i] + active[i + 1..], completed + 1)
  {
    var rest := active[..i] + active[i + 1..];
    var job := active[i].job;
    assert active[i] in active && job in Jobs(active);
    forall j ensures j in Jobs(rest) <==> j in Jobs(active) && j != job {
      if j in Jobs(active) && j != job {
        var c :| c in active && c.job == j;
        assert c in active[..i] || c in active[i + 1..];
      }
      if j in Jobs(rest) {
        var k :| 0 <= k < |rest| && rest[k].job == j;
        assert rest[k] == active[if k < i then k else k + 1];
      }
    }
  }

  function Ended(ledger: Ledger, job: nat, status: int): Ledger {
    ledger.(finished := ledger.finished + {job}, last := ledger.last[job := status])
  }

  /** A child that ended badly is listed; one that ended well is not. */
  lemma EndedReported(ledger: Ledger, failed: seq<Failure>, interrupted: int, job: nat, status: int, shown: int)
    requires Reported(ledger, failed, interrupted) && job !in ledger.finished
    requires shown == status || (interrupted != 0 && shown == 128 + interrupted)
    requires shown == 0 ==> status == 0
    ensures Reported(Ended(ledger, job, status), if shown != 0 then failed + [Failure(job, shown)] else failed,
                     interrupted)
  {
    var after := Ended(ledger, job, status);
    var more := failed + [Failure(job, shown)];
    assert forall f <- failed :: f.job in ledger.finished;
    forall f <- failed ensures FailureExplained(after, f, interrupted) {
      assert FailureExplained(ledger, f, interrupted);
    }
    MoreFailures(failed, Failure(job, shown));
  }

  lemma MoreFailures(failed: seq<Failure>, failure: Failure)
    ensures FailedJobs(failed + [failure]) == FailedJobs(failed) + {failure.job}
    ensures DistinctFailures(failed) && failure.job !in FailedJobs(failed) ==> DistinctFailures(failed + [failure])
  {
    assert forall f :: f in failed + [failure] <==> f in failed || f == failure;
  }

  /** The failures added after the first `count` carry the status of the attempt, or the signal for a child that
      was stopped and still ended well. */
  ghost predicate AddedExactly(ledger: Ledger, failed: seq<Failure>, count: nat, interrupted: int) {
    count <= |failed| &&
    forall i | count <= i < |failed| ::
      failed[i].job in ledger.finished && failed[i].job in ledger.last &&
      failed[i].status == Shown(ledger.last[failed[i].job], interrupted)
  }

  function Shown(status: int, interrupted: int): int {
    if status != 0 || interrupted == 0 then status else 128 + interrupted
  }

  lemma NothingAdded(ledger: Ledger, failed: seq<Failure>)
    ensures forall interrupted :: AddedExactly(ledger, failed, |failed|, interrupted)
  {
  }

  lemma AddedStep(ledger: Ledger, failed: seq<Failure>, count: nat, interrupted: int, job: nat, status: int)
    requires AddedExactly(ledger, failed, count, interrupted) && job !in ledger.finished
    ensures var shown := Shown(status, interrupted);
      AddedExactly(Ended(ledger, job, status), if shown != 0 then failed + [Failure(job, shown)] else failed, count,
                   interrupted)
  {
  }

  lemma SignalKeepsReported(ledger: Ledger, failed: seq<Failure>, interrupted: int)
    requires Reported(ledger, failed, 0)
    ensures Reported(ledger, failed, interrupted)
  {
    forall f <- failed ensures FailureExplained(ledger, f, interrupted) {
      assert FailureExplained(ledger, f, 0);
    }
  }

  lemma StartedAccounted(ledger: Ledger, active: seq<Child>, completed: nat, child: Child)
    requires Accounted(ledger, active, completed) && child.job == ledger.next
    requires forall c <- active :: c.pid != child.pid
    ensures Accounted(ledger.(next := ledger.next + 1), active + [child], completed)
    ensures forall failed, interrupted :: Reported(ledger, failed, interrupted) ==>
      Reported(ledger.(next := ledger.next + 1), failed, interrupted)
  {
    var more := active + [child];
    assert forall c :: c in more <==> c in active || c == child;
    assert Jobs(more) == Jobs(active) + {child.job};
    forall c <- active ensures c.job < ledger.next {
      assert c.job in Jobs(active);
    }
  }

  lemma {:induction false} Upto(n: nat, finished: set<nat>)
    requires forall job: nat :: job in finished <==> job < n
    ensures |finished| == n
  {
    if n == 0 {
      assert finished == {};
    } else {
      Upto(n - 1, finished - {n - 1});
    }
  }

  lemma WithoutAt(ledger: Ledger, active: seq<Child>, completed: nat, i: nat)
    requires Accounted(ledger, active, completed) && i < |active|
    ensures Without(active, active[i].pid) == active[..i] + active[i + 1..]
  {
    assert active == active[..i] + [active[i]] + active[i + 1..];
    WithoutMiddle(active[..i], active[i], active[i + 1..]);
  }

  lemma NextInSnapshot(kept: seq<Child>, snapshot: seq<Child>, i: nat)
    requires i < |snapshot|
    ensures snapshot[i..][1..] == snapshot[i + 1..]
    ensures kept + snapshot[i..] == kept + [snapshot[i]] + snapshot[i + 1..]
  {
  }

  class Runner {
    const sources: seq<string>
    const jobs: nat
    const dependency: bool
    /** The environment: the sources whose logs speak of a locked database when they are read. */
    const locked: set<nat>
    var active: seq<Child>
    var failed: seq<Failure>
    var completed: nat
    var next: nat
    var interrupted: int
    /** The environment: identities of processes, and how often a child is still found running. */
    var nextPid: nat
    var patience: nat
    ghost var ledger: Ledger
    /** The sources whose start the operating system refused. */
    ghost var refused: seq<nat>
    /** How often a child was waited for by force. */
    ghost var reaped: nat

    /** `patience` is any number: every child ends after finitely many looks. */
    constructor (sources: seq<string>, jobs: nat, dependency: bool, locked: set<nat>, patience: nat)
      requires jobs >= 1
      ensures Valid() && active == [] && next == 0 && interrupted == 0
      ensures this.sources == sources && this.jobs == jobs && this.dependency == dependency && this.locked == locked
      ensures refused == []
    {
      this.sources, this.jobs, this.dependency, this.locked := sources, jobs, dependency, locked;
      this.patience, reaped := patience, 0;
      active, failed, completed, next, interrupted, nextPid := [], [], 0, 0, 0, 0;
      ledger, refused := Ledger(0, {}, map[]), [];
      new;
      assert Jobs(active) == {};
    }

    ghost predicate Tracked()
      reads this
    {
      && Accounted(ledger, active, completed) && Reported(ledger, failed, interrupted) && Signalled(interrupted)
      && |active| <= jobs && 1 <= jobs && ledger.next <= |sources|
      && forall c <- active :: c.pid < nextPid
    }

    ghost predicate Valid()
      reads this
    {
      Tracked() && ledger.next == next
    }

    /** A signal may arrive; only the first one counts. */
    method Signal()
      modifies this`interrupted
      ensures interrupted == old(interrupted) || (old(interrupted) == 0 && interrupted in {SIGINT, SIGTERM})
      ensures old(Tracked()) ==> Tracked()
      ensures old(Valid()) ==> Valid()
    {
      ghost var before := interrupted;
      if * {
        if interrupted == 0 {
          if * {
            interrupted := SIGINT;
          } else {
            interrupted := SIGTERM;
          }
          if Reported(ledger, failed, before) {
            SignalKeepsReported(ledger, failed, interrupted);
          }
        }
      }
    }

    /** A child is started, unless the operating system refuses. No more than `jobs` are ever alive, and none is
        started after a signal. */
    method Popen(job: nat) returns (child: Option<Child>)
      requires |active| < jobs && interrupted == 0
      modifies this`nextPid, this`refused
      ensures child.Some? ==>
        child.value == Child(old(nextPid), job) && nextPid == old(nextPid) + 1 && refused == old(refused)
      ensures child.None? ==> nextPid == old(nextPid) && refused == old(refused) + [job]
    {
      if * {
        child := Some(Child(nextPid, job));
        nextPid := nextPid + 1;
      } else {
        child, refused := None, refused + [job];
      }
    }

    method Poll() returns (status: Option<int>)
      modifies this`patience
      ensures if status.None? then patience == old(patience) - 1 else patience == old(patience)
    {
      var code: int := *;
      var running: bool := *;
      if running && patience > 0 {
        patience := patience - 1;
        return None;
      }
      return Some(code);
    }

    /** Starts sources while there is room and no signal. */
    method LaunchMore() returns (ok: bool)
      requires Valid()
      modifies this
      ensures Tracked() && (ok ==> Valid())
      ensures failed == old(failed) && completed == old(completed) && patience == old(patience)
      ensures refused == if ok then old(refused) else old(refused) + [next - 1]
      ensures next >= old(next) && ledger.finished == old(ledger.finished)
      ensures interrupted == old(interrupted) || old(interrupted) == 0
      ensures ok && next == old(next) ==> active == old(active)
      ensures ok && next == old(next) && interrupted == 0 && next < |sources| ==> |active| >= jobs
    {
      hide Accounted, Reported;
      while |active| < jobs && next < |sources| && interrupted == 0
        invariant Valid()
        invariant failed == old(failed) && completed == old(completed) && patience == old(patience)
        invariant refused == old(refused)
        invariant next >= old(next) && ledger.finished == old(ledger.finished)
        invariant next == old(next) ==> active == old(active)
        invariant interrupted == old(interrupted) || old(interrupted) == 0
        decreases |sources| - next
      {
        var job := next;
        next := next + 1;
        var child := Popen(job);
        if child.None? {
          return false;
        }
        StartedAccounted(ledger, active, completed, child.value);
        ledger := ledger.(next := next);
        active := active + [child.value];
        Signal();
      }
      return true;
    }

    /** Looks once at every child that was running when the look began. */
    method PollAll()
      requires Valid()
      modifies this
      ensures Valid()
      ensures next == old(next) && |active| <= |old(active)| && refused == old(refused)
      ensures interrupted == old(interrupted) || old(interrupted) == 0
      ensures old(active) != [] ==> |active| < |old(active)| || patience < old(patience)
      ensures AddedExactly(ledger, failed, |old(failed)|, 0) && old(failed) <= failed
    {
      hide *;
      var snapshot := active;
      ghost var kept: seq<Child> := [];
      ghost var rest := snapshot;
      NothingAdded(ledger, failed);
      for i := 0 to |snapshot|
        invariant Valid() && next == old(next) && refused == old(refused)
        invariant AddedExactly(ledger, failed, |old(failed)|, 0) && old(failed) <= failed
        invariant rest == snapshot[i..] && active == kept + rest
        invariant interrupted == old(interrupted) || old(interrupted) == 0
        invariant |kept| <= i && (|kept| == i ==> i == 0 || patience < old(patience))
        invariant patience <= old(patience)
      {
        Signal();
        rest := rest[1..];
        NextInSnapshot(kept, snapshot, i);
        var ended := Look(snapshot[i], kept, rest, |old(failed)|);
        if !ended {
          kept := kept + [snapshot[i]];
        }
      }
    }

    /** One look at one child. */
    method Look(child: Child, ghost kept: seq<Child>, ghost rest: seq<Child>, ghost count: nat) returns (ended: bool)
      requires Valid() && active == kept + [child] + rest && AddedExactly(ledger, failed, count, 0)
      modifies this
      ensures AddedExactly(ledger, failed, count, 0) && old(failed) <= failed
      ensures Valid() && active == if ended then kept + rest else old(active)
      ensures next == old(next) && interrupted == old(interrupted) && refused == old(refused)
      ensures if ended then patience == old(patience) else patience < old(patience)
    {
      hide Accounted, Reported, Ended;
      var status := Poll();
      ended := status.Some?;
      if ended {
        End(child, |kept|, status.value, status.value);
        AddedStep(old(ledger), old(failed), count, 0, child.job, status.value);
        assert old(active)[..|kept|] == kept && old(active)[|kept| + 1..] == rest;
      }
    }

    /** A child that ended leaves the active list, is counted, and is listed when its status is not zero. */
    method End(child: Child, ghost position: nat, status: int, shown: int)
      requires Valid() && position < |active| && active[position] == child
      requires shown == status || (interrupted != 0 && shown == 128 + interrupted)
      requires shown == 0 ==> status == 0
      modifies this
      ensures Valid() && active == old(active)[..position] + old(active)[position + 1..]
      ensures next == old(next) && patience == old(patience) && interrupted == old(interrupted)
      ensures refused == old(refused)
      ensures completed == old(completed) + 1 && ledger == Ended(old(ledger), child.job, status)
      ensures failed == if shown != 0 then old(failed) + [Failure(child.job, shown)] else old(failed)
      ensures child.job !in old(ledger).finished
    {
      hide Accounted, Reported, Without;
      WithoutKeeps(ledger, active, completed, position, status);
      EndedReported(ledger, failed, interrupted, child.job, status, shown);
      WithoutAt(ledger, active, completed, position);
      active := Without(active, child.pid);
      ledger := Ended(ledger, child.job, status);
      completed := completed + 1;
      if shown != 0 {
        failed := failed + [Failure(child.job, shown)];
      }
    }

    /** Waits for a child, by force after a while. */
    method Reap() returns (status: int)
      modifies this`reaped
      ensures reaped == old(reaped) + 1
    {
      status, reaped := *, reaped + 1;
    }

    /** After a signal every child that is left is waited for and reported as stopped unless it failed by itself. */
    method ReapAll()
      requires Valid() && (active != [] ==> interrupted != 0)
      modifies this
      ensures Valid() && active == [] && next == old(next) && refused == old(refused)
      ensures interrupted == old(interrupted) || old(interrupted) == 0
      ensures AddedExactly(ledger, failed, |old(failed)|, interrupted) && old(failed) <= failed
    {
      hide Accounted, Reported, Ended, AddedExactly;
      var snapshot := active;
      NothingAdded(ledger, failed);
      for i := 0 to |snapshot|
        invariant Valid() && next == old(next) && active == snapshot[i..] && refused == old(refused)
        invariant interrupted == old(interrupted) || old(interrupted) == 0
        invariant snapshot != [] ==> interrupted == old(interrupted) != 0
        invariant AddedExactly(ledger, failed, |old(failed)|, interrupted) && old(failed) <= failed
      {
        var child := snapshot[i];
        var status := Reap();
        Signal();
        assert active[0] == child;
        ghost var before, listed := ledger, failed;
        End(child, 0, status, if status != 0 then status else 128 + interrupted);
        AddedStep(before, listed, |old(failed)|, interrupted, child.job, status);
        assert active == snapshot[i + 1..];
      }
    }

    /** Nothing stays alive, whatever happened before. */
    method Cleanup()
      modifies this`active, this`reaped
      ensures active == []
    {
      var snapshot := active;
      for i := 0 to |snapshot|
        invariant active == snapshot[i..]
      {
        var _ := Reap();
        assert active[0] == snapshot[i] && active == [snapshot[i]] + snapshot[i + 1..];
        active := Without(active, snapshot[i].pid);
      }
    }

    /** Waits until the child ends; after a signal it is looked at once more and then ended by force. */
    method WaitRetry() returns (status: int)
      requires Signalled(interrupted)
      modifies this`interrupted, this`patience, this`reaped
      ensures interrupted == old(interrupted) || (old(interrupted) == 0 && interrupted in {SIGINT, SIGTERM})
      ensures reaped == old(reaped) || (reaped == old(reaped) + 1 && interrupted != 0)
      ensures old(interrupted) != 0 ==> reaped - old(reaped) == old(patience) - patience
    {
      while true
        invariant reaped == old(reaped)
        invariant old(interrupted) != 0 ==> patience == old(patience)
        invariant interrupted == old(interrupted) || (old(interrupted) == 0 && interrupted in {SIGINT, SIGTERM})
        decreases patience
      {
        var polled := Poll();
        if polled.Some? {
          return polled.value;
        }
        if interrupted != 0 {
          status := Reap();
          return;
        }
        Signal();
      }
    }

    /** One more attempt, alone, for every failed source whose log speaks of a locked database. Reading the logs
        is a choice of the environment. */
    method RetryLocked() returns (ok: bool, retried: nat, ghost tried: seq<nat>)
      requires Valid() && active == []
      modifies this
      ensures ok ==> Valid() && active == []
      ensures next == old(next) && completed == old(completed)
      ensures if ok then refused == old(refused) else |refused| == |old(refused)| + 1 && old(refused) <= refused
      ensures retried == |tried| && forall job <- tried :: job in FailedJobs(old(failed))
      ensures ok && dependency && interrupted == 0 ==>
        Different(tried) && forall job :: job in tried <==> job in FailedJobs(old(failed)) && job in locked
      ensures forall job <- ledger.last | job !in tried ::
        job in old(ledger).last && ledger.last[job] == old(ledger).last[job]
      ensures ok ==> FailedJobs(failed) <= FailedJobs(old(failed)) && ledger.finished == old(ledger.finished)
      ensures ok ==> OnlyListedRetried(old(ledger), FailedJobs(old(failed)), ledger, failed)
      ensures old(interrupted) != 0 || !dependency ==>
        ok && retried == 0 && failed == old(failed) && ledger == old(ledger)
      ensures interrupted == old(interrupted) || old(interrupted) == 0
    {
      hide Accounted, Reported, Retrying, Pending, FailedJobs, FailureExplained, OnlyListedRetried, Members;
      retried, tried := 0, [];
      if !dependency || interrupted != 0 {
        SameLedger(ledger, failed, interrupted);
        return true, 0, [];
      }
      ghost var start, listed := ledger, FailedJobs(failed);
      var deferred, remaining := SortByLog();
      for k := 0 to |deferred|
        invariant Retrying(start, listed, ledger, remaining, deferred[k..], interrupted)
        invariant Accounted(ledger, active, completed) && Signalled(interrupted) && active == []
        invariant completed == old(completed) && next == old(next) == ledger.next <= |sources|
        invariant refused == old(refused) && retried == |tried| && forall job <- tried :: job in listed
        invariant interrupted == 0 ==> tried == deferred[..k]
        invariant forall job <- ledger.last | job !in tried :: job in start.last && ledger.last[job] == start.last[job]
      {
        assert deferred[k..][0] == deferred[k] && deferred[k..][1..] == deferred[k + 1..];
        var job := deferred[k];
        if interrupted != 0 {
          RetryingSkipped(start, listed, ledger, remaining, deferred[k..], interrupted);
          remaining := remaining + [Failure(job, 128 + interrupted)];
          continue;
        }
        var child := Popen(job);
        if child.None? {
          return false, retried, tried;
        }
        active := [child.value];
        ghost var before := interrupted;
        Signal();
        var status := WaitRetry();
        active := [];
        if before != interrupted {
          RetryingSignalled(start, listed, ledger, remaining, deferred[k..], interrupted);
        }
        DeferredListed(start, listed, ledger, remaining, deferred[k..], interrupted);
        retried, tried := retried + 1, tried + [job];
        RetryingTried(start, listed, ledger, remaining, deferred[k..], interrupted, status);
        TriedAccounted(ledger, completed, job, status);
        ledger := Tried(ledger, job, status);
        if status != 0 {
          remaining := remaining + [Failure(job, status)];
        }
      }
      assert deferred[..|deferred|] == deferred;
      RetryingDone(start, listed, ledger, remaining, interrupted);
      failed := remaining;
      return true, retried, tried;
    }

    /** Splits the failures by what their logs say. */
    method SortByLog() returns (deferred: seq<nat>, remaining: seq<Failure>)
      requires Reported(ledger, failed, interrupted) && interrupted == 0
      ensures Retrying(ledger, FailedJobs(failed), ledger, remaining, deferred, 0) && Different(deferred)
      ensures forall job :: job in deferred <==> job in FailedJobs(failed) && job in locked
      ensures forall f :: f in remaining <==> f in failed && f.job !in locked
    {
      hide Reported, Sorted, Retrying;
      deferred, remaining := [], [];
      NothingSorted(failed);
      for i := 0 to |failed|
        invariant Sorted(failed[..i], deferred, remaining)
        invariant forall job :: job in deferred <==> job in locked && exists f <- failed[..i] :: f.job == job
        invariant forall f :: f in remaining <==> f in failed[..i] && f.job !in locked
      {
        SortedStep(failed, i, deferred, remaining);
        if failed[i].job in locked {
          deferred := deferred + [failed[i].job];
        } else {
          remaining := remaining + [failed[i]];
        }
      }
      assert failed[..|failed|] == failed;
      AllSorted(ledger, failed, deferred, remaining);
    }

    /** The whole run. It ends with a launch error exactly if a start was refused. Otherwise every source started is
        finished and counted once, the failures are exactly listed, and without a signal the exit code is 0 exactly
        when every last attempt returned 0. */
    method RunBatch() returns (outcome: Outcome)
      requires Valid() && active == [] && next == 0 && interrupted == 0
      modifies this
      ensures active == []
      ensures if outcome.Exit? then refused == old(refused)
              else |refused| == |old(refused)| + 1 && old(refused) <= refused
      ensures outcome.Exit? ==> Valid() && completed == next
      ensures outcome.Exit? ==>
        outcome.code == if interrupted != 0 then 128 + interrupted else if failed != [] then 1 else 0
      ensures outcome.Exit? && interrupted == 0 ==> next == |sources| && AllEnded(ledger, |sources|)
      ensures outcome.Exit? && interrupted == 0 ==> (outcome.code == 0 <==> AllSucceeded(ledger, |sources|))
    {
      hide Accounted, Reported, OnlyListedRetried, AllEnded, AllSucceeded;
      while (active != [] && interrupted == 0) || (next < |sources| && interrupted == 0)
        invariant Valid() && refused == old(refused)
        decreases |sources| - next, if interrupted == 0 then 1 else 0, |active|, patience
      {
        var ok := LaunchMore();
        if !ok {
          Cleanup();
          return LaunchError;
        }
        PollAll();
        Signal();
      }
      ReapAll();
      var ok, _, _ := RetryLocked();
      Cleanup();
      if !ok {
        return LaunchError;
      }
      Signal();
      Concluded(ledger, failed, completed, interrupted);
      return Exit(if interrupted != 0 then 128 + interrupted else if failed != [] then 1 else 0);
    }
  }

  // ----- the retry -----

  function Members(jobs: seq<nat>): set<nat> {
    set j | j in jobs
  }

  function Tried(ledger: Ledger, job: nat, status: int): Ledger {
    ledger.(last := ledger.last[job := status])
  }

  ghost predicate Different(jobs: seq<nat>) {
    forall i, j | 0 <= i < j < |jobs| :: jobs[i] != jobs[j]
  }

  /** In the middle of the retry: `remaining` is final, `deferred` is still to be tried again. */
  ghost predicate Pending(ledger: Ledger, remaining: seq<Failure>, deferred: seq<nat>, interrupted: int) {
    && DistinctFailures(remaining) && Different(deferred)
    && (forall job <- deferred :: job !in FailedJobs(remaining))
    && (forall job <- deferred :: job in ledger.finished && job in ledger.last && ledger.last[job] != 0)
    && (forall f <- remaining :: FailureExplained(ledger, f, interrupted))
    && (forall job <- ledger.finished :: job in ledger.last &&
          (ledger.last[job] != 0 ==> job in FailedJobs(remaining) || job in deferred))
  }

  ghost predicate Retrying(start: Ledger, listed: set<nat>, ledger: Ledger, remaining: seq<Failure>,
                           deferred: seq<nat>, interrupted: int)
  {
    && Pending(ledger, remaining, deferred, interrupted)
    && FailedJobs(remaining) + Members(deferred) <= listed
    && ledger.finished == start.finished && ledger.next == start.next
    && (forall job <- start.finished | job !in listed :: job in start.last && job in ledger.last &&
          ledger.last[job] == start.last[job])
  }

  /** Sources that had not failed are left alone; a source that is no longer listed succeeded. */
  ghost predicate OnlyListedRetried(start: Ledger, listed: set<nat>, ledger: Ledger, failed: seq<Failure>) {
    && (forall job <- start.finished | job !in listed :: job in start.last && job in ledger.last &&
          ledger.last[job] == start.last[job])
    && (forall job <- start.finished | job in listed && job !in FailedJobs(failed) ::
          job in ledger.last && ledger.last[job] == 0)
  }

  lemma SameLedger(ledger: Ledger, failed: seq<Failure>, interrupted: int)
    requires Reported(ledger, failed, interrupted)
    ensures OnlyListedRetried(ledger, FailedJobs(failed), ledger, failed)
  {
  }

  lemma RetryingSkipped(start: Ledger, listed: set<nat>, ledger: Ledger, remaining: seq<Failure>, deferred: seq<nat>,
                        interrupted: int)
    requires Retrying(start, listed, ledger, remaining, deferred, interrupted) && deferred != []
    requires interrupted != 0 && Signalled(interrupted)
    ensures Retrying(start, listed, ledger, remaining + [Failure(deferred[0], 128 + interrupted)], deferred[1..],
                     interrupted)
  {
    MoreFailures(remaining, Failure(deferred[0], 128 + interrupted));
  }

  lemma DeferredListed(start: Ledger, listed: set<nat>, ledger: Ledger, remaining: seq<Failure>, deferred: seq<nat>,
                       interrupted: int)
    requires Retrying(start, listed, ledger, remaining, deferred, interrupted) && deferred != []
    ensures deferred[0] in listed
  {
    assert deferred[0] in Members(deferred);
  }

  lemma RetryingTried(start: Ledger, listed: set<nat>, ledger: Ledger, remaining: seq<Failure>, deferred: seq<nat>,
                      interrupted: int, status: int)
    requires Retrying(start, listed, ledger, remaining, deferred, interrupted) && deferred != []
    ensures Retrying(start, listed, Tried(ledger, deferred[0], status),
                     if status != 0 then remaining + [Failure(deferred[0], status)] else remaining,
                     deferred[1..], interrupted)
  {
    MoreFailures(remaining, Failure(deferred[0], status));
    var job := deferred[0];
    assert job in Members(deferred);
    forall f <- remaining ensures FailureExplained(Tried(ledger, job, status), f, interrupted) {
      assert f.job in FailedJobs(remaining);
      assert FailureExplained(ledger, f, interrupted);
    }
  }

  lemma TriedAccounted(ledger: Ledger, completed: nat, job: nat, status: int)
    requires Accounted(ledger, [], completed)
    ensures Accounted(Tried(ledger, job, status), [], completed)
  {
  }

  lemma RetryingSignalled(start: Ledger, listed: set<nat>, ledger: Ledger, remaining: seq<Failure>, deferred: seq<nat>,
                          interrupted: int)
    requires Retrying(start, listed, ledger, remaining, deferred, 0)
    ensures Retrying(start, listed, ledger, remaining, deferred, interrupted)
  {
    forall f <- remaining ensures FailureExplained(ledger, f, interrupted) {
      assert FailureExplained(ledger, f, 0);
    }
  }

  lemma RetryingDone(start: Ledger, listed: set<nat>, ledger: Ledger, remaining: seq<Failure>, interrupted: int)
    requires Retrying(start, listed, ledger, remaining, [], interrupted)
    ensures Reported(ledger, remaining, interrupted) && FailedJobs(remaining) <= listed
    ensures ledger.finished == start.finished && OnlyListedRetried(start, listed, ledger, remaining)
  {
  }

  ghost predicate Sorted(failed: seq<Failure>, deferred: seq<nat>, remaining: seq<Failure>) {
    && (DistinctFailures(failed) ==> DistinctFailures(remaining) && Different(deferred))
    && (DistinctFailures(failed) ==> forall job <- deferred :: job !in FailedJobs(remaining))
    && FailedJobs(remaining) + Members(deferred) == FailedJobs(failed)
    && (forall f <- remaining :: f in failed)
  }

  lemma NothingSorted(failed: seq<Failure>)
    ensures Sorted(failed[..0], [], [])
  {
  }

  lemma SortedStep(failed: seq<Failure>, i: nat, deferred: seq<nat>, remaining: seq<Failure>)
    requires i < |failed| && Sorted(failed[..i], deferred, remaining)
    ensures Sorted(failed[..i + 1], deferred + [failed[i].job], remaining)
    ensures Sorted(failed[..i + 1], deferred, remaining + [failed[i]])
  {
    assert failed[..i + 1] == failed[..i] + [failed[i]];
    MoreFailures(failed[..i], failed[i]);
    MoreFailures(remaining, failed[i]);
    assert Members(deferred + [failed[i].job]) == Members(deferred) + {failed[i].job};
    if DistinctFailures(failed[..i + 1]) {
      assert DistinctFailures(failed[..i]) by {
        forall a, b | 0 <= a < b < i ensures failed[..i][a].job != failed[..i][b].job {
          assert failed[..i + 1][a].job != failed[..i + 1][b].job;
        }
      }
      forall f <- failed[..i] ensures f.job != failed[i].job {
        var a :| 0 <= a < i && failed[a] == f;
        assert failed[..i + 1][a].job != failed[..i + 1][i].job;
      }
    }
  }

  lemma AllSorted(ledger: Ledger, failed: seq<Failure>, deferred: seq<nat>, remaining: seq<Failure>)
    requires Sorted(failed, deferred, remaining) && Reported(ledger, failed, 0)
    ensures Retrying(ledger, FailedJobs(failed), ledger, remaining, deferred, 0) && Different(deferred)
  {
    forall job <- deferred ensures job in ledger.finished && job in ledger.last && ledger.last[job] != 0 {
      assert job in Members(deferred) && job in FailedJobs(failed);
      var f :| f in failed && f.job == job;
      assert FailureExplained(ledger, f, 0);
    }
    forall job <- ledger.finished | job in ledger.last && ledger.last[job] != 0
      ensures job in FailedJobs(remaining) || job in deferred
    {
      assert job in FailedJobs(remaining) + Members(deferred);
    }
  }

  // ----- the end of the run -----

  ghost predicate AllEnded(ledger: Ledger, n: nat) {
    forall job: nat | job < n :: job in ledger.finished && job in ledger.last
  }

  ghost predicate AllSucceeded(ledger: Ledger, n: nat) {
    forall job: nat | job < n :: job in ledger.last && ledger.last[job] == 0
  }

  lemma Concluded(ledger: Ledger, failed: seq<Failure>, completed: nat, interrupted: int)
    requires Accounted(ledger, [], completed) && Reported(ledger, failed, interrupted)
    ensures completed == ledger.next && AllEnded(ledger, ledger.next)
    ensures interrupted == 0 ==> (failed == [] <==> AllSucceeded(ledger, ledger.next))
  {
    Upto(ledger.next, ledger.finished);
    if failed != [] {
      assert FailureExplained(ledger, failed[0], interrupted);
    }
  }
}
