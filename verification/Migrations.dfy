/** Forward-only schema migrations raced by many workers (migrations.py). */
module Migrations {
  import opened Wrappers

  /** The shared file: PRAGMA user_version, the ledger's versions, and the migration bodies in commit order. */
  datatype File = File(userVersion: nat, ledger: set<nat>, bodies: seq<nat>)

  /** The writes of one step: the body, its ledger row (insert or replace) and the version. */
  function Migrated(f: File, version: nat): File {
    File(version, f.ledger + {version}, f.bodies + [version])
  }

  /** The versions after first up to last, in order. */
  function VersionsAfter(first: nat, last: nat): (r: seq<nat>)
    ensures forall m :: m in r <==> first < m <= last
    ensures |r| == if first < last then last - first else 0
  {
    if last <= first then [] else VersionsAfter(first, last - 1) + [last]
  }

  lemma {:induction false} VersionsAfterAt(first: nat, last: nat, i: nat)
    requires i < |VersionsAfter(first, last)|
    ensures VersionsAfter(first, last)[i] == first + 1 + i
  {
    if i + 1 < last - first {
      VersionsAfterAt(first, last - 1, i);
    }
  }

  /** f is start after the bodies of exactly the missing versions ran, once each and in order. */
  ghost predicate Upgraded(start: File, f: File) {
    && start.userVersion <= f.userVersion
    && (forall m :: m in f.ledger <==> m in start.ledger || start.userVersion < m <= f.userVersion)
    && f.bodies == start.bodies + VersionsAfter(start.userVersion, f.userVersion)
  }

  lemma NextUpgrade(start: File, f: File)
    requires Upgraded(start, f)
    ensures Upgraded(start, Migrated(f, f.userVersion + 1))
  {
  }

  lemma {:induction false} VersionListedOnce(first: nat, last: nat, m: nat)
    ensures multiset(VersionsAfter(first, last))[m] == if first < m <= last then 1 else 0
  {
    if first < last {
      VersionListedOnce(first, last - 1, m);
    }
  }

  /** A version's body ran as often as the upgrade calls for: once when it was missing, never otherwise. */
  lemma BodyRunsOnce(start: File, f: File, m: nat)
    requires Upgraded(start, f)
    ensures multiset(f.bodies)[m] ==
            multiset(start.bodies)[m] + if start.userVersion < m <= f.userVersion then 1 else 0
  {
    VersionListedOnce(start.userVersion, f.userVersion, m);
  }

  ghost predicate Increasing(q: seq<nat>) {
    forall i, j | 0 <= i < j < |q| :: q[i] < q[j]
  }

  // ---------------------------------------------------------------------------------------------
  // Any number of workers, one state machine.

  type WorkerId = nat

  /** Where one call of apply_migrations stands; applied is its result list so far. */
  datatype Worker =
    | Starting
    | Looping(step: nat, applied: seq<nat>)
    | InTransaction(step: nat, applied: seq<nat>, pending: File, written: bool)
    | Finished(applied: seq<nat>)
    | Failed(applied: seq<nat>)

  function AppliedBy(w: Worker): seq<nat> {
    if w.Starting? then [] else w.applied
  }

  /** latest[w] is the newest version worker w's release knows: releases may be mixed. */
  datatype System = System(file: File, lock: Option<WorkerId>, workers: seq<Worker>, latest: seq<nat>)

  datatype Action =
    | ReadVersion
    | Begin
    | BeginTimesOut
    | SkipStep
    | WriteStep
    | Commit
    | RollBack
    | Return

  ghost predicate WellSized(s: System) {
    |s.workers| == |s.latest| && forall w | 0 <= w < |s.latest| :: 1 <= s.latest[w]
  }

  /** Worker w moves to state, leaving the file and the write lock as given. */
  ghost function Moved(s: System, w: WorkerId, state: Worker, file: File, lock: Option<WorkerId>): System
    requires w < |s.workers|
  {
    System(file, lock, s.workers[w := state], s.latest)
  }

  /** The action is possible in worker w's state. */
  ghost predicate Enabled(s: System, w: WorkerId, a: Action)
    requires WellSized(s) && w < |s.workers|
  {
    var me := s.workers[w];
    match a
    case ReadVersion => me.Starting?
    case Begin => me.Looping? && me.step <= s.latest[w] && s.lock.None?
    case BeginTimesOut => me.Looping? && me.step <= s.latest[w]
    case SkipStep => me.InTransaction? && !me.written && me.pending.userVersion >= me.step
    case WriteStep => me.InTransaction? && !me.written && me.pending.userVersion < me.step
    case Commit => me.InTransaction? && me.written
    case RollBack => me.InTransaction?
    case Return => me.Looping? && me.step > s.latest[w]
  }

  ghost function Step(s: System, w: WorkerId, a: Action): System
    requires WellSized(s) && w < |s.workers| && Enabled(s, w, a)
  {
    var me := s.workers[w];
    match a
    case ReadVersion =>
      var state :=
        if s.file.userVersion > s.latest[w] then Failed([])
        else if s.file.userVersion == s.latest[w] then Finished([])
        else Looping(1, []);
      Moved(s, w, state, s.file, s.lock)
    case Begin => Moved(s, w, InTransaction(me.step, me.applied, s.file, false), s.file, Some(w))
    case BeginTimesOut => Moved(s, w, Failed(me.applied), s.file, s.lock)
    case SkipStep => Moved(s, w, Looping(me.step + 1, me.applied), s.file, None)
    case WriteStep => Moved(s, w, me.(pending := Migrated(me.pending, me.step), written := true), s.file, s.lock)
    case Commit => Moved(s, w, Looping(me.step + 1, me.applied + [me.step]), me.pending, None)
    case RollBack => Moved(s, w, Failed(me.applied), s.file, None)
    case Return => Moved(s, w, Finished(me.applied), s.file, s.lock)
  }

  /** What one worker's state says about the shared file, which started at version first. */
  ghost predicate WorkerOk(first: nat, f: File, lock: Option<WorkerId>, latest: nat, w: WorkerId, me: Worker) {
    && Increasing(AppliedBy(me))
    && (forall m | m in AppliedBy(me) :: first < m <= f.userVersion && m <= latest)
    && (me.Looping? || me.InTransaction? ==>
          && 1 <= me.step <= latest + 1 && me.step <= f.userVersion + 1
          && (forall m | m in me.applied :: m < me.step))
    && (me.InTransaction? <==> lock == Some(w))
    && (me.InTransaction? ==>
          && me.step <= latest
          && me.pending == (if me.written then Migrated(f, me.step) else f)
          && (me.written ==> me.step == f.userVersion + 1))
    && (me.Finished? ==> f.userVersion >= latest)
    && (me.Looping? || me.InTransaction? || me.Finished? ==> first <= latest)
  }

  ghost predicate OwnedBy(workers: seq<Worker>, m: nat, w: WorkerId) {
    w < |workers| && m in AppliedBy(workers[w])
  }

  ghost predicate HasOwner(workers: seq<Worker>, m: nat) {
    exists w :: OwnedBy(workers, m, w)
  }

  /** Every committed version is in the list of exactly one worker. */
  ghost predicate Owned(first: nat, last: nat, workers: seq<Worker>) {
    && (forall m: nat | first < m <= last :: HasOwner(workers, m))
    && (forall v, w, m | OwnedBy(workers, m, v) && OwnedBy(workers, m, w) :: v == w)
  }

  ghost predicate Inv(start: File, s: System) {
    && WellSized(s)
    && Upgraded(start, s.file)
    && (s.lock.Some? ==> s.lock.value < |s.workers|)
    && (forall w | 0 <= w < |s.workers| ::
          WorkerOk(start.userVersion, s.file, s.lock, s.latest[w], w, s.workers[w]))
    && Owned(start.userVersion, s.file.userVersion, s.workers)
  }

  ghost predicate Starts(start: File, s: System) {
    WellSized(s) && s.file == start && s.lock == None && forall w | 0 <= w < |s.workers| :: s.workers[w] == Starting
  }

  lemma StartsInv(start: File, s: System)
    requires Starts(start, s)
    ensures Inv(start, s)
  {
  }

  lemma SameOwners(first: nat, last: nat, workers: seq<Worker>, w: WorkerId, state: Worker)
    requires Owned(first, last, workers) && w < |workers| && AppliedBy(state) == AppliedBy(workers[w])
    ensures Owned(first, last, workers[w := state])
  {
    var after := workers[w := state];
    forall m: nat, v: nat ensures OwnedBy(after, m, v) == OwnedBy(workers, m, v) {
    }
    forall m: nat | first < m <= last ensures HasOwner(after, m) {
      assert HasOwner(workers, m);
      var v: WorkerId :| OwnedBy(workers, m, v);
      assert OwnedBy(after, m, v);
    }
  }

  /** A move that commits nothing. */
  lemma QuietMove(start: File, s: System, w: WorkerId, state: Worker, lock: Option<WorkerId>)
    requires Inv(start, s) && w < |s.workers|
    requires AppliedBy(state) == AppliedBy(s.workers[w])
    requires WorkerOk(start.userVersion, s.file, lock, s.latest[w], w, state)
    requires lock == s.lock || (s.lock.None? && lock == Some(w)) || (s.lock == Some(w) && lock.None?)
    ensures Inv(start, Moved(s, w, state, s.file, lock))
  {
    SameOwners(start.userVersion, s.file.userVersion, s.workers, w, state);
  }

  lemma NewOwner(first: nat, last: nat, workers: seq<Worker>, w: WorkerId, state: Worker)
    requires Owned(first, last, workers) && w < |workers|
    requires AppliedBy(state) == AppliedBy(workers[w]) + [last + 1]
    requires forall v | 0 <= v < |workers| :: last + 1 !in AppliedBy(workers[v])
    ensures Owned(first, last + 1, workers[w := state])
  {
    var after := workers[w := state];
    forall m: nat, v: nat ensures OwnedBy(after, m, v) == (OwnedBy(workers, m, v) || (m == last + 1 && v == w)) {
    }
    forall m: nat | first < m <= last + 1 ensures HasOwner(after, m) {
      if m == last + 1 {
        assert OwnedBy(after, m, w);
      } else {
        assert HasOwner(workers, m);
        var v: WorkerId :| OwnedBy(workers, m, v);
        assert OwnedBy(after, m, v);
      }
    }
  }

  lemma OwnAfterCommit(first: nat, f: File, latest: nat, w: WorkerId, me: Worker)
    requires WorkerOk(first, f, Some(w), latest, w, me) && me.InTransaction? && me.written
    requires first <= f.userVersion
    ensures WorkerOk(first, me.pending, None, latest, w, Looping(me.step + 1, me.applied + [me.step]))
  {
    var applied := me.applied + [me.step];
    forall i, j | 0 <= i < j < |applied| ensures applied[i] < applied[j] {
      if j == |me.applied| {
        assert me.applied[i] in me.applied;
      } else {
        assert AppliedBy(me)[i] < AppliedBy(me)[j];
      }
    }
  }

  lemma CommitKeepsInv(start: File, s: System, w: WorkerId)
    requires Inv(start, s) && w < |s.workers| && Enabled(s, w, Commit)
    ensures Inv(start, Step(s, w, Commit))
  {
    var me := s.workers[w];
    var after := Step(s, w, Commit);
    var first := start.userVersion;
    assert WorkerOk(first, s.file, s.lock, s.latest[w], w, me);
    NextUpgrade(start, s.file);
    forall v | 0 <= v < |s.workers|
      ensures WorkerOk(first, after.file, after.lock, s.latest[v], v, after.workers[v])
      ensures s.file.userVersion + 1 !in AppliedBy(s.workers[v])
    {
      assert WorkerOk(first, s.file, s.lock, s.latest[v], v, s.workers[v]);
      if v != w {
      } else {
        OwnAfterCommit(first, s.file, s.latest[w], w, me);
      }
    }
    NewOwner(first, s.file.userVersion, s.workers, w, after.workers[w]);
  }

  lemma StepKeepsInv(start: File, s: System, w: WorkerId, a: Action)
    requires Inv(start, s) && w < |s.workers| && Enabled(s, w, a)
    ensures Inv(start, Step(s, w, a))
    ensures s.file.userVersion <= Step(s, w, a).file.userVersion
  {
    assert WorkerOk(start.userVersion, s.file, s.lock, s.latest[w], w, s.workers[w]);
    if a == Commit {
      CommitKeepsInv(start, s, w);
    } else {
      var after := Step(s, w, a);
      QuietMove(start, s, w, after.workers[w], after.lock);
    }
  }

  /** A run: each scheduled move either happens, when it is possible, or is lost. */
  ghost function Run(s: System, schedule: seq<(WorkerId, Action)>): (r: System)
    requires WellSized(s)
    ensures WellSized(r) && |r.workers| == |s.workers| && r.latest == s.latest
    decreases |schedule|
  {
    if schedule == [] then s
    else
      var before := Run(s, schedule[..|schedule| - 1]);
      var (w, a) := schedule[|schedule| - 1];
      if w < |before.workers| && Enabled(before, w, a) then Step(before, w, a) else before
  }

  lemma {:induction false} RunKeepsInv(start: File, s: System, schedule: seq<(WorkerId, Action)>)
    requires Starts(start, s)
    ensures Inv(start, Run(s, schedule))
    decreases |schedule|
  {
    hide Inv, Step, Enabled;
    if schedule == [] {
      StartsInv(start, s);
    } else {
      RunKeepsInv(start, s, schedule[..|schedule| - 1]);
      var before := Run(s, schedule[..|schedule| - 1]);
      var (w, a) := schedule[|schedule| - 1];
      if w < |before.workers| && Enabled(before, w, a) {
        StepKeepsInv(start, before, w, a);
      }
    }
  }

  /**
   * Whatever the interleaving, time-outs and rollbacks: the file went through exactly the versions after its
   * own, every body ran once, every version is in one worker's list, and a worker that returns normally
   * leaves a file at least as new as its own release.
   */
  lemma EveryRun(start: File, s: System, schedule: seq<(WorkerId, Action)>)
    requires Starts(start, s)
    ensures var r := Run(s, schedule);
            && Upgraded(start, r.file)
            && Owned(start.userVersion, r.file.userVersion, r.workers)
            && (forall m: nat :: multiset(r.file.bodies)[m] ==
                  multiset(start.bodies)[m] + if start.userVersion < m <= r.file.userVersion then 1 else 0)
            && (forall w | 0 <= w < |r.workers| ::
                  && Increasing(AppliedBy(r.workers[w]))
                  && (r.workers[w].Finished? ==> r.file.userVersion >= s.latest[w] >= start.userVersion)
                  && (s.latest[w] <= start.userVersion ==> AppliedBy(r.workers[w]) == []))
  {
    RunKeepsInv(start, s, schedule);
    var r := Run(s, schedule);
    forall m: nat ensures multiset(r.file.bodies)[m] ==
                          multiset(start.bodies)[m] + if start.userVersion < m <= r.file.userVersion then 1 else 0 {
      BodyRunsOnce(start, r.file, m);
    }
    forall w | 0 <= w < |r.workers|
      ensures Increasing(AppliedBy(r.workers[w]))
      ensures r.workers[w].Finished? ==> r.file.userVersion >= s.latest[w] >= start.userVersion
      ensures s.latest[w] <= start.userVersion ==> AppliedBy(r.workers[w]) == []
    {
      assert WorkerOk(start.userVersion, r.file, r.lock, r.latest[w], w, r.workers[w]);
      assert AppliedBy(r.workers[w]) == [] || AppliedBy(r.workers[w])[0] in AppliedBy(r.workers[w]);
    }
  }

  /** When every worker runs the same release, no run passes its latest version and a normal return reaches it. */
  lemma OneRelease(start: File, s: System, schedule: seq<(WorkerId, Action)>, latest: nat)
    requires Starts(start, s) && start.userVersion <= latest
    requires forall w | 0 <= w < |s.latest| :: s.latest[w] == latest
    ensures var r := Run(s, schedule);
            && r.file.userVersion <= latest
            && (forall w | 0 <= w < |r.workers| && r.workers[w].Finished? :: r.file.userVersion == latest)
  {
    RunKeepsInv(start, s, schedule);
    var r := Run(s, schedule);
    if r.file.userVersion > start.userVersion {
      assert HasOwner(r.workers, r.file.userVersion);
      var w: WorkerId :| OwnedBy(r.workers, r.file.userVersion, w);
      assert WorkerOk(start.userVersion, r.file, r.lock, r.latest[w], w, r.workers[w]);
    }
    forall w | 0 <= w < |r.workers| && r.workers[w].Finished? ensures r.file.userVersion == latest {
      assert WorkerOk(start.userVersion, r.file, r.lock, r.latest[w], w, r.workers[w]);
    }
  }

  ghost predicate Undisturbed(schedule: seq<(WorkerId, Action)>) {
    forall i | 0 <= i < |schedule| :: schedule[i].1 != BeginTimesOut && schedule[i].1 != RollBack
  }

  /** With one release, no lock time-out and no failing step, no worker fails. */
  lemma {:induction false} NobodyFails(start: File, s: System, schedule: seq<(WorkerId, Action)>, latest: nat)
    requires Starts(start, s) && start.userVersion <= latest && Undisturbed(schedule)
    requires forall w | 0 <= w < |s.latest| :: s.latest[w] == latest
    ensures forall w | 0 <= w < |s.workers| :: !Run(s, schedule).workers[w].Failed?
    decreases |schedule|
  {
    if schedule != [] {
      var front := schedule[..|schedule| - 1];
      NobodyFails(start, s, front, latest);
      OneRelease(start, s, front, latest);
    }
  }

  /** The version never goes back: a longer run's file is an upgrade of any earlier one's. */
  lemma {:induction false} VersionOnlyGrows(start: File, s: System, schedule: seq<(WorkerId, Action)>, k: nat)
    requires Starts(start, s) && k <= |schedule|
    ensures Run(s, schedule[..k]).file.userVersion <= Run(s, schedule).file.userVersion
    decreases |schedule|
  {
    hide Inv, Step, Enabled, Starts;
    if k < |schedule| {
      var before := schedule[..|schedule| - 1];
      VersionOnlyGrows(start, s, before, k);
      assert before[..k] == schedule[..k];
      RunKeepsInv(start, s, before);
      var (w, a) := schedule[|schedule| - 1];
      if w < |Run(s, before).workers| && Enabled(Run(s, before), w, a) {
        StepKeepsInv(start, Run(s, before), w, a);
      }
    } else {
      assert schedule[..k] == schedule;
    }
  }

  // ---------------------------------------------------------------------------------------------
  // Progress: the race cannot stop before every worker has returned or failed.

  predicate Done(w: Worker) {
    w.Finished? || w.Failed?
  }

  /** An upper bound on the moves a worker still has. */
  function Remaining(w: Worker, latest: nat): int {
    match w
    case Starting => 3 * latest + 2
    case Looping(step, _) => 3 * (latest + 1 - step) + 1
    case InTransaction(step, _, _, written) => 3 * (latest + 1 - step) - if written then 1 else 0
    case _ => 0
  }

  function TotalRemaining(workers: seq<Worker>, latest: seq<nat>): int
    requires |workers| == |latest|
  {
    if workers == [] then 0
    else Remaining(workers[0], latest[0]) + TotalRemaining(workers[1..], latest[1..])
  }

  lemma {:induction false} TotalAfterMove(workers: seq<Worker>, latest: seq<nat>, w: nat, state: Worker)
    requires |workers| == |latest| && w < |workers|
    ensures TotalRemaining(workers[w := state], latest) ==
            TotalRemaining(workers, latest) - Remaining(workers[w], latest[w]) + Remaining(state, latest[w])
  {
    if w == 0 {
      assert workers[w := state][1..] == workers[1..];
    } else {
      assert workers[w := state][1..] == workers[1..][w - 1 := state];
      TotalAfterMove(workers[1..], latest[1..], w - 1, state);
    }
  }

  lemma {:induction false} TotalNotNegative(first: nat, f: File, lock: Option<WorkerId>, workers: seq<Worker>,
                                            latest: seq<nat>, from: nat)
    requires |workers| == |latest| && from <= |workers|
    requires forall w | 0 <= w < |workers| :: WorkerOk(first, f, lock, latest[w], w, workers[w])
    ensures TotalRemaining(workers[from..], latest[from..]) >= 0
    decreases |workers| - from
  {
    if from < |workers| {
      TotalNotNegative(first, f, lock, workers, latest, from + 1);
      assert workers[from..][1..] == workers[from + 1..] && latest[from..][1..] == latest[from + 1..];
      assert WorkerOk(first, f, lock, latest[from], from, workers[from]);
    }
  }

  /** Every move uses up a bounded supply, so no run makes more than TotalRemaining effective moves. */
  lemma EveryMoveCounts(start: File, s: System, w: WorkerId, a: Action)
    requires Inv(start, s) && w < |s.workers| && Enabled(s, w, a)
    ensures 0 <= TotalRemaining(Step(s, w, a).workers, s.latest) < TotalRemaining(s.workers, s.latest)
  {
    assert WorkerOk(start.userVersion, s.file, s.lock, s.latest[w], w, s.workers[w]);
    var after := Step(s, w, a);
    TotalAfterMove(s.workers, s.latest, w, after.workers[w]);
    StepKeepsInv(start, s, w, a);
    TotalNotNegative(start.userVersion, after.file, after.lock, after.workers, after.latest, 0);
    assert after.workers[0..] == after.workers && after.latest[0..] == after.latest;
  }

  /** While some worker is not done, some worker can move without failing. */
  lemma NoDeadlock(start: File, s: System, w: WorkerId)
    returns (v: WorkerId, a: Action)
    requires Inv(start, s) && w < |s.workers| && !Done(s.workers[w])
    ensures v < |s.workers| && Enabled(s, v, a) && a != BeginTimesOut && a != RollBack
  {
    v := if s.lock.Some? then s.lock.value else w;
    assert WorkerOk(start.userVersion, s.file, s.lock, s.latest[v], v, s.workers[v]);
    a := match s.workers[v]
      case Starting => ReadVersion
      case Looping(step, _) => if step <= s.latest[v] then Begin else Return
      case InTransaction(step, _, pending, written) =>
        if written then Commit else if pending.userVersion >= step then SkipStep else WriteStep
      case _ => Return;
  }

  // ---------------------------------------------------------------------------------------------
  // One call of apply_migrations on a connection, with other workers committing between its transactions.

  /** validate_migrations: versions are contiguous from 1 and there is at least one. */
  predicate ValidVersions(versions: seq<nat>) {
    versions != [] && forall i | 0 <= i < |versions| :: versions[i] == i + 1
  }

  /** What the outside decides about one step: the lock, then the backup, the body and the commit. */
  datatype Outcome = LockTimesOut | StepFails | StepCommits

  datatype Upgrade =
    | NotContiguous(expected: nat, got: nat)
    | NoMigrations
    | NewerSchema
    | LockedOut(applied: seq<nat>)
    | StepRaised(applied: seq<nat>, version: nat)
    | Applied(versions: seq<nat>)

  function Own(r: Upgrade): seq<nat> {
    match r
    case LockedOut(applied) => applied
    case StepRaised(applied, _) => applied
    case Applied(versions) => versions
    case _ => []
  }

  /** The versions after first up to last are split between this worker's list and its rivals' commits. */
  ghost predicate Shared(first: nat, last: nat, applied: seq<nat>, rivals: set<nat>) {
    && first <= last
    && Increasing(applied)
    && (forall m :: m in applied || m in rivals <==> first < m <= last)
    && (forall m | m in applied :: m !in rivals)
  }

  lemma NothingYet(start: File)
    ensures Upgraded(start, start) && Shared(start.userVersion, start.userVersion, [], {})
  {
  }

  lemma RivalsTake(first: nat, last: nat, applied: seq<nat>, rivals: set<nat>, count: nat, after: set<nat>)
    requires Shared(first, last, applied, rivals)
    requires forall m :: m in after <==> m in rivals || last < m <= last + count
    ensures Shared(first, last + count, applied, after)
  {
  }

  lemma WorkerTakes(first: nat, last: nat, applied: seq<nat>, rivals: set<nat>)
    requires Shared(first, last, applied, rivals)
    ensures Shared(first, last + 1, applied + [last + 1], rivals)
  {
    var after := applied + [last + 1];
    forall i, j | 0 <= i < j < |after| ensures after[i] < after[j] {
      assert after[i] in applied;
    }
  }

  /** The version before this worker's k-th transaction, when none of the earlier ones failed. */
  function Level(first: nat, others: nat -> nat, k: nat): nat {
    if k == 0 then first
    else
      var before := Level(first, others, k - 1) + others(k - 1);
      if before >= k then before else k
  }

  /** The k-th transaction finds its step done by others, or gets to do it and commits. */
  predicate Passes(first: nat, others: nat -> nat, outcomes: nat -> Outcome, k: nat) {
    && !outcomes(k).LockTimesOut?
    && (Level(first, others, k) + others(k) > k || outcomes(k).StepCommits?)
  }

  /** The first transaction from the given one on that does not pass, or the number of steps when all pass. */
  ghost function FirstStop(first: nat, steps: nat, others: nat -> nat, outcomes: nat -> Outcome, from: nat): (k: nat)
    requires from <= steps
    ensures from <= k <= steps
    ensures forall j | from <= j < k :: Passes(first, others, outcomes, j)
    ensures k < steps ==> !Passes(first, others, outcomes, k)
    decreases steps - from
  {
    if from == steps || !Passes(first, others, outcomes, from) then from
    else FirstStop(first, steps, others, outcomes, from + 1)
  }

  /** One step of the two definitions above. */
  lemma NextTransaction(first: nat, steps: nat, others: nat -> nat, outcomes: nat -> Outcome, k: nat)
    requires k < steps
    ensures var level := Level(first, others, k) + others(k);
            && Level(first, others, k + 1) == (if level > k then level else k + 1)
            && FirstStop(first, steps, others, outcomes, k) ==
                 if outcomes(k).LockTimesOut? || (level <= k && outcomes(k).StepFails?) then k
                 else FirstStop(first, steps, others, outcomes, k + 1)
  {
  }

  lemma NoTransaction(first: nat, steps: nat, others: nat -> nat, outcomes: nat -> Outcome)
    ensures Level(first, others, 0) == first && FirstStop(first, steps, others, outcomes, steps) == steps
  {
  }

  class Connection {
    var userVersion: nat
    var ledger: set<nat>
    var bodies: seq<nat>
    /** The versions other workers committed meanwhile. */
    ghost var rivals: set<nat>

    function Snapshot(): File
      reads this
    {
      File(userVersion, ledger, bodies)
    }

    /** Other workers hold the lock for a while and commit the next count versions. */
    method LetOthersCommit(count: nat, ghost start: File)
      requires Upgraded(start, Snapshot())
      modifies this
      ensures userVersion == old(userVersion) + count
      ensures Upgraded(start, Snapshot())
      ensures forall m :: m in rivals <==> m in old(rivals) || old(userVersion) < m <= userVersion
    {
      var i := 0;
      while i < count
        invariant i <= count && userVersion == old(userVersion) + i
        invariant Upgraded(start, Snapshot())
        invariant forall m :: m in rivals <==> m in old(rivals) || old(userVersion) < m <= userVersion
      {
        NextUpgrade(start, Snapshot());
        userVersion := userVersion + 1;
        ledger := ledger + {userVersion};
        bodies := bodies + [userVersion];
        rivals := rivals + {userVersion};
        i := i + 1;
      }
    }

    /** BEGIN IMMEDIATE to COMMIT or ROLLBACK of one step; a failing step leaves the file as it was. */
    method RunStep(version: nat, commits: bool) returns (ran: bool, raised: bool)
      modifies `userVersion, `ledger, `bodies
      ensures raised == (old(userVersion) < version && !commits)
      ensures ran == (old(userVersion) < version && commits)
      ensures Snapshot() == if ran then Migrated(old(Snapshot()), version) else old(Snapshot())
    {
      ran, raised := false, false;
      if userVersion >= version {
        return;
      }
      var savedLedger, savedBodies, savedVersion := ledger, bodies, userVersion;
      bodies := bodies + [version];
      ledger := ledger + {version};
      userVersion := version;
      if commits {
        ran := true;
      } else {
        ledger, bodies, userVersion := savedLedger, savedBodies, savedVersion;
        raised := true;
      }
    }

    /** The transactions, one a step; the file is known to be behind. */
    method RunSteps(versions: seq<nat>, others: nat -> nat, outcomes: nat -> Outcome) returns (result: Upgrade)
      requires rivals == {} && ValidVersions(versions)
      modifies this
      ensures Upgraded(old(Snapshot()), Snapshot())
      ensures Shared(old(userVersion), userVersion, Own(result), rivals)
      ensures forall m | m in Own(result) :: m in versions
      ensures result.Applied? || result.LockedOut? || result.StepRaised?
      ensures var k := FirstStop(old(userVersion), |versions|, others, outcomes, 0);
              if k == |versions| then result.Applied?
              else if outcomes(k).LockTimesOut? then result.LockedOut?
              else result.StepRaised? && result.version == k + 1
      ensures result.Applied? ==> userVersion >= |versions|
      ensures result.StepRaised? ==> result.version == userVersion + 1 && result.version in versions
    {
      hide Shared, Upgraded, VersionsAfter, Level, FirstStop, Passes;
      ghost var start := Snapshot();
      NothingYet(start);
      NoTransaction(start.userVersion, |versions|, others, outcomes);
      var applied: seq<nat> := [];
      var step := 0;
      while step < |versions|
        invariant 0 <= step <= |versions|
        invariant Upgraded(start, Snapshot()) && step <= userVersion
        invariant Shared(start.userVersion, userVersion, applied, rivals)
        invariant forall m | m in applied :: m in versions
        invariant userVersion == Level(start.userVersion, others, step)
        invariant FirstStop(start.userVersion, |versions|, others, outcomes, 0)
                  == FirstStop(start.userVersion, |versions|, others, outcomes, step)
      {
        NextTransaction(start.userVersion, |versions|, others, outcomes, step);
        ghost var before, others' := userVersion, rivals;
        LetOthersCommit(others(step), start);
        RivalsTake(start.userVersion, before, applied, others', others(step), rivals);
        if outcomes(step).LockTimesOut? {
          return LockedOut(applied);
        }
        NextUpgrade(start, Snapshot());
        WorkerTakes(start.userVersion, userVersion, applied, rivals);
        var ran, raised := RunStep(versions[step], outcomes(step).StepCommits?);
        if raised {
          return StepRaised(applied, versions[step]);
        }
        if ran {
          applied := applied + [versions[step]];
        }
        step := step + 1;
      }
      return Applied(applied);
    }

    /**
     * others[i] is how many versions other workers commit before this worker's i-th transaction and
     * outcomes[i] what happens in it.
     */
    method ApplyMigrations(versions: seq<nat>, others: nat -> nat, outcomes: nat -> Outcome)
      returns (result: Upgrade)
      requires rivals == {}
      modifies this
      ensures Upgraded(old(Snapshot()), Snapshot())
      ensures Shared(old(userVersion), userVersion, Own(result), rivals)
      ensures forall m | m in Own(result) :: m in versions
      ensures result.NoMigrations? <==> versions == []
      ensures (result.NotContiguous? || result.NoMigrations?) <==> !ValidVersions(versions)
      ensures result.NotContiguous? ==>
                && 1 <= result.expected <= |versions|
                && versions[result.expected - 1] == result.got != result.expected
                && (forall i | 0 <= i < result.expected - 1 :: versions[i] == i + 1)
      ensures result.NotContiguous? <==> exists i :: 0 <= i < |versions| && versions[i] != i + 1
      ensures result.NewerSchema? <==> ValidVersions(versions) && old(userVersion) > |versions|
      ensures ValidVersions(versions) && old(userVersion) == |versions| ==> result == Applied([])
      ensures ValidVersions(versions) && old(userVersion) < |versions| ==>
                var k := FirstStop(old(userVersion), |versions|, others, outcomes, 0);
                if k == |versions| then result.Applied?
                else if outcomes(k).LockTimesOut? then result.LockedOut?
                else result.StepRaised? && result.version == k + 1
      ensures result.Applied? ==> userVersion >= |versions|
      ensures result.StepRaised? ==> result.version == userVersion + 1 && result.version in versions
      ensures result.NotContiguous? || result.NoMigrations? || result.NewerSchema? || old(userVersion) == |versions| ==>
                Snapshot() == old(Snapshot()) && Own(result) == []
      ensures ValidVersions(versions) && old(userVersion) <= |versions| && (forall i :: outcomes(i).StepCommits?) ==>
                result.Applied?
    {
      hide Shared, Upgraded, VersionsAfter, Level;
      NothingYet(Snapshot());
      if versions == [] {
        return NoMigrations;
      }
      var k := 0;
      while k < |versions|
        invariant 0 <= k <= |versions|
        invariant forall i | 0 <= i < k :: versions[i] == i + 1
      {
        if versions[k] != k + 1 {
          return NotContiguous(k + 1, versions[k]);
        }
        k := k + 1;
      }
      var latest := versions[|versions| - 1];
      if userVersion > latest {
        return NewerSchema;
      }
      if userVersion == latest {
        return Applied([]);
      }
      result := RunSteps(versions, others, outcomes);
    }
  }
}
