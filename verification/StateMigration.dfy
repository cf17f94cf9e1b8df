/** The migration itself: `migrate_state_layout` and `rollback_state_layout` of
    agent/composition/src/state_layout_migration.rs, run against a disk whose
    operations may fail, and tied to the per-path plan. */
module StateMigration {
  import opened Wrappers
  import opened FileTree
  import opened MigrationPlan

  datatype Report = Report(migrated: seq<Path>, backup: Option<Path>, alreadyMigrated: bool)

  datatype Failure = BackupFailed | StateRootFailed | JobsFailed(failed: seq<Path>) | MarkerFailed

  // ----- one job -----

  ghost predicate JobDone(t: Tree, u: Tree, job: Job) {
    forall q :: Get(u, q) == StepValue(t, job, q, Get(t, q))
  }

  ghost predicate PartlyDone(t: Tree, u: Tree, job: Job) {
    forall q :: Get(u, q) == Get(t, q) || Get(u, q) == StepValue(t, job, q, Get(t, q))
  }

  ghost predicate LogPartly(t: Tree, trace: seq<Tree>, since: nat, job: Job) {
    forall i :: since <= i < |trace| ==> PartlyDone(t, trace[i], job)
  }

  ghost predicate ClashNow(t: Tree, job: Job) {
    exists q :: JobFeeds(t, job, q) && Clashes(Merge, Get(t, q), JobEntry(t, job, q))
  }

  /** `create_dir_all`. */
  method MakeAllDirs(disk: Disk, p: Path) returns (ok: bool)
    requires WellFormed(disk.tree)
    modifies disk
    ensures WellFormed(disk.tree)
    ensures ok ==> JobDone(old(disk.tree), disk.tree, MakeDirs(p)) && !ClashNow(old(disk.tree), MakeDirs(p))
    ensures PartlyDone(old(disk.tree), disk.tree, MakeDirs(p))
    ensures old(disk.trace) <= disk.trace
    ensures LogPartly(old(disk.tree), disk.trace, |old(disk.trace)|, MakeDirs(p))
    ensures disk.broken == {} && !ok ==> ClashNow(old(disk.tree), MakeDirs(p))
  {
    ghost var t := disk.tree;
    var i := 0;
    RootExists(t, p);
    while i < |p|
      invariant 0 <= i <= |p|
      invariant WellFormed(disk.tree)
      invariant JobDone(t, disk.tree, MakeDirs(p[..i])) && !ClashNow(t, MakeDirs(p[..i]))
      invariant old(disk.trace) <= disk.trace
      invariant LogPartly(t, disk.trace, |old(disk.trace)|, MakeDirs(p))
    {
      i := i + 1;
      OneMoreDir(t, disk.tree, p, i);
      if p[..i] in disk.tree {
        if disk.tree[p[..i]].File? {
          return false;
        }
      } else {
        var made := disk.Put(p[..i], Dir);
        if !made {
          return false;
        }
      }
    }
    assert p[..|p|] == p;
    ok := true;
  }

  lemma RootExists(t: Tree, p: Path)
    requires WellFormed(t)
    ensures JobDone(t, t, MakeDirs(p[..0])) && !ClashNow(t, MakeDirs(p[..0]))
    ensures PartlyDone(t, t, MakeDirs(p))
  {
    forall q | JobFeeds(t, MakeDirs(p[..0]), q) ensures q == [] {}
  }

  lemma OneMoreDir(t: Tree, u: Tree, p: Path, i: nat)
    requires WellFormed(u) && 0 < i <= |p|
    requires JobDone(t, u, MakeDirs(p[..i - 1])) && !ClashNow(t, MakeDirs(p[..i - 1]))
    ensures PartlyDone(t, u, MakeDirs(p))
    ensures IsDir(u, p[..i]) ==> JobDone(t, u, MakeDirs(p[..i])) && !ClashNow(t, MakeDirs(p[..i]))
    ensures IsFile(u, p[..i]) ==> ClashNow(t, MakeDirs(p))
    ensures p[..i] !in u ==>
              var v := u[p[..i] := Dir];
              WellFormed(v) && JobDone(t, v, MakeDirs(p[..i])) && !ClashNow(t, MakeDirs(p[..i]))
              && PartlyDone(t, v, MakeDirs(p))
  {
    var front, next := p[..i - 1], p[..i];
    assert Parent(next) == front;
    assert !(next <= front);
    forall q
      ensures JobFeeds(t, MakeDirs(next), q) <==> JobFeeds(t, MakeDirs(front), q) || q == next
      ensures JobFeeds(t, MakeDirs(next), q) ==> JobFeeds(t, MakeDirs(p), q)
    {
      PrefixTransitive(q, front, next);
      PrefixTransitive(q, next, p);
      if q <= next && q != next {
        assert q == next[..|q|] == front[..|q|];
      }
    }
    assert Get(u, next) == Get(t, next);
    assert Get(u, front) == StepValue(t, MakeDirs(front), front, Get(t, front));
    assert JobFeeds(t, MakeDirs(front), front) && !Clashes(Merge, Get(t, front), Dir);
    assert IsDir(u, front);
    if next !in u {
      WriteKeepsShape(u, next, Dir);
    }
    if IsFile(u, next) {
      assert JobFeeds(t, MakeDirs(p), next);
    }
  }

  /** One turn of the loops over directories: a source that is not a directory is
      skipped. */
  method DoJob(disk: Disk, job: Job) returns (ok: bool)
    requires WellFormed(disk.tree)
    requires job.MergeJob? && Apart(job.source, job.target) && job.target != [] && IsDir(disk.tree, Parent(job.target))
    modifies disk
    ensures WellFormed(disk.tree)
    ensures ok ==> JobDone(old(disk.tree), disk.tree, job) && !ClashNow(old(disk.tree), job)
    ensures PartlyDone(old(disk.tree), disk.tree, job)
    ensures old(disk.trace) <= disk.trace
    ensures LogPartly(old(disk.tree), disk.trace, |old(disk.trace)|, job)
    ensures disk.broken == {} && !ok ==> ClashNow(old(disk.tree), job)
  {
    ghost var t := disk.tree;
    if !IsDir(disk.tree, job.source) {
      return true;
    }
    ok := disk.CopyTree(Merge, job.source, job.target);
    JobIsCopy(t, disk.tree, job);
    forall i | |old(disk.trace)| <= i < |disk.trace| ensures PartlyDone(t, disk.trace[i], job) {
      JobIsCopy(t, disk.trace[i], job);
    }
  }

  lemma JobIsCopy(t: Tree, u: Tree, job: Job)
    requires job.MergeJob? && IsDir(t, job.source)
    ensures JobDone(t, u, job) <==> Copied(t, u, Merge, job.source, job.target)
    ensures PartlyDone(t, u, job) <==> PartlyCopied(t, u, Merge, job.source, job.target)
    ensures ClashNow(t, job) <==> ClashSomewhere(t, Merge, job.source, job.target)
  {
    forall q ensures StepValue(t, job, q, Get(t, q)) == After(t, Merge, job.source, job.target, q) {}
    forall q ensures JobFeeds(t, job, q) && Clashes(Merge, Get(t, q), JobEntry(t, job, q))
                <==> ClashAt(t, Merge, job.source, job.target, q) {}
    assert Copied(t, u, Merge, job.source, job.target) ==> JobDone(t, u, job) by {
      if Copied(t, u, Merge, job.source, job.target) {
        forall q ensures Get(u, q) == StepValue(t, job, q, Get(t, q)) {
          assert Get(u, q) == After(t, Merge, job.source, job.target, q);
        }
      }
    }
  }

  // ----- the loops over the jobs -----

  /** What is known of the tree `u` after the first `k` jobs have been run from
      `t`; `clean` says that none of them failed. */
  ghost predicate Ran(l: Layout, t: Tree, u: Tree, k: nat, clean: bool)
    requires k <= |Jobs(l)|
  {
    && (forall q :: Picked(t, Jobs(l)[..k], u, q))
    && (clean ==> forall q :: Get(u, q) == Value(t, Jobs(l)[..k], q))
    && IsDir(u, l.home) && IsDir(u, l.State())
  }

  /** What is known of every tree the disk has held since `since`. */
  ghost predicate Logged(l: Layout, t: Tree, trace: seq<Tree>, since: nat, clean: bool) {
    forall i :: since <= i < |trace| ==>
      && (forall q :: Picked(t, Jobs(l), trace[i], q))
      && (clean ==> forall q :: Reached(t, Jobs(l), trace[i], q))
  }

  ghost predicate NoClashBefore(l: Layout, t: Tree, k: nat) {
    forall j: nat, q :: j < k && j < |Jobs(l)| ==> !JobClash(t, Jobs(l), j, q)
  }

  lemma PickMore(jobs: seq<Job>, k: nat, picked: seq<Job>)
    requires k < |jobs| && Sub(picked, jobs[..k])
    ensures Sub(picked, jobs[..k + 1]) && Sub(picked + [jobs[k]], jobs[..k + 1])
  {
    assert jobs[..k + 1][..k] == jobs[..k];
    assert (picked + [jobs[k]])[..|picked|] == picked;
  }

  lemma {:induction false} PickedLater(t: Tree, jobs: seq<Job>, k: nat, m: Tree, q: Path)
    requires k <= |jobs| && Picked(t, jobs[..k], m, q)
    ensures Picked(t, jobs, m, q)
    decreases |jobs| - k
  {
    if k == |jobs| {
      assert jobs[..k] == jobs;
    } else {
      var picked :| Sub(picked, jobs[..k]) && Get(m, q) == Value(t, picked, q);
      PickMore(jobs, k, picked);
      PickedLater(t, jobs, k + 1, m, q);
    }
  }

  lemma OneMoreJob(t: Tree, u: Tree, v: Tree, jobs: seq<Job>, k: nat, q: Path)
    requires k < |jobs| && Picked(t, jobs[..k], u, q) && SameSource(t, u, jobs[k])
    requires Get(v, q) == Get(u, q) || Get(v, q) == StepValue(u, jobs[k], q, Get(u, q))
    ensures Picked(t, jobs[..k + 1], v, q)
  {
    var picked :| Sub(picked, jobs[..k]) && Get(u, q) == Value(t, picked, q);
    PickMore(jobs, k, picked);
    SameSourceFeeds(t, u, jobs[k], q);
    var more := picked + [jobs[k]];
    assert more[..|picked|] == picked;
    assert Value(t, more, q) == StepValue(t, jobs[k], q, Value(t, picked, q));
  }

  lemma OneMoreCleanJob(t: Tree, u: Tree, v: Tree, jobs: seq<Job>, k: nat, q: Path)
    requires k < |jobs| && Get(u, q) == Value(t, jobs[..k], q) && SameSource(t, u, jobs[k])
    ensures Get(v, q) == StepValue(u, jobs[k], q, Get(u, q)) ==> Get(v, q) == Value(t, jobs[..k + 1], q)
    ensures Get(v, q) == Get(u, q) || Get(v, q) == StepValue(u, jobs[k], q, Get(u, q)) ==> Reached(t, jobs, v, q)
    ensures JobClash(t, jobs, k, q)
       <==> JobFeeds(u, jobs[k], q) && Clashes(Merge, Get(u, q), JobEntry(u, jobs[k], q))
  {
    SameSourceFeeds(t, u, jobs[k], q);
    assert jobs[..k + 1][..k] == jobs[..k];
    assert Value(t, jobs[..k + 1], q) == StepValue(t, jobs[k], q, Value(t, jobs[..k], q));
  }

  /** The sources read by the jobs are as they were at the start. */
  lemma SourcesSame(l: Layout, t: Tree, u: Tree, k: nat)
    requires l.Valid() && k <= |Jobs(l)| && forall q :: Picked(t, Jobs(l)[..k], u, q)
    ensures forall i :: 0 <= i < |Jobs(l)| ==> SameSource(t, u, Jobs(l)[i])
  {
    forall i | 0 <= i < |Jobs(l)| ensures SameSource(t, u, Jobs(l)[i]) {
      JobShape(l, i);
      if Jobs(l)[i].MergeJob? {
        forall p | Jobs(l)[i].source <= p ensures Get(t, p) == Get(u, p) {
          PrefixTransitive(l.agents, Jobs(l)[i].source, p);
          PrefixTransitive(l.home + [SHARED_LEAF], Jobs(l)[i].source, p);
          assert Picked(t, Jobs(l)[..k], u, p);
          var picked :| Sub(picked, Jobs(l)[..k]) && Get(u, p) == Value(t, picked, p);
          SubMembers(picked, Jobs(l)[..k]);
          SourcesStay(l, t, picked, p, Get(t, p));
        }
      }
    }
  }

  lemma JobDoneStep(l: Layout, t: Tree, u: Tree, v: Tree, k: nat, clean: bool, ok: bool)
    requires l.Valid() && k < |Jobs(l)| && Ran(l, t, u, k, clean)
    requires PartlyDone(u, v, Jobs(l)[k]) && (ok ==> JobDone(u, v, Jobs(l)[k]))
    ensures Ran(l, t, v, k + 1, clean && ok)
    ensures forall q :: Picked(t, Jobs(l), v, q)
    ensures clean ==> forall q :: Reached(t, Jobs(l), v, q)
    ensures clean && NoClashBefore(l, t, k) && !ClashNow(u, Jobs(l)[k]) ==> NoClashBefore(l, t, k + 1)
    ensures clean && ClashNow(u, Jobs(l)[k]) ==> Clashing(t, Jobs(l))
  {
    var jobs := Jobs(l);
    SourcesSame(l, t, u, k);
    forall q
      ensures Picked(t, jobs[..k + 1], v, q) && Picked(t, jobs, v, q)
      ensures clean ==> Reached(t, jobs, v, q)
      ensures clean && ok ==> Get(v, q) == Value(t, jobs[..k + 1], q)
      ensures clean ==> (JobClash(t, jobs, k, q)
                    <==> JobFeeds(u, jobs[k], q) && Clashes(Merge, Get(u, q), JobEntry(u, jobs[k], q)))
      ensures IsDir(u, q) ==> IsDir(v, q)
    {
      assert Picked(t, jobs[..k], u, q);
      OneMoreJob(t, u, v, jobs, k, q);
      PickedLater(t, jobs, k + 1, v, q);
      if clean {
        OneMoreCleanJob(t, u, v, jobs, k, q);
      }
      assert Get(u, q) == Some(Dir) ==> StepValue(u, jobs[k], q, Get(u, q)) == Some(Dir);
    }
    assert IsDir(u, l.home) && IsDir(u, l.State());
  }

  /** The loops over leaves, historical leaves and private directories: a job that
      fails is recorded, and the next one still runs. */
  method RunMerges(disk: Disk, l: Layout, ghost t: Tree) returns (migrated: seq<Path>, failed: seq<Path>)
    requires l.Valid() && WellFormed(disk.tree)
    requires Ran(l, t, disk.tree, 1, true) && NoClashBefore(l, t, 1)
    modifies disk
    ensures WellFormed(disk.tree) && Ran(l, t, disk.tree, |Jobs(l)|, failed == [])
    ensures old(disk.trace) <= disk.trace && Logged(l, t, disk.trace, |old(disk.trace)|, failed == [])
    ensures failed == [] ==> NoClashBefore(l, t, |Jobs(l)|)
    ensures disk.broken == {} && failed != [] ==> Clashing(t, Jobs(l))
  {
    migrated, failed := [], [];
    var jobs := Jobs(l);
    var k := 1;
    while k < |jobs|
      invariant 1 <= k <= |jobs|
      invariant WellFormed(disk.tree) && Ran(l, t, disk.tree, k, failed == [])
      invariant old(disk.trace) <= disk.trace && Logged(l, t, disk.trace, |old(disk.trace)|, failed == [])
      invariant failed == [] ==> NoClashBefore(l, t, k)
      invariant disk.broken == {} && failed != [] ==> Clashing(t, jobs)
    {
      var job := jobs[k];
      JobShape(l, k);
      ghost var u, before, clean := disk.tree, disk.trace, failed == [];
      var present := IsDir(disk.tree, job.source);
      var ok := DoJob(disk, job);
      JobDoneStep(l, t, u, disk.tree, k, clean, ok);
      LogMore(l, t, u, before, disk.trace, |old(disk.trace)|, k, clean);
      if !ok {
        failed := failed + [job.target];
      } else if present {
        migrated := migrated + [job.target];
      }
      k := k + 1;
    }
  }

  lemma LogMore(l: Layout, t: Tree, u: Tree, before: seq<Tree>, trace: seq<Tree>, since: nat, k: nat, clean: bool)
    requires l.Valid() && k < |Jobs(l)| && Ran(l, t, u, k, clean) && since <= |before|
    requires before <= trace && Logged(l, t, before, since, clean) && LogPartly(u, trace, |before|, Jobs(l)[k])
    ensures Logged(l, t, trace, since, clean)
  {
    forall i | since <= i < |trace|
      ensures forall q :: Picked(t, Jobs(l), trace[i], q)
      ensures clean ==> forall q :: Reached(t, Jobs(l), trace[i], q)
    {
      if i < |before| {
        assert trace[i] == before[i];
      } else {
        JobDoneStep(l, t, u, trace[i], k, clean, false);
      }
    }
  }

  /** `migrate_entry` for the guidance file. */
  method MigrateGuidance(disk: Disk, l: Layout) returns (ok: bool)
    requires WellFormed(disk.tree) && IsDir(disk.tree, l.home)
    modifies disk
    ensures WellFormed(disk.tree)
    ensures forall q :: q != l.GuidanceTarget() ==> Get(disk.tree, q) == Get(old(disk.tree), q)
    ensures ok ==> Get(disk.tree, l.GuidanceTarget()) == GuidanceAfter(l, old(disk.tree))
    ensures !ok ==> disk.tree == old(disk.tree)
    ensures disk.trace == old(disk.trace) || disk.trace == old(disk.trace) + [disk.tree]
    ensures disk.broken == {} ==> ok
  {
    var source, target := l.GuidanceSource(), l.GuidanceTarget();
    assert Parent(target) == l.home;
    if !IsFile(disk.tree, source) {
      return true;
    }
    if target in disk.tree {
      var placeholder := IsPlaceholder(disk.tree[target]);
      var sourceEmpty := disk.tree[source].body == "";
      if !(placeholder && !sourceEmpty) {
        return true;
      }
    }
    WriteKeepsShape(disk.tree, target, disk.tree[source]);
    ok := disk.CopyFile(source, target);
  }

  // ----- the whole migration -----

  /** What a run started from `t` without failing operations cannot get past. */
  ghost predicate Blocked(l: Layout, t: Tree, stamp: string) {
    || (HasEntries(t, l.State()) && ClashSomewhere(t, Overwrite, l.State(), l.Backup(stamp)))
    || Clashing(t, Jobs(l))
  }

  ghost predicate AllFailureStates(l: Layout, t: Tree, trace: seq<Tree>, since: nat, stamp: string) {
    forall i :: since <= i < |trace| ==> FailureState(l, t, trace[i], stamp)
  }

  ghost predicate AllCrashStates(l: Layout, t: Tree, trace: seq<Tree>, since: nat, stamp: string) {
    forall i :: since <= i < |trace| ==> CrashState(l, t, trace[i], stamp)
  }

  /** Backing up touches only the backup of this run. */
  ghost predicate OutsideSame(l: Layout, t: Tree, u: Tree, stamp: string) {
    && (forall q :: !l.InBackups(q) ==> Get(u, q) == Get(t, q))
    && BackupsKept(l, t, u, stamp)
  }

  lemma BackupTouchesBackupOnly(l: Layout, t: Tree, u: Tree, stamp: string)
    requires HasEntries(t, l.State()) && PartlyCopied(t, u, Overwrite, l.State(), l.Backup(stamp))
    ensures OutsideSame(l, t, u, stamp)
  {
    forall q | !l.InBackups(q) ensures Get(u, q) == Get(t, q) {
      NameAt(l.home, BACKUP_PREFIX + stamp, q);
    }
  }

  /** The backup step: copies a non-empty state directory aside. */
  method BackUp(disk: Disk, l: Layout, stamp: string) returns (ok: bool, backup: Option<Path>)
    requires l.Valid() && WellFormed(disk.tree)
    modifies disk
    ensures WellFormed(disk.tree) && OutsideSame(l, old(disk.tree), disk.tree, stamp)
    ensures old(disk.trace) <= disk.trace
    ensures forall i :: |old(disk.trace)| <= i < |disk.trace| ==> OutsideSame(l, old(disk.tree), disk.trace[i], stamp)
    ensures ok ==> forall q :: l.InBackups(q) ==> Get(disk.tree, q) == BackedUp(l, old(disk.tree), stamp, q)
    ensures ok ==> backup == if HasEntries(old(disk.tree), l.State()) then Some(l.Backup(stamp)) else None
    ensures ok ==> !(HasEntries(old(disk.tree), l.State())
                     && ClashSomewhere(old(disk.tree), Overwrite, l.State(), l.Backup(stamp)))
    ensures disk.broken == {} && !ok ==>
              HasEntries(old(disk.tree), l.State())
              && ClashSomewhere(old(disk.tree), Overwrite, l.State(), l.Backup(stamp))
  {
    ghost var t := disk.tree;
    var state, target := l.State(), l.Backup(stamp);
    var names := disk.Names(state);
    assert HasEntries(t, state) <==> IsDir(t, state) && names != {} by {
      assert HasEntries(t, state) ==> exists n :: n in names;
    }
    if !IsDir(disk.tree, state) || names == {} {
      return true, None;
    }
    assert Parent(target) == l.home && Parent(state) == l.home;
    assert state[|l.home|] == STATE_DIR && target[|l.home|] == BACKUP_PREFIX + stamp;
    assert |STATE_DIR| < |BACKUP_PREFIX + stamp|;
    ok := disk.CopyTree(Overwrite, state, target);
    BackupTouchesBackupOnly(l, t, disk.tree, stamp);
    forall i | |old(disk.trace)| <= i < |disk.trace| ensures OutsideSame(l, t, disk.trace[i], stamp) {
      BackupTouchesBackupOnly(l, t, disk.trace[i], stamp);
    }
    backup := Some(target);
  }

  /** A tree that agrees with `t` outside the backups gives the plan the same
      sources and the same starting entries. */
  lemma SamePlan(l: Layout, t: Tree, u: Tree, stamp: string)
    requires l.Valid() && OutsideSame(l, t, u, stamp)
    ensures forall q, jobs :: l.Plain(q) && (forall i :: 0 <= i < |jobs| ==> jobs[i] in Jobs(l))
              ==> Value(u, jobs, q) == Value(t, jobs, q)
    ensures GuidanceAfter(l, u) == GuidanceAfter(l, t)
    ensures Clashing(u, Jobs(l)) <==> Clashing(t, Jobs(l))
  {
    forall k: nat | k < |Jobs(l)| ensures SameSource(t, u, Jobs(l)[k]) {
      JobShape(l, k);
      if Jobs(l)[k].MergeJob? {
        forall p | Jobs(l)[k].source <= p ensures Get(t, p) == Get(u, p) {
          PrefixTransitive(l.agents, Jobs(l)[k].source, p);
          PrefixTransitive(l.home + [SHARED_LEAF], Jobs(l)[k].source, p);
          PlainSource(l, p);
        }
      }
    }
    forall q, jobs: seq<Job> | l.Plain(q) && forall i :: 0 <= i < |jobs| ==> jobs[i] in Jobs(l)
      ensures Value(u, jobs, q) == Value(t, jobs, q)
    {
      FoldReadsSources(t, u, jobs, q, Get(t, q));
    }
    assert l.agents <= l.GuidanceSource();
    PlainSource(l, l.GuidanceSource());
    assert Get(u, l.GuidanceSource()) == Get(t, l.GuidanceSource());
    assert l.GuidanceTarget()[|l.home|] == GUIDANCE_FILE;
    assert BACKUP_PREFIX[0] != GUIDANCE_FILE[0];
    assert Get(u, l.GuidanceTarget()) == Get(t, l.GuidanceTarget());
    forall k: nat, q | k < |Jobs(l)| ensures JobClash(u, Jobs(l), k, q) <==> JobClash(t, Jobs(l), k, q) {
      SameSourceFeeds(t, u, Jobs(l)[k], q);
      if JobFeeds(t, Jobs(l)[k], q) {
        FedNotSource(l, t, k, q);
        assert forall i :: 0 <= i < k ==> Jobs(l)[..k][i] == Jobs(l)[i];
      }
    }
  }

  /** A state of a run before its marker is written; `clean` says that no job has
      failed so far. */
  ghost predicate Midway(l: Layout, t: Tree, m: Tree, stamp: string, clean: bool) {
    && l.Marker() !in m
    && FailureState(l, t, m, stamp)
    && (clean ==> forall q :: l.Plain(q) ==> Reached(t, Jobs(l), m, q))
  }

  ghost predicate AllMidway(l: Layout, t: Tree, trace: seq<Tree>, since: nat, stamp: string, clean: bool) {
    forall i :: since <= i < |trace| ==> Midway(l, t, trace[i], stamp, clean)
  }

  lemma BackupIsMidway(l: Layout, t: Tree, m: Tree, stamp: string)
    requires l.Valid() && OutsideSame(l, t, m, stamp) && l.Marker() !in t
    ensures Midway(l, t, m, stamp, true)
  {
    MarkerIsApart(l);
    forall q | l.Plain(q) ensures Picked(t, Jobs(l), m, q) && Reached(t, Jobs(l), m, q) {
      assert Jobs(l)[..0] == [] && Get(m, q) == Value(t, Jobs(l)[..0], q);
      PrefixIsSub(Jobs(l), 0);
    }
  }

  lemma RunIsMidway(l: Layout, t: Tree, u: Tree, m: Tree, stamp: string, clean: bool)
    requires l.Valid() && OutsideSame(l, t, u, stamp) && l.Marker() !in t
    requires forall q :: Picked(u, Jobs(l), m, q)
    requires clean ==> forall q :: Reached(u, Jobs(l), m, q)
    ensures Midway(l, t, m, stamp, clean)
    ensures Get(m, l.GuidanceTarget()) == Get(t, l.GuidanceTarget())
    ensures forall q :: l.InBackups(q) ==> Get(m, q) == Get(u, q)
  {
    MarkerIsApart(l);
    SamePlan(l, t, u, stamp);
    forall q ensures Picked(u, Jobs(l), m, q) && (!l.Plain(q) ==> Get(m, q) == Get(u, q)) {
      assert Picked(u, Jobs(l), m, q);
      var picked :| Sub(picked, Jobs(l)) && Get(m, q) == Value(u, picked, q);
      SubMembers(picked, Jobs(l));
      if !l.Plain(q) {
        OthersStay(l, u, picked, q, Get(u, q));
      }
    }
    forall q | l.Plain(q)
      ensures Picked(t, Jobs(l), m, q)
      ensures clean ==> Reached(t, Jobs(l), m, q)
    {
      assert Picked(u, Jobs(l), m, q);
      var picked :| Sub(picked, Jobs(l)) && Get(m, q) == Value(u, picked, q);
      SubMembers(picked, Jobs(l));
      assert Value(u, picked, q) == Value(t, picked, q);
      if clean {
        assert Reached(u, Jobs(l), m, q);
        var j: nat :| j <= |Jobs(l)| && Get(m, q) == Value(u, Jobs(l)[..j], q);
        assert Value(u, Jobs(l)[..j], q) == Value(t, Jobs(l)[..j], q);
      }
    }
  }

  lemma LogIsMidway(l: Layout, t: Tree, u: Tree, trace: seq<Tree>, since: nat, stamp: string, clean: bool)
    requires l.Valid() && OutsideSame(l, t, u, stamp) && l.Marker() !in t && Logged(l, u, trace, since, clean)
    ensures AllMidway(l, t, trace, since, stamp, clean)
  {
    forall i | since <= i < |trace| ensures Midway(l, t, trace[i], stamp, clean) {
      RunIsMidway(l, t, u, trace[i], stamp, clean);
    }
  }

  /** The state root is the first job. */
  lemma RootMade(l: Layout, t: Tree, u: Tree, trace: seq<Tree>, since: nat, ok: bool)
    requires l.Valid()
    requires PartlyDone(t, u, Jobs(l)[0]) && (ok ==> JobDone(t, u, Jobs(l)[0]) && !ClashNow(t, Jobs(l)[0]))
    requires LogPartly(t, trace, since, Jobs(l)[0])
    ensures forall q :: Picked(t, Jobs(l), u, q)
    ensures ok ==> Ran(l, t, u, 1, true) && NoClashBefore(l, t, 1)
    ensures Logged(l, t, trace, since, true)
    ensures ClashNow(t, Jobs(l)[0]) ==> Clashing(t, Jobs(l))
  {
    var jobs := Jobs(l);
    assert jobs[..0] == [];
    forall q ensures Get(t, q) == Value(t, jobs[..0], q) && Picked(t, jobs[..0], t, q) {
      assert Sub([], jobs[..0]);
    }
    forall v: Tree, q | Get(v, q) == Get(t, q) || Get(v, q) == StepValue(t, jobs[0], q, Get(t, q))
      ensures Picked(t, jobs[..1], v, q) && Picked(t, jobs, v, q) && Reached(t, jobs, v, q)
      ensures Get(v, q) == StepValue(t, jobs[0], q, Get(t, q)) ==> Get(v, q) == Value(t, jobs[..1], q)
    {
      OneMoreJob(t, t, v, jobs, 0, q);
      PickedLater(t, jobs, 1, v, q);
      OneMoreCleanJob(t, t, v, jobs, 0, q);
    }
    forall q ensures JobClash(t, jobs, 0, q) <==> JobFeeds(t, jobs[0], q) && Clashes(Merge, Get(t, q), Dir) {}
    if ok {
      assert l.home <= l.State() && JobFeeds(t, jobs[0], l.home) && JobFeeds(t, jobs[0], l.State());
      assert !Clashes(Merge, Get(t, l.home), JobEntry(t, jobs[0], l.home));
      assert !Clashes(Merge, Get(t, l.State()), JobEntry(t, jobs[0], l.State()));
      assert Get(u, l.home) == Some(Dir) && Get(u, l.State()) == Some(Dir);
    }
  }

  /** `migrate_state_layout`.  `stamp` and `markerBody` depend on the clock. */
  method MigrateStateLayout(disk: Disk, l: Layout, stamp: string, markerBody: string)
    returns (r: Result<Report, Failure>)
    requires l.Valid() && WellFormed(disk.tree)
    modifies disk
    ensures WellFormed(disk.tree) && old(disk.trace) <= disk.trace
    // once the marker is there, nothing is written
    ensures l.Marker() in old(disk.tree) ==>
              r == Ok(Report([], None, true)) && disk.tree == old(disk.tree) && disk.trace == old(disk.trace)
    // success: every path is as planned, and every state on the way was a crash state
    ensures l.Marker() !in old(disk.tree) && r.Ok? ==>
              && Completed(l, old(disk.tree), disk.tree, stamp)
              && AllCrashStates(l, old(disk.tree), disk.trace, |old(disk.trace)|, stamp)
              && !Clashing(old(disk.tree), Jobs(l))
              && !r.value.alreadyMigrated
              && r.value.backup == (if HasEntries(old(disk.tree), l.State()) then Some(l.Backup(stamp)) else None)
    // failure: no marker, and only planned entries were written
    ensures l.Marker() !in old(disk.tree) && r.Err? ==>
              l.Marker() !in disk.tree && FailureState(l, old(disk.tree), disk.tree, stamp)
    ensures l.Marker() !in old(disk.tree) ==>
              AllFailureStates(l, old(disk.tree), disk.trace, |old(disk.trace)|, stamp)
    // and without failing operations it succeeds unless an entry is in the way
    ensures l.Marker() !in old(disk.tree) && disk.broken == {} ==>
              (r.Ok? <==> !Blocked(l, old(disk.tree), stamp))
  {
    ghost var t, since := disk.tree, |disk.trace|;
    if l.Marker() in disk.tree {
      return Ok(Report([], None, true));
    }
    var prepared, u := Prepare(disk, l, stamp);
    MidwayIsSafe(l, t, disk.trace, since, stamp, true);
    if prepared.Err? {
      return Err(prepared.error);
    }
    var migrated, failed, v := CopyEverything(disk, l, t, u, stamp);
    MidwayIsSafe(l, t, disk.trace, since, stamp, failed == []);
    if failed != [] {
      return Err(JobsFailed(failed));
    }
    ghost var w := disk.tree;
    assert Parent(l.Marker()) == l.State();
    MarkerIsApart(l);
    StateStillThere(l, v, w);
    WriteKeepsShape(w, l.Marker(), File(markerBody));
    var ok := disk.Put(l.Marker(), File(markerBody));
    if !ok {
      return Err(MarkerFailed);
    }
    MarkedIsComplete(l, t, u, v, w, disk.tree, stamp, markerBody);
    NoClashAtAll(l, t, u, stamp);
    r := Ok(Report(migrated, prepared.value, false));
  }

  /** What a prepared disk satisfies: `u` is the tree after the backup. */
  ghost predicate Prepared(l: Layout, t: Tree, u: Tree, stamp: string) {
    && OutsideSame(l, t, u, stamp)
    && (forall q :: l.InBackups(q) ==> Get(u, q) == BackedUp(l, t, stamp, q))
  }

  /** The steps before the loops: the backup and the state root. */
  method Prepare(disk: Disk, l: Layout, stamp: string) returns (r: Result<Option<Path>, Failure>, ghost u: Tree)
    requires l.Valid() && WellFormed(disk.tree) && l.Marker() !in disk.tree
    modifies disk
    ensures WellFormed(disk.tree) && old(disk.trace) <= disk.trace
    ensures AllMidway(l, old(disk.tree), disk.trace, |old(disk.trace)|, stamp, true)
    ensures r.Ok? ==> Prepared(l, old(disk.tree), u, stamp)
    ensures r.Ok? ==> Ran(l, u, disk.tree, 1, true) && NoClashBefore(l, u, 1)
    ensures r.Ok? ==> r.value == if HasEntries(old(disk.tree), l.State()) then Some(l.Backup(stamp)) else None
    ensures r.Ok? ==> !(HasEntries(old(disk.tree), l.State())
                        && ClashSomewhere(old(disk.tree), Overwrite, l.State(), l.Backup(stamp)))
    ensures r.Err? ==> Midway(l, old(disk.tree), disk.tree, stamp, false)
    ensures r.Err? && disk.broken == {} ==> Blocked(l, old(disk.tree), stamp)
  {
    ghost var t, since := disk.tree, |disk.trace|;
    var ok, backup := BackUp(disk, l, stamp);
    u := disk.tree;
    BackupIsMidway(l, t, u, stamp);
    forall i | since <= i < |disk.trace| ensures Midway(l, t, disk.trace[i], stamp, true) {
      BackupIsMidway(l, t, disk.trace[i], stamp);
    }
    if !ok {
      return Err(BackupFailed), u;
    }
    ghost var mark := |disk.trace|;
    ok := MakeAllDirs(disk, l.State());
    RootMade(l, u, disk.tree, disk.trace, mark, ok);
    LogIsMidway(l, t, u, disk.trace, mark, stamp, true);
    if !ok {
      RunIsMidway(l, t, u, disk.tree, stamp, false);
      SamePlan(l, t, u, stamp);
      return Err(StateRootFailed), u;
    }
    r := Ok(backup);
  }

  /** The loops, then the guidance file; `v` is the tree between the two. */
  method CopyEverything(disk: Disk, l: Layout, ghost t: Tree, ghost u: Tree, ghost stamp: string)
    returns (migrated: seq<Path>, failed: seq<Path>, ghost v: Tree)
    requires l.Valid() && WellFormed(disk.tree) && l.Marker() !in t && OutsideSame(l, t, u, stamp)
    requires Ran(l, u, disk.tree, 1, true) && NoClashBefore(l, u, 1)
    modifies disk
    ensures WellFormed(disk.tree) && old(disk.trace) <= disk.trace
    ensures AllMidway(l, t, disk.trace, |old(disk.trace)|, stamp, failed == [])
    ensures Midway(l, t, disk.tree, stamp, failed == []) && Ran(l, u, v, |Jobs(l)|, failed == [])
    ensures forall q :: q != l.GuidanceTarget() ==> Get(disk.tree, q) == Get(v, q)
    ensures failed == [] ==> Get(disk.tree, l.GuidanceTarget()) == GuidanceAfter(l, t)
    ensures failed == [] ==> NoClashBefore(l, u, |Jobs(l)|)
    ensures failed != [] && disk.broken == {} ==> Clashing(t, Jobs(l))
  {
    ghost var mark := |disk.trace|;
    migrated, failed := RunMerges(disk, l, u);
    v := disk.tree;
    ghost var clean := failed == [];
    AllPicked(l, u, v);
    RunIsMidway(l, t, u, v, stamp, false);
    LogIsMidway(l, t, u, disk.trace, mark, stamp, clean);
    SourcesAgree(l, t, v, stamp);
    assert l.agents <= l.GuidanceSource();
    GuidanceTwice(l, t, v);
    SamePlan(l, t, u, stamp);
    var ok := MigrateGuidance(disk, l);
    GuidanceIsMidway(l, t, v, disk.tree, stamp, false);
    if clean {
      CleanValues(l, t, u, v, stamp);
      GuidanceIsMidway(l, t, v, disk.tree, stamp, true);
    }
    if !ok {
      WeakerLog(l, t, disk.trace, mark, stamp, clean);
      failed := failed + [l.GuidanceTarget()];
      assert failed != [];
    }
  }

  lemma WeakerLog(l: Layout, t: Tree, trace: seq<Tree>, since: nat, stamp: string, clean: bool)
    requires AllMidway(l, t, trace, since, stamp, clean)
    ensures AllMidway(l, t, trace, since, stamp, false)
  {
    forall i | since <= i < |trace| ensures Midway(l, t, trace[i], stamp, false) {
      assert Midway(l, t, trace[i], stamp, clean);
    }
  }

  lemma NoClashAtAll(l: Layout, t: Tree, u: Tree, stamp: string)
    requires l.Valid() && OutsideSame(l, t, u, stamp) && NoClashBefore(l, u, |Jobs(l)|)
    ensures !Clashing(t, Jobs(l))
  {
    SamePlan(l, t, u, stamp);
  }

  lemma MidwayIsSafe(l: Layout, t: Tree, trace: seq<Tree>, since: nat, stamp: string, clean: bool)
    requires AllMidway(l, t, trace, since, stamp, clean)
    ensures AllFailureStates(l, t, trace, since, stamp)
    ensures clean ==> AllCrashStates(l, t, trace, since, stamp)
  {
    forall i | since <= i < |trace| ensures FailureState(l, t, trace[i], stamp) && (clean ==> CrashState(l, t, trace[i], stamp)) {
      assert Midway(l, t, trace[i], stamp, clean);
    }
  }

  lemma AllPicked(l: Layout, u: Tree, v: Tree)
    requires Ran(l, u, v, |Jobs(l)|, false)
    ensures forall q :: Picked(u, Jobs(l), v, q)
  {
    assert Jobs(l)[..|Jobs(l)|] == Jobs(l);
  }

  lemma CleanValues(l: Layout, t: Tree, u: Tree, v: Tree, stamp: string)
    requires l.Valid() && OutsideSame(l, t, u, stamp) && Ran(l, u, v, |Jobs(l)|, true)
    ensures forall q :: l.Plain(q) ==> Get(v, q) == Value(t, Jobs(l), q) && Reached(t, Jobs(l), v, q)
  {
    var jobs := Jobs(l);
    assert jobs[..|jobs|] == jobs;
    SamePlan(l, t, u, stamp);
    forall q | l.Plain(q) ensures Get(v, q) == Value(t, jobs, q) && Reached(t, jobs, v, q) {
      assert Get(v, q) == Value(t, jobs[..|jobs|], q);
    }
  }

  /** Writing the guidance file keeps a state midway. */
  lemma GuidanceIsMidway(l: Layout, t: Tree, v: Tree, w: Tree, stamp: string, clean: bool)
    requires Midway(l, t, v, stamp, false)
    requires clean ==> forall q :: l.Plain(q) ==> Reached(t, Jobs(l), v, q)
    requires forall q :: q != l.GuidanceTarget() ==> Get(w, q) == Get(v, q)
    requires Get(w, l.GuidanceTarget()) == Get(v, l.GuidanceTarget()) || Get(w, l.GuidanceTarget()) == GuidanceAfter(l, t)
    ensures Midway(l, t, w, stamp, clean)
  {
    MarkerIsApart(l);
    assert Get(w, l.Marker()) == Get(v, l.Marker());
    forall q | l.Plain(q) ensures Picked(t, Jobs(l), w, q) && (clean ==> Reached(t, Jobs(l), w, q)) {
      assert Picked(t, Jobs(l), v, q);
      assert Get(w, q) == Get(v, q);
      if clean {
        assert Reached(t, Jobs(l), v, q);
      }
    }
  }

  lemma StateStillThere(l: Layout, v: Tree, w: Tree)
    requires IsDir(v, l.State()) && forall q :: q != l.GuidanceTarget() ==> Get(w, q) == Get(v, q)
    ensures IsDir(w, l.State())
  {
    assert l.State()[|l.home|] == STATE_DIR && l.GuidanceTarget()[|l.home|] == GUIDANCE_FILE;
    assert Get(w, l.State()) == Get(v, l.State());
  }

  /** Writing the marker completes the run. */
  lemma MarkedIsComplete(l: Layout, t: Tree, u: Tree, v: Tree, w: Tree, x: Tree, stamp: string, markerBody: string)
    requires l.Valid() && OutsideSame(l, t, u, stamp) && l.Marker() !in t
    requires forall q :: l.InBackups(q) ==> Get(u, q) == BackedUp(l, t, stamp, q)
    requires Ran(l, u, v, |Jobs(l)|, true) && Midway(l, t, w, stamp, true)
    requires forall q :: q != l.GuidanceTarget() ==> Get(w, q) == Get(v, q)
    requires Get(w, l.GuidanceTarget()) == GuidanceAfter(l, t)
    requires x == w[l.Marker() := File(markerBody)]
    ensures Completed(l, t, x, stamp) && CrashState(l, t, x, stamp) && FailureState(l, t, x, stamp)
  {
    MarkerIsApart(l);
    AllPicked(l, u, v);
    RunIsMidway(l, t, u, v, stamp, false);
    CleanValues(l, t, u, v, stamp);
    forall q ensures q != l.Marker() && q != l.GuidanceTarget() ==> Get(x, q) == Get(v, q) {
      if q != l.Marker() && q != l.GuidanceTarget() {
        assert Get(w, q) == Get(v, q);
      }
    }
    forall q | l.Plain(q) ensures Get(x, q) == Value(t, Jobs(l), q) && Reached(t, Jobs(l), x, q) {
      assert Get(v, q) == Value(t, Jobs(l), q);
      assert Jobs(l)[..|Jobs(l)|] == Jobs(l);
    }
    CrashIsFailure(l, t, x, stamp);
  }

  // ----- rollback -----

  datatype RollbackFailure = NoBackup | RemoveFailed | RestoreFailed

  /** Outside the state directory only the directories above it are made. */
  function Outside(l: Layout, t: Tree, q: Path): Option<Entry> {
    StepValue(t, MakeDirs(l.home), q, Get(t, q))
  }

  lemma OutsideStays(l: Layout, t: Tree, q: Path)
    requires WellFormed(t) && IsDir(t, l.home)
    ensures Outside(l, t, q) == Get(t, q)
  {
    if q <= l.home && q != l.home {
      AncestorsAreDirs(t, l.home, q);
    }
  }

  /** After a migration they are there. */
  lemma HomeIsThere(l: Layout, u: Tree)
    requires WellFormed(u) && l.Marker() in u
    ensures IsDir(u, l.home)
  {
    assert l.home <= l.Marker();
    AncestorsAreDirs(u, l.Marker(), l.home);
  }

  /** The state directory holds what the backup held, and nothing else. */
  ghost predicate RolledBack(l: Layout, t: Tree, u: Tree, backup: Path) {
    forall q :: Get(u, q) == if l.State() <= q then Get(t, Origin(backup, l.State(), q)) else Outside(l, t, q)
  }

  /** The former state is gone, and some entries of the backup have been copied. */
  ghost predicate PartlyRolledBack(l: Layout, t: Tree, u: Tree, backup: Path) {
    && (forall q :: l.State() <= q ==> Get(u, q) == None || Get(u, q) == Get(t, Origin(backup, l.State(), q)))
    && (forall q :: !(l.State() <= q) ==> Get(u, q) == Get(t, q) || Get(u, q) == Outside(l, t, q))
  }

  /** Nothing is left in the state directory. */
  ghost predicate Emptied(l: Layout, u: Tree) {
    forall q :: l.State() <= q && q != l.State() ==> Get(u, q) == None
  }

  /** `rollback_state_layout`: the state directory goes, the backup is copied back.
      A backup inside the state directory goes with it. */
  method RollbackStateLayout(disk: Disk, l: Layout, backup: Path) returns (r: Result<(), RollbackFailure>)
    requires WellFormed(disk.tree) && (Apart(l.State(), backup) || l.State() <= backup)
    modifies disk
    ensures WellFormed(disk.tree)
    ensures r == Err(NoBackup) <==> !IsDir(old(disk.tree), backup)
    ensures r == Err(NoBackup) || r == Err(RemoveFailed) ==> disk.tree == old(disk.tree)
    ensures r == Err(RestoreFailed) ==> PartlyRolledBack(l, old(disk.tree), disk.tree, backup)
    ensures r == Err(RestoreFailed) && l.State() <= backup ==> Emptied(l, disk.tree)
    ensures r.Ok? ==> Apart(l.State(), backup) && RolledBack(l, old(disk.tree), disk.tree, backup)
    ensures disk.broken == {} && IsDir(old(disk.tree), backup) ==>
              && (r == Err(RemoveFailed) <==> IsFile(old(disk.tree), l.State()))
              && (r.Ok? <==> Apart(l.State(), backup) && !IsFile(old(disk.tree), l.State())
                             && !ClashNow(old(disk.tree), MakeDirs(l.home)))
  {
    ghost var t := disk.tree;
    var state := l.State();
    if !IsDir(disk.tree, backup) {
      return Err(NoBackup);
    }
    if state in disk.tree {
      var removed := disk.RemoveAll(state);
      if !removed {
        return Err(RemoveFailed);
      }
    }
    StateRemoved(l, t, disk.tree);
    r := Restore(disk, l, backup, t);
    assert state <= backup ==> !IsFile(t, state) by {
      if state <= backup && state != backup {
        AncestorsAreDirs(t, backup, state);
      }
    }
  }

  /** `copy_dir_recursive` from the backup: it makes the target with the
      directories above it, and then reads the backup. */
  method Restore(disk: Disk, l: Layout, backup: Path, ghost t: Tree) returns (r: Result<(), RollbackFailure>)
    requires WellFormed(disk.tree) && WithoutState(l, t, disk.tree) && IsDir(t, backup)
    requires Apart(l.State(), backup) || l.State() <= backup
    modifies disk
    ensures WellFormed(disk.tree)
    ensures r.Ok? || r == Err(RestoreFailed)
    ensures r.Err? ==> PartlyRolledBack(l, t, disk.tree, backup)
    ensures r.Err? && l.State() <= backup ==> Emptied(l, disk.tree)
    ensures r.Ok? ==> Apart(l.State(), backup) && RolledBack(l, t, disk.tree, backup)
    ensures disk.broken == {} ==> (r.Ok? <==> Apart(l.State(), backup) && !ClashNow(t, MakeDirs(l.home)))
  {
    ghost var u := disk.tree;
    var ok := MakeAllDirs(disk, l.home);
    ghost var w := disk.tree;
    RootsMade(l, t, u, w, backup, ok);
    if !ok {
      return Err(RestoreFailed);
    }
    assert Parent(l.State()) == l.home;
    if !IsDir(disk.tree, backup) {
      var made := disk.Put(l.State(), Dir);
      WriteKeepsShape(w, l.State(), Dir);
      return Err(RestoreFailed);
    }
    ok := disk.CopyTree(Overwrite, backup, l.State());
    RestoreExact(l, t, w, disk.tree, backup);
    r := if ok then Ok(()) else Err(RestoreFailed);
  }

  ghost predicate WithoutState(l: Layout, t: Tree, u: Tree) {
    forall q :: Get(u, q) == if l.State() <= q then None else Get(t, q)
  }

  lemma StateRemoved(l: Layout, t: Tree, u: Tree)
    requires WellFormed(t)
    requires l.State() in t ==> forall q :: Get(u, q) == if l.State() <= q then None else Get(t, q)
    requires l.State() !in t ==> u == t
    ensures WithoutState(l, t, u)
  {
    forall q | l.State() !in t && l.State() <= q ensures q !in t {
      if q in t {
        AncestorsAreDirs(t, q, l.State());
      }
    }
  }

  lemma SameClashAbove(l: Layout, t: Tree, u: Tree)
    requires WithoutState(l, t, u)
    ensures ClashNow(u, MakeDirs(l.home)) <==> ClashNow(t, MakeDirs(l.home))
  {
    var job := MakeDirs(l.home);
    forall q | JobFeeds(u, job, q) ensures Get(u, q) == Get(t, q) && JobFeeds(t, job, q) {}
    if ClashNow(u, job) {
      var q :| JobFeeds(u, job, q) && Clashes(Merge, Get(u, q), JobEntry(u, job, q));
      assert JobFeeds(t, job, q) && Clashes(Merge, Get(t, q), JobEntry(t, job, q));
    }
    if ClashNow(t, job) {
      var q :| JobFeeds(t, job, q) && Clashes(Merge, Get(t, q), JobEntry(t, job, q));
      assert JobFeeds(u, job, q) && Clashes(Merge, Get(u, q), JobEntry(u, job, q));
    }
  }

  /** `w` is `u` with the directories above the state directory made. */
  lemma RootsMade(l: Layout, t: Tree, u: Tree, w: Tree, backup: Path, ok: bool)
    requires WithoutState(l, t, u) && IsDir(t, backup) && (Apart(l.State(), backup) || l.State() <= backup)
    requires PartlyDone(u, w, MakeDirs(l.home)) && (ok ==> JobDone(u, w, MakeDirs(l.home)))
    requires ok ==> !ClashNow(u, MakeDirs(l.home))
    ensures PartlyRolledBack(l, t, w, backup) && Emptied(l, w)
    ensures ok ==> IsDir(w, l.home) && forall q :: Get(w, q) == if l.State() <= q then None else Outside(l, t, q)
    ensures ClashNow(u, MakeDirs(l.home)) <==> ClashNow(t, MakeDirs(l.home))
    ensures Apart(l.State(), backup) ==> IsDir(w, backup)
    ensures l.State() <= backup ==> !IsDir(w, backup)
    ensures !Apart(l.State(), backup) ==> PartlyRolledBack(l, t, w[l.State() := Dir], backup)
  {
    SameClashAbove(l, t, u);
    assert Origin(backup, l.State(), l.State()) == backup;
    assert Get(w, backup) == Get(u, backup) || Get(w, backup) == StepValue(u, MakeDirs(l.home), backup, Get(u, backup));
    if ok {
      assert JobFeeds(u, MakeDirs(l.home), l.home) && !Clashes(Merge, Get(u, l.home), JobEntry(u, MakeDirs(l.home), l.home));
      assert Get(w, l.home) == StepValue(u, MakeDirs(l.home), l.home, Get(u, l.home));
    }
  }

  lemma RestoreExact(l: Layout, t: Tree, w: Tree, x: Tree, backup: Path)
    requires Apart(l.State(), backup) && PartlyCopied(w, x, Overwrite, backup, l.State())
    requires forall q :: Get(w, q) == if l.State() <= q then None else Outside(l, t, q)
    ensures !ClashSomewhere(w, Overwrite, backup, l.State())
    ensures Copied(w, x, Overwrite, backup, l.State()) ==> RolledBack(l, t, x, backup)
    ensures PartlyRolledBack(l, t, x, backup)
  {
    forall q
      ensures !ClashAt(w, Overwrite, backup, l.State(), q)
      ensures After(w, Overwrite, backup, l.State(), q)
           == if l.State() <= q then Get(t, Origin(backup, l.State(), q)) else Outside(l, t, q)
    {
      if l.State() <= q {
        var o := Origin(backup, l.State(), q);
        assert backup <= o;
        PrefixesCompare(l.State(), backup, o);
        PrefixTransitive(backup, o, l.home);
        PrefixTransitive(backup, l.home, l.State());
        assert l.home <= l.State();
        assert Get(w, o) == Get(t, o);
      }
    }
  }

  /** Rollback undoes migration.  Migrating a non-empty state directory and rolling
      back to the reported backup restores the directory entry for entry, exactly
      when the backup path held nothing but what the state holds: leftovers of an
      earlier backup of the same millisecond are what it would add. */
  lemma RollbackUndoesMigration(l: Layout, t: Tree, u: Tree, v: Tree, stamp: string)
    requires l.Valid() && HasEntries(t, l.State())
    requires Completed(l, t, u, stamp) && RolledBack(l, u, v, l.Backup(stamp))
    ensures (forall q :: l.State() <= q ==> Get(v, q) == Get(t, q))
       <==> (forall x: Path :: l.Backup(stamp) + x in t ==> l.State() + x in t)
    ensures WellFormed(u) ==> forall q :: !(l.State() <= q) ==> Get(v, q) == Get(u, q)
  {
    RollbackStaysInside(l, u, v, l.Backup(stamp));
    RestoredFromBackup(l, t, u, v, stamp);
    StateRestored(l, t, v, l.Backup(stamp));
  }

  lemma RollbackStaysInside(l: Layout, u: Tree, v: Tree, backup: Path)
    requires l.Marker() in u && RolledBack(l, u, v, backup)
    ensures WellFormed(u) ==> forall q :: !(l.State() <= q) ==> Get(v, q) == Get(u, q)
  {
    if WellFormed(u) {
      HomeIsThere(l, u);
      forall q | !(l.State() <= q) ensures Get(v, q) == Get(u, q) {
        OutsideStays(l, u, q);
      }
    }
  }

  function FromEither(l: Layout, t: Tree, backup: Path, x: Path): Option<Entry> {
    if l.State() + x in t then Get(t, l.State() + x) else Get(t, backup + x)
  }

  /** Below the state directory is what was there, and what only the backup path had. */
  lemma RestoredFromBackup(l: Layout, t: Tree, u: Tree, v: Tree, stamp: string)
    requires l.Valid() && HasEntries(t, l.State())
    requires Completed(l, t, u, stamp) && RolledBack(l, u, v, l.Backup(stamp))
    ensures forall x: Path :: Get(v, l.State() + x) == FromEither(l, t, l.Backup(stamp), x)
  {
    var state, backup := l.State(), l.Backup(stamp);
    forall x: Path
      ensures Get(v, state + x) == if state + x in t then Get(t, state + x) else Get(t, backup + x)
    {
      var o := backup + x;
      assert backup <= o && Origin(state, backup, o) == state + x;
      PrefixOfLonger(l.home, [BACKUP_PREFIX + stamp], backup);
      PrefixTransitive(l.home, backup, o);
      assert o[|l.home|] == BACKUP_PREFIX + stamp;
      assert l.InBackups(o);
      assert Get(u, o) == BackedUp(l, t, stamp, o);
      assert (state + x)[|state|..] == x;
    }
  }

  lemma StateRestored(l: Layout, t: Tree, v: Tree, backup: Path)
    requires forall x: Path :: Get(v, l.State() + x) == FromEither(l, t, backup, x)
    ensures (forall q :: l.State() <= q ==> Get(v, q) == Get(t, q))
       <==> (forall x: Path :: backup + x in t ==> l.State() + x in t)
  {
    var state := l.State();
    forall q | state <= q ensures q == state + q[|state|..] {}
    if forall q :: state <= q ==> Get(v, q) == Get(t, q) {
      forall x: Path | backup + x in t ensures state + x in t {
        assert state <= state + x;
        assert Get(v, state + x) == Get(t, state + x);
      }
    }
    if forall x: Path :: backup + x in t ==> state + x in t {
      forall q | state <= q ensures Get(v, q) == Get(t, q) {
        var x := q[|state|..];
        assert q == state + x;
        assert backup + x in t ==> state + x in t;
      }
    }
  }
}
