/** On which trees a migration that failed can always be repaired by running it again:
    when no retry can be blocked, and when every retry that gets through ends as
    planned (agent/composition/src/state_layout_migration.rs). */
module MigrationRetry {
  import opened Wrappers
  import opened FileTree
  import opened MigrationPlan
  import opened StateMigration

  // ----- trees from their entries -----

  ghost function TreeFrom(keys: set<Path>, entry: Path -> Option<Entry>): Tree {
    map q | q in keys && entry(q).Some? :: entry(q).value
  }

  ghost function FedPaths(t: Tree, job: Job): set<Path> {
    match job
    case MakeDirs(p) => set i | 0 <= i <= |p| :: p[..i]
    case MergeJob(s, d) => set p | p in t && s <= p :: d + p[|s|..]
  }

  lemma FedIsThere(t: Tree, s: Path, d: Path, q: Path)
    requires Feeds(t, s, d, q)
    ensures q in FedPaths(t, MergeJob(s, d))
  {
    var p := Origin(s, d, q);
    assert s <= p && p[|s|..] == q[|d|..];
    assert q == d + p[|s|..];
  }

  lemma JobFeedsThere(t: Tree, job: Job, q: Path)
    requires JobFeeds(t, job, q)
    ensures q in FedPaths(t, job)
  {
    match job
    case MakeDirs(p) => assert q == p[..|q|];
    case MergeJob(s, d) => FedIsThere(t, s, d, q);
  }

  ghost function AllFed(t: Tree, jobs: seq<Job>): set<Path> {
    if jobs == [] then {} else AllFed(t, jobs[..|jobs| - 1]) + FedPaths(t, jobs[|jobs| - 1])
  }

  lemma {:induction false} NothingElsewhere(t: Tree, jobs: seq<Job>, q: Path, cur: Option<Entry>)
    requires q !in AllFed(t, jobs)
    ensures Fold(t, jobs, q, cur) == cur
  {
    if jobs != [] {
      NothingElsewhere(t, jobs[..|jobs| - 1], q, cur);
      if JobFeeds(t, jobs[|jobs| - 1], q) {
        JobFeedsThere(t, jobs[|jobs| - 1], q);
      }
    }
  }

  /** The tree on which just these jobs have been done. */
  lemma TreeAfter(t: Tree, jobs: seq<Job>) returns (m: Tree)
    ensures forall q :: Get(m, q) == Value(t, jobs, q)
  {
    m := TreeFrom(t.Keys + AllFed(t, jobs), q => Value(t, jobs, q));
    forall q ensures Get(m, q) == Value(t, jobs, q) {
      if q !in AllFed(t, jobs) {
        NothingElsewhere(t, jobs, q, Get(t, q));
      }
    }
  }

  /** What a finished run leaves at a path. */
  ghost function Finished(l: Layout, m: Tree, stamp: string, q: Path): Option<Entry> {
    if q == l.Marker() then Some(File(""))
    else if q == l.GuidanceTarget() then GuidanceAfter(l, m)
    else if l.InBackups(q) then BackedUp(l, m, stamp, q)
    else Value(m, Jobs(l), q)
  }

  /** From every tree there is one with the entries a finished run leaves, whether or
      not a run would get that far. */
  lemma RunCanFinish(l: Layout, m: Tree, stamp: string) returns (v: Tree)
    ensures Completed(l, m, v, stamp)
  {
    var copied := FedPaths(m, MergeJob(l.State(), l.Backup(stamp)));
    var keys := m.Keys + AllFed(m, Jobs(l)) + {l.Marker(), l.GuidanceTarget()} + copied;
    v := TreeFrom(keys, q => Finished(l, m, stamp, q));
    MarkerIsApart(l);
    forall q ensures Get(v, q) == Finished(l, m, stamp, q) {
      if q !in keys {
        NothingElsewhere(m, Jobs(l), q, Get(m, q));
        if Feeds(m, l.State(), l.Backup(stamp), q) {
          FedIsThere(m, l.State(), l.Backup(stamp), q);
        }
      }
    }
  }

  // ----- the trees are well formed -----

  /** A directory that a job without a clash brings is there in the end. */
  lemma BroughtDir(t: Tree, jobs: seq<Job>, k: nat, q: Path)
    requires k < |jobs| && !Clashing(t, jobs) && JobFeeds(t, jobs[k], q) && JobEntry(t, jobs[k], q).Dir?
    ensures Value(t, jobs, q) == Some(Dir)
  {
    assert !JobClash(t, jobs, k, q);
    assert jobs[..k + 1][..k] == jobs[..k] && jobs == jobs[..k + 1] + jobs[k + 1..];
    assert Value(t, jobs[..k + 1], q) == Some(Dir);
    FoldAppend(t, jobs[..k + 1], jobs[k + 1..], q, Get(t, q));
    DirStays(t, jobs[k + 1..], q, Some(Dir));
  }

  lemma {:induction false} SomethingBrought(t: Tree, jobs: seq<Job>, q: Path)
    requires Value(t, jobs, q).Some? && q !in t
    ensures exists k :: 0 <= k < |jobs| && JobFeeds(t, jobs[k], q)
  {
    if forall k :: 0 <= k < |jobs| ==> !JobFeeds(t, jobs[k], q) {
      FoldFedBy(t, jobs, q, Get(t, q));
      FedByNone(t, jobs, q);
    }
  }

  /** What lies above a path that a job feeds is brought by the same job, unless the
      path is the target itself. */
  lemma ParentBrought(t: Tree, job: Job, q: Path)
    requires WellFormed(t) && q != [] && JobFeeds(t, job, q)
    ensures (JobFeeds(t, job, Parent(q)) && JobEntry(t, job, Parent(q)).Dir?) || (job.MergeJob? && q == job.target)
  {
    if job.MergeJob? && q != job.target {
      var s, d := job.source, job.target;
      assert Parent(q)[|d|..] == q[|d|..][..|q| - |d| - 1];
      assert Origin(s, d, Parent(q)) == Parent(Origin(s, d, q));
    }
  }

  /** The tree on which jobs of the plan have been done without a clash, the state
      root first, is well formed. */
  lemma DoneIsTree(l: Layout, t: Tree, jobs: seq<Job>, m: Tree)
    requires l.Valid() && WellFormed(t) && !Clashing(t, jobs)
    requires jobs != [] && jobs[0] == MakeDirs(l.State()) && forall i :: 0 <= i < |jobs| ==> jobs[i] in Jobs(l)
    requires forall q :: Get(m, q) == Value(t, jobs, q)
    ensures WellFormed(m)
  {
    DirStays(t, jobs, [], Get(t, []));
    assert Get(m, []) == Some(Dir);
    forall q | q in m && q != [] ensures IsDir(m, Parent(q)) {
      assert Get(m, q).Some? && Get(m, Parent(q)) == Value(t, jobs, Parent(q));
      if q in t {
        DirStays(t, jobs, Parent(q), Some(Dir));
      } else {
        SomethingBrought(t, jobs, q);
        var k: nat :| k < |jobs| && JobFeeds(t, jobs[k], q);
        ParentThere(l, t, jobs, k, q);
      }
    }
  }

  lemma ParentThere(l: Layout, t: Tree, jobs: seq<Job>, k: nat, q: Path)
    requires l.Valid() && WellFormed(t) && !Clashing(t, jobs)
    requires jobs != [] && jobs[0] == MakeDirs(l.State()) && forall i :: 0 <= i < |jobs| ==> jobs[i] in Jobs(l)
    requires k < |jobs| && q != [] && JobFeeds(t, jobs[k], q)
    ensures Value(t, jobs, Parent(q)) == Some(Dir)
  {
    ParentBrought(t, jobs[k], q);
    if JobFeeds(t, jobs[k], Parent(q)) && JobEntry(t, jobs[k], Parent(q)).Dir? {
      BroughtDir(t, jobs, k, Parent(q));
    } else {
      assert jobs[k] in Jobs(l);
      var i: nat :| i < |Jobs(l)| && Jobs(l)[i] == jobs[k];
      JobShape(l, i);
      assert l.home <= l.State();
      BroughtDir(t, jobs, 0, Parent(q));
    }
  }

  // ----- the two ways to disagree -----

  ghost predicate BothHave(l: Layout, t: Tree, q: Path) {
    JobFeeds(t, LeafJob(l, SHARED_LEAF), q) && JobFeeds(t, HistoricalJob(l), q)
  }

  /** The sources hold two different files with content for a path where the target
      has nothing, or an empty file. */
  ghost predicate FilesConflict(l: Layout, t: Tree, q: Path) {
    && BothHave(l, t, q) && (Get(t, q).None? || Get(t, q) == Some(File("")))
    && var (a, b) := (JobEntry(t, LeafJob(l, SHARED_LEAF), q), JobEntry(t, HistoricalJob(l), q));
    && a.File? && b.File? && a != b && a.body != "" && b.body != ""
  }

  /** The target has nothing, the newer source a directory and the older one a file. */
  ghost predicate KindsConflict(l: Layout, t: Tree, q: Path) {
    && BothHave(l, t, q) && Get(t, q).None?
    && JobEntry(t, LeafJob(l, SHARED_LEAF), q).Dir? && JobEntry(t, HistoricalJob(l), q).File?
  }

  /** Before the job of the newer source no job has anything for such a path. */
  lemma NothingBefore(l: Layout, t: Tree, q: Path, cur: Option<Entry>)
    requires l.Valid() && JobFeeds(t, LeafJob(l, SHARED_LEAF), q)
    ensures Fold(t, Jobs(l)[..9], q, cur) == cur
    ensures Fold(t, Jobs(l)[..13], q, cur) == StepValue(t, LeafJob(l, SHARED_LEAF), q, cur)
  {
    var jobs := Jobs(l);
    assert jobs[9] == LeafJob(l, SHARED_LEAF);
    forall i | 0 <= i < 13 && i != 9 ensures !JobFeeds(t, jobs[i], q) {
      OnlySharedFeeds(l, t, i, q);
    }
    FoldFedBy(t, jobs[..9], q, cur);
    FedByNone(t, jobs[..9], q);
    FoldFedBy(t, jobs[..13], q, cur);
    OnlyOne(t, jobs[..13], 9, q);
    RunOne(t, jobs[9], q, cur);
  }

  /** No other job has anything for it than that of the older source. */
  lemma OnlySharedFeeds(l: Layout, t: Tree, i: nat, q: Path)
    requires l.Valid() && JobFeeds(t, LeafJob(l, SHARED_LEAF), q)
    ensures i < |Jobs(l)| && JobFeeds(t, Jobs(l)[i], q) ==> i == 9 || i == 13
  {
    assert Jobs(l)[9] == LeafJob(l, SHARED_LEAF);
    if i < 9 && JobFeeds(t, Jobs(l)[i], q) {
      TwoSourcesOfOneLeaf(l, t, i, 9, q);
    } else if 9 < i < |Jobs(l)| && JobFeeds(t, Jobs(l)[i], q) {
      TwoSourcesOfOneLeaf(l, t, 9, i, q);
    }
  }

  /** Where a whole run meets no clash, the order of the sources matters in just these
      two ways. */
  lemma OrderMattersIn(l: Layout, t: Tree, q: Path)
    requires l.Valid() && !Clashing(t, Jobs(l))
    ensures OrderMatters(l, t, q) <==> FilesConflict(l, t, q) || KindsConflict(l, t, q)
  {
    WhenOrderMatters(l, t, q);
    if BothHave(l, t, q) {
      NothingBefore(l, t, q, Get(t, q));
      assert Jobs(l)[13] == HistoricalJob(l);
      assert !JobClash(t, Jobs(l), 13, q);
    }
  }

  // ----- retries that are blocked -----

  /** A file where the newer source has a directory blocks the run. */
  lemma FileBlocks(l: Layout, m: Tree, q: Path)
    requires l.Valid() && JobFeeds(m, LeafJob(l, SHARED_LEAF), q)
    requires JobEntry(m, LeafJob(l, SHARED_LEAF), q).Dir? && IsFile(m, q)
    ensures Clashing(m, Jobs(l))
  {
    NothingBefore(l, m, q, Get(m, q));
    assert Jobs(l)[9] == LeafJob(l, SHARED_LEAF);
    assert JobClash(m, Jobs(l), 9, q);
  }

  /** And it stays there, whatever the blocked run does: every later retry is blocked. */
  lemma BlockedForGood(l: Layout, m: Tree, again: Tree, stamp: string, q: Path)
    requires l.Valid() && FailureState(l, m, again, stamp) && JobFeeds(m, LeafJob(l, SHARED_LEAF), q)
    requires JobEntry(m, LeafJob(l, SHARED_LEAF), q).Dir? && IsFile(m, q)
    ensures JobFeeds(again, LeafJob(l, SHARED_LEAF), q)
    ensures JobEntry(again, LeafJob(l, SHARED_LEAF), q).Dir? && IsFile(again, q) && Clashing(again, Jobs(l))
  {
    assert Jobs(l)[9] == LeafJob(l, SHARED_LEAF);
    FedNotSource(l, m, 9, q);
    SourcesAgree(l, m, again, stamp);
    SameSourceFeeds(m, again, Jobs(l)[9], q);
    assert Picked(m, Jobs(l), again, q);
    var picked :| Sub(picked, Jobs(l)) && Get(again, q) == Value(m, picked, q);
    KindStays(m, picked, q, Get(m, q));
    FileBlocks(l, again, q);
  }

  /** A run in which every job but the state root and the older source of
      `tool-results` fails before it has written anything. */
  lemma OnlyOlderSource(l: Layout, t: Tree, stamp: string) returns (m: Tree)
    requires l.Valid() && !Clashing(t, Jobs(l))
    ensures FailureState(l, t, m, stamp)
    ensures forall q :: Get(m, q) == Value(t, [MakeDirs(l.State()), HistoricalJob(l)], q)
    ensures WellFormed(t) ==> WellFormed(m)
  {
    var jobs, picked := Jobs(l), [MakeDirs(l.State()), HistoricalJob(l)];
    m := TreeAfter(t, picked);
    PickTwo(jobs, 13, picked);
    SubMembers(picked, jobs);
    MarkerIsApart(l);
    forall q | !l.Plain(q) ensures Get(m, q) == Get(t, q) {
      OthersStay(l, t, picked, q, Get(t, q));
    }
    if WellFormed(t) {
      OlderNotClashing(l, t);
      DoneIsTree(l, t, picked, m);
    }
  }

  lemma OlderNotClashing(l: Layout, t: Tree)
    requires l.Valid() && !Clashing(t, Jobs(l))
    ensures !Clashing(t, [MakeDirs(l.State()), HistoricalJob(l)])
  {
    var jobs, picked := Jobs(l), [MakeDirs(l.State()), HistoricalJob(l)];
    assert picked[0] == jobs[0] && picked[1] == jobs[13];
    assert picked[..0] == [] && jobs[..0] == [];
    forall k: nat, q | k < |picked| ensures !JobClash(t, picked, k, q) {
      assert !JobClash(t, jobs, 0, q) && !JobClash(t, jobs, 13, q);
      if k == 1 && JobFeeds(t, jobs[13], q) {
        NamesAtTarget(l, t, 13, q, SHARED_LEAF);
        assert |q| > |l.State()|;
        assert picked[..1] == [jobs[0]];
        RunOne(t, jobs[0], q, Get(t, q));
        if q in t {
          KindStays(t, jobs[..13], q, Get(t, q));
        }
      }
    }
  }

  lemma {:induction false} SubLater(a: seq<Job>, jobs: seq<Job>, k: nat)
    requires k <= |jobs| && Sub(a, jobs[..k])
    ensures Sub(a, jobs)
  {
    if k == |jobs| {
      assert jobs[..k] == jobs;
    } else {
      assert jobs[..|jobs| - 1][..k] == jobs[..k];
      SubLater(a, jobs[..|jobs| - 1], k);
    }
  }

  lemma PickTwo(jobs: seq<Job>, k: nat, picked: seq<Job>)
    requires 0 < k < |jobs| && picked == [jobs[0], jobs[k]]
    ensures Sub(picked, jobs)
  {
    var front := jobs[..k];
    assert [jobs[0]] == front[..1];
    PrefixIsSub(front, 1);
    var more := jobs[..k + 1];
    assert more[..|more| - 1] == front && picked[..1] == [jobs[0]];
    SubLater(picked, jobs, k + 1);
  }

  lemma MarkerNotMade(l: Layout, t: Tree, m: Tree)
    requires l.Valid() && l.Marker() !in t
    requires forall q :: Get(m, q) == Value(t, [MakeDirs(l.State()), HistoricalJob(l)], q)
    ensures l.Marker() !in m
  {
    var picked := [MakeDirs(l.State()), HistoricalJob(l)];
    assert picked[0] == Jobs(l)[0] && picked[1] == Jobs(l)[13];
    OthersStay(l, t, picked, l.Marker(), Get(t, l.Marker()));
    assert Get(m, l.Marker()) == Get(t, l.Marker());
  }

  /** The state root is not where the two sources meet. */
  lemma RootNotThere(l: Layout, t: Tree, q: Path)
    requires l.Valid() && JobFeeds(t, HistoricalJob(l), q)
    ensures Value(t, [MakeDirs(l.State()), HistoricalJob(l)], q) == Value(t, [HistoricalJob(l)], q)
  {
    NamesAtTarget(l, t, 13, q, SHARED_LEAF);
    assert |q| > |l.State()|;
    TwoSteps(l, t, q, MakeDirs(l.State()), HistoricalJob(l));
    RunOne(t, HistoricalJob(l), q, Get(t, q));
  }

  /** No state that a failed run leaves blocks a retry, if and only if nowhere the newer
      source has a directory, the older one a file and the target nothing.  There, once
      the file is in the target, every retry is blocked (`BlockedForGood`). */
  lemma NeverBlockedExactlyWhen(l: Layout, t: Tree, stamp: string)
    requires l.Valid() && l.Marker() !in t && !Clashing(t, Jobs(l))
    ensures (forall m :: FailureState(l, t, m, stamp) && l.Marker() !in m ==> !Clashing(m, Jobs(l)))
       <==> (forall q :: !KindsConflict(l, t, q))
  {
    if forall q :: !KindsConflict(l, t, q) {
      forall m, k: nat, q | FailureState(l, t, m, stamp) && k < |Jobs(l)| ensures !JobClash(m, Jobs(l), k, q) {
        NotBlockedAt(l, t, m, stamp, k, q);
      }
    } else {
      var q :| KindsConflict(l, t, q);
      var m := RetryBlocked(l, t, q, stamp);
    }
  }

  /** The failure that blocks: the older source has come first. */
  lemma RetryBlocked(l: Layout, t: Tree, q: Path, stamp: string) returns (m: Tree)
    requires l.Valid() && l.Marker() !in t && !Clashing(t, Jobs(l)) && KindsConflict(l, t, q)
    ensures FailureState(l, t, m, stamp) && l.Marker() !in m && (WellFormed(t) ==> WellFormed(m))
    ensures Clashing(m, Jobs(l))
    ensures JobFeeds(m, LeafJob(l, SHARED_LEAF), q) && JobEntry(m, LeafJob(l, SHARED_LEAF), q).Dir? && IsFile(m, q)
  {
    m := OnlyOlderSource(l, t, stamp);
    MarkerNotMade(l, t, m);
    RootNotThere(l, t, q);
    RunOne(t, HistoricalJob(l), q, Get(t, q));
    assert Get(m, q) == Some(JobEntry(t, HistoricalJob(l), q));
    SourcesAgree(l, t, m, stamp);
    assert Jobs(l)[9] == LeafJob(l, SHARED_LEAF);
    SameSourceFeeds(t, m, Jobs(l)[9], q);
    FileBlocks(l, m, q);
  }

  lemma NotBlockedAt(l: Layout, t: Tree, m: Tree, stamp: string, k: nat, q: Path)
    requires l.Valid() && !Clashing(t, Jobs(l)) && FailureState(l, t, m, stamp)
    requires k < |Jobs(l)| && !KindsConflict(l, t, q)
    ensures !JobClash(m, Jobs(l), k, q)
  {
    SourcesAgree(l, t, m, stamp);
    SameSourceFeeds(t, m, Jobs(l)[k], q);
    if JobFeeds(t, Jobs(l)[k], q) && JobEntry(t, Jobs(l)[k], q).Dir? {
      FedNotSource(l, t, k, q);
      assert Picked(t, Jobs(l), m, q);
      var picked :| Sub(picked, Jobs(l)) && Get(m, q) == Value(t, picked, q);
      FoldReadsSources(t, m, Jobs(l)[..k], q, Get(m, q));
      if BothHave(l, t, q) {
        NoFileWhereBoth(l, t, picked, k, q);
      } else {
        NoFileWhereOne(l, t, picked, k, q);
      }
    }
  }

  /** One job alone has something for the path, a directory: no file gets there. */
  lemma NoFileWhereOne(l: Layout, t: Tree, picked: seq<Job>, k: nat, q: Path)
    requires l.Valid() && !Clashing(t, Jobs(l)) && Sub(picked, Jobs(l)) && !BothHave(l, t, q)
    requires k < |Jobs(l)| && JobFeeds(t, Jobs(l)[k], q) && JobEntry(t, Jobs(l)[k], q).Dir?
    ensures var v := Fold(t, Jobs(l)[..k], q, Value(t, picked, q)); v.None? || v.value.Dir?
  {
    var jobs := Jobs(l);
    AloneAt(l, t, k, q);
    assert !JobClash(t, jobs, k, q);
    FoldFedBy(t, jobs[..k], q, Get(t, q));
    FoldFedBy(t, jobs[..k], q, Value(t, picked, q));
    FedByNone(t, jobs[..k], q);
    OnlyOne(t, jobs, k, q);
    RetryFedBy(t, jobs, picked, q);
    SubOfOne(FedBy(t, picked, q), [jobs[k]]);
    RunOne(t, jobs[k], q, Get(t, q));
  }

  lemma AloneAt(l: Layout, t: Tree, k: nat, q: Path)
    requires l.Valid() && !BothHave(l, t, q) && k < |Jobs(l)| && JobFeeds(t, Jobs(l)[k], q)
    ensures forall i :: 0 <= i < |Jobs(l)| && i != k ==> !JobFeeds(t, Jobs(l)[i], q)
  {
    assert Jobs(l)[9] == LeafJob(l, SHARED_LEAF) && Jobs(l)[13] == HistoricalJob(l);
    forall i | 0 <= i < |Jobs(l)| && i != k && JobFeeds(t, Jobs(l)[i], q) ensures BothHave(l, t, q) {
      if i < k {
        TwoSourcesOfOneLeaf(l, t, i, k, q);
      } else {
        TwoSourcesOfOneLeaf(l, t, k, i, q);
      }
    }
  }

  /** Both sources have something for the path, one of them a directory. */
  lemma NoFileWhereBoth(l: Layout, t: Tree, picked: seq<Job>, k: nat, q: Path)
    requires l.Valid() && !Clashing(t, Jobs(l)) && Sub(picked, Jobs(l)) && BothHave(l, t, q) && !KindsConflict(l, t, q)
    requires k < |Jobs(l)| && JobFeeds(t, Jobs(l)[k], q) && JobEntry(t, Jobs(l)[k], q).Dir?
    ensures var v := Fold(t, Jobs(l)[..k], q, Value(t, picked, q)); v.None? || v.value.Dir?
  {
    var first, second := LeafJob(l, SHARED_LEAF), HistoricalJob(l);
    assert Jobs(l)[9] == first && Jobs(l)[13] == second;
    OnlySharedFeeds(l, t, k, q);
    NothingBefore(l, t, q, Get(t, q));
    NothingBefore(l, t, q, Value(t, picked, q));
    assert !JobClash(t, Jobs(l), 9, q) && !JobClash(t, Jobs(l), 13, q);
    RetryFedBy(t, Jobs(l), picked, q);
    BothFeed(l, t, q);
    SubOfTwo(FedBy(t, picked, q), first, second);
    RunOne(t, first, q, Get(t, q));
    RunOne(t, second, q, Get(t, q));
    RunTwo(t, first, second, q, Get(t, q));
  }

  // ----- retries that get through -----

  /** Where the files conflict, the plan takes the newer one and the older source
      alone its own. */
  lemma FilesPlanned(l: Layout, t: Tree, q: Path)
    requires l.Valid() && FilesConflict(l, t, q)
    ensures Value(t, Jobs(l), q) == Some(JobEntry(t, LeafJob(l, SHARED_LEAF), q))
    ensures Value(t, [HistoricalJob(l)], q) == Some(JobEntry(t, HistoricalJob(l), q))
    ensures OrderMatters(l, t, q)
  {
    var first, second := LeafJob(l, SHARED_LEAF), HistoricalJob(l);
    FoldFedBy(t, Jobs(l), q, Get(t, q));
    BothFeed(l, t, q);
    RunTwo(t, first, second, q, Get(t, q));
    RunOne(t, second, q, Get(t, q));
    WhenOrderMatters(l, t, q);
  }

  /** A run in which copying one file of the newer source has failed, and nothing else. */
  lemma OneFileFailed(l: Layout, t: Tree, q: Path, stamp: string) returns (m: Tree)
    requires l.Valid() && l.Marker() !in t && FilesConflict(l, t, q)
    ensures Get(m, q) == Some(JobEntry(t, HistoricalJob(l), q))
    ensures forall p :: p != q ==> Get(m, p) == Value(t, Jobs(l), p)
    ensures FailureState(l, t, m, stamp) && l.Marker() !in m
    ensures forall p :: l.InBackups(p) ==> Get(m, p) == Get(t, p)
    ensures WellFormed(t) && !Clashing(t, Jobs(l)) ==> WellFormed(m)
  {
    var jobs, picked := Jobs(l), [MakeDirs(l.State()), HistoricalJob(l)];
    var planned := TreeAfter(t, jobs);
    m := planned[q := JobEntry(t, HistoricalJob(l), q)];
    FilesPlanned(l, t, q);
    FedNotSource(l, t, 13, q);
    RootNotThere(l, t, q);
    PickTwo(jobs, 13, picked);
    PrefixIsSub(jobs, |jobs|);
    assert jobs[..|jobs|] == jobs;
    forall p ensures p != q ==> Get(m, p) == Value(t, jobs, p) {
      assert Get(planned, p) == Value(t, jobs, p);
    }
    forall p | l.Plain(p) ensures Picked(t, jobs, m, p) {
      if p == q {
        assert Get(m, p) == Value(t, picked, p);
      } else {
        assert Get(m, p) == Value(t, jobs, p);
      }
    }
    MarkerIsApart(l);
    forall p | !l.Plain(p) ensures Get(m, p) == Get(t, p) {
      OthersStay(l, t, jobs, p, Get(t, p));
    }
    assert Get(m, l.Marker()) == Get(t, l.Marker());
    if WellFormed(t) && !Clashing(t, jobs) {
      DoneIsTree(l, t, jobs, planned);
      assert Get(planned, q) == Value(t, jobs, q);
      FileForFile(planned, q, JobEntry(t, HistoricalJob(l), q));
    }
  }

  lemma FileForFile(u: Tree, q: Path, e: Entry)
    requires WellFormed(u) && IsFile(u, q) && e.File?
    ensures WellFormed(u[q := e])
  {
    forall p | p in u && p != [] ensures Parent(p) != q {
      assert IsDir(u, Parent(p));
    }
  }

  /** Such a state blocks no retry. */
  lemma OneFileNotBlocking(l: Layout, t: Tree, m: Tree, q: Path, stamp: string)
    requires l.Valid() && !Clashing(t, Jobs(l)) && FilesConflict(l, t, q) && FailureState(l, t, m, stamp)
    requires forall p :: p != q ==> Get(m, p) == Value(t, Jobs(l), p)
    ensures !Clashing(m, Jobs(l))
  {
    var jobs := Jobs(l);
    assert jobs[9] == LeafJob(l, SHARED_LEAF) && jobs[13] == HistoricalJob(l) && jobs[..|jobs|] == jobs;
    SourcesAgree(l, t, m, stamp);
    forall k: nat, p | k < |jobs| ensures !JobClash(m, jobs, k, p) {
      SameSourceFeeds(t, m, jobs[k], p);
      if p == q {
        OnlySharedFeeds(l, t, k, p);
      } else {
        assert Get(m, p) == Value(t, jobs[..|jobs|], p);
        NoClashFrom(l, t, m, k, p);
      }
    }
  }

  /** Where the files conflict, there is a failure after which a retry gets through
      and leaves another file than planned. */
  lemma RetryCanDiffer(l: Layout, t: Tree, q: Path, first: string, second: string) returns (m: Tree, v: Tree)
    requires l.Valid() && l.Marker() !in t && !Clashing(t, Jobs(l)) && FilesConflict(l, t, q)
    ensures FailureState(l, t, m, first) && l.Marker() !in m && !Clashing(m, Jobs(l))
    ensures Completed(l, m, v, second) && l.Plain(q) && Get(v, q) != Value(t, Jobs(l), q)
    ensures WellFormed(t) ==> WellFormed(m)
    ensures (forall p :: l.Backup(second) <= p ==> p !in t) ==> !Blocked(l, m, second)
  {
    m := OneFileFailed(l, t, q, first);
    OneFileNotBlocking(l, t, m, q, first);
    v := RunCanFinish(l, m, second);
    FilesPlanned(l, t, q);
    FedNotSource(l, t, 13, q);
    RetryExactlyWhen(l, t, m, v, first, second);
    OlderFileStays(l, t, m, q, first);
    if forall p :: l.Backup(second) <= p ==> p !in t {
      FreshBackup(l, t, m, second);
    }
  }

  lemma OlderFileStays(l: Layout, t: Tree, m: Tree, q: Path, stamp: string)
    requires l.Valid() && FailureState(l, t, m, stamp) && FilesConflict(l, t, q)
    requires Get(m, q) == Some(JobEntry(t, HistoricalJob(l), q))
    ensures Value(m, Jobs(l), q) != Value(t, Jobs(l), q)
  {
    FilesPlanned(l, t, q);
    DirStays(m, Jobs(l), q, Get(m, q));
  }

  lemma FreshBackup(l: Layout, t: Tree, m: Tree, stamp: string)
    requires (forall p :: l.Backup(stamp) <= p ==> p !in t) && !Clashing(m, Jobs(l))
    requires forall p :: l.InBackups(p) ==> Get(m, p) == Get(t, p)
    ensures !Blocked(l, m, stamp)
  {
    forall p ensures !ClashAt(m, Overwrite, l.State(), l.Backup(stamp), p) {
      if l.Backup(stamp) <= p {
        NameAt(l.home, BACKUP_PREFIX + stamp, p);
        assert Get(m, p) == Get(t, p);
      }
    }
  }

  /** Every retry that gets through ends as planned from the first tree, if and only if
      nowhere the sources hold two different files with content for a path where the
      target has nothing or an empty file. */
  lemma EndsAsPlannedExactlyWhen(l: Layout, t: Tree, first: string, second: string)
    requires l.Valid() && l.Marker() !in t && !Clashing(t, Jobs(l))
    ensures (forall m, v, q :: FailureState(l, t, m, first) && l.Marker() !in m && !Clashing(m, Jobs(l))
                               && Completed(l, m, v, second) && l.Plain(q)
               ==> Get(v, q) == Value(t, Jobs(l), q))
       <==> (forall q :: !FilesConflict(l, t, q))
  {
    if forall q :: !FilesConflict(l, t, q) {
      forall m, v | FailureState(l, t, m, first) && !Clashing(m, Jobs(l)) && Completed(l, m, v, second)
        ensures forall q :: l.Plain(q) ==> Get(v, q) == Value(t, Jobs(l), q)
      {
        RightWhenThrough(l, t, m, v, first, second);
      }
    } else {
      var q :| FilesConflict(l, t, q);
      var m, v := RetryCanDiffer(l, t, q, first, second);
    }
  }

  lemma RightWhenThrough(l: Layout, t: Tree, m: Tree, v: Tree, first: string, second: string)
    requires l.Valid() && !Clashing(t, Jobs(l)) && forall q :: !FilesConflict(l, t, q)
    requires FailureState(l, t, m, first) && !Clashing(m, Jobs(l)) && Completed(l, m, v, second)
    ensures forall q :: l.Plain(q) ==> Get(v, q) == Value(t, Jobs(l), q)
  {
    RetryExactlyWhen(l, t, m, v, first, second);
    forall q | OrderMatters(l, t, q) ensures Get(m, q) != Value(t, [HistoricalJob(l)], q) {
      OrderMattersIn(l, t, q);
      KindsNotTaken(l, t, m, q, first);
    }
  }

  lemma KindsNotTaken(l: Layout, t: Tree, m: Tree, q: Path, stamp: string)
    requires l.Valid() && FailureState(l, t, m, stamp) && !Clashing(m, Jobs(l)) && KindsConflict(l, t, q)
    ensures Get(m, q) != Value(t, [HistoricalJob(l)], q)
  {
    RunOne(t, HistoricalJob(l), q, Get(t, q));
    SourcesAgree(l, t, m, stamp);
    assert Jobs(l)[9] == LeafJob(l, SHARED_LEAF);
    SameSourceFeeds(t, m, Jobs(l)[9], q);
    if IsFile(m, q) {
      FileBlocks(l, m, q);
    }
  }

  /** Both together: after every failure a retry is not blocked and ends as planned
      from the first tree, if and only if the order of the two sources matters nowhere. */
  lemma RetrySafeExactlyWhen(l: Layout, t: Tree, first: string, second: string)
    requires l.Valid() && l.Marker() !in t && !Clashing(t, Jobs(l))
    ensures (forall m :: FailureState(l, t, m, first) && l.Marker() !in m ==>
               && !Clashing(m, Jobs(l))
               && forall v, q :: Completed(l, m, v, second) && l.Plain(q) ==> Get(v, q) == Value(t, Jobs(l), q))
       <==> (forall q :: !OrderMatters(l, t, q))
  {
    NeverBlockedExactlyWhen(l, t, first);
    EndsAsPlannedExactlyWhen(l, t, first, second);
    forall q ensures OrderMatters(l, t, q) <==> FilesConflict(l, t, q) || KindsConflict(l, t, q) {
      OrderMattersIn(l, t, q);
    }
  }

  // ----- trees on which it matters -----

  /** If files are only where the migration reads, and the older source has no
      directory where the newer one has a file, a whole run meets no clash. */
  lemma NothingInTheWay(l: Layout, t: Tree)
    requires l.Valid() && forall p :: IsFile(t, p) ==> l.InSource(p)
    requires forall p :: BothHave(l, t, p) && JobEntry(t, LeafJob(l, SHARED_LEAF), p).File? ==>
      JobEntry(t, HistoricalJob(l), p).File?
    ensures !Clashing(t, Jobs(l))
  {
    var jobs := Jobs(l);
    assert jobs[9] == LeafJob(l, SHARED_LEAF) && jobs[13] == HistoricalJob(l);
    forall k: nat, q | k < |jobs| && JobFeeds(t, jobs[k], q) ensures !JobClash(t, jobs, k, q) {
      FedNotSource(l, t, k, q);
      if BothHave(l, t, q) {
        OnlySharedFeeds(l, t, k, q);
        NothingBefore(l, t, q, Get(t, q));
      } else {
        AloneAt(l, t, k, q);
        FoldFedBy(t, jobs[..k], q, Get(t, q));
        FedByNone(t, jobs[..k], q);
      }
    }
  }

  const SAMPLE: Layout := Layout(["a"], ["h"])

  /** Both sources hold `x`, the target nothing. */
  function TwoSources(newer: Entry, older: Entry): Tree {
    map[[] := Dir, ["a"] := Dir, ["a", SHARED_LEAF] := Dir, ["a", SHARED_LEAF, "x"] := newer,
        ["h"] := Dir, ["h", SHARED_LEAF] := Dir, ["h", SHARED_LEAF, "x"] := older]
  }

  lemma SampleIsTree(newer: Entry, older: Entry)
    ensures WellFormed(TwoSources(newer, older))
  {
    assert Parent(["a"]) == [] && Parent(["h"]) == [];
    assert Parent(["a", SHARED_LEAF]) == ["a"] && Parent(["h", SHARED_LEAF]) == ["h"];
    assert Parent(["a", SHARED_LEAF, "x"]) == ["a", SHARED_LEAF] && Parent(["h", SHARED_LEAF, "x"]) == ["h", SHARED_LEAF];
  }

  /** The target and the marker are not there. */
  lemma SampleKeys(newer: Entry, older: Entry)
    ensures var t := TwoSources(newer, older);
            SAMPLE.State() + [SHARED_LEAF, "x"] !in t && SAMPLE.Marker() !in t
  {
    var t := TwoSources(newer, older);
    assert forall p :: p in t ==> |p| <= 3 && (|p| == 3 ==> p[1] == SHARED_LEAF);
    assert |SAMPLE.State() + [SHARED_LEAF, "x"]| == 4;
    assert |SAMPLE.Marker()| == 3 && SAMPLE.Marker()[1] == STATE_DIR;
    assert |STATE_DIR| != |SHARED_LEAF|;
  }

  lemma SampleSources(newer: Entry, older: Entry)
    ensures var q, t := SAMPLE.State() + [SHARED_LEAF, "x"], TwoSources(newer, older);
            && BothHave(SAMPLE, t, q)
            && JobEntry(t, LeafJob(SAMPLE, SHARED_LEAF), q) == newer && JobEntry(t, HistoricalJob(SAMPLE), q) == older
  {
    var q := SAMPLE.State() + [SHARED_LEAF, "x"];
    var d := SAMPLE.State() + [SHARED_LEAF];
    assert q == d + ["x"] && q[|d|..] == ["x"];
    assert SAMPLE.agents + [SHARED_LEAF] == ["a", SHARED_LEAF] && SAMPLE.home + [SHARED_LEAF] == ["h", SHARED_LEAF];
    assert ["a", SHARED_LEAF] + ["x"] == ["a", SHARED_LEAF, "x"] && ["h", SHARED_LEAF] + ["x"] == ["h", SHARED_LEAF, "x"];
    assert ["a", SHARED_LEAF, "x"][0] != ["h", SHARED_LEAF, "x"][0];
  }

  lemma SampleReads(newer: Entry, older: Entry)
    ensures var q, t := SAMPLE.State() + [SHARED_LEAF, "x"], TwoSources(newer, older);
            && SAMPLE.Valid() && WellFormed(t) && SAMPLE.Marker() !in t && Get(t, q).None? && BothHave(SAMPLE, t, q)
            && JobEntry(t, LeafJob(SAMPLE, SHARED_LEAF), q) == newer && JobEntry(t, HistoricalJob(SAMPLE), q) == older
  {
    assert SAMPLE.agents[0] != SAMPLE.home[0];
    SampleIsTree(newer, older);
    SampleKeys(newer, older);
    SampleSources(newer, older);
  }

  lemma SampleHasNoClash(newer: Entry, older: Entry)
    requires older.File?
    ensures !Clashing(TwoSources(newer, older), Jobs(SAMPLE))
  {
    var t := TwoSources(newer, older);
    SampleReads(newer, older);
    forall p | IsFile(t, p) ensures SAMPLE.InSource(p) {
      assert p == ["a", SHARED_LEAF, "x"] || p == ["h", SHARED_LEAF, "x"];
      assert SAMPLE.agents <= ["a", SHARED_LEAF, "x"] && SAMPLE.home + [SHARED_LEAF] <= ["h", SHARED_LEAF, "x"];
    }
    forall p | BothHave(SAMPLE, t, p) && JobEntry(t, LeafJob(SAMPLE, SHARED_LEAF), p).File?
      ensures JobEntry(t, HistoricalJob(SAMPLE), p).File?
    {
      SampleFile(newer, older, p);
    }
    NothingInTheWay(SAMPLE, t);
  }

  /** The only file of the newer source is `x`. */
  lemma SampleFile(newer: Entry, older: Entry, p: Path)
    requires older.File?
    requires var t := TwoSources(newer, older);
             BothHave(SAMPLE, t, p) && JobEntry(t, LeafJob(SAMPLE, SHARED_LEAF), p).File?
    ensures JobEntry(TwoSources(newer, older), HistoricalJob(SAMPLE), p).File?
  {
    var x := p[|SAMPLE.State() + [SHARED_LEAF]|..];
    var o := SAMPLE.agents + [SHARED_LEAF] + x;
    assert o[0] == "a" && o[0] != SAMPLE.home[0];
    assert o == ["a", SHARED_LEAF, "x"];
    assert x == o[2..] == ["x"];
    assert SAMPLE.home + [SHARED_LEAF] + x == ["h", SHARED_LEAF, "x"];
  }

  /** Two different files: no clash in the whole run, but the retry can take the older. */
  lemma FilesMayConflict() returns (l: Layout, t: Tree, q: Path)
    ensures l.Valid() && WellFormed(t) && l.Marker() !in t && !Clashing(t, Jobs(l)) && FilesConflict(l, t, q)
  {
    l, t, q := SAMPLE, TwoSources(File("1"), File("2")), SAMPLE.State() + [SHARED_LEAF, "x"];
    SampleReads(File("1"), File("2"));
    SampleHasNoClash(File("1"), File("2"));
  }

  /** A directory and a file: no clash in the whole run, but retries can be blocked. */
  lemma KindsMayConflict() returns (l: Layout, t: Tree, q: Path)
    ensures l.Valid() && WellFormed(t) && l.Marker() !in t && !Clashing(t, Jobs(l)) && KindsConflict(l, t, q)
  {
    l, t, q := SAMPLE, TwoSources(Dir, File("2")), SAMPLE.State() + [SHARED_LEAF, "x"];
    SampleReads(Dir, File("2"));
    SampleHasNoClash(Dir, File("2"));
  }
}
