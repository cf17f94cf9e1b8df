/** Which entry ends up where: the per-path meaning of the migration in
    agent/composition/src/state_layout_migration.rs, and why stopping and
    starting again does not change it. */
module MigrationPlan {
  import opened Wrappers
  import opened FileTree

  // ----- layout (agent/shared/src/config/adapters/constants.rs) -----

  const STATE_DIR: string := "state"
  const MARKER_FILE: string := ".layout-migration.json"
  const GUIDANCE_FILE: string := "tool_guidance.md"
  const BOOTSTRAP_BODY: string := "# Tool Guidance\n"
  const BACKUP_PREFIX: string := "state.bak-"
  const SHARED_LEAF: string := "tool-results"

  const LEAVES: seq<string> := [
    "session", "sessions", "harness", "scoring", "background-process", "background-task",
    "workflows", "audit", "tool-results", "memory", "meta", "tmp"]

  const PRIVATE_DIRS: seq<string> := ["logs", "guidance", "models"]

  datatype Layout = Layout(agents: Path, home: Path) {
    function State(): Path { home + [STATE_DIR] }
    function Marker(): Path { State() + [MARKER_FILE] }
    function GuidanceSource(): Path { agents + [GUIDANCE_FILE] }
    function GuidanceTarget(): Path { home + [GUIDANCE_FILE] }
    function Backup(stamp: string): Path { home + [BACKUP_PREFIX + stamp] }

    /** The two roots are separate directories. */
    predicate Valid() { Apart(agents, home) }

    /** Where the migration only reads. */
    predicate InSource(q: Path) {
      agents <= q || home + [SHARED_LEAF] <= q
    }

    predicate InBackups(q: Path) {
      home <= q && |q| > |home| && BACKUP_PREFIX <= q[|home|]
    }

    /** Neither in a backup, nor the marker, nor the guidance file. */
    predicate Plain(q: Path) {
      !InBackups(q) && q != Marker() && q != GuidanceTarget()
    }
  }

  // ----- jobs -----

  /** `create_dir_all`, or merging one directory into another if it exists. */
  datatype Job = MakeDirs(path: Path) | MergeJob(source: Path, target: Path)

  function LeafJob(l: Layout, name: string): Job {
    MergeJob(l.agents + [name], l.State() + [name])
  }

  function HistoricalJob(l: Layout): Job {
    MergeJob(l.home + [SHARED_LEAF], l.State() + [SHARED_LEAF])
  }

  function PrivateJob(l: Layout, name: string): Job {
    MergeJob(l.agents + [name], l.home + [name])
  }

  /** Everything before the guidance file, in the order of the source: the
      state root, the leaves, the historical leaf, the private directories. */
  function Jobs(l: Layout): (jobs: seq<Job>)
    ensures |jobs| == 17
    ensures jobs[0] == MakeDirs(l.State())
    ensures forall i :: 0 <= i < 12 ==> jobs[1 + i] == LeafJob(l, LEAVES[i])
    ensures jobs[13] == HistoricalJob(l)
    ensures forall i :: 0 <= i < 3 ==> jobs[14 + i] == PrivateJob(l, PRIVATE_DIRS[i])
  {
    [MakeDirs(l.State())] + seq(12, i requires 0 <= i < 12 => LeafJob(l, LEAVES[i]))
    + [HistoricalJob(l)] + seq(3, i requires 0 <= i < 3 => PrivateJob(l, PRIVATE_DIRS[i]))
  }

  predicate JobFeeds(t: Tree, job: Job, q: Path) {
    match job
    case MakeDirs(p) => q <= p
    case MergeJob(s, d) => IsDir(t, s) && Feeds(t, s, d, q)
  }

  function JobEntry(t: Tree, job: Job, q: Path): Entry
    requires JobFeeds(t, job, q)
  {
    match job
    case MakeDirs(_) => Dir
    case MergeJob(s, d) => t[Origin(s, d, q)]
  }

  /** What one job makes of the entry at `q`, with sources as in `t`. */
  function StepValue(t: Tree, job: Job, q: Path, cur: Option<Entry>): Option<Entry> {
    if JobFeeds(t, job, q) then Combine(Merge, cur, JobEntry(t, job, q)) else cur
  }

  ghost function Fold(t: Tree, jobs: seq<Job>, q: Path, cur: Option<Entry>): Option<Entry> {
    if jobs == [] then cur
    else StepValue(t, jobs[|jobs| - 1], q, Fold(t, jobs[..|jobs| - 1], q, cur))
  }

  /** The entry at `q` after `jobs`, all run from `t`. */
  ghost function Value(t: Tree, jobs: seq<Job>, q: Path): Option<Entry> {
    Fold(t, jobs, q, Get(t, q))
  }

  ghost predicate JobClash(t: Tree, jobs: seq<Job>, k: nat, q: Path)
    requires k < |jobs|
  {
    && JobFeeds(t, jobs[k], q)
    && Clashes(Merge, Value(t, jobs[..k], q), JobEntry(t, jobs[k], q))
  }

  /** Some job meets a file where it needs a directory. */
  ghost predicate Clashing(t: Tree, jobs: seq<Job>) {
    exists k: nat, q :: k < |jobs| && JobClash(t, jobs, k, q)
  }

  // ----- doing a job twice -----

  predicate Settled(v: Option<Entry>, e: Entry) {
    Combine(Merge, v, e) == v
  }

  ghost predicate AllSettled(t: Tree, jobs: seq<Job>, q: Path, v: Option<Entry>) {
    forall i :: 0 <= i < |jobs| && JobFeeds(t, jobs[i], q) ==> Settled(v, JobEntry(t, jobs[i], q))
  }

  lemma {:induction false} FoldSettles(t: Tree, jobs: seq<Job>, q: Path, cur: Option<Entry>)
    ensures AllSettled(t, jobs, q, Fold(t, jobs, q, cur))
  {
    if jobs != [] {
      var front := jobs[..|jobs| - 1];
      FoldSettles(t, front, q, cur);
      var v := Fold(t, jobs, q, cur);
      forall i | 0 <= i < |jobs| && JobFeeds(t, jobs[i], q) ensures Settled(v, JobEntry(t, jobs[i], q)) {
        if i < |front| {
          assert front[i] == jobs[i];
        }
      }
    }
  }

  lemma {:induction false} SettledFold(t: Tree, jobs: seq<Job>, q: Path, v: Option<Entry>)
    requires AllSettled(t, jobs, q, v)
    ensures Fold(t, jobs, q, v) == v
  {
    if jobs != [] {
      var front := jobs[..|jobs| - 1];
      assert forall i :: 0 <= i < |front| ==> front[i] == jobs[i];
      SettledFold(t, front, q, v);
      assert JobFeeds(t, jobs[|jobs| - 1], q) ==> Settled(v, JobEntry(t, jobs[|jobs| - 1], q));
    }
  }

  lemma {:induction false} FoldAppend(t: Tree, a: seq<Job>, b: seq<Job>, q: Path, cur: Option<Entry>)
    ensures Fold(t, a + b, q, cur) == Fold(t, b, q, Fold(t, a, q, cur))
  {
    if b == [] {
      assert a + b == a;
    } else {
      assert (a + b)[..|a + b| - 1] == a + b[..|b| - 1];
      FoldAppend(t, a, b[..|b| - 1], q, cur);
    }
  }

  /** Starting over after the first `j` jobs changes nothing. */
  lemma StartingOver(t: Tree, jobs: seq<Job>, j: nat, q: Path, cur: Option<Entry>)
    requires j <= |jobs|
    ensures Fold(t, jobs, q, Fold(t, jobs[..j], q, cur)) == Fold(t, jobs, q, cur)
  {
    var v := Fold(t, jobs[..j], q, cur);
    FoldSettles(t, jobs[..j], q, cur);
    SettledFold(t, jobs[..j], q, v);
    assert jobs == jobs[..j] + jobs[j..];
    FoldAppend(t, jobs[..j], jobs[j..], q, cur);
    FoldAppend(t, jobs[..j], jobs[j..], q, v);
  }

  lemma {:induction false} DirStays(t: Tree, jobs: seq<Job>, q: Path, cur: Option<Entry>)
    requires cur.Some? && (cur.value.Dir? || cur.value.body != "")
    ensures Fold(t, jobs, q, cur) == cur
  {
    if jobs != [] {
      DirStays(t, jobs[..|jobs| - 1], q, cur);
    }
  }

  lemma {:induction false} KindStays(t: Tree, jobs: seq<Job>, q: Path, cur: Option<Entry>)
    requires cur.Some?
    ensures Fold(t, jobs, q, cur).Some? && (Fold(t, jobs, q, cur).value.Dir? <==> cur.value.Dir?)
  {
    if jobs != [] {
      KindStays(t, jobs[..|jobs| - 1], q, cur);
    }
  }

  /** Only the sources and the starting entry matter. */
  lemma {:induction false} FoldReadsSources(t: Tree, u: Tree, jobs: seq<Job>, q: Path, cur: Option<Entry>)
    requires forall i :: 0 <= i < |jobs| ==> SameSource(t, u, jobs[i])
    ensures Fold(t, jobs, q, cur) == Fold(u, jobs, q, cur)
  {
    if jobs != [] {
      var front, last := jobs[..|jobs| - 1], jobs[|jobs| - 1];
      assert forall i :: 0 <= i < |front| ==> front[i] == jobs[i];
      FoldReadsSources(t, u, front, q, cur);
      SameSourceFeeds(t, u, last, q);
    }
  }

  ghost predicate SameSource(t: Tree, u: Tree, job: Job) {
    job.MergeJob? ==> forall p :: job.source <= p ==> Get(t, p) == Get(u, p)
  }

  lemma SameSourceFeeds(t: Tree, u: Tree, job: Job, q: Path)
    requires SameSource(t, u, job)
    ensures JobFeeds(t, job, q) <==> JobFeeds(u, job, q)
    ensures JobFeeds(t, job, q) ==> JobEntry(t, job, q) == JobEntry(u, job, q)
  {
    if job.MergeJob? {
      var s := job.source;
      assert s <= s && Get(t, s) == Get(u, s);
      if job.target <= q {
        assert s <= Origin(s, job.target, q);
        assert Get(t, Origin(s, job.target, q)) == Get(u, Origin(s, job.target, q));
      }
    }
  }

  // ----- the jobs of this layout -----

  /** A source of this plan lies where the migration only reads, and nothing
      there is written. */
  lemma JobShape(l: Layout, k: nat)
    requires l.Valid() && k < |Jobs(l)|
    ensures var job := Jobs(l)[k];
            job.MergeJob? ==>
              && l.InSource(job.source)
              && Apart(job.source, job.target)
              && job.target != [] && (Parent(job.target) == l.State() || Parent(job.target) == l.home)
  {
    var job := Jobs(l)[k];
    if 1 <= k < 13 {
      assert job == LeafJob(l, LEAVES[k - 1]);
      RootsApart(l, [LEAVES[k - 1]], [STATE_DIR, LEAVES[k - 1]]);
      assert l.State() + [LEAVES[k - 1]] == l.home + [STATE_DIR, LEAVES[k - 1]];
      assert Parent(job.target) == l.State();
    } else if k == 13 {
      assert job.source[|l.home|] == SHARED_LEAF && job.target[|l.home|] == STATE_DIR;
      assert Parent(job.target) == l.State();
    } else if k >= 14 {
      assert job == PrivateJob(l, PRIVATE_DIRS[k - 14]);
      RootsApart(l, [PRIVATE_DIRS[k - 14]], [PRIVATE_DIRS[k - 14]]);
      assert Parent(job.target) == l.home;
    }
  }

  lemma RootsApart(l: Layout, x: Path, y: Path)
    requires l.Valid()
    ensures Apart(l.agents + x, l.home + y)
  {
    var a, h := l.agents + x, l.home + y;
    assert l.agents <= a && l.home <= h;
    PrefixOfLonger(l.agents, x, h);
    PrefixOfLonger(l.home, y, a);
    PrefixesCompare(l.agents, l.home, h);
    PrefixesCompare(l.agents, l.home, a);
  }

  /** Job `k` writes at `q` only if `q` is on the way to the state root or in the
      job's target, and never where the plan reads. */
  lemma FedNotSource(l: Layout, t: Tree, k: nat, q: Path)
    requires l.Valid() && k < |Jobs(l)| && JobFeeds(t, Jobs(l)[k], q)
    ensures !l.InSource(q) && l.Plain(q)
  {
    var job := Jobs(l)[k];
    if k == 0 {
      OnTheWay(l, q);
    } else {
      var name := if k < 13 then LEAVES[k - 1] else if k == 13 then SHARED_LEAF else PRIVATE_DIRS[k - 14];
      var inState := k < 14;
      assert job.target == (if inState then l.State() + [name] else l.home + [name]);
      UnderTarget(l, job.target, q, inState, name);
    }
  }

  lemma OnTheWay(l: Layout, q: Path)
    requires l.Valid() && q <= l.State()
    ensures !l.InSource(q) && l.Plain(q)
  {
    PrefixesCompare(l.agents, l.home, l.State());
    PrefixTransitive(l.agents, q, l.State());
    assert l.State()[|l.home|] == STATE_DIR && l.GuidanceTarget()[|l.home|] == GUIDANCE_FILE;
    assert (l.home + [SHARED_LEAF])[|l.home|] == SHARED_LEAF;
    if |q| > |l.home| {
      assert q[|l.home|] == STATE_DIR;
    }
  }

  lemma UnderTarget(l: Layout, d: Path, q: Path, inState: bool, name: string)
    requires l.Valid() && d <= q
    requires d == (if inState then l.State() + [name] else l.home + [name])
    requires inState ==> name != MARKER_FILE
    requires !inState ==> name in PRIVATE_DIRS
    ensures !l.InSource(q) && l.Plain(q)
  {
    assert l.home == d[..|l.home|] == q[..|l.home|];
    PrefixesCompare(l.agents, l.home, q);
    assert q[|l.home|] == d[|l.home|];
    assert d[|l.home|] == (if inState then STATE_DIR else name);
    assert inState ==> q[|l.home| + 1] == name;
    assert name in PRIVATE_DIRS ==> name[0] == 'l' || name[0] == 'g' || name[0] == 'm';
    assert (l.home + [SHARED_LEAF])[|l.home|] == SHARED_LEAF;
    NameAt(l.home, SHARED_LEAF, q);
  }

  /** No job writes where a job reads. */
  lemma SourcesStay(l: Layout, t: Tree, jobs: seq<Job>, q: Path, cur: Option<Entry>)
    requires l.Valid() && l.InSource(q) && forall i :: 0 <= i < |jobs| ==> jobs[i] in Jobs(l)
    ensures Fold(t, jobs, q, cur) == cur
  {
    if jobs != [] {
      var front, last := jobs[..|jobs| - 1], jobs[|jobs| - 1];
      assert forall i :: 0 <= i < |front| ==> front[i] == jobs[i];
      SourcesStay(l, t, front, q, cur);
      assert last in Jobs(l);
      if JobFeeds(t, last, q) {
        var k :| 0 <= k < |Jobs(l)| && Jobs(l)[k] == last;
        FedNotSource(l, t, k, q);
      }
    }
  }

  /** Backups, the marker and the guidance file are not touched by any job. */
  lemma {:induction false} OthersStay(l: Layout, t: Tree, jobs: seq<Job>, q: Path, cur: Option<Entry>)
    requires l.Valid() && !l.Plain(q) && forall i :: 0 <= i < |jobs| ==> jobs[i] in Jobs(l)
    ensures Fold(t, jobs, q, cur) == cur
  {
    if jobs != [] {
      var front, last := jobs[..|jobs| - 1], jobs[|jobs| - 1];
      assert forall i :: 0 <= i < |front| ==> front[i] == jobs[i];
      OthersStay(l, t, front, q, cur);
      assert last in Jobs(l);
      if JobFeeds(t, last, q) {
        var k :| 0 <= k < |Jobs(l)| && Jobs(l)[k] == last;
        FedNotSource(l, t, k, q);
      }
    }
  }

  lemma PlainSource(l: Layout, q: Path)
    requires l.Valid() && l.InSource(q)
    ensures l.Plain(q)
  {
    PrefixesCompare(l.agents, l.home, q);
    NameAt(l.home, SHARED_LEAF, q);
    assert BACKUP_PREFIX[0] != SHARED_LEAF[0];
    assert l.GuidanceTarget()[|l.home|] == GUIDANCE_FILE;
    PrefixesCompare(l.agents, l.home, l.GuidanceTarget());
    PrefixesCompare(l.agents, l.home, l.Marker());
    assert l.home <= l.Marker() && l.Marker()[|l.home|] == STATE_DIR;
    assert l.home <= l.GuidanceTarget();
  }

  lemma MarkerIsApart(l: Layout)
    ensures !l.InBackups(l.Marker()) && !l.Plain(l.Marker()) && !l.Plain(l.GuidanceTarget())
    ensures l.Marker() != l.GuidanceTarget() && !l.InBackups(l.GuidanceTarget())
  {
    assert l.Marker()[|l.home|] == STATE_DIR && l.GuidanceTarget()[|l.home|] == GUIDANCE_FILE;
    assert |STATE_DIR| < |BACKUP_PREFIX| && BACKUP_PREFIX[0] != GUIDANCE_FILE[0];
  }

  // ----- the guidance file -----

  predicate IsPlaceholder(e: Entry) {
    e.File? && (e.body == "" || e.body == BOOTSTRAP_BODY)
  }

  /** The guidance file may also replace the bootstrap body. */
  function GuidanceAfter(l: Layout, t: Tree): Option<Entry> {
    var cur := Get(t, l.GuidanceTarget());
    if !IsFile(t, l.GuidanceSource()) then cur
    else if cur.Some? && !(IsPlaceholder(cur.value) && t[l.GuidanceSource()].body != "") then cur
    else Some(t[l.GuidanceSource()])
  }

  // ----- whole runs -----

  ghost predicate HasEntries(t: Tree, p: Path) {
    IsDir(t, p) && exists n :: p + [n] in t
  }

  /** The tree `u` a finished run leaves when it starts from `t`. */
  ghost predicate Completed(l: Layout, t: Tree, u: Tree, stamp: string) {
    && l.Marker() in u
    && Get(u, l.GuidanceTarget()) == GuidanceAfter(l, t)
    && (forall q :: l.Plain(q) ==> Get(u, q) == Value(t, Jobs(l), q))
    && (forall q :: l.InBackups(q) ==> Get(u, q) == BackedUp(l, t, stamp, q))
  }

  /** What a backup directory holds: a copy of the state, if there was any. */
  ghost function BackedUp(l: Layout, t: Tree, stamp: string, q: Path): Option<Entry> {
    if HasEntries(t, l.State()) then After(t, Overwrite, l.State(), l.Backup(stamp), q) else Get(t, q)
  }

  /** The backup directories of a run with this stamp: each entry is as it was, or
      as the finished backup has it. */
  ghost predicate BackupsKept(l: Layout, t: Tree, m: Tree, stamp: string) {
    forall q :: l.InBackups(q) ==> Get(m, q) == Get(t, q) || Get(m, q) == BackedUp(l, t, stamp, q)
  }

  /** Backups of other runs are as they were. */
  lemma OtherBackupsStay(l: Layout, t: Tree, m: Tree, stamp: string, q: Path)
    requires BackupsKept(l, t, m, stamp) && l.InBackups(q) && !(l.Backup(stamp) <= q)
    ensures Get(m, q) == Get(t, q)
  {}

  ghost predicate Reached(t: Tree, jobs: seq<Job>, m: Tree, q: Path) {
    exists j: nat :: j <= |jobs| && Get(m, q) == Value(t, jobs[..j], q)
  }

  /** A state in which a run that meets no failure can be stopped: every path has
      been through the first so many jobs, not the same number everywhere. */
  ghost predicate CrashState(l: Layout, t: Tree, m: Tree, stamp: string) {
    && (forall q :: l.Plain(q) ==> Reached(t, Jobs(l), m, q))
    && BackupsKept(l, t, m, stamp)
    && (Get(m, l.GuidanceTarget()) == Get(t, l.GuidanceTarget()) || Get(m, l.GuidanceTarget()) == GuidanceAfter(l, t))
    && (l.Marker() in m ==>
          && (forall q :: l.Plain(q) ==> Get(m, q) == Value(t, Jobs(l), q))
          && (forall q :: l.InBackups(q) ==> Get(m, q) == BackedUp(l, t, stamp, q))
          && Get(m, l.GuidanceTarget()) == GuidanceAfter(l, t))
  }

  ghost predicate Sub(a: seq<Job>, b: seq<Job>) {
    if b == [] then a == []
    else
      || Sub(a, b[..|b| - 1])
      || (a != [] && a[|a| - 1] == b[|b| - 1] && Sub(a[..|a| - 1], b[..|b| - 1]))
  }

  ghost predicate Picked(t: Tree, jobs: seq<Job>, m: Tree, q: Path) {
    exists picked :: Sub(picked, jobs) && Get(m, q) == Value(t, picked, q)
  }

  /** A state in which a run with failing operations can end or be stopped: a
      failure ends one job, and the later jobs still run. */
  ghost predicate FailureState(l: Layout, t: Tree, m: Tree, stamp: string) {
    && (forall q :: l.Plain(q) ==> Picked(t, Jobs(l), m, q))
    && BackupsKept(l, t, m, stamp)
    && (Get(m, l.GuidanceTarget()) == Get(t, l.GuidanceTarget()) || Get(m, l.GuidanceTarget()) == GuidanceAfter(l, t))
  }

  // ----- what no run changes -----

  lemma {:induction false} SubMembers(a: seq<Job>, b: seq<Job>)
    requires Sub(a, b)
    ensures forall i :: 0 <= i < |a| ==> a[i] in b
    decreases |b|
  {
    if b != [] {
      var front := b[..|b| - 1];
      if Sub(a, front) {
        SubMembers(a, front);
      } else {
        SubMembers(a[..|a| - 1], front);
        forall i | 0 <= i < |a| ensures a[i] in b {
          if i < |a| - 1 {
            assert a[..|a| - 1][i] in front;
          }
        }
      }
    }
  }

  /** Whatever fails, and wherever it stops: sources and the backups of other runs
      keep every entry, and outside the backup being written no directory and no
      non-empty file changes, except that a bootstrap guidance file may be replaced. */
  lemma NothingOfTheUsersIsLost(l: Layout, t: Tree, m: Tree, stamp: string, q: Path)
    requires l.Valid() && FailureState(l, t, m, stamp)
    requires !(l.Backup(stamp) <= q) && q != l.Marker()
    ensures l.InSource(q) || l.InBackups(q) ==> Get(m, q) == Get(t, q)
    ensures q in t && (t[q].Dir? || t[q].body != "") && !(q == l.GuidanceTarget() && IsPlaceholder(t[q]))
            ==> Get(m, q) == Get(t, q)
    ensures q in t ==> q in m && (m[q].Dir? <==> t[q].Dir?)
  {
    if l.InSource(q) {
      PlainSource(l, q);
    }
    if l.InBackups(q) {
      OtherBackupsStay(l, t, m, stamp, q);
    } else if l.Plain(q) {
      var picked :| Sub(picked, Jobs(l)) && Get(m, q) == Value(t, picked, q);
      SubMembers(picked, Jobs(l));
      if l.InSource(q) {
        SourcesStay(l, t, picked, q, Get(t, q));
      }
      if q in t {
        KindStays(t, picked, q, Get(t, q));
        if t[q].Dir? || t[q].body != "" {
          DirStays(t, picked, q, Get(t, q));
        }
      }
    }
  }

  // ----- stopping and starting again -----

  lemma {:induction false} PrefixIsSub(jobs: seq<Job>, j: nat)
    requires j <= |jobs|
    ensures Sub(jobs[..j], jobs)
  {
    if jobs != [] {
      var front := jobs[..|jobs| - 1];
      if j == |jobs| {
        PrefixIsSub(front, |front|);
        assert front[..|front|] == front;
        assert jobs[..j] == jobs;
      } else {
        PrefixIsSub(front, j);
        assert front[..j] == jobs[..j];
      }
    }
  }

  lemma CrashIsFailure(l: Layout, t: Tree, m: Tree, stamp: string)
    requires CrashState(l, t, m, stamp)
    ensures FailureState(l, t, m, stamp)
  {
    ReachedIsPicked(l, t, m);
  }

  /** What the jobs read is as it was. */
  lemma SourcesReadAlike(l: Layout, t: Tree, m: Tree)
    requires l.Valid() && forall q :: l.Plain(q) ==> Picked(t, Jobs(l), m, q)
    ensures forall q :: l.InSource(q) ==> Get(m, q) == Get(t, q)
    ensures forall i :: 0 <= i < |Jobs(l)| ==> SameSource(t, m, Jobs(l)[i])
  {
    forall q | l.InSource(q) ensures Get(m, q) == Get(t, q) {
      PlainSource(l, q);
      assert Picked(t, Jobs(l), m, q);
      var picked :| Sub(picked, Jobs(l)) && Get(m, q) == Value(t, picked, q);
      SubMembers(picked, Jobs(l));
      SourcesStay(l, t, picked, q, Get(t, q));
    }
    forall i | 0 <= i < |Jobs(l)| ensures SameSource(t, m, Jobs(l)[i]) {
      JobShape(l, i);
      if Jobs(l)[i].MergeJob? {
        forall p | Jobs(l)[i].source <= p ensures Get(t, p) == Get(m, p) {
          PrefixTransitive(l.agents, Jobs(l)[i].source, p);
          PrefixTransitive(l.home + [SHARED_LEAF], Jobs(l)[i].source, p);
        }
      }
    }
  }

  lemma SourcesAgree(l: Layout, t: Tree, m: Tree, stamp: string)
    requires l.Valid() && FailureState(l, t, m, stamp)
    ensures forall q :: l.InSource(q) ==> Get(m, q) == Get(t, q)
    ensures forall i :: 0 <= i < |Jobs(l)| ==> SameSource(t, m, Jobs(l)[i])
  {
    SourcesReadAlike(l, t, m);
  }

  lemma ReachedIsPicked(l: Layout, t: Tree, m: Tree)
    requires forall q :: l.Plain(q) ==> Reached(t, Jobs(l), m, q)
    ensures forall q :: l.Plain(q) ==> Picked(t, Jobs(l), m, q)
  {
    forall q | l.Plain(q) ensures Picked(t, Jobs(l), m, q) {
      assert Reached(t, Jobs(l), m, q);
      var j: nat :| j <= |Jobs(l)| && Get(m, q) == Value(t, Jobs(l)[..j], q);
      PrefixIsSub(Jobs(l), j);
    }
  }

  lemma GuidanceTwice(l: Layout, t: Tree, m: Tree)
    requires Get(m, l.GuidanceSource()) == Get(t, l.GuidanceSource())
    requires Get(m, l.GuidanceTarget()) == Get(t, l.GuidanceTarget()) || Get(m, l.GuidanceTarget()) == GuidanceAfter(l, t)
    ensures GuidanceAfter(l, m) == GuidanceAfter(l, t)
  {
    assert l.GuidanceSource() in t <==> l.GuidanceSource() in m;
  }

  /** Crash and retry is invisible: stopped in any state of a run and started
      again, the migration ends with the same entry at every path as a run that
      was never stopped, older backups included.  (The two backup directories and
      the body of the marker carry the time of the run.) */
  lemma CrashAndRetryIsInvisible(l: Layout, t: Tree, m: Tree, u: Tree, v: Tree, first: string, second: string)
    requires l.Valid() && CrashState(l, t, m, first)
    requires Completed(l, t, u, first)
    requires if l.Marker() in m then v == m else Completed(l, m, v, second)
    ensures l.Marker() in v
    ensures forall q :: !(l.Backup(first) <= q) && !(l.Backup(second) <= q) && q != l.Marker() ==> Get(v, q) == Get(u, q)
  {
    if l.Marker() !in m {
      CrashIsFailure(l, t, m, first);
      SourcesAgree(l, t, m, first);
      assert l.agents <= l.GuidanceSource();
      GuidanceTwice(l, t, m);
      forall q | l.Plain(q) ensures Get(v, q) == Get(u, q) {
        RetryAtPath(l, t, m, q);
      }
    }
  }

  lemma RetryAtPath(l: Layout, t: Tree, m: Tree, q: Path)
    requires Reached(t, Jobs(l), m, q) && forall i :: 0 <= i < |Jobs(l)| ==> SameSource(t, m, Jobs(l)[i])
    ensures Value(m, Jobs(l), q) == Value(t, Jobs(l), q)
  {
    var j: nat :| j <= |Jobs(l)| && Get(m, q) == Value(t, Jobs(l)[..j], q);
    FoldReadsSources(t, m, Jobs(l), q, Get(m, q));
    StartingOver(t, Jobs(l), j, q, Get(t, q));
  }

  /** What stopped a run cannot be a clash that the retry then meets: if the whole
      run has none, no retry has one. */
  lemma RetryIsNotBlocked(l: Layout, t: Tree, m: Tree, stamp: string)
    requires l.Valid() && CrashState(l, t, m, stamp) && !Clashing(t, Jobs(l))
    ensures !Clashing(m, Jobs(l))
  {
    ReachedNotBlocked(l, t, m);
  }

  lemma ReachedNotBlocked(l: Layout, t: Tree, m: Tree)
    requires l.Valid() && !Clashing(t, Jobs(l)) && forall q :: l.Plain(q) ==> Reached(t, Jobs(l), m, q)
    ensures !Clashing(m, Jobs(l))
  {
    ReachedIsPicked(l, t, m);
    SourcesReadAlike(l, t, m);
    forall k: nat, q | k < |Jobs(l)| && JobFeeds(m, Jobs(l)[k], q) ensures !JobClash(m, Jobs(l), k, q) {
      FedNotSource(l, m, k, q);
      NoClashFrom(l, t, m, k, q);
    }
  }

  /** At a path that has been through the first so many jobs, no job clashes that did
      not clash in the whole run. */
  lemma NoClashFrom(l: Layout, t: Tree, m: Tree, k: nat, q: Path)
    requires k < |Jobs(l)| && !Clashing(t, Jobs(l)) && Reached(t, Jobs(l), m, q)
    requires forall i :: 0 <= i < |Jobs(l)| ==> SameSource(t, m, Jobs(l)[i])
    ensures !JobClash(m, Jobs(l), k, q)
  {
    var jobs := Jobs(l);
    SameSourceFeeds(t, m, jobs[k], q);
    assert !JobClash(t, jobs, k, q);
    if JobFeeds(m, jobs[k], q) && JobEntry(m, jobs[k], q).Dir? {
      var j: nat :| j <= |jobs| && Get(m, q) == Value(t, jobs[..j], q);
      assert forall i :: 0 <= i < k ==> jobs[..k][i] == jobs[i];
      FoldReadsSources(t, m, jobs[..k], q, Get(m, q));
      NoFileAt(t, jobs, k, j, q);
    }
  }

  /** If job `k` brings a directory to `q` without a clash, then no state before or
      after has a file there when job `k` comes round again. */
  lemma NoFileAt(t: Tree, jobs: seq<Job>, k: nat, j: nat, q: Path)
    requires k < |jobs| && j <= |jobs| && !JobClash(t, jobs, k, q)
    requires JobFeeds(t, jobs[k], q) && JobEntry(t, jobs[k], q).Dir?
    ensures var v := Fold(t, jobs[..k], q, Value(t, jobs[..j], q)); v.None? || v.value.Dir?
  {
    var cur := Get(t, q);
    if j <= k {
      assert jobs[..k][..j] == jobs[..j];
      StartingOver(t, jobs[..k], j, q, cur);
    } else {
      assert jobs[..k + 1][..k] == jobs[..k] && jobs[..j] == jobs[..k + 1] + jobs[k + 1..j];
      assert Value(t, jobs[..k + 1], q) == Some(Dir);
      FoldAppend(t, jobs[..k + 1], jobs[k + 1..j], q, cur);
      DirStays(t, jobs[k + 1..j], q, Some(Dir));
      DirStays(t, jobs[..k], q, Some(Dir));
    }
  }

  // ----- crashing again and again -----

  /** `m` is left after runs with these stamps, each started on what the one before
      it had left, as long as that was not marked as done. */
  ghost predicate Crashed(l: Layout, t: Tree, m: Tree, stamps: seq<string>)
    decreases |stamps|
  {
    if stamps == [] then m == t
    else
      var n := |stamps| - 1;
      exists w :: Crashed(l, t, w, stamps[..n]) && l.Marker() !in w && CrashState(l, w, m, stamps[n])
  }

  ghost predicate InOwnBackup(l: Layout, stamps: seq<string>, q: Path) {
    exists i :: 0 <= i < |stamps| && l.Backup(stamps[i]) <= q
  }

  /** What is known of such a tree: at each path it is as one crashed run leaves it. */
  ghost predicate OneCrash(l: Layout, t: Tree, m: Tree, stamps: seq<string>) {
    && (forall q :: l.Plain(q) ==> Reached(t, Jobs(l), m, q))
    && (forall q :: l.InBackups(q) && !InOwnBackup(l, stamps, q) ==> Get(m, q) == Get(t, q))
    && (Get(m, l.GuidanceTarget()) == Get(t, l.GuidanceTarget()) || Get(m, l.GuidanceTarget()) == GuidanceAfter(l, t))
    && (l.Marker() in m ==>
          && (forall q :: l.Plain(q) ==> Get(m, q) == Value(t, Jobs(l), q))
          && Get(m, l.GuidanceTarget()) == GuidanceAfter(l, t))
  }

  /** A path that has been through some first jobs twice has been through the longer
      list of the two. */
  lemma ReachedAgain(t: Tree, w: Tree, m: Tree, jobs: seq<Job>, q: Path)
    requires Reached(t, jobs, w, q) && Reached(w, jobs, m, q)
    requires forall i :: 0 <= i < |jobs| ==> SameSource(t, w, jobs[i])
    ensures Reached(t, jobs, m, q)
  {
    var j: nat :| j <= |jobs| && Get(w, q) == Value(t, jobs[..j], q);
    var i: nat :| i <= |jobs| && Get(m, q) == Value(w, jobs[..i], q);
    var v := Value(t, jobs[..j], q);
    FoldReadsSources(t, w, jobs[..i], q, v);
    if j <= i {
      assert jobs[..i][..j] == jobs[..j];
      StartingOver(t, jobs[..i], j, q, Get(t, q));
    } else {
      FoldSettles(t, jobs[..j], q, Get(t, q));
      assert forall k :: 0 <= k < i ==> jobs[..i][k] == jobs[..j][k];
      SettledFold(t, jobs[..i], q, v);
    }
  }

  /** However often the migration is stopped, what is left could have been left by
      being stopped once. */
  lemma {:induction false} CrashesAddUp(l: Layout, t: Tree, m: Tree, stamps: seq<string>)
    requires l.Valid() && l.Marker() !in t && Crashed(l, t, m, stamps)
    ensures OneCrash(l, t, m, stamps)
    decreases |stamps|
  {
    if stamps == [] {
      forall q | l.Plain(q) ensures Reached(t, Jobs(l), m, q) {
        assert Get(m, q) == Value(t, Jobs(l)[..0], q);
      }
    } else {
      var n := |stamps| - 1;
      var w :| Crashed(l, t, w, stamps[..n]) && l.Marker() !in w && CrashState(l, w, m, stamps[n]);
      CrashesAddUp(l, t, w, stamps[..n]);
      OneMoreCrash(l, t, w, m, stamps[..n], stamps[n]);
      assert stamps == stamps[..n] + [stamps[n]];
    }
  }

  lemma OneMoreCrash(l: Layout, t: Tree, w: Tree, m: Tree, stamps: seq<string>, stamp: string)
    requires l.Valid() && OneCrash(l, t, w, stamps) && CrashState(l, w, m, stamp)
    ensures OneCrash(l, t, m, stamps + [stamp])
  {
    ReachedIsPicked(l, t, w);
    SourcesReadAlike(l, t, w);
    assert l.agents <= l.GuidanceSource();
    GuidanceTwice(l, t, w);
    forall q | l.Plain(q)
      ensures Reached(t, Jobs(l), m, q) && Value(w, Jobs(l), q) == Value(t, Jobs(l), q)
    {
      ReachedAgain(t, w, m, Jobs(l), q);
      RetryAtPath(l, t, w, q);
    }
    var longer := stamps + [stamp];
    forall q | l.InBackups(q) && !InOwnBackup(l, longer, q) ensures Get(m, q) == Get(t, q) {
      assert longer[|stamps|] == stamp;
      forall i | 0 <= i < |stamps| ensures !(l.Backup(stamps[i]) <= q) {
        assert longer[i] == stamps[i];
      }
      OtherBackupsStay(l, w, m, stamp, q);
    }
  }

  /** Any number of crashes is invisible: after them a successful run leaves the same
      entry at every path as a run that was never stopped, and is not blocked by a
      clash that run does not meet. */
  lemma CrashesAreInvisible(l: Layout, t: Tree, m: Tree, stamps: seq<string>, u: Tree, first: string, v: Tree, last: string)
    requires l.Valid() && l.Marker() !in t && Crashed(l, t, m, stamps)
    requires Completed(l, t, u, first)
    requires if l.Marker() in m then v == m else Completed(l, m, v, last)
    ensures l.Marker() in v
    ensures forall q :: q != l.Marker() && !InOwnBackup(l, stamps + [first, last], q) ==> Get(v, q) == Get(u, q)
    ensures !Clashing(t, Jobs(l)) ==> !Clashing(m, Jobs(l))
  {
    CrashesAddUp(l, t, m, stamps);
    ReachedIsPicked(l, t, m);
    SourcesReadAlike(l, t, m);
    if !Clashing(t, Jobs(l)) {
      ReachedNotBlocked(l, t, m);
    }
    assert l.agents <= l.GuidanceSource();
    GuidanceTwice(l, t, m);
    forall q | l.Plain(q) ensures Get(v, q) == Get(u, q) {
      RetryAtPath(l, t, m, q);
    }
    var all := stamps + [first, last];
    forall q | l.InBackups(q) && !InOwnBackup(l, all, q) ensures Get(v, q) == Get(u, q) {
      assert all[|stamps|] == first && all[|stamps| + 1] == last;
      forall i | 0 <= i < |stamps| ensures !(l.Backup(stamps[i]) <= q) {
        assert all[i] == stamps[i];
      }
    }
  }

  // ----- failing instead of crashing -----

  /** The jobs that have something for `q`. */
  ghost function FedBy(t: Tree, jobs: seq<Job>, q: Path): seq<Job> {
    if jobs == [] then []
    else
      FedBy(t, jobs[..|jobs| - 1], q) +
      (if JobFeeds(t, jobs[|jobs| - 1], q) then [jobs[|jobs| - 1]] else [])
  }

  lemma {:induction false} FoldFedBy(t: Tree, jobs: seq<Job>, q: Path, cur: Option<Entry>)
    ensures Fold(t, jobs, q, cur) == Fold(t, FedBy(t, jobs, q), q, cur)
  {
    if jobs != [] {
      var front, last := jobs[..|jobs| - 1], jobs[|jobs| - 1];
      FoldFedBy(t, front, q, cur);
      var fed := FedBy(t, front, q);
      if JobFeeds(t, last, q) {
        assert FedBy(t, jobs, q) == fed + [last];
        assert (fed + [last])[..|fed|] == fed;
      } else {
        assert FedBy(t, jobs, q) == fed;
      }
    }
  }

  lemma {:induction false} FedByAppend(t: Tree, a: seq<Job>, b: seq<Job>, q: Path)
    ensures FedBy(t, a + b, q) == FedBy(t, a, q) + FedBy(t, b, q)
  {
    if b == [] {
      assert a + b == a;
    } else {
      assert (a + b)[..|a + b| - 1] == a + b[..|b| - 1];
      FedByAppend(t, a, b[..|b| - 1], q);
    }
  }

  lemma {:induction false} FedByNone(t: Tree, jobs: seq<Job>, q: Path)
    requires forall i :: 0 <= i < |jobs| ==> !JobFeeds(t, jobs[i], q)
    ensures FedBy(t, jobs, q) == []
  {
    if jobs != [] {
      assert forall i :: 0 <= i < |jobs| - 1 ==> jobs[..|jobs| - 1][i] == jobs[i];
      FedByNone(t, jobs[..|jobs| - 1], q);
    }
  }

  lemma {:induction false} SubFedBy(t: Tree, a: seq<Job>, b: seq<Job>, q: Path)
    requires Sub(a, b)
    ensures Sub(FedBy(t, a, q), FedBy(t, b, q))
    decreases |b|
  {
    if b != [] {
      var front, last := b[..|b| - 1], b[|b| - 1];
      var fed := FedBy(t, front, q);
      assert FedBy(t, b, q) == if JobFeeds(t, last, q) then fed + [last] else fed;
      assert JobFeeds(t, last, q) ==> FedBy(t, b, q)[..|fed|] == fed;
      if Sub(a, front) {
        SubFedBy(t, a, front, q);
      } else {
        var shorter := FedBy(t, a[..|a| - 1], q);
        SubFedBy(t, a[..|a| - 1], front, q);
        assert FedBy(t, a, q) == if JobFeeds(t, last, q) then shorter + [last] else shorter;
        assert JobFeeds(t, last, q) ==> FedBy(t, a, q)[..|shorter|] == shorter;
      }
    }
  }

  lemma {:induction false} FedByMember(t: Tree, jobs: seq<Job>, q: Path, job: Job)
    ensures job in FedBy(t, jobs, q) <==> job in jobs && JobFeeds(t, job, q)
  {
    if jobs != [] {
      FedByMember(t, jobs[..|jobs| - 1], q, job);
      assert jobs == jobs[..|jobs| - 1] + [jobs[|jobs| - 1]];
    }
  }

  /** Job number 9 of the plan, and job 13, share a target; no other two do. */
  lemma TwoSourcesOfOneLeaf(l: Layout, t: Tree, i: nat, j: nat, q: Path)
    requires l.Valid() && i < j < |Jobs(l)|
    requires JobFeeds(t, Jobs(l)[i], q) && JobFeeds(t, Jobs(l)[j], q)
    ensures i == 9 && j == 13
  {
    var a := if i == 0 then "" else if i < 13 then LEAVES[i - 1] else if i == 13 then SHARED_LEAF else PRIVATE_DIRS[i - 14];
    var b := if j < 13 then LEAVES[j - 1] else if j == 13 then SHARED_LEAF else PRIVATE_DIRS[j - 14];
    NamesAtTarget(l, t, j, q, b);
    if i == 0 {
      assert |q| <= |l.home| + 1;
      if |q| == |l.home| + 1 {
        assert q == l.State();
      }
    } else {
      NamesAtTarget(l, t, i, q, a);
    }
    LeafNamesDiffer();
  }

  lemma NamesAtTarget(l: Layout, t: Tree, k: nat, q: Path, name: string)
    requires 1 <= k < |Jobs(l)| && JobFeeds(t, Jobs(l)[k], q)
    requires name == if k < 13 then LEAVES[k - 1] else if k == 13 then SHARED_LEAF else PRIVATE_DIRS[k - 14]
    ensures k < 14 ==> |q| >= |l.home| + 2 && q[|l.home|] == STATE_DIR && q[|l.home| + 1] == name
    ensures k >= 14 ==> |q| >= |l.home| + 1 && q[|l.home|] == name
  {
    var job := Jobs(l)[k];
    if k < 14 {
      assert job.target == l.State() + [name];
      NameAt(l.State(), name, q);
      NameAt(l.home, STATE_DIR, q);
    } else {
      assert job.target == l.home + [name];
      NameAt(l.home, name, q);
    }
  }

  lemma LeafNamesDiffer()
    ensures forall i, j :: 0 <= i < j < |LEAVES| ==> LEAVES[i] != LEAVES[j]
    ensures forall i :: 0 <= i < |LEAVES| && LEAVES[i] == SHARED_LEAF ==> i == 8
    ensures forall i, j :: 0 <= i < j < |PRIVATE_DIRS| ==> PRIVATE_DIRS[i] != PRIVATE_DIRS[j]
    ensures forall i :: 0 <= i < |PRIVATE_DIRS| ==> PRIVATE_DIRS[i] != STATE_DIR
  {
    assert forall i :: 0 <= i < |PRIVATE_DIRS| ==> PRIVATE_DIRS[i][0] != 's';
    assert PRIVATE_DIRS[0][0] == 'l' && PRIVATE_DIRS[1][0] == 'g' && PRIVATE_DIRS[2][0] == 'm';
  }

  /** What the two sources of `tool-results` have for `q`, and whether it matters
      which of them comes first. */
  ghost predicate OrderMatters(l: Layout, t: Tree, q: Path) {
    var first, second := LeafJob(l, SHARED_LEAF), HistoricalJob(l);
    Value(t, [first, second], q) != Value(t, [second, first], q)
  }

  /** Which files those are: the target has nothing of its own there, and the two
      sources disagree, both with content or one of them with a directory. */
  lemma WhenOrderMatters(l: Layout, t: Tree, q: Path)
    ensures OrderMatters(l, t, q) <==>
            var first, second := LeafJob(l, SHARED_LEAF), HistoricalJob(l);
            && JobFeeds(t, first, q) && JobFeeds(t, second, q)
            && var (a, b) := (JobEntry(t, first, q), JobEntry(t, second, q));
            && a != b
            && (|| (Get(t, q).None? && (a.Dir? || b.Dir?))
                || ((Get(t, q).None? || Get(t, q) == Some(File("")))
                    && a.File? && b.File? && a.body != "" && b.body != ""))
  {
    TwoSteps(l, t, q, LeafJob(l, SHARED_LEAF), HistoricalJob(l));
    TwoSteps(l, t, q, HistoricalJob(l), LeafJob(l, SHARED_LEAF));
  }

  lemma TwoSteps(l: Layout, t: Tree, q: Path, a: Job, b: Job)
    ensures Value(t, [a, b], q) == StepValue(t, b, q, StepValue(t, a, q, Get(t, q)))
    ensures Value(t, [a], q) == StepValue(t, a, q, Get(t, q))
  {
    RunOne(t, a, q, Get(t, q));
    RunTwo(t, a, b, q, Get(t, q));
  }

  /** Retry after a failure.  A failing operation ends one job but not the run, so
      a later job may reach a path before an earlier one has.  At each path, a
      later successful run gives what a run without failures would have given,
      unless the job of `<agents>/tool-results` missed the path, the job of the
      older `<home>/tool-results` did not, and the order of the two matters there. */
  lemma RetryAfterFailure(l: Layout, t: Tree, picked: seq<Job>, q: Path)
    requires l.Valid() && Sub(picked, Jobs(l))
    ensures Fold(t, Jobs(l), q, Value(t, picked, q)) == Value(t, Jobs(l), q)
       <==> !(LeafJob(l, SHARED_LEAF) !in picked && HistoricalJob(l) in picked && OrderMatters(l, t, q))
  {
    if JobFeeds(t, LeafJob(l, SHARED_LEAF), q) && JobFeeds(t, HistoricalJob(l), q) {
      RetryWhereBothFeed(l, t, picked, q);
    } else {
      WhenOrderMatters(l, t, q);
      RetryWhereOneFeeds(l, t, picked, q);
    }
  }

  /** Only the jobs that have something for the path count. */
  lemma RetryFedBy(t: Tree, jobs: seq<Job>, picked: seq<Job>, q: Path)
    requires Sub(picked, jobs)
    ensures Value(t, picked, q) == Value(t, FedBy(t, picked, q), q)
    ensures forall cur :: Fold(t, jobs, q, cur) == Fold(t, FedBy(t, jobs, q), q, cur)
    ensures Sub(FedBy(t, picked, q), FedBy(t, jobs, q))
  {
    FoldFedBy(t, picked, q, Get(t, q));
    forall cur ensures Fold(t, jobs, q, cur) == Fold(t, FedBy(t, jobs, q), q, cur) {
      FoldFedBy(t, jobs, q, cur);
    }
    SubFedBy(t, picked, jobs, q);
  }

  lemma RetryWhereBothFeed(l: Layout, t: Tree, picked: seq<Job>, q: Path)
    requires l.Valid() && Sub(picked, Jobs(l))
    requires JobFeeds(t, LeafJob(l, SHARED_LEAF), q) && JobFeeds(t, HistoricalJob(l), q)
    ensures Fold(t, Jobs(l), q, Value(t, picked, q)) == Value(t, Jobs(l), q)
       <==> !(LeafJob(l, SHARED_LEAF) !in picked && HistoricalJob(l) in picked && OrderMatters(l, t, q))
  {
    var first, second := LeafJob(l, SHARED_LEAF), HistoricalJob(l);
    var sub := FedBy(t, picked, q);
    RetryFedBy(t, Jobs(l), picked, q);
    BothFeed(l, t, q);
    FedByMember(t, picked, q, first);
    FedByMember(t, picked, q, second);
    SourcesDiffer(l);
    SubOfTwo(sub, first, second);
    TwoSteps(l, t, q, first, second);
    TwoSteps(l, t, q, second, first);
    RunTwo(t, first, second, q, Value(t, picked, q));
  }

  lemma RetryWhereOneFeeds(l: Layout, t: Tree, picked: seq<Job>, q: Path)
    requires l.Valid() && Sub(picked, Jobs(l))
    requires !(JobFeeds(t, LeafJob(l, SHARED_LEAF), q) && JobFeeds(t, HistoricalJob(l), q))
    ensures Fold(t, Jobs(l), q, Value(t, picked, q)) == Value(t, Jobs(l), q)
  {
    var sub, fed := FedBy(t, picked, q), FedBy(t, Jobs(l), q);
    RetryFedBy(t, Jobs(l), picked, q);
    AtMostOneFeeds(l, t, q);
    SubOfOne(sub, fed);
    if sub != [] {
      FoldSettles(t, fed, q, Get(t, q));
      SettledFold(t, fed, q, Value(t, fed, q));
    }
  }

  /** The same at a path, told from the entry found there: where the order of the
      two sources matters, the retry goes wrong exactly on what the older source
      has put there. */
  lemma RetryFromEntry(l: Layout, t: Tree, picked: seq<Job>, q: Path)
    requires l.Valid() && Sub(picked, Jobs(l))
    ensures Fold(t, Jobs(l), q, Value(t, picked, q)) == Value(t, Jobs(l), q)
       <==> !(OrderMatters(l, t, q) && Value(t, picked, q) == Value(t, [HistoricalJob(l)], q))
  {
    var first, second := LeafJob(l, SHARED_LEAF), HistoricalJob(l);
    RetryAfterFailure(l, t, picked, q);
    WhenOrderMatters(l, t, q);
    if OrderMatters(l, t, q) {
      var sub := FedBy(t, picked, q);
      FoldFedBy(t, picked, q, Get(t, q));
      SubFedBy(t, picked, Jobs(l), q);
      FedByMember(t, picked, q, first);
      FedByMember(t, picked, q, second);
      BothFeed(l, t, q);
      SubOfTwo(sub, first, second);
      TwoSteps(l, t, q, first, second);
      TwoSteps(l, t, q, second, first);
      SourcesDiffer(l);
    }
  }

  lemma SourcesDiffer(l: Layout)
    requires l.Valid()
    ensures LeafJob(l, SHARED_LEAF) != HistoricalJob(l)
  {
    RootsApart(l, [SHARED_LEAF], [SHARED_LEAF]);
  }

  /** Retry after a run with failures, on whole trees: the later successful run ends
      as planned from the first tree at every path, exactly when nowhere, where the
      order of the two sources matters, the older one had come first.  The guidance
      file and the backups of other runs are as planned in any case. */
  lemma RetryExactlyWhen(l: Layout, t: Tree, m: Tree, v: Tree, first: string, second: string)
    requires l.Valid() && FailureState(l, t, m, first) && Completed(l, m, v, second)
    ensures (forall q :: l.Plain(q) ==> Get(v, q) == Value(t, Jobs(l), q))
       <==> (forall q :: l.Plain(q) && OrderMatters(l, t, q) ==> Get(m, q) != Value(t, [HistoricalJob(l)], q))
    ensures Get(v, l.GuidanceTarget()) == GuidanceAfter(l, t)
    ensures forall q :: l.InBackups(q) && !(l.Backup(first) <= q) && !(l.Backup(second) <= q) ==> Get(v, q) == Get(t, q)
  {
    SourcesAgree(l, t, m, first);
    assert l.agents <= l.GuidanceSource();
    GuidanceTwice(l, t, m);
    forall q | l.Plain(q)
      ensures Get(v, q) == Value(t, Jobs(l), q)
         <==> !(OrderMatters(l, t, q) && Get(m, q) == Value(t, [HistoricalJob(l)], q))
    {
      assert Picked(t, Jobs(l), m, q);
      var picked :| Sub(picked, Jobs(l)) && Get(m, q) == Value(t, picked, q);
      FoldReadsSources(t, m, Jobs(l), q, Get(m, q));
      RetryFromEntry(l, t, picked, q);
    }
  }

  /** So a retry makes up for any failures where the two sources do not disagree. */
  lemma RetryMakesUpForFailures(l: Layout, t: Tree, m: Tree, v: Tree, first: string, second: string)
    requires l.Valid() && FailureState(l, t, m, first) && Completed(l, m, v, second)
    requires forall q :: !OrderMatters(l, t, q)
    ensures forall q :: l.Plain(q) ==> Get(v, q) == Value(t, Jobs(l), q)
  {
    RetryExactlyWhen(l, t, m, v, first, second);
  }

  lemma RunOne(t: Tree, a: Job, q: Path, cur: Option<Entry>)
    ensures Fold(t, [a], q, cur) == StepValue(t, a, q, cur)
  {
    assert [a][..0] == [];
  }

  lemma RunTwo(t: Tree, a: Job, b: Job, q: Path, cur: Option<Entry>)
    ensures Fold(t, [a, b], q, cur) == StepValue(t, b, q, StepValue(t, a, q, cur))
  {
    assert [a, b][..1] == [a];
    RunOne(t, a, q, cur);
  }

  lemma SubOfTwo(sub: seq<Job>, a: Job, b: Job)
    requires Sub(sub, [a, b])
    ensures sub == [] || sub == [a] || sub == [b] || sub == [a, b]
  {
    assert [a, b][..1] == [a] && [a][..0] == [];
    if !Sub(sub, [a]) {
      var front := sub[..|sub| - 1];
      assert sub == front + [b];
      SubOfOne(front, [a]);
    } else {
      SubOfOne(sub, [a]);
    }
  }

  lemma SubOfOne(sub: seq<Job>, fed: seq<Job>)
    requires |fed| <= 1 && Sub(sub, fed)
    ensures sub == [] || sub == fed
  {
    if fed != [] && sub != [] {
      assert fed[..0] == [];
      if Sub(sub[..|sub| - 1], []) {
        assert sub == sub[..|sub| - 1] + [sub[|sub| - 1]];
      }
    }
  }

  lemma FedBySingle(t: Tree, job: Job, q: Path)
    requires JobFeeds(t, job, q)
    ensures FedBy(t, [job], q) == [job]
  {
    assert [job][..0] == [];
  }

  /** Where no other job feeds the path, only this one is left. */
  lemma OnlyOne(t: Tree, jobs: seq<Job>, k: nat, q: Path)
    requires k < |jobs| && JobFeeds(t, jobs[k], q)
    requires forall i :: 0 <= i < |jobs| && i != k ==> !JobFeeds(t, jobs[i], q)
    ensures FedBy(t, jobs, q) == [jobs[k]]
  {
    var a, b, c := jobs[..k], [jobs[k]], jobs[k + 1..];
    var bc := b + c;
    assert jobs == a + bc;
    FedByNone(t, a, q);
    FedByNone(t, c, q);
    FedByAppend(t, a, bc, q);
    FedByAppend(t, b, c, q);
    FedBySingle(t, jobs[k], q);
  }

  lemma OnlyTwo(t: Tree, jobs: seq<Job>, k: nat, m: nat, q: Path)
    requires k < m < |jobs| && JobFeeds(t, jobs[k], q) && JobFeeds(t, jobs[m], q)
    requires forall i :: 0 <= i < |jobs| && i != k && i != m ==> !JobFeeds(t, jobs[i], q)
    ensures FedBy(t, jobs, q) == [jobs[k], jobs[m]]
  {
    var front, back := jobs[..k + 1], jobs[k + 1..];
    OnlyOne(t, front, k, q);
    OnlyOne(t, back, m - k - 1, q);
    assert jobs == front + back;
    FedByAppend(t, front, back, q);
  }

  lemma BothFeed(l: Layout, t: Tree, q: Path)
    requires l.Valid() && JobFeeds(t, LeafJob(l, SHARED_LEAF), q) && JobFeeds(t, HistoricalJob(l), q)
    ensures FedBy(t, Jobs(l), q) == [LeafJob(l, SHARED_LEAF), HistoricalJob(l)]
  {
    var jobs := Jobs(l);
    assert jobs[9] == LeafJob(l, SHARED_LEAF) && jobs[13] == HistoricalJob(l);
    forall i | 0 <= i < |jobs| && i != 9 && i != 13 ensures !JobFeeds(t, jobs[i], q) {
      if JobFeeds(t, jobs[i], q) {
        if i < 9 {
          TwoSourcesOfOneLeaf(l, t, i, 9, q);
        } else {
          TwoSourcesOfOneLeaf(l, t, 9, i, q);
        }
      }
    }
    OnlyTwo(t, jobs, 9, 13, q);
  }

  lemma AtMostOneFeeds(l: Layout, t: Tree, q: Path)
    requires l.Valid() && !(JobFeeds(t, LeafJob(l, SHARED_LEAF), q) && JobFeeds(t, HistoricalJob(l), q))
    ensures |FedBy(t, Jobs(l), q)| <= 1
  {
    var jobs := Jobs(l);
    assert jobs[9] == LeafJob(l, SHARED_LEAF) && jobs[13] == HistoricalJob(l);
    if k: nat :| k < |jobs| && JobFeeds(t, jobs[k], q) {
      forall i | 0 <= i < |jobs| && i != k ensures !JobFeeds(t, jobs[i], q) {
        if JobFeeds(t, jobs[i], q) {
          if i < k {
            TwoSourcesOfOneLeaf(l, t, i, k, q);
          } else {
            TwoSourcesOfOneLeaf(l, t, k, i, q);
          }
        }
      }
      OnlyOne(t, jobs, k, q);
    } else {
      FedByNone(t, jobs, q);
    }
  }
}
