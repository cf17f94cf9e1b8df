/** What a finished migration leaves, spelled out path by path and name by name
    (agent/composition/src/state_layout_migration.rs). */
module MigrationOutcome {
  import opened Wrappers
  import opened FileTree
  import opened MigrationPlan

  /** What merging makes of a path, in its three cases. */
  ghost predicate Merged(source: Option<Entry>, before: Option<Entry>, after: Option<Entry>) {
    && (source.None? ==> after == before)
    && (source.Some? && before.None? ==> after == source)
    && (source.Some? && source.value.File? && before == Some(File("")) ==> after == source)
    && (source.Some? && source.value.Dir? && before == Some(File("")) ==> after == before)
    && (before.Some? && before != Some(File("")) ==> after == before)
  }

  /** What is found at `x` below a source; nothing if the source is no directory. */
  ghost function Found(t: Tree, source: Path, x: Path): Option<Entry> {
    if IsDir(t, source) then Get(t, source + x) else None
  }

  /** A job that shares its target with no other decides the entries there. */
  lemma AloneDecides(l: Layout, t: Tree, k: nat, x: Path)
    requires l.Valid() && 1 <= k < |Jobs(l)| && k != 9 && k != 13
    ensures var job := Jobs(l)[k];
            job.MergeJob? && Merged(Found(t, job.source, x), Get(t, job.target + x), Value(t, Jobs(l), job.target + x))
  {
    var jobs, job := Jobs(l), Jobs(l)[k];
    var q := job.target + x;
    JobShape(l, k);
    assert job.MergeJob?;
    assert Origin(job.source, job.target, q) == job.source + x;
    FoldFedBy(t, jobs, q, Get(t, q));
    forall i | 0 <= i < |jobs| && i != k ensures !JobFeeds(t, jobs[i], q) {
      NotHere(l, t, k, i, q);
    }
    if JobFeeds(t, job, q) {
      OnlyOne(t, jobs, k, q);
      RunOne(t, job, q, Get(t, q));
      CombineMerges(Get(t, q), JobEntry(t, job, q));
    } else {
      FedByNone(t, jobs, q);
    }
  }

  lemma CombineMerges(before: Option<Entry>, source: Entry)
    ensures Merged(Some(source), before, Combine(Merge, before, source))
  {
    if source.File? && source.body == "" {
      assert source == File("");
    }
  }

  /** Below the target of such a job no other job writes. */
  lemma NotHere(l: Layout, t: Tree, k: nat, i: nat, q: Path)
    requires l.Valid() && 1 <= k < |Jobs(l)| && k != 9 && k != 13 && i < |Jobs(l)| && i != k
    requires Jobs(l)[k].MergeJob? && Jobs(l)[k].target <= q
    ensures !JobFeeds(t, Jobs(l)[i], q)
  {
    // a tree in which job `k` has something for the path as well
    var source, target := Jobs(l)[k].source, Jobs(l)[k].target;
    var more := t[source := Dir][Origin(source, target, q) := Dir];
    if JobFeeds(t, Jobs(l)[i], q) {
      assert JobFeeds(more, Jobs(l)[k], q);
      StillFeeds(t, more, Jobs(l)[i], q);
      if i < k {
        TwoSourcesOfOneLeaf(l, more, i, k, q);
      } else {
        TwoSourcesOfOneLeaf(l, more, k, i, q);
      }
    }
  }

  lemma StillFeeds(t: Tree, more: Tree, job: Job, q: Path)
    requires JobFeeds(t, job, q) && forall p :: p in t ==> p in more && (t[p].Dir? ==> more[p].Dir?)
    ensures JobFeeds(more, job, q)
  {}

  /** The runtime leaves, but for `tool-results`: below `state/<leaf>` is what was there,
      and what `<agents>/<leaf>` had where nothing, or an empty file, was. */
  lemma LeafArrives(l: Layout, t: Tree, u: Tree, stamp: string, leaf: string, x: Path)
    requires l.Valid() && Completed(l, t, u, stamp)
    requires leaf in ["session", "sessions", "harness", "scoring", "background-process", "background-task",
                      "workflows", "audit", "memory", "meta", "tmp"]
    ensures var target := l.home + ["state", leaf];
            Merged(Found(t, l.agents + [leaf], x), Get(t, target + x), Get(u, target + x))
  {
    var k := LeafNumber(leaf);
    var target := l.home + ["state", leaf];
    assert Jobs(l)[k] == LeafJob(l, LEAVES[k - 1]) && target == l.State() + [leaf];
    AloneDecides(l, t, k, x);
    UnderTarget(l, target, target + x, true, leaf);
  }

  lemma LeafNumber(leaf: string) returns (k: nat)
    requires leaf in ["session", "sessions", "harness", "scoring", "background-process", "background-task",
                      "workflows", "audit", "memory", "meta", "tmp"]
    ensures 1 <= k < 13 && k != 9 && LEAVES[k - 1] == leaf && leaf != MARKER_FILE
  {
    var names := ["session", "sessions", "harness", "scoring", "background-process", "background-task",
                  "workflows", "audit", "memory", "meta", "tmp"];
    var i :| 0 <= i < |names| && names[i] == leaf;
    k := if i < 8 then i + 1 else i + 2;
    assert MARKER_FILE[0] == '.' && leaf[0] != '.';
  }

  /** The private directories move next to `state`. */
  lemma PrivateArrives(l: Layout, t: Tree, u: Tree, stamp: string, name: string, x: Path)
    requires l.Valid() && Completed(l, t, u, stamp) && name in ["logs", "guidance", "models"]
    ensures var target := l.home + [name];
            Merged(Found(t, l.agents + [name], x), Get(t, target + x), Get(u, target + x))
  {
    var i :| 0 <= i < 3 && ["logs", "guidance", "models"][i] == name;
    var target := l.home + [name];
    assert PRIVATE_DIRS[i] == name && Jobs(l)[14 + i] == PrivateJob(l, PRIVATE_DIRS[i]);
    AloneDecides(l, t, 14 + i, x);
    UnderTarget(l, target, target + x, false, name);
  }

  /** `tool-results` takes from `<agents>/tool-results` first, then from the older
      `<home>/tool-results`. */
  lemma ResultsArrive(l: Layout, t: Tree, u: Tree, stamp: string, x: Path)
    requires l.Valid() && Completed(l, t, u, stamp)
    ensures var target := l.home + ["state", "tool-results"];
            exists between ::
              && Merged(Found(t, l.agents + ["tool-results"], x), Get(t, target + x), between)
              && Merged(Found(t, l.home + ["tool-results"], x), between, Get(u, target + x))
  {
    var target := l.home + ["state", "tool-results"];
    var q := target + x;
    var first, second := LeafJob(l, SHARED_LEAF), HistoricalJob(l);
    assert target == l.State() + [SHARED_LEAF] && q[|target|..] == x;
    assert Origin(first.source, first.target, q) == first.source + x;
    assert Origin(second.source, second.target, q) == second.source + x;
    UnderTarget(l, target, q, true, SHARED_LEAF);
    BothInTurn(l, t, q);
    var between := StepValue(t, first, q, Get(t, q));
    assert l.home + ["tool-results"] == second.source && l.agents + ["tool-results"] == first.source;
    if JobFeeds(t, first, q) {
      CombineMerges(Get(t, q), JobEntry(t, first, q));
    }
    if JobFeeds(t, second, q) {
      CombineMerges(between, JobEntry(t, second, q));
    }
    assert Merged(Found(t, first.source, x), Get(t, q), between);
    assert Merged(Found(t, second.source, x), between, Get(u, q));
  }

  lemma BothInTurn(l: Layout, t: Tree, q: Path)
    requires l.Valid() && l.State() + [SHARED_LEAF] <= q
    ensures Value(t, Jobs(l), q)
         == StepValue(t, HistoricalJob(l), q, StepValue(t, LeafJob(l, SHARED_LEAF), q, Get(t, q)))
  {
    var jobs, first, second := Jobs(l), LeafJob(l, SHARED_LEAF), HistoricalJob(l);
    assert jobs[9] == first && jobs[13] == second;
    FoldFedBy(t, jobs, q, Get(t, q));
    forall i | 0 <= i < |jobs| && i != 9 && i != 13 ensures !JobFeeds(t, jobs[i], q) {
      NotShared(l, t, i, q);
    }
    if JobFeeds(t, first, q) && JobFeeds(t, second, q) {
      OnlyTwo(t, jobs, 9, 13, q);
      RunTwo(t, first, second, q, Get(t, q));
    } else if JobFeeds(t, first, q) {
      OnlyOne(t, jobs, 9, q);
      RunOne(t, first, q, Get(t, q));
    } else if JobFeeds(t, second, q) {
      OnlyOne(t, jobs, 13, q);
      RunOne(t, second, q, Get(t, q));
    } else {
      FedByNone(t, jobs, q);
    }
  }

  lemma NotShared(l: Layout, t: Tree, i: nat, q: Path)
    requires l.Valid() && l.State() + [SHARED_LEAF] <= q && i < |Jobs(l)| && i != 9 && i != 13
    ensures !JobFeeds(t, Jobs(l)[i], q)
  {
    var job := LeafJob(l, SHARED_LEAF);
    var more := t[job.source := Dir][Origin(job.source, job.target, q) := Dir];
    assert Jobs(l)[9] == job;
    if JobFeeds(t, Jobs(l)[i], q) {
      assert JobFeeds(more, job, q);
      StillFeeds(t, more, Jobs(l)[i], q);
      if i < 9 {
        TwoSourcesOfOneLeaf(l, more, i, 9, q);
      } else {
        TwoSourcesOfOneLeaf(l, more, 9, i, q);
      }
    }
  }

  /** The guidance file is copied where there was none, or only an empty one or the
      bootstrap body, which an empty source does not replace; else it stays. */
  lemma GuidanceArrives(l: Layout, t: Tree, u: Tree, stamp: string)
    requires Completed(l, t, u, stamp)
    ensures var source, target := l.agents + ["tool_guidance.md"], l.home + ["tool_guidance.md"];
            var untouched := Get(t, target) == Some(File("")) || Get(t, target) == Some(File("# Tool Guidance\n"));
            && (IsFile(t, source) && target !in t ==> Get(u, target) == Some(t[source]))
            && (IsFile(t, source) && t[source].body != "" && untouched ==> Get(u, target) == Some(t[source]))
            && (!IsFile(t, source) ==> Get(u, target) == Get(t, target))
            && (target in t && !untouched ==> Get(u, target) == Get(t, target))
            && (IsFile(t, source) && t[source].body == "" && target in t ==> Get(u, target) == Get(t, target))
  {
    assert l.GuidanceSource() == l.agents + ["tool_guidance.md"] && l.GuidanceTarget() == l.home + ["tool_guidance.md"];
  }

  /** A state directory with entries is found again in the backup, and the marker and
      the state directory are there. */
  lemma BackupArrives(l: Layout, t: Tree, u: Tree, stamp: string, x: Path)
    requires l.Valid() && Completed(l, t, u, stamp) && l.home + ["state"] + x in t
    requires IsDir(t, l.home + ["state"]) && exists n :: l.home + ["state"] + [n] in t
    ensures Get(u, l.home + ["state.bak-" + stamp] + x) == Get(t, l.home + ["state"] + x)
    ensures l.home + ["state", ".layout-migration.json"] in u
  {
    var q := l.Backup(stamp) + x;
    assert l.State() == l.home + ["state"] && l.Backup(stamp) == l.home + ["state.bak-" + stamp];
    assert l.Marker() == l.home + ["state", ".layout-migration.json"];
    NameAt(l.home, BACKUP_PREFIX + stamp, q);
    assert l.InBackups(q) && Origin(l.State(), l.Backup(stamp), q) == l.State() + x;
  }

  /** Anything else is as it was. */
  lemma NothingElseChanges(l: Layout, t: Tree, u: Tree, stamp: string, q: Path)
    requires l.Valid() && Completed(l, t, u, stamp)
    requires !(q <= l.home + ["state"]) && !(l.home + ["state"] <= q)
    requires forall name :: name in ["logs", "guidance", "models", "tool_guidance.md", "state.bak-" + stamp] ==>
      !(l.home + [name] <= q)
    ensures Get(u, q) == Get(t, q)
  {
    var jobs := Jobs(l);
    assert l.State() == l.home + ["state"] && l.State() <= l.Marker();
    assert l.home + ["tool_guidance.md"] == l.GuidanceTarget() && l.GuidanceTarget() <= l.GuidanceTarget();
    assert l.Backup(stamp) == l.home + ["state.bak-" + stamp];
    forall i | 0 <= i < |jobs| ensures !JobFeeds(t, jobs[i], q) {
      if 1 <= i < 13 {
        assert jobs[i] == LeafJob(l, LEAVES[i - 1]);
        PrefixOfLonger(l.State(), [LEAVES[i - 1]], q);
      } else if i == 13 {
        PrefixOfLonger(l.State(), [SHARED_LEAF], q);
      } else if i >= 14 {
        assert jobs[i] == PrivateJob(l, PRIVATE_DIRS[i - 14]);
      }
    }
    FoldFedBy(t, jobs, q, Get(t, q));
    FedByNone(t, jobs, q);
  }
}
