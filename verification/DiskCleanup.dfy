/** Retention cleanup of agent/composition/src/disk_cleanup.rs: the session face
    with its companions and orphans.

    The three roots are one map from (root, entry name) to entry; a root that does
    not exist is one without entries.  Only whole entries are deleted. */
module DiskCleanup {
  import opened Wrappers
  import opened Text
  import opened Aging

  datatype Root = SessionRoot | SessionsRoot | ToolResultsRoot

  datatype Key = Key(root: Root, name: string)

  type Store = map<Key, Node>

  const DATASET: string := ".dataset"
  const LOCK: string := ".lock"
  const BACKGROUND: string := ".background-process"
  const LEDGER: string := "accepted-input-ledger-"
  const STALE: string := ".dataset.stale-revision-"
  const BACKUP: string := ".dataset.bak."

  // ----- whose entry is it? -----

  function DatasetOf(id: string): Key { Key(SessionRoot, id + DATASET) }

  /** The id an entry is read as belonging to (`extract_id` of the three roots). */
  function Owner(k: Key): Option<string> {
    match k.root
    case SessionsRoot =>
      var lock := StripSuffix(k.name, LOCK);
      if lock.Some? then lock else StripSuffix(k.name, BACKGROUND)
    case ToolResultsRoot => Some(k.name)
    case SessionRoot =>
      if EndsWith(k.name, DATASET) then StripSuffix(k.name, DATASET)
      else if Find(k.name, STALE).Some? then Some(k.name[..Find(k.name, STALE).value])
      else if Find(k.name, BACKUP).Some? then Some(k.name[..Find(k.name, BACKUP).value])
      else if LEDGER <= k.name then Some(Before(k.name[|LEDGER|..], '.'))
      else None
  }

  /** The entries that go together with the dataset of `id`.  Joining the
      tool-results root with an empty name, or with `.`, is that root itself. */
  predicate Covers(id: string, k: Key) {
    match k.root
    case SessionRoot => k.name == id + DATASET || LEDGER + id <= k.name
    case SessionsRoot => k.name == id + LOCK || k.name == id + BACKGROUND
    case ToolResultsRoot => k.name == id || id == "" || id == "."
  }

  function Ids(s: Store): (ids: set<string>)
    ensures forall id :: id in ids <==> DatasetOf(id) in s
  {
    var ids := set k | k in s && k.root.SessionRoot? && EndsWith(k.name, DATASET) :: k.name[..|k.name| - |DATASET|];
    assert forall id :: DatasetOf(id) in s ==> id in ids by {
      forall id | DatasetOf(id) in s ensures id in ids {
        assert EndsWith(DatasetOf(id).name, DATASET);
        assert DatasetOf(id).name[..|id|] == id;
      }
    }
    assert forall k :: k in s && k.root.SessionRoot? && EndsWith(k.name, DATASET) ==>
        k == DatasetOf(k.name[..|k.name| - |DATASET|]);
    ids
  }

  function Covered(s: Store, id: string): set<Key> {
    set k | k in s && Covers(id, k)
  }

  // ----- what a run does -----

  ghost predicate Due(s: Store, id: string, days: nat, now: int) {
    DatasetOf(id) in s && Expired(s[DatasetOf(id)], days, now)
  }

  /** One turn of the first loop; `failing` entries cannot be deleted. */
  ghost function DropSession(s: Store, id: string, days: nat, now: int, failing: set<Key>): Store {
    if Due(s, id, days, now) then s - (Covered(s, id) - failing) else s
  }

  /** The first loop, in the order the directory is listed. */
  ghost function Swept(s: Store, order: seq<string>, days: nat, now: int, failing: set<Key>): Store {
    if order == [] then s
    else DropSession(Swept(s, order[..|order| - 1], days, now, failing), order[|order| - 1], days, now, failing)
  }

  ghost predicate IsOrphan(s: Store, ids: set<string>, k: Key, days: nat, now: int) {
    k in s && Owner(k).Some? && Owner(k).value !in ids && Expired(s[k], days, now)
  }

  ghost function Orphans(s: Store, ids: set<string>, days: nat, now: int): set<Key> {
    set k | k in s && IsOrphan(s, ids, k, days, now)
  }

  /** A whole run on `s`; the ids are the datasets present at the start. */
  ghost function Cleaned(s: Store, order: seq<string>, days: nat, now: int, failing: set<Key>): Store {
    var rest := Swept(s, order, days, now, failing);
    rest - (Orphans(rest, Ids(s), days, now) - failing)
  }

  ghost predicate Lists(order: seq<string>, ids: set<string>) {
    && (forall i :: 0 <= i < |order| ==> order[i] in ids)
    && (forall id :: id in ids ==> id in order)
    && (forall i, j :: 0 <= i < j < |order| ==> order[i] != order[j])
  }

  // ----- sizes -----

  ghost function Total<K>(s: map<K, Node>, keys: set<K>): nat
    requires keys <= s.Keys
  {
    if keys == {} then 0
    else
      var k :| k in keys;
      Size(s[k]) + Total(s, keys - {k})
  }

  lemma {:induction false} TotalRemove<K>(s: map<K, Node>, keys: set<K>, k: K)
    requires keys <= s.Keys && k in keys
    ensures Total(s, keys) == Size(s[k]) + Total(s, keys - {k})
    decreases keys
  {
    var j :| j in keys && Total(s, keys) == Size(s[j]) + Total(s, keys - {j});
    if j != k {
      TotalRemove(s, keys - {j}, k);
      TotalRemove(s, keys - {k}, j);
      assert keys - {j} - {k} == keys - {k} - {j};
    }
  }

  lemma {:induction false} TotalSplit<K>(s: map<K, Node>, a: set<K>, b: set<K>)
    requires a <= s.Keys && b <= s.Keys && a !! b
    ensures Total(s, a + b) == Total(s, a) + Total(s, b)
    decreases a
  {
    if a == {} {
      assert a + b == b;
    } else {
      var k :| k in a;
      TotalRemove(s, a, k);
      TotalRemove(s, a + b, k);
      assert a + b - {k} == (a - {k}) + b;
      TotalSplit(s, a - {k}, b);
    }
  }

  lemma {:induction false} TotalSame<K>(s: map<K, Node>, t: map<K, Node>, keys: set<K>)
    requires keys <= s.Keys && keys <= t.Keys && forall k :: k in keys ==> s[k] == t[k]
    ensures Total(s, keys) == Total(t, keys)
    decreases keys
  {
    if keys != {} {
      var k :| k in keys;
      TotalRemove(s, keys, k);
      TotalRemove(t, keys, k);
      TotalSame(s, t, keys - {k});
    }
  }

  /** What is on disk is what was on disk less what was deleted. */
  lemma TotalMinus<K>(s: map<K, Node>, gone: set<K>)
    requires gone <= s.Keys
    ensures (s - gone).Keys == s.Keys - gone
    ensures Total(s, s.Keys) == Total(s - gone, (s - gone).Keys) + Total(s, gone)
  {
    assert (s - gone).Keys == s.Keys - gone;
    TotalSplit(s, s.Keys - gone, gone);
    assert s.Keys - gone + gone == s.Keys;
    TotalSame(s, s - gone, s.Keys - gone);
  }

  // ----- what a run reports -----

  /** The label of an orphan also names its root. */
  datatype Label = Session(id: string) | PartlySession(id: string) | Orphan(key: Key)

  ghost function SessionLabel(s: Store, id: string, failing: set<Key>): Label {
    if Covered(s, id) !! failing then Session(id) else PartlySession(id)
  }

  ghost function SweptLabels(s: Store, order: seq<string>, days: nat, now: int, failing: set<Key>): seq<Label> {
    if order == [] then []
    else
      var front, id := order[..|order| - 1], order[|order| - 1];
      var rest := Swept(s, front, days, now, failing);
      SweptLabels(s, front, days, now, failing) +
      (if Due(rest, id, days, now) then [SessionLabel(rest, id, failing)] else [])
  }

  ghost function SweptBytes(s: Store, order: seq<string>, days: nat, now: int, failing: set<Key>): nat {
    if order == [] then 0
    else
      var front, id := order[..|order| - 1], order[|order| - 1];
      var rest := Swept(s, front, days, now, failing);
      SweptBytes(s, front, days, now, failing) +
      (if Due(rest, id, days, now) then Total(rest, Covered(rest, id) - failing) else 0)
  }

  /** A dry run looks at the same store all the time. */
  ghost function PreviewLabels(s: Store, order: seq<string>, days: nat, now: int): seq<Label> {
    if order == [] then []
    else
      PreviewLabels(s, order[..|order| - 1], days, now) +
      (if Due(s, order[|order| - 1], days, now) then [Session(order[|order| - 1])] else [])
  }

  ghost function PreviewBytes(s: Store, order: seq<string>, days: nat, now: int): nat {
    if order == [] then 0
    else
      PreviewBytes(s, order[..|order| - 1], days, now) +
      (if Due(s, order[|order| - 1], days, now) then Total(s, Covered(s, order[|order| - 1])) else 0)
  }

  ghost function OrphanLabels(keys: set<Key>): multiset<Label> {
    multiset(set k | k in keys :: Orphan(k))
  }

  lemma OrphanLabelsAdd(keys: set<Key>, k: Key)
    requires k !in keys
    ensures OrphanLabels(keys + {k}) == OrphanLabels(keys) + multiset{Orphan(k)}
  {
    var a, b := set j | j in keys :: Orphan(j), set j | j in keys + {k} :: Orphan(j);
    assert b == a + {Orphan(k)} && Orphan(k) !in a;
  }

  lemma OrphanLabelsUnion(a: set<Key>, b: set<Key>)
    requires a !! b
    ensures OrphanLabels(a + b) == OrphanLabels(a) + OrphanLabels(b)
  {
    var x, y, z := set j | j in a :: Orphan(j), set j | j in b :: Orphan(j), set j | j in a + b :: Orphan(j);
    assert z == x + y && x !! y;
  }

  // ----- the loops -----

  /** What has been reported for the deleted (or previewed) orphans `keys`. */
  ghost predicate Tally(s: Store, keys: set<Key>, labels: seq<Label>, bytes: nat) {
    keys <= s.Keys && multiset(labels) == OrphanLabels(keys) && bytes == Total(s, keys)
  }

  class Sweeper {
    var store: Store
    const failing: set<Key>
    var removed: seq<Label>
    var bytes: nat
    var errors: nat

    constructor (store: Store, failing: set<Key>)
      ensures this.store == store && this.failing == failing && removed == [] && bytes == 0 && errors == 0
    {
      this.store, this.failing, removed, bytes, errors := store, failing, [], 0, 0;
    }

    /** `remove_entry`: the size, if the entry could be deleted. */
    method RemoveEntry(k: Key) returns (r: Option<nat>)
      requires k in store
      modifies this`store
      ensures k in failing ==> r == None && store == old(store)
      ensures k !in failing ==> r == Some(Size(old(store)[k])) && store == old(store) - {k}
    {
      var size := PathSize(store[k]);
      if k in failing {
        return None;
      }
      store := store - {k};
      r := Some(size);
    }

    /** Deletes or previews one entry; `done` are the entries of `s` dealt with before. */
    method ReclaimOne(k: Key, dryRun: bool, ghost s: Store, ghost done: set<Key>) returns (r: Option<nat>)
      requires k in s && k !in done
      requires store == if dryRun then s else s - (done - failing)
      modifies this`store
      ensures store == if dryRun then s else s - (done + {k} - failing)
      ensures r == if !dryRun && k in failing then None else Some(Size(s[k]))
    {
      assert k in store && store[k] == s[k];
      if dryRun {
        var size := PathSize(store[k]);
        return Some(size);
      }
      r := RemoveEntry(k);
      if k in failing {
        assert done + {k} - failing == done - failing;
      } else {
        assert done + {k} - failing == (done - failing) + {k};
        assert s - ((done - failing) + {k}) == s - (done - failing) - {k};
      }
    }

    /** `reclaim_companions`, for a session that is due. */
    method ReclaimCompanions(id: string, dryRun: bool)
      requires DatasetOf(id) in store
      modifies this
      ensures var s := old(store);
              && store == (if dryRun then s else s - (Covered(s, id) - failing))
              && removed == old(removed) + [if dryRun then Session(id) else SessionLabel(s, id, failing)]
              && bytes == old(bytes) + Total(s, Covered(s, id) - (if dryRun then {} else failing))
    {
      var companions := Covered(store, id);
      assert DatasetOf(id) in companions;
      assert companions !! failing <==> |companions * failing| == 0;
      var reclaimed, failures := ReclaimAll(companions, dryRun);
      errors := errors + failures;
      bytes := bytes + reclaimed;
      removed := removed + [if failures > 0 then PartlySession(id) else Session(id)];
    }

    /** The loop over the companions; there is at least the dataset. */
    method ReclaimAll(companions: set<Key>, dryRun: bool) returns (reclaimed: nat, failures: nat)
      requires companions <= store.Keys
      modifies this`store
      ensures store == if dryRun then old(store) else old(store) - (companions - failing)
      ensures reclaimed == Total(old(store), companions - (if dryRun then {} else failing))
      ensures failures == if dryRun then 0 else |companions * failing|
    {
      ghost var s, done: set<Key> := store, {};
      var todo := companions;
      reclaimed, failures := 0, 0;
      assert s - ({} - failing) == s;
      while todo != {}
        invariant done !! todo && done + todo == companions
        invariant Reclaiming(s, done, dryRun, reclaimed, failures)
        decreases |todo|
      {
        var k :| k in todo;
        reclaimed, failures := ReclaimNext(k, dryRun, s, done, reclaimed, failures);
        done := done + {k};
        todo := todo - {k};
      }
      assert done == companions;
    }

    /** These entries of `s` have been dealt with. */
    ghost predicate Reclaiming(s: Store, done: set<Key>, dryRun: bool, reclaimed: nat, failures: nat)
      reads this
    {
      var skipped := if dryRun then {} else failing;
      && done <= s.Keys && store == (if dryRun then s else s - (done - failing))
      && reclaimed == Total(s, done - skipped) && failures == |done * skipped|
    }

    method ReclaimNext(k: Key, dryRun: bool, ghost s: Store, ghost done: set<Key>, reclaimed: nat, failures: nat)
      returns (reclaimed': nat, failures': nat)
      requires k in s && k !in done && Reclaiming(s, done, dryRun, reclaimed, failures)
      modifies this`store
      ensures Reclaiming(s, done + {k}, dryRun, reclaimed', failures')
    {
      ghost var skipped := if dryRun then {} else failing;
      TotalAdd(s, done, skipped, k);
      CountAdd(done, skipped, k);
      var size := ReclaimOne(k, dryRun, s, done);
      reclaimed', failures' := reclaimed, failures;
      if size.Some? {
        reclaimed' := reclaimed + size.value;
      } else {
        failures' := failures + 1;
      }
    }

    /** One turn of the first loop of `sweep_sessions_face`. */
    method ConsiderDataset(id: string, days: nat, now: int, dryRun: bool)
      modifies this
      ensures var s, due := old(store), Due(old(store), id, days, now);
              && store == (if dryRun then s else DropSession(s, id, days, now, failing))
              && removed == old(removed) + (if !due then [] else if dryRun then [Session(id)] else [SessionLabel(s, id, failing)])
              && bytes == old(bytes) + (if due then Total(s, Covered(s, id) - (if dryRun then {} else failing)) else 0)
    {
      // a dataset that is no longer there counts as fresh
      var expired := false;
      if DatasetOf(id) in store {
        expired := IsExpired(store[DatasetOf(id)], days, now);
      }
      if expired {
        ReclaimCompanions(id, dryRun);
      }
    }

    /** The ids of `order` have been considered, on top of what was reported before. */
    ghost predicate DatasetsSwept(s: Store, order: seq<string>, days: nat, now: int, dryRun: bool,
                                  reported: seq<Label>, counted: nat)
      reads this
    {
      && store == AfterDatasets(s, order, days, now, failing, dryRun)
      && removed == reported + DatasetLabels(s, order, days, now, failing, dryRun)
      && bytes == counted + DatasetBytes(s, order, days, now, failing, dryRun)
    }

    method NextDataset(id: string, days: nat, now: int, dryRun: bool, ghost s: Store, ghost order: seq<string>,
                       ghost reported: seq<Label>, ghost counted: nat)
      requires DatasetsSwept(s, order, days, now, dryRun, reported, counted)
      modifies this
      ensures DatasetsSwept(s, order + [id], days, now, dryRun, reported, counted)
    {
      OneMoreDataset(s, order, id, days, now, failing, dryRun);
      ConsiderDataset(id, days, now, dryRun);
    }

    /** The first loop of `sweep_sessions_face`.  `order` is the order in which the
        ids were visited; the directory listing decides it. */
    method SweepDatasets(days: nat, now: int, dryRun: bool) returns (live: set<string>, ghost order: seq<string>)
      requires days > 0
      modifies this
      ensures live == Ids(old(store)) && Lists(order, live)
      ensures store == AfterDatasets(old(store), order, days, now, failing, dryRun)
      ensures removed == old(removed) + DatasetLabels(old(store), order, days, now, failing, dryRun)
      ensures bytes == old(bytes) + DatasetBytes(old(store), order, days, now, failing, dryRun)
    {
      ghost var s := store;
      live, order := Ids(store), [];
      var todo := live;
      while todo != {}
        invariant todo <= live && Lists(order, live - todo)
        invariant DatasetsSwept(s, order, days, now, dryRun, old(removed), old(bytes))
        decreases |todo|
      {
        var id :| id in todo;
        ListsMore(order, live, todo, id);
        NextDataset(id, days, now, dryRun, s, order, old(removed), old(bytes));
        order := order + [id];
        todo := todo - {id};
      }
    }

    /** One turn of `sweep_orphans`; `hit` are the orphans of `s` met before. */
    method ConsiderOrphan(k: Key, live: set<string>, days: nat, now: int, dryRun: bool,
                          ghost s: Store, ghost hit: set<Key>, labels: seq<Label>, reclaimed: nat)
      returns (ghost hit': set<Key>, labels': seq<Label>, reclaimed': nat, failed: bool)
      requires k in s && k !in hit && hit <= s.Keys
      requires store == if dryRun then s else s - (hit - failing)
      requires Tally(s, hit - (if dryRun then {} else failing), labels, reclaimed)
      modifies this`store
      ensures hit' == if IsOrphan(s, live, k, days, now) then hit + {k} else hit
      ensures store == if dryRun then s else s - (hit' - failing)
      ensures Tally(s, hit' - (if dryRun then {} else failing), labels', reclaimed')
    {
      assert k in store && store[k] == s[k];
      hit', labels', reclaimed', failed := hit, labels, reclaimed, false;
      var owner := Owner(k);
      if owner.None? || owner.value in live {
        return;
      }
      var expired := IsExpired(store[k], days, now);
      if expired {
        CountOrphan(s, hit, if dryRun then {} else failing, k);
        var size := ReclaimOne(k, dryRun, s, hit);
        hit' := hit + {k};
        if size.Some? {
          reclaimed' := reclaimed + size.value;
          labels' := labels + [Orphan(k)];
        } else {
          failed := true;
        }
      }
    }

    /** The state of the loop of `sweep_orphans`: of the orphans `gone` of `s`, those
        no longer in `todo` have been dealt with. */
    ghost predicate Sweeping(s: Store, gone: set<Key>, todo: set<Key>, dryRun: bool, labels: seq<Label>, reclaimed: nat)
      reads this
    {
      && store == (if dryRun then s else s - (gone - todo - failing))
      && Tally(s, gone - todo - (if dryRun then {} else failing), labels, reclaimed)
    }

    method SweepNext(k: Key, live: set<string>, days: nat, now: int, dryRun: bool,
                     ghost s: Store, ghost gone: set<Key>, ghost todo: set<Key>, labels: seq<Label>, reclaimed: nat)
      returns (labels': seq<Label>, reclaimed': nat, failed: bool)
      requires gone <= s.Keys && k in todo && k in s && (k in gone <==> IsOrphan(s, live, k, days, now))
      requires Sweeping(s, gone, todo, dryRun, labels, reclaimed)
      modifies this`store
      ensures Sweeping(s, gone, todo - {k}, dryRun, labels', reclaimed')
    {
      ghost var hit := gone - todo;
      labels', reclaimed', failed := labels, reclaimed, false;
      hit, labels', reclaimed', failed := ConsiderOrphan(k, live, days, now, dryRun, s, hit, labels, reclaimed);
      assert hit == gone - (todo - {k});
    }

    /** The loop of `sweep_orphans` over `entries`, of which `gone` are orphans. */
    method SweepEntries(entries: set<Key>, live: set<string>, days: nat, now: int, dryRun: bool, ghost gone: set<Key>)
      returns (labels: seq<Label>, reclaimed: nat, failures: nat)
      requires gone <= entries <= store.Keys
      requires forall k :: k in entries ==> (k in gone <==> IsOrphan(store, live, k, days, now))
      modifies this`store
      ensures Sweeping(old(store), gone, {}, dryRun, labels, reclaimed)
    {
      ghost var s := store;
      var todo := entries;
      labels, reclaimed, failures := [], 0, 0;
      NothingSwept(gone, entries, dryRun);
      while todo != {}
        invariant todo <= entries
        invariant Sweeping(s, gone, todo, dryRun, labels, reclaimed)
        decreases |todo|
      {
        var k :| k in todo;
        var failed;
        labels, reclaimed, failed := SweepNext(k, live, days, now, dryRun, s, gone, todo, labels, reclaimed);
        failures := failures + if failed then 1 else 0;
        todo := todo - {k};
      }
    }

    lemma NothingSwept(gone: set<Key>, entries: set<Key>, dryRun: bool)
      requires gone <= entries <= store.Keys
      ensures Sweeping(store, gone, entries, dryRun, [], 0)
    {
      assert gone - entries == {};
      assert gone - entries - failing == {};
      assert gone - entries - (if dryRun then {} else failing) == {};
    }

    /** `sweep_orphans` for one root. */
    method SweepOrphans(root: Root, live: set<string>, days: nat, now: int, dryRun: bool)
      modifies this
      ensures var s, deleted := old(store), RootOrphans(old(store), root, live, days, now) - (if dryRun then {} else failing);
              && store == (if dryRun then s else s - deleted)
              && multiset(removed) == multiset(old(removed)) + OrphanLabels(deleted)
              && bytes == old(bytes) + Total(s, deleted)
    {
      var entries := set k | k in store && k.root == root;
      ghost var gone := RootOrphans(store, root, live, days, now);
      forall k | k in entries ensures k in gone <==> IsOrphan(store, live, k, days, now) {
        OrphanTest(store, root, live, k, days, now);
      }
      var labels, reclaimed, failures := SweepEntries(entries, live, days, now, dryRun, gone);
      assert gone - {} == gone;
      removed := removed + labels;
      bytes := bytes + reclaimed;
      errors := errors + failures;
    }

    /** `sweep_sessions_face`. */
    method SweepSessions(days: nat, now: int, dryRun: bool) returns (ghost order: seq<string>)
      modifies this
      ensures days == 0 ==> store == old(store) && removed == old(removed) && bytes == old(bytes)
      ensures Lists(order, Ids(old(store)))
      ensures days > 0 ==>
                var s := old(store);
                var rest := AfterDatasets(s, order, days, now, failing, dryRun);
                var deleted := Orphans(rest, Ids(s), days, now) - (if dryRun then {} else failing);
                && store == (if dryRun then s else Cleaned(s, order, days, now, failing))
                && multiset(removed) == multiset(old(removed))
                                        + multiset(DatasetLabels(s, order, days, now, failing, dryRun))
                                        + OrphanLabels(deleted)
                && bytes == old(bytes) + DatasetBytes(s, order, days, now, failing, dryRun) + Total(rest, deleted)
    {
      if days == 0 {
        order := ListingExists(Ids(store));
        return;
      }
      var live;
      live, order := SweepDatasets(days, now, dryRun);
      SweepAllOrphans(live, days, now, dryRun);
    }

    /** The three calls of `sweep_orphans`. */
    method SweepAllOrphans(live: set<string>, days: nat, now: int, dryRun: bool)
      modifies this
      ensures var s, deleted := old(store), Orphans(old(store), live, days, now) - (if dryRun then {} else failing);
              && store == (if dryRun then s else s - deleted)
              && multiset(removed) == multiset(old(removed)) + OrphanLabels(deleted)
              && bytes == old(bytes) + Total(s, deleted)
    {
      ghost var s, skipped: set<Key> := store, if dryRun then {} else failing;
      ghost var a := RootOrphans(s, SessionsRoot, live, days, now) - skipped;
      ghost var b := RootOrphans(s, ToolResultsRoot, live, days, now) - skipped;
      ghost var c := RootOrphans(s, SessionRoot, live, days, now) - skipped;
      SweepOrphans(SessionsRoot, live, days, now, dryRun);
      ghost var s1 := store;
      RootUndisturbed(s, a, SessionsRoot, ToolResultsRoot, live, days, now);
      SweepOrphans(ToolResultsRoot, live, days, now, dryRun);
      ghost var s2 := store;
      RootUndisturbed(s, a, SessionsRoot, SessionRoot, live, days, now);
      RootUndisturbed(s1, b, ToolResultsRoot, SessionRoot, live, days, now);
      SweepOrphans(SessionRoot, live, days, now, dryRun);
      OrphansByRoot(s, live, days, now, skipped);
      ThreeParts(s, a, b, c);
    }
  }

  // ----- both kinds of run at once -----

  ghost function AfterDatasets(s: Store, order: seq<string>, days: nat, now: int, failing: set<Key>, dryRun: bool): Store {
    if dryRun then s else Swept(s, order, days, now, failing)
  }

  ghost function DatasetLabels(s: Store, order: seq<string>, days: nat, now: int, failing: set<Key>, dryRun: bool): seq<Label> {
    if dryRun then PreviewLabels(s, order, days, now) else SweptLabels(s, order, days, now, failing)
  }

  ghost function DatasetBytes(s: Store, order: seq<string>, days: nat, now: int, failing: set<Key>, dryRun: bool): nat {
    if dryRun then PreviewBytes(s, order, days, now) else SweptBytes(s, order, days, now, failing)
  }

  lemma OneMoreDataset(s: Store, order: seq<string>, id: string, days: nat, now: int, failing: set<Key>, dryRun: bool)
    ensures var rest, longer := AfterDatasets(s, order, days, now, failing, dryRun), order + [id];
            var due := Due(rest, id, days, now);
            && AfterDatasets(s, longer, days, now, failing, dryRun)
               == (if dryRun then rest else DropSession(rest, id, days, now, failing))
            && DatasetLabels(s, longer, days, now, failing, dryRun)
               == DatasetLabels(s, order, days, now, failing, dryRun)
                  + (if !due then [] else if dryRun then [Session(id)] else [SessionLabel(rest, id, failing)])
            && DatasetBytes(s, longer, days, now, failing, dryRun)
               == DatasetBytes(s, order, days, now, failing, dryRun)
                  + (if due then Total(rest, Covered(rest, id) - (if dryRun then {} else failing)) else 0)
  {
    assert (order + [id])[..|order|] == order;
    assert Covered(s, id) - {} == Covered(s, id);
  }

  lemma OrphanTest(s: Store, root: Root, live: set<string>, k: Key, days: nat, now: int)
    requires k in s && k.root == root
    ensures k in RootOrphans(s, root, live, days, now) <==> IsOrphan(s, live, k, days, now)
  {}

  /** Deleting in one root does not change the orphans of another. */
  lemma RootUndisturbed(s: Store, gone: set<Key>, from: Root, root: Root, live: set<string>, days: nat, now: int)
    requires from != root && forall k :: k in gone ==> k.root == from
    ensures RootOrphans(s - gone, root, live, days, now) == RootOrphans(s, root, live, days, now)
  {
    forall k ensures k in RootOrphans(s - gone, root, live, days, now) <==> k in RootOrphans(s, root, live, days, now) {
      if k.root == root {
        assert k in s - gone <==> k in s;
        OrphanStays(s, gone, live, k, days, now);
      }
    }
  }

  /** Being an orphan depends only on the entry itself. */
  lemma OrphanStays(s: Store, gone: set<Key>, live: set<string>, k: Key, days: nat, now: int)
    ensures IsOrphan(s - gone, live, k, days, now) <==> k !in gone && IsOrphan(s, live, k, days, now)
  {}

  lemma OrphansByRoot(s: Store, live: set<string>, days: nat, now: int, skipped: set<Key>)
    ensures Orphans(s, live, days, now) - skipped
         == (RootOrphans(s, SessionsRoot, live, days, now) - skipped)
            + (RootOrphans(s, ToolResultsRoot, live, days, now) - skipped)
            + (RootOrphans(s, SessionRoot, live, days, now) - skipped)
  {
    forall k ensures k in Orphans(s, live, days, now)
                <==> k in RootOrphans(s, SessionsRoot, live, days, now) || k in RootOrphans(s, ToolResultsRoot, live, days, now)
                     || k in RootOrphans(s, SessionRoot, live, days, now)
    {
      if k in s {
        OrphanTest(s, k.root, live, k, days, now);
      }
    }
  }

  lemma ThreeParts(s: Store, a: set<Key>, b: set<Key>, c: set<Key>)
    requires a <= s.Keys && b <= s.Keys && c <= s.Keys && a !! b && (a + b) !! c
    ensures s - a - b - c == s - (a + b + c)
    ensures OrphanLabels(a) + OrphanLabels(b) + OrphanLabels(c) == OrphanLabels(a + b + c)
    ensures b <= (s - a).Keys && c <= (s - a - b).Keys
    ensures Total(s, a) + Total(s - a, b) + Total(s - a - b, c) == Total(s, a + b + c)
    ensures Total(s, a) + Total(s, b) + Total(s, c) == Total(s, a + b + c)
  {
    OrphanLabelsUnion(a, b);
    OrphanLabelsUnion(a + b, c);
    TotalSplit(s, a, b);
    TotalSplit(s, a + b, c);
    ThreeRemoved(s, a, b, c);
  }

  lemma ThreeRemoved(s: Store, a: set<Key>, b: set<Key>, c: set<Key>)
    requires a <= s.Keys && b <= s.Keys && c <= s.Keys && a !! b && (a + b) !! c
    ensures s - a - b - c == s - (a + b + c)
    ensures b <= (s - a).Keys && Total(s - a, b) == Total(s, b)
    ensures c <= (s - a - b).Keys && Total(s - a - b, c) == Total(s, c)
  {
    assert (s - a).Keys == s.Keys - a && (s - a - b).Keys == s.Keys - a - b;
    TotalSame(s, s - a, b);
    TotalSame(s, s - a - b, c);
  }

  ghost function RootOrphans(s: Store, root: Root, live: set<string>, days: nat, now: int): set<Key> {
    set k | k in s && k.root == root && IsOrphan(s, live, k, days, now)
  }

  /** Some listing of a set. */
  lemma {:induction false} ListingExists(ids: set<string>) returns (order: seq<string>)
    ensures Lists(order, ids)
  {
    order := [];
    var todo := ids;
    while todo != {}
      invariant todo <= ids && Lists(order, ids - todo)
      decreases |todo|
    {
      var id :| id in todo;
      ListsMore(order, ids, todo, id);
      order := order + [id];
      todo := todo - {id};
    }
  }

  lemma ListsMore(order: seq<string>, ids: set<string>, todo: set<string>, id: string)
    requires id in todo && todo <= ids && Lists(order, ids - todo)
    ensures Lists(order + [id], ids - (todo - {id}))
  {
    forall x | x in ids - (todo - {id}) ensures x in order + [id] {
      assert x == id || x in ids - todo;
    }
  }

  lemma LabelsAdd(hit: set<Key>, skipped: set<Key>, k: Key)
    requires k !in hit
    ensures OrphanLabels(hit + {k} - skipped)
         == OrphanLabels(hit - skipped) + (if k in skipped then multiset{} else multiset{Orphan(k)})
  {
    if k in skipped {
      assert hit + {k} - skipped == hit - skipped;
    } else {
      OrphanLabelsAdd(hit - skipped, k);
      assert hit + {k} - skipped == (hit - skipped) + {k};
    }
  }

  lemma CountOrphan(s: Store, hit: set<Key>, skipped: set<Key>, k: Key)
    requires hit <= s.Keys && k in s && k !in hit
    ensures Total(s, hit + {k} - skipped) == Total(s, hit - skipped) + (if k in skipped then 0 else Size(s[k]))
    ensures OrphanLabels(hit + {k} - skipped)
         == OrphanLabels(hit - skipped) + (if k in skipped then multiset{} else multiset{Orphan(k)})
  {
    TotalAdd(s, hit, skipped, k);
    LabelsAdd(hit, skipped, k);
  }

  lemma CountAdd(done: set<Key>, skipped: set<Key>, k: Key)
    requires k !in done
    ensures |(done + {k}) * skipped| == |done * skipped| + (if k in skipped then 1 else 0)
  {
    assert (done + {k}) * skipped == if k in skipped then done * skipped + {k} else done * skipped;
  }

  lemma TotalAdd(s: Store, done: set<Key>, skipped: set<Key>, k: Key)
    requires done <= s.Keys && k in s && k !in done
    ensures Total(s, done + {k} - skipped) == Total(s, done - skipped) + (if k in skipped then 0 else Size(s[k]))
  {
    if k in skipped {
      assert done + {k} - skipped == done - skipped;
    } else {
      TotalRemove(s, done + {k} - skipped, k);
      assert done + {k} - skipped - {k} == done - skipped;
    }
  }
}
