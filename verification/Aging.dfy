/** Age and size of a directory entry: `path_size`, `dir_newest_mtime` and
    `is_expired` of agent/composition/src/disk_cleanup.rs.  Names inside an entry
    play no part, so a directory is the list of what it holds. */
module Aging {

  /** Times are nanoseconds. */
  datatype Node =
    | File(mtime: int, bytes: nat)
    | Dir(mtime: int, entries: seq<Node>)

  const NANOS: int := 1_000_000_000
  const SECONDS_PER_DAY: int := 86_400

  // ----- reference definitions -----

  /** The times that count: those of files and of empty directories.  The time of
      a directory that holds something does not. */
  ghost function Times(n: Node): set<int> {
    match n
    case File(mtime, _) => {mtime}
    case Dir(mtime, entries) => if entries == [] then {mtime} else TimesOf(entries)
  }

  ghost function TimesOf(entries: seq<Node>): set<int> {
    if entries == [] then {} else TimesOf(entries[..|entries| - 1]) + Times(entries[|entries| - 1])
  }

  ghost function Size(n: Node): nat {
    match n
    case File(_, bytes) => bytes
    case Dir(_, entries) => SizeOf(entries)
  }

  ghost function SizeOf(entries: seq<Node>): nat {
    if entries == [] then 0 else SizeOf(entries[..|entries| - 1]) + Size(entries[|entries| - 1])
  }

  /** Every time that counts is at least so many days back. */
  ghost predicate Expired(n: Node, days: nat, now: int) {
    forall t :: t in Times(n) ==> now - t >= days * SECONDS_PER_DAY * NANOS
  }

  // ----- the loops -----

  method PathSize(n: Node) returns (total: nat)
    ensures total == Size(n)
    decreases n
  {
    if n.File? {
      return n.bytes;
    }
    total := 0;
    var i := 0;
    while i < |n.entries|
      invariant i <= |n.entries| && total == SizeOf(n.entries[..i])
    {
      var size := PathSize(n.entries[i]);
      assert n.entries[..i + 1][..i] == n.entries[..i];
      total := total + size;
      i := i + 1;
    }
    assert n.entries[..i] == n.entries;
  }

  ghost predicate IsMax(t: int, times: set<int>) {
    t in times && forall u :: u in times ==> u <= t
  }

  method NewestMtime(n: Node) returns (t: int)
    ensures IsMax(t, Times(n))
    decreases n
  {
    if n.File? || n.entries == [] {
      return n.mtime;
    }
    var i := 0;
    t := n.mtime;
    while i < |n.entries|
      invariant i <= |n.entries| && (i > 0 ==> IsMax(t, TimesOf(n.entries[..i])))
    {
      var child := NewestMtime(n.entries[i]);
      assert n.entries[..i + 1][..i] == n.entries[..i];
      if i == 0 {
        assert n.entries[..0] == [];
        t := child;
      } else if !(t >= child) {
        t := child;
      }
      i := i + 1;
    }
    assert n.entries[..i] == n.entries;
  }

  /** `is_expired`: an age in whole seconds, false for a time in the future. */
  method IsExpired(n: Node, days: nat, now: int) returns (expired: bool)
    ensures expired <==> Expired(n, days, now)
  {
    var newest := NewestMtime(n);
    var age := now - newest;
    expired := age >= 0 && age / NANOS >= days * SECONDS_PER_DAY;
    forall t | t in Times(n) && expired ensures now - t >= days * SECONDS_PER_DAY * NANOS {}
  }

  // ----- what lies inside -----

  /** Going down by the positions of `path` leads to a file or an empty directory with
      this time. */
  ghost predicate LeafAt(n: Node, path: seq<nat>, t: int) {
    if path == [] then n.mtime == t && (n.File? || n.entries == [])
    else n.Dir? && path[0] < |n.entries| && LeafAt(n.entries[path[0]], path[1..], t)
  }

  lemma {:induction false} TimesOfAny(entries: seq<Node>, t: int)
    ensures t in TimesOf(entries) <==> exists i :: 0 <= i < |entries| && t in Times(entries[i])
  {
    if entries != [] {
      var front := entries[..|entries| - 1];
      TimesOfAny(front, t);
      assert forall i :: 0 <= i < |front| ==> front[i] == entries[i];
      assert entries[|entries| - 1] in entries;
    }
  }

  ghost predicate HasLeaf(n: Node, t: int) { exists path :: LeafAt(n, path, t) }

  lemma HasLeafInside(n: Node, t: int)
    requires n.Dir? && n.entries != []
    ensures HasLeaf(n, t) <==> exists i :: 0 <= i < |n.entries| && HasLeaf(n.entries[i], t)
  {
    if path :| LeafAt(n, path, t) {
      assert LeafAt(n.entries[path[0]], path[1..], t);
      assert HasLeaf(n.entries[path[0]], t);
    }
    forall i | 0 <= i < |n.entries| && HasLeaf(n.entries[i], t) ensures HasLeaf(n, t) {
      var path :| LeafAt(n.entries[i], path, t);
      assert ([i] + path)[1..] == path;
      assert LeafAt(n, [i] + path, t);
    }
  }

  lemma HasLeafItself(n: Node, t: int)
    requires n.File? || n.entries == []
    ensures HasLeaf(n, t) <==> t == n.mtime
  {
    assert LeafAt(n, [], n.mtime);
    if path :| LeafAt(n, path, t) {
      assert path == [];
    }
  }

  /** The times that count are those of the files and empty directories found inside,
      however deep. */
  lemma {:induction false} TimesAreOfLeaves(n: Node, t: int)
    ensures t in Times(n) <==> HasLeaf(n, t)
    decreases n
  {
    if n.File? || n.entries == [] {
      HasLeafItself(n, t);
    } else {
      TimesOfAny(n.entries, t);
      HasLeafInside(n, t);
      forall i | 0 <= i < |n.entries| ensures t in Times(n.entries[i]) <==> HasLeaf(n.entries[i], t) {
        TimesAreOfLeaves(n.entries[i], t);
      }
    }
  }

  /** Some time always counts; a file expires after so many days of its own. */
  lemma {:induction false} SomeTime(n: Node, days: nat, now: int) returns (t: int)
    ensures t in Times(n)
    ensures n.File? ==> (Expired(n, days, now) <==> now - n.mtime >= days * 86_400_000_000_000)
    decreases n
  {
    if n.File? || n.entries == [] {
      t := n.mtime;
    } else {
      t := SomeTime(n.entries[|n.entries| - 1], days, now);
    }
  }

  /** A directory is as large as what it holds: nothing for nothing, and for two lists
      side by side what both take. */
  lemma {:induction false} SizeAddsUp(mtime: int, some: seq<Node>, more: seq<Node>)
    ensures Size(Dir(mtime, some + more)) == Size(Dir(mtime, some)) + Size(Dir(mtime, more))
    ensures Size(Dir(mtime, [])) == 0
    ensures forall n :: Size(Dir(mtime, [n])) == Size(n)
    decreases more
  {
    forall n ensures SizeOf([n]) == Size(n) {
      assert [n][..0] == [];
    }
    if more == [] {
      assert some + more == some;
    } else {
      assert (some + more)[..|some + more| - 1] == some + more[..|more| - 1];
      SizeAddsUp(mtime, some, more[..|more| - 1]);
    }
  }
}
