/** A directory tree as a finite map from absolute paths to entries, and the
    recursive copies of agent/composition/src/state_layout_migration.rs over it.
    Symbolic links and permissions are not part of this model. */
module FileTree {
  import opened Wrappers

  type Path = seq<string>

  datatype Entry = File(body: string) | Dir

  type Tree = map<Path, Entry>

  function Get(t: Tree, p: Path): Option<Entry> {
    if p in t then Some(t[p]) else None
  }

  predicate IsDir(t: Tree, p: Path) { p in t && t[p].Dir? }

  predicate IsFile(t: Tree, p: Path) { p in t && t[p].File? }

  function Parent(p: Path): Path
    requires p != []
  {
    p[..|p| - 1]
  }

  ghost predicate WellFormed(t: Tree) {
    && IsDir(t, [])
    && forall p :: p in t && p != [] ==> IsDir(t, Parent(p))
  }

  /** Neither path is inside the other. */
  predicate Apart(p: Path, q: Path) { !(p <= q) && !(q <= p) }

  lemma {:induction false} AncestorsAreDirs(t: Tree, p: Path, q: Path)
    requires WellFormed(t) && p in t && q <= p && q != p
    ensures IsDir(t, q)
    decreases |p|
  {
    if Parent(p) != q {
      AncestorsAreDirs(t, Parent(p), q);
    }
  }

  lemma PrefixesCompare(p: Path, q: Path, r: Path)
    ensures p <= r && q <= r ==> p <= q || q <= p
  {
    if p <= r && q <= r {
      var k := if |p| <= |q| then |p| else |q|;
      assert p[..k] == r[..k] == q[..k];
    }
  }

  lemma PrefixOfLonger(p: Path, x: Path, q: Path)
    ensures p + x <= q ==> p <= q
  {
    if p + x <= q {
      assert p == (p + x)[..|p|] == q[..|p|];
    }
  }

  lemma NameAt(p: Path, name: string, q: Path)
    ensures p + [name] <= q ==> p <= q && |q| > |p| && q[|p|] == name
  {
    PrefixOfLonger(p, [name], q);
    if p + [name] <= q {
      assert q[..|p| + 1] == p + [name];
    }
  }

  lemma PrefixTransitive(p: Path, q: Path, r: Path)
    ensures p <= q && q <= r ==> p <= r
  {
    if p <= q && q <= r {
      assert p == q[..|p|] == r[..|p|];
    }
  }

  // ----- what one copy does to one path -----

  /** `Merge` never replaces an existing entry, except an empty file by a
      non-empty one; `Overwrite` always copies. */
  datatype Mode = Merge | Overwrite

  function Combine(mode: Mode, cur: Option<Entry>, source: Entry): Option<Entry> {
    if cur.None? || mode.Overwrite? then Some(source)
    else if cur.value == File("") && source.File? && source.body != "" then Some(source)
    else cur
  }

  /** A source entry that cannot be put over what is there: a directory over a
      file, and for `Overwrite` also a file over a directory. */
  predicate Clashes(mode: Mode, cur: Option<Entry>, source: Entry) {
    && cur.Some?
    && ((source.Dir? && cur.value.File?) || (mode.Overwrite? && source.File? && cur.value.Dir?))
  }

  /** The source path that lands on `q` when `s` is copied to `d`. */
  function Origin(s: Path, d: Path, q: Path): Path
    requires d <= q
  {
    s + q[|d|..]
  }

  predicate Feeds(t: Tree, s: Path, d: Path, q: Path) {
    d <= q && Origin(s, d, q) in t
  }

  function After(t: Tree, mode: Mode, s: Path, d: Path, q: Path): Option<Entry> {
    if Feeds(t, s, d, q) then Combine(mode, Get(t, q), t[Origin(s, d, q)]) else Get(t, q)
  }

  ghost predicate ClashAt(t: Tree, mode: Mode, s: Path, d: Path, q: Path) {
    Feeds(t, s, d, q) && Clashes(mode, Get(t, q), t[Origin(s, d, q)])
  }

  ghost predicate ClashSomewhere(t: Tree, mode: Mode, s: Path, d: Path) {
    exists q :: ClashAt(t, mode, s, d, q)
  }

  /** The copy is complete. */
  ghost predicate Copied(t: Tree, u: Tree, mode: Mode, s: Path, d: Path) {
    forall q :: Get(u, q) == After(t, mode, s, d, q)
  }

  /** The copy has been done at some paths and not at others: what a crash or a
      failure in the middle leaves. */
  ghost predicate PartlyCopied(t: Tree, u: Tree, mode: Mode, s: Path, d: Path) {
    forall q :: Get(u, q) == Get(t, q) || Get(u, q) == After(t, mode, s, d, q)
  }

  // ----- the walk -----

  /** `q` lies under a child of `d` that the walk has not reached yet. */
  predicate Pending(d: Path, todo: set<string>, q: Path) {
    d <= q && |q| > |d| && q[|d|] in todo
  }

  /** `u` is `t` with everything copied but the children in `todo`. */
  ghost predicate InProgress(t: Tree, u: Tree, mode: Mode, s: Path, d: Path, todo: set<string>) {
    forall q :: Get(u, q) == if Pending(d, todo, q) then Get(t, q) else After(t, mode, s, d, q)
  }

  lemma OriginOfChild(s: Path, d: Path, n: string, q: Path)
    requires d + [n] <= q
    ensures d <= q && |q| > |d| && q[|d|] == n
    ensures Origin(s + [n], d + [n], q) == Origin(s, d, q)
    ensures s + [n] <= Origin(s, d, q)
  {
    assert d + [n] == q[..|d| + 1];
    assert d == q[..|d|];
    assert q[|d|..] == [n] + q[|d| + 1..];
  }

  lemma PendingIsUnderChild(d: Path, n: string, q: Path)
    requires d <= q && |q| > |d|
    ensures d + [n] <= q <==> q[|d|] == n
  {
    assert q[..|d| + 1] == d + [q[|d|]];
  }

  /** A path of the source lies under one of its children, or is the source. */
  lemma FedUnderChild(t: Tree, s: Path, d: Path, q: Path)
    requires WellFormed(t) && Feeds(t, s, d, q) && q != d
    ensures |q| > |d| && s + [q[|d|]] in t
  {
    var o := Origin(s, d, q);
    assert q == d + q[|d|..];
    var child := s + [q[|d|]];
    assert o[..|s| + 1] == child;
    if o != child {
      AncestorsAreDirs(t, o, child);
    }
  }

  /** What copying one child does, seen from the whole copy. */
  lemma ChildSeen(t: Tree, u: Tree, mode: Mode, s: Path, d: Path, todo: set<string>, n: string, q: Path)
    requires Apart(s, d) && n in todo && InProgress(t, u, mode, s, d, todo)
    ensures After(u, mode, s + [n], d + [n], q)
         == if d + [n] <= q then After(t, mode, s, d, q) else Get(u, q)
    ensures ClashAt(u, mode, s + [n], d + [n], q) <==> d + [n] <= q && ClashAt(t, mode, s, d, q)
    ensures d + [n] <= q ==> Get(u, q) == Get(t, q)
  {
    if d + [n] <= q {
      OriginOfChild(s, d, n, q);
      var o := Origin(s, d, q);
      assert s <= o;
      SourceKept(t, u, mode, s, d, todo, o);
      assert Get(u, q) == Get(t, q);
    }
  }

  lemma SourceKept(t: Tree, u: Tree, mode: Mode, s: Path, d: Path, todo: set<string>, p: Path)
    requires Apart(s, d) && InProgress(t, u, mode, s, d, todo) && s <= p
    ensures Get(u, p) == Get(t, p)
  {
    PrefixesCompare(s, d, p);
  }

  lemma ChildCopied(t: Tree, u: Tree, v: Tree, mode: Mode, s: Path, d: Path, todo: set<string>, n: string)
    requires Apart(s, d) && n in todo && InProgress(t, u, mode, s, d, todo)
    requires Copied(u, v, mode, s + [n], d + [n])
    ensures InProgress(t, v, mode, s, d, todo - {n})
  {
    forall q ensures Get(v, q) == if Pending(d, todo - {n}, q) then Get(t, q) else After(t, mode, s, d, q) {
      ChildSeen(t, u, mode, s, d, todo, n, q);
      if d <= q && |q| > |d| {
        PendingIsUnderChild(d, n, q);
      }
      if d + [n] <= q {
        OriginOfChild(s, d, n, q);
      }
    }
  }

  lemma ChildPartly(t: Tree, u: Tree, v: Tree, mode: Mode, s: Path, d: Path, todo: set<string>, n: string)
    requires Apart(s, d) && n in todo && InProgress(t, u, mode, s, d, todo)
    requires PartlyCopied(u, v, mode, s + [n], d + [n])
    ensures PartlyCopied(t, v, mode, s, d)
  {
    forall q ensures Get(v, q) == Get(t, q) || Get(v, q) == After(t, mode, s, d, q) {
      ChildSeen(t, u, mode, s, d, todo, n, q);
    }
  }

  lemma ChildIsApart(s: Path, d: Path, n: string)
    requires Apart(s, d)
    ensures Apart(s + [n], d + [n]) && s + [n] != d + [n] && Parent(d + [n]) == d
  {
    PrefixOfLonger(s, [n], d + [n]);
    PrefixOfLonger(d, [n], s + [n]);
    PrefixesCompare(s, d, d + [n]);
    PrefixesCompare(s, d, s + [n]);
  }

  lemma OnlyClashOfFile(u: Tree, mode: Mode, from: Path, to: Path)
    requires WellFormed(u) && IsFile(u, from)
    ensures ClashSomewhere(u, mode, from, to) <==> ClashAt(u, mode, from, to, to)
  {
    forall q ensures Feeds(u, from, to, q) <==> q == to {
      FileIsSubtree(u, mode, from, to, q);
    }
  }

  lemma ChildDone(t: Tree, u: Tree, v: Tree, mode: Mode, s: Path, d: Path, todo: set<string>, n: string, ok: bool)
    requires Apart(s, d) && n in todo && InProgress(t, u, mode, s, d, todo) && IsDir(u, d)
    requires ok ==> Copied(u, v, mode, s + [n], d + [n])
    requires PartlyCopied(u, v, mode, s + [n], d + [n])
    ensures ok ==> InProgress(t, v, mode, s, d, todo - {n})
    ensures PartlyCopied(t, v, mode, s, d) && IsDir(v, d)
  {
    ChildPartly(t, u, v, mode, s, d, todo, n);
    if ok {
      ChildCopied(t, u, v, mode, s, d, todo, n);
    }
    ChildSeen(t, u, mode, s, d, todo, n, d);
    assert !(d + [n] <= d);
    assert Get(v, d) == Get(u, d);
  }

  lemma ClashSeen(t: Tree, u: Tree, mode: Mode, s: Path, d: Path, todo: set<string>, n: string)
    requires Apart(s, d) && n in todo && InProgress(t, u, mode, s, d, todo)
    ensures ClashSomewhere(u, mode, s + [n], d + [n]) ==> ClashSomewhere(t, mode, s, d)
    ensures !ClashSomewhere(u, mode, s + [n], d + [n]) && NoClashYet(t, mode, s, d, todo)
            ==> NoClashYet(t, mode, s, d, todo - {n})
  {
    forall q ensures ClashAt(u, mode, s + [n], d + [n], q) <==> d + [n] <= q && ClashAt(t, mode, s, d, q) {
      ChildSeen(t, u, mode, s, d, todo, n, q);
    }
  }

  /** Copying a file over `to` is copying the one-entry subtree at `from`. */
  lemma FileIsSubtree(u: Tree, mode: Mode, from: Path, to: Path, q: Path)
    requires WellFormed(u) && IsFile(u, from)
    ensures Feeds(u, from, to, q) <==> q == to
    ensures Origin(from, to, to) == from
  {
    assert Origin(from, to, to) == from;
    if Feeds(u, from, to, q) && q != to {
      FedUnderChild(u, from, to, q);
    }
  }

  /** No clash at any path the walk has dealt with. */
  ghost predicate NoClashYet(t: Tree, mode: Mode, s: Path, d: Path, todo: set<string>) {
    forall q :: !Pending(d, todo, q) ==> !ClashAt(t, mode, s, d, q)
  }

  /** Every state logged from position `since` on is a partial copy. */
  ghost predicate AllPartly(t: Tree, trace: seq<Tree>, since: nat, mode: Mode, s: Path, d: Path) {
    forall i :: since <= i < |trace| ==> PartlyCopied(t, trace[i], mode, s, d)
  }

  /** Before the first child: the target directory exists, all else is pending. */
  lemma Started(t: Tree, u: Tree, mode: Mode, s: Path, d: Path, todo: set<string>)
    requires WellFormed(t) && IsDir(t, s) && Apart(s, d) && (d in t ==> t[d].Dir?)
    requires u == if d in t then t else t[d := Dir]
    requires forall n :: n in todo <==> s + [n] in u
    ensures InProgress(t, u, mode, s, d, todo)
    ensures PartlyCopied(t, u, mode, s, d)
    ensures forall n :: n in todo ==> s + [n] in t
    ensures NoClashYet(t, mode, s, d, todo)
  {
    assert Origin(s, d, d) == s;
    forall n ensures s + [n] in u <==> s + [n] in t {
      assert s <= s + [n];
    }
    forall q | !Pending(d, todo, q) && q != d ensures !Feeds(t, s, d, q) {
      if Feeds(t, s, d, q) {
        FedUnderChild(t, s, d, q);
      }
    }
  }

  lemma WriteKeepsShape(u: Tree, p: Path, e: Entry)
    requires WellFormed(u) && p != [] && IsDir(u, Parent(p)) && (p in u ==> e.Dir? || u[p].File?)
    ensures WellFormed(u[p := e])
  {
    forall q | q in u[p := e] && q != [] ensures IsDir(u[p := e], Parent(q)) {
      if q != p && Parent(q) == p {
        assert IsDir(u, p);
      }
    }
  }

  // ----- the file system -----

  ghost function Below(t: Tree, s: Path): set<Path> {
    set p | p in t && s <= p
  }

  lemma BelowShrinks(t: Tree, u: Tree, s: Path, name: string)
    requires s in t && forall p :: s <= p ==> Get(u, p) == Get(t, p)
    ensures |Below(u, s + [name])| < |Below(t, s)|
  {
    forall p | p in Below(u, s + [name]) ensures p in Below(t, s) - {s} {
      assert s <= p;
      assert Get(u, p) == Get(t, p);
    }
    Subset(Below(u, s + [name]), Below(t, s) - {s});
  }

  lemma {:induction false} Subset<T>(a: set<T>, b: set<T>)
    requires a <= b
    ensures |a| <= |b|
  {
    if a != {} {
      var x :| x in a;
      Subset(a - {x}, b - {x});
    }
  }

  class Disk {
    var tree: Tree

    /** Paths on which an operation of this run fails. */
    const broken: set<Path>

    /** Every state the tree has been in since some moment, one per write.  A
        crash leaves one of them. */
    ghost var trace: seq<Tree>

    constructor (initial: Tree, failing: set<Path>)
      ensures tree == initial && broken == failing && trace == []
    {
      tree, broken, trace := initial, failing, [];
    }

    function Names(s: Path): (names: set<string>)
      reads this
      ensures forall n :: n in names <==> s + [n] in tree
    {
      var names := set p | p in tree && |p| == |s| + 1 && s <= p :: p[|s|];
      assert forall p :: p in tree && |p| == |s| + 1 && s <= p ==> p == s + [p[|s|]];
      assert forall n :: s + [n] in tree ==> n in names by {
        forall n | s + [n] in tree ensures n in names {
          assert (s + [n])[|s|] == n;
        }
      }
      names
    }

    /** One atomic write. */
    method Put(p: Path, e: Entry) returns (ok: bool)
      modifies this
      ensures ok <==> p !in broken
      ensures ok ==> tree == old(tree)[p := e] && trace == old(trace) + [tree]
      ensures !ok ==> tree == old(tree) && trace == old(trace)
    {
      ok := p !in broken;
      if ok {
        tree := tree[p := e];
        trace := trace + [tree];
      }
    }

    /** `remove_dir_all`, taken as one step; it fails on a file. */
    method RemoveAll(p: Path) returns (ok: bool)
      requires WellFormed(tree) && p != []
      modifies this
      ensures WellFormed(tree)
      ensures ok <==> p !in broken && IsDir(old(tree), p)
      ensures ok ==> forall q :: Get(tree, q) == if p <= q then None else Get(old(tree), q)
      ensures ok ==> trace == old(trace) + [tree]
      ensures !ok ==> tree == old(tree) && trace == old(trace)
    {
      ok := p !in broken && IsDir(tree, p);
      if ok {
        ghost var before := tree;
        tree := map q | q in tree && !(p <= q) :: tree[q];
        trace := trace + [tree];
        forall q | q in tree && q != [] ensures IsDir(tree, Parent(q)) {
          PrefixTransitive(p, Parent(q), q);
          assert IsDir(before, Parent(q));
        }
      }
    }

    /** `fs::copy` of a file onto a path whose parent exists. */
    method CopyFile(from: Path, to: Path) returns (ok: bool)
      requires IsFile(tree, from)
      modifies this
      ensures ok <==> from !in broken && to !in broken && !IsDir(old(tree), to)
      ensures ok ==> tree == old(tree)[to := old(tree)[from]] && trace == old(trace) + [tree]
      ensures !ok ==> tree == old(tree) && trace == old(trace)
    {
      if from in broken || IsDir(tree, to) {
        return false;
      }
      ok := Put(to, tree[from]);
    }

    /** One file of the walk: `merge_dir_recursive` skips an existing target
        unless it is an empty placeholder; `copy_dir_recursive` always copies. */
    method CopyOneFile(mode: Mode, from: Path, to: Path) returns (ok: bool)
      requires WellFormed(tree) && IsFile(tree, from) && to != [] && IsDir(tree, Parent(to)) && from != to
      modifies this
      ensures WellFormed(tree)
      ensures ok ==> Copied(old(tree), tree, mode, from, to)
      ensures !ok ==> tree == old(tree) && trace == old(trace)
      ensures trace == old(trace) || trace == old(trace) + [tree]
      ensures ok ==> !ClashAt(old(tree), mode, from, to, to)
      ensures broken == {} && !ok ==> ClashAt(old(tree), mode, from, to, to)
    {
      ghost var u := tree;
      forall q ensures Feeds(u, from, to, q) <==> q == to {
        FileIsSubtree(u, mode, from, to, q);
      }
      assert Origin(from, to, to) == from;
      if mode.Merge? && to in tree {
        var placeholder := tree[to] == File("");
        var sourceEmpty := tree[from].body == "";
        if !(placeholder && !sourceEmpty) {
          return true;
        }
      }
      ok := CopyFile(from, to);
      if ok {
        WriteKeepsShape(u, to, u[from]);
      }
    }

    /** `merge_dir_recursive` and `copy_dir_recursive`.  The order in which
        `read_dir` lists a directory is arbitrary. */
    method CopyTree(mode: Mode, s: Path, d: Path) returns (ok: bool)
      requires WellFormed(tree) && IsDir(tree, s) && Apart(s, d) && d != [] && IsDir(tree, Parent(d))
      modifies this
      ensures WellFormed(tree)
      ensures ok ==> Copied(old(tree), tree, mode, s, d)
      ensures PartlyCopied(old(tree), tree, mode, s, d)
      ensures old(trace) <= trace
      ensures AllPartly(old(tree), trace, |old(trace)|, mode, s, d)
      ensures ok ==> !ClashSomewhere(old(tree), mode, s, d)
      ensures broken == {} && !ok ==> ClashSomewhere(old(tree), mode, s, d)
      decreases |Below(tree, s)|, 2
    {
      ghost var t := tree;
      ok := MakeTarget(mode, s, d);
      if !ok || s in broken {
        return false;
      }
      var todo := Names(s);
      Started(t, tree, mode, s, d, todo);
      ok := CopyChildren(mode, s, d, todo, t);
    }

    /** `create_dir_all` on a path whose parent exists. */
    method MakeTarget(ghost mode: Mode, ghost s: Path, d: Path) returns (ok: bool)
      requires WellFormed(tree) && IsDir(tree, s) && Apart(s, d) && d != [] && IsDir(tree, Parent(d))
      modifies this
      ensures WellFormed(tree)
      ensures ok ==> (d in old(tree) ==> old(tree)[d].Dir?)
      ensures ok ==> tree == (if d in old(tree) then old(tree) else old(tree)[d := Dir])
      ensures !ok ==> tree == old(tree)
      ensures PartlyCopied(old(tree), tree, mode, s, d)
      ensures old(trace) <= trace && AllPartly(old(tree), trace, |old(trace)|, mode, s, d)
      ensures broken == {} && !ok ==> ClashSomewhere(old(tree), mode, s, d)
    {
      assert Origin(s, d, d) == s;
      if d in tree {
        assert tree[d].File? ==> ClashAt(tree, mode, s, d, d);
        return tree[d].Dir?;
      }
      WriteKeepsShape(tree, d, Dir);
      ok := Put(d, Dir);
    }

    method CopyChildren(mode: Mode, s: Path, d: Path, names: set<string>, ghost t: Tree) returns (ok: bool)
      requires WellFormed(tree) && IsDir(tree, d) && IsDir(t, s) && Apart(s, d)
      requires InProgress(t, tree, mode, s, d, names) && PartlyCopied(t, tree, mode, s, d)
      requires forall n :: n in names ==> s + [n] in t
      requires NoClashYet(t, mode, s, d, names)
      modifies this
      ensures WellFormed(tree)
      ensures ok ==> Copied(t, tree, mode, s, d)
      ensures PartlyCopied(t, tree, mode, s, d)
      ensures old(trace) <= trace && AllPartly(t, trace, |old(trace)|, mode, s, d)
      ensures ok ==> !ClashSomewhere(t, mode, s, d)
      ensures broken == {} && !ok ==> ClashSomewhere(t, mode, s, d)
      decreases |Below(t, s)|, 1
    {
      var todo := names;
      while todo != {}
        invariant todo <= names
        invariant WellFormed(tree) && IsDir(tree, d)
        invariant InProgress(t, tree, mode, s, d, todo) && PartlyCopied(t, tree, mode, s, d)
        invariant old(trace) <= trace && AllPartly(t, trace, |old(trace)|, mode, s, d)
        invariant NoClashYet(t, mode, s, d, todo)
        decreases |todo|
      {
        var n :| n in todo;
        ok := CopyChild(mode, s, d, n, todo, t);
        if !ok {
          return;
        }
        todo := todo - {n};
      }
      ok := true;
    }

    /** One round of the loop over the entries of `s`. */
    method CopyChild(mode: Mode, s: Path, d: Path, n: string, ghost todo: set<string>, ghost t: Tree) returns (ok: bool)
      requires WellFormed(tree) && IsDir(tree, d) && IsDir(t, s) && Apart(s, d) && n in todo && s + [n] in t
      requires InProgress(t, tree, mode, s, d, todo)
      modifies this
      ensures WellFormed(tree) && IsDir(tree, d)
      ensures ok ==> InProgress(t, tree, mode, s, d, todo - {n})
      ensures PartlyCopied(t, tree, mode, s, d)
      ensures old(trace) <= trace
      ensures AllPartly(t, trace, |old(trace)|, mode, s, d)
      ensures broken == {} && !ok ==> ClashSomewhere(t, mode, s, d)
      ensures ok && NoClashYet(t, mode, s, d, todo) ==> NoClashYet(t, mode, s, d, todo - {n})
      decreases |Below(t, s)|, 0
    {
      var from, to := s + [n], d + [n];
      ghost var u := tree;
      ChildIsApart(s, d, n);
      SourceKept(t, u, mode, s, d, todo, from);
      if tree[from].Dir? {
        BelowShrinks(t, u, s, n);
        ok := CopyTree(mode, from, to);
      } else {
        ok := CopyOneFile(mode, from, to);
        OnlyClashOfFile(u, mode, from, to);
      }
      ChildDone(t, u, tree, mode, s, d, todo, n, ok);
      forall i | |old(trace)| <= i < |trace| ensures PartlyCopied(t, trace[i], mode, s, d) {
        ChildPartly(t, u, trace[i], mode, s, d, todo, n);
      }
      ClashSeen(t, u, mode, s, d, todo, n);
    }
  }
}
