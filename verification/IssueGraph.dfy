/** The graph walks of scripts/render-issue-progress.py: the breadth-first
    collection of a sub-issue hierarchy, the pass over dependencies, and the
    depth-first count.  The hierarchy may have cycles and shared children. */
module IssueGraph {
  import opened Wrappers

  // ----- the remote side, as a function of the issue number -----

  datatype Fetched = Fetched(title: string, state: string, children: seq<int>)

  datatype Dependency = Dependency(number: int, title: string, state: string)

  /** A number that is missing is one for which the API call fails. */
  datatype Remote = Remote(issues: map<int, Fetched>, blockedBy: map<int, seq<Dependency>>)

  datatype Issue = Issue(number: int, title: string, state: string, parent: Option<int>,
                         children: seq<int>, blockedBy: seq<int>)

  // ----- reachability -----

  type Graph = map<int, seq<int>>

  function RemoteGraph(r: Remote): Graph { map n | n in r.issues :: r.issues[n].children }

  function IssuesGraph(issues: map<int, Issue>): Graph { map n | n in issues :: issues[n].children }

  ghost function Successors(g: Graph, from: set<int>): set<int> {
    set a, c | a in from && a in g && c in g[a] :: c
  }

  /** The nodes at most `k` edges from the root. */
  ghost function Within(g: Graph, root: int, k: nat): set<int> {
    if k == 0 then {root} else Within(g, root, k - 1) + Successors(g, Within(g, root, k - 1))
  }

  ghost predicate Reachable(g: Graph, root: int, n: int) {
    exists k: nat :: n in Within(g, root, k)
  }

  lemma {:induction false} WithinGrows(g: Graph, root: int, j: nat, k: nat)
    requires j <= k
    ensures Within(g, root, j) <= Within(g, root, k)
    decreases k
  {
    if j < k {
      WithinGrows(g, root, j, k - 1);
    }
  }

  /** A set that holds the root and is closed under edges holds every reachable node. */
  lemma {:induction false} ClosedHoldsWithin(g: Graph, root: int, closed: set<int>, k: nat)
    requires root in closed && Successors(g, closed) <= closed
    ensures Within(g, root, k) <= closed
  {
    if k > 0 {
      ClosedHoldsWithin(g, root, closed, k - 1);
      forall c | c in Successors(g, Within(g, root, k - 1)) ensures c in closed {
        assert c in Successors(g, closed);
      }
    }
  }

  lemma EdgeReaches(g: Graph, root: int, a: int, c: int)
    requires Reachable(g, root, a) && a in g && c in g[a]
    ensures Reachable(g, root, c)
  {
    var k: nat :| a in Within(g, root, k);
    assert c in Successors(g, Within(g, root, k));
    assert c in Within(g, root, k + 1);
  }

  /** Two graphs with the same children at every reachable node reach the same nodes. */
  lemma {:induction false} SameWithin(g: Graph, h: Graph, root: int, k: nat)
    requires forall n :: Reachable(g, root, n) ==> n in g && n in h && g[n] == h[n]
    ensures Within(g, root, k) == Within(h, root, k)
  {
    if k > 0 {
      SameWithin(g, h, root, k - 1);
      var w := Within(g, root, k - 1);
      forall n | n in w ensures n in g && n in h && g[n] == h[n] {
        assert Reachable(g, root, n);
      }
      assert Successors(g, w) == Successors(h, w);
    }
  }

  // ----- the spanning tree -----

  /** `n` is exactly `k` edges from the root. */
  ghost predicate AtDistance(g: Graph, root: int, n: int, k: nat) {
    n in Within(g, root, k) && (k > 0 ==> n !in Within(g, root, k - 1))
  }

  /** The parent of every node but the root lists it as a child and is one edge
      nearer the root; the root has none.  So parent links lead back to the root
      along shortest paths. */
  ghost predicate SpanningTree(g: Graph, root: int, parents: map<int, Option<int>>) {
    && root in parents && parents[root] == None
    && forall n :: n in parents && n != root ==> HangsRight(g, root, parents, n)
  }

  ghost predicate HangsRight(g: Graph, root: int, parents: map<int, Option<int>>, n: int)
    requires n in parents
  {
    && parents[n].Some?
    && parents[n].value in g && n in g[parents[n].value]
    && exists k: nat :: AtDistance(g, root, parents[n].value, k) && AtDistance(g, root, n, k + 1)
  }

  /** The parent of a node `k` edges away is `k - 1` edges away. */
  lemma ParentIsNearer(g: Graph, root: int, parents: map<int, Option<int>>, n: int, k: nat)
    requires SpanningTree(g, root, parents) && n in parents && n != root && AtDistance(g, root, n, k)
    ensures k > 0 && parents[n].Some? && AtDistance(g, root, parents[n].value, k - 1)
    ensures Reachable(g, root, parents[n].value)
  {
    var j := HangsFrom(g, root, parents, n);
    OneDistance(g, root, n, k, j + 1);
  }

  lemma HangsFrom(g: Graph, root: int, parents: map<int, Option<int>>, n: int) returns (j: nat)
    requires n in parents && HangsRight(g, root, parents, n)
    ensures AtDistance(g, root, parents[n].value, j) && AtDistance(g, root, n, j + 1)
  {
    j :| AtDistance(g, root, parents[n].value, j) && AtDistance(g, root, n, j + 1);
  }

  /** Following parent links from any node of the tree arrives at the root. */
  lemma {:induction false} ParentsLeadToRoot(g: Graph, root: int, parents: map<int, Option<int>>, n: int, k: nat)
    returns (path: seq<int>)
    requires SpanningTree(g, root, parents) && n in parents && AtDistance(g, root, n, k)
    requires forall m :: Reachable(g, root, m) ==> m in parents
    ensures |path| == k + 1 && path[0] == n && path[k] == root
    ensures forall i :: 0 <= i < k ==> path[i] in parents && parents[path[i]] == Some(path[i + 1])
    decreases k
  {
    if n == root {
      RootAtZero(g, root, k);
      path := [root];
    } else {
      ParentIsNearer(g, root, parents, n, k);
      var rest := ParentsLeadToRoot(g, root, parents, parents[n].value, k - 1);
      path := [n] + rest;
    }
  }

  lemma RootAtZero(g: Graph, root: int, k: nat)
    requires AtDistance(g, root, root, k)
    ensures k == 0
  {
    if k > 0 {
      WithinGrows(g, root, 0, k - 1);
    }
  }

  lemma OneDistance(g: Graph, root: int, n: int, j: nat, k: nat)
    requires AtDistance(g, root, n, j) && AtDistance(g, root, n, k)
    ensures j == k
  {
    if j < k {
      WithinGrows(g, root, j, k - 1);
    } else if k < j {
      WithinGrows(g, root, k, j - 1);
    }
  }

  // ----- breadth-first collection -----

  ghost predicate NoRepeats(s: seq<int>) {
    forall i, j :: 0 <= i < j < |s| ==> s[i] != s[j]
  }

  ghost function Elements(s: seq<int>): set<int> { set x | x in s }

  /** The nodes nearer than `d`. */
  ghost function Nearer(g: Graph, root: int, d: nat): set<int> {
    if d == 0 then {} else Within(g, root, d - 1)
  }

  /** Each collected issue is what was fetched, with its parent. */
  ghost predicate Copies(r: Remote, issues: map<int, Issue>, parents: map<int, Option<int>>) {
    forall n :: n in issues ==> n in r.issues && n in parents && issues[n] == Copy(r, n, parents[n])
  }

  function Copy(r: Remote, n: int, parent: Option<int>): Issue
    requires n in r.issues
  {
    Issue(n, r.issues[n].title, r.issues[n].state, parent, r.issues[n].children, [])
  }

  /** Beyond the nodes at distance at most `d`, exactly `found` has been met. */
  ghost predicate Front(g: Graph, root: int, d: nat, found: set<int>, parents: map<int, Option<int>>, pending: seq<int>) {
    && parents.Keys == Within(g, root, d) + found
    && Elements(pending) == parents.Keys - Within(g, root, d)
    && NoRepeats(pending)
    && SpanningTree(g, root, parents)
  }

  /** The dictionary, and the order in which its entries were put in. */
  ghost predicate Books(r: Remote, issues: map<int, Issue>, order: seq<int>, parents: map<int, Option<int>>) {
    Elements(order) == issues.Keys && NoRepeats(order) && Copies(r, issues, parents)
  }

  /** The batch of round `d` is what lies at distance exactly `d`. */
  ghost predicate Level(g: Graph, root: int, d: nat, batch: seq<int>) {
    Elements(batch) == Within(g, root, d) - Nearer(g, root, d) && NoRepeats(batch)
  }

  /** Round `d` after `i` elements of its batch. */
  ghost predicate InRound(r: Remote, root: int, d: nat, batch: seq<int>, i: nat, issues: map<int, Issue>,
                          order: seq<int>, parents: map<int, Option<int>>, pending: seq<int>)
    requires i <= |batch|
  {
    var g := RemoteGraph(r);
    && Level(g, root, d, batch)
    && issues.Keys == Nearer(g, root, d) + Elements(batch[..i])
    && Books(r, issues, order, parents)
    && Front(g, root, d, Successors(g, Elements(batch[..i])), parents, pending)
  }

  lemma ElementsSnoc(s: seq<int>, x: int)
    ensures Elements(s + [x]) == Elements(s) + {x}
    ensures NoRepeats(s) && x !in Elements(s) ==> NoRepeats(s + [x])
  {
    assert forall y :: y in s + [x] <==> y in s || y == x;
  }

  lemma MeetChild(g: Graph, root: int, d: nat, found: set<int>, parents: map<int, Option<int>>, pending: seq<int>,
                  a: int, c: int)
    requires Front(g, root, d, found, parents, pending)
    requires AtDistance(g, root, a, d) && a in g && c in g[a]
    ensures c in parents ==> Front(g, root, d, found + {c}, parents, pending)
    ensures c !in parents ==> Front(g, root, d, found + {c}, parents[c := Some(a)], pending + [c])
  {
    if c !in parents {
      NewChild(g, root, d, found, parents, pending, a, c);
    } else {
      assert parents.Keys == Within(g, root, d) + (found + {c});
    }
  }

  lemma ChildDistance(g: Graph, root: int, d: nat, a: int, c: int)
    requires AtDistance(g, root, a, d) && a in g && c in g[a] && c !in Within(g, root, d)
    ensures AtDistance(g, root, c, d + 1)
  {
    assert c in Successors(g, Within(g, root, d));
  }

  lemma QueueGrows(near: set<int>, found: set<int>, met: set<int>, pending: seq<int>, c: int)
    requires met == near + found && Elements(pending) == met - near && NoRepeats(pending) && c !in met
    ensures met + {c} == near + (found + {c})
    ensures Elements(pending + [c]) == met + {c} - near && NoRepeats(pending + [c])
  {
    ElementsSnoc(pending, c);
  }

  lemma NewChild(g: Graph, root: int, d: nat, found: set<int>, parents: map<int, Option<int>>, pending: seq<int>,
                 a: int, c: int)
    requires Front(g, root, d, found, parents, pending) && c !in parents
    requires AtDistance(g, root, a, d) && a in g && c in g[a]
    ensures Front(g, root, d, found + {c}, parents[c := Some(a)], pending + [c])
  {
    ChildDistance(g, root, d, a, c);
    QueueGrows(Within(g, root, d), found, parents.Keys, pending, c);
    RootMet(g, root, d);
    TreeGrows(g, root, d, parents, a, c);
  }

  lemma RootMet(g: Graph, root: int, d: nat)
    ensures root in Within(g, root, d)
  {
    WithinGrows(g, root, 0, d);
  }

  lemma TreeGrows(g: Graph, root: int, d: nat, parents: map<int, Option<int>>, a: int, c: int)
    requires SpanningTree(g, root, parents) && c !in parents
    requires AtDistance(g, root, a, d) && AtDistance(g, root, c, d + 1) && a in g && c in g[a]
    ensures SpanningTree(g, root, parents[c := Some(a)])
  {
    var grown := parents[c := Some(a)];
    forall n | n in grown && n != root ensures HangsRight(g, root, grown, n) {
      if n != c {
        assert HangsRight(g, root, parents, n);
      }
    }
  }

  method ScanChildren(ghost g: Graph, ghost root: int, ghost d: nat, ghost found: set<int>, a: int, children: seq<int>,
                      parents0: map<int, Option<int>>, pending0: seq<int>)
    returns (parents: map<int, Option<int>>, pending: seq<int>)
    requires Front(g, root, d, found, parents0, pending0)
    requires AtDistance(g, root, a, d) && a in g && g[a] == children
    ensures Front(g, root, d, found + Elements(children), parents, pending)
    ensures forall n :: n in parents0 ==> n in parents && parents[n] == parents0[n]
  {
    parents, pending := parents0, pending0;
    var j := 0;
    assert found + Elements(children[..0]) == found;
    while j < |children|
      invariant 0 <= j <= |children|
      invariant Front(g, root, d, found + Elements(children[..j]), parents, pending)
      invariant forall n :: n in parents0 ==> n in parents && parents[n] == parents0[n]
    {
      var child := children[j];
      MeetNext(g, root, d, found, parents, pending, a, j);
      if child !in parents {
        parents, pending := parents[child := Some(a)], pending + [child];
      }
      j := j + 1;
    }
    assert children[..j] == children;
  }

  lemma MeetNext(g: Graph, root: int, d: nat, found: set<int>, parents: map<int, Option<int>>, pending: seq<int>,
                 a: int, j: nat)
    requires AtDistance(g, root, a, d) && a in g && j < |g[a]|
    requires Front(g, root, d, found + Elements(g[a][..j]), parents, pending)
    ensures var child, more := g[a][j], found + Elements(g[a][..j + 1]);
            Front(g, root, d, more, if child in parents then parents else parents[child := Some(a)],
                  if child in parents then pending else pending + [child])
  {
    var child := g[a][j];
    MeetChild(g, root, d, found + Elements(g[a][..j]), parents, pending, a, child);
    assert g[a][..j + 1] == g[a][..j] + [child];
    ElementsSnoc(g[a][..j], child);
    assert found + Elements(g[a][..j]) + {child} == found + Elements(g[a][..j + 1]);
  }

  lemma SuccessorsSnoc(g: Graph, s: set<int>, a: int)
    requires a in g
    ensures Successors(g, s + {a}) == Successors(g, s) + Elements(g[a])
  {
    forall c | c in g[a] ensures c in Successors(g, s + {a}) {
      assert a in s + {a};
    }
  }

  lemma BooksGrow(r: Remote, issues: map<int, Issue>, order: seq<int>, parents: map<int, Option<int>>,
                  later: map<int, Option<int>>, n: int)
    requires Books(r, issues, order, parents)
    requires n in r.issues && n in parents && n !in issues
    requires forall m :: m in parents ==> m in later && later[m] == parents[m]
    ensures Books(r, issues[n := Copy(r, n, parents[n])], order + [n], later)
  {
    ElementsSnoc(order, n);
  }

  lemma InBatch(g: Graph, root: int, d: nat, batch: seq<int>, i: nat)
    requires i < |batch| && Level(g, root, d, batch)
    ensures AtDistance(g, root, batch[i], d)
    ensures batch[i] !in Nearer(g, root, d) + Elements(batch[..i])
    ensures Elements(batch[..i + 1]) == Elements(batch[..i]) + {batch[i]}
  {
    assert batch[i] in Elements(batch);
    assert batch[..i + 1] == batch[..i] + [batch[i]];
    ElementsSnoc(batch[..i], batch[i]);
  }

  lemma RoundAdvances(r: Remote, root: int, d: nat, batch: seq<int>, i: nat, issues: map<int, Issue>, order: seq<int>,
                      parents: map<int, Option<int>>, later: map<int, Option<int>>, pending: seq<int>)
    requires i < |batch| && Level(RemoteGraph(r), root, d, batch) && batch[i] in r.issues
    requires issues.Keys == Nearer(RemoteGraph(r), root, d) + Elements(batch[..i])
    requires Books(r, issues, order, parents) && batch[i] in parents
    requires forall m :: m in parents ==> m in later && later[m] == parents[m]
    requires Front(RemoteGraph(r), root, d,
                   Successors(RemoteGraph(r), Elements(batch[..i])) + Elements(r.issues[batch[i]].children), later, pending)
    ensures InRound(r, root, d, batch, i + 1, issues[batch[i] := Copy(r, batch[i], parents[batch[i]])], order + [batch[i]],
                    later, pending)
  {
    InBatch(RemoteGraph(r), root, d, batch, i);
    BooksGrow(r, issues, order, parents, later, batch[i]);
    SuccessorsSnoc(RemoteGraph(r), Elements(batch[..i]), batch[i]);
  }

  method FetchOne(r: Remote, ghost root: int, ghost d: nat, ghost batch: seq<int>, ghost i: nat, number: int,
                  issues0: map<int, Issue>, order0: seq<int>, parents0: map<int, Option<int>>, pending0: seq<int>)
    returns (issues: map<int, Issue>, order: seq<int>, parents: map<int, Option<int>>, pending: seq<int>)
    requires i < |batch| && InRound(r, root, d, batch, i, issues0, order0, parents0, pending0)
    requires number == batch[i] && number in r.issues
    ensures InRound(r, root, d, batch, i + 1, issues, order, parents, pending)
    ensures issues.Keys == issues0.Keys + {number} && number !in issues0
  {
    InBatch(RemoteGraph(r), root, d, batch, i);
    assert number in parents0;
    ghost var found := Successors(RemoteGraph(r), Elements(batch[..i]));
    parents, pending := ScanChildren(RemoteGraph(r), root, d, found, number, r.issues[number].children, parents0, pending0);
    issues := issues0[number := Copy(r, number, parents0[number])];
    order := order0 + [number];
    RoundAdvances(r, root, d, batch, i, issues0, order0, parents0, parents, pending);
  }

  /** The graph within which everything reachable lies, once a level is empty. */
  lemma LastLevel(g: Graph, root: int, d: nat)
    requires Within(g, root, d) == Nearer(g, root, d)
    ensures forall n :: n in Within(g, root, d) <==> Reachable(g, root, n)
  {
    WithinGrows(g, root, 0, d);
    forall n | Reachable(g, root, n) ensures n in Within(g, root, d) {
      var k: nat :| n in Within(g, root, k);
      ClosedHoldsWithin(g, root, Within(g, root, d - 1), k);
    }
  }

  /** The collected hierarchy: exactly what is reachable, each fetched once, under
      parent links that form a spanning tree. */
  ghost predicate Collected(r: Remote, root: int, issues: map<int, Issue>, order: seq<int>, parents: map<int, Option<int>>) {
    && (forall n :: n in issues <==> Reachable(RemoteGraph(r), root, n))
    && Books(r, issues, order, parents)
    && parents.Keys == issues.Keys
    && SpanningTree(RemoteGraph(r), root, parents)
  }

  /** Only the newest level leads anywhere new. */
  lemma NewSuccessors(g: Graph, inner: set<int>, whole: set<int>, level: set<int>)
    requires whole == inner + level && Successors(g, inner) <= whole
    ensures whole + Successors(g, whole) == whole + Successors(g, level)
  {
    assert Successors(g, whole) == Successors(g, inner) + Successors(g, level);
  }

  lemma NextRound(r: Remote, root: int, d: nat, batch: seq<int>, issues: map<int, Issue>, order: seq<int>,
                  parents: map<int, Option<int>>, pending: seq<int>)
    requires InRound(r, root, d, batch, |batch|, issues, order, parents, pending)
    ensures InRound(r, root, d + 1, pending, 0, issues, order, parents, [])
  {
    var g := RemoteGraph(r);
    assert batch[..|batch|] == batch;
    assert pending[..0] == [];
    LevelWhole(g, root, d, batch);
    NextLevel(g, root, d, batch, parents, pending);
    assert issues.Keys == Within(g, root, d);
    assert Successors(g, Elements(pending[..0])) == {};
  }

  lemma LevelWhole(g: Graph, root: int, d: nat, batch: seq<int>)
    requires Level(g, root, d, batch)
    ensures Within(g, root, d) == Nearer(g, root, d) + Elements(batch)
    ensures Successors(g, Nearer(g, root, d)) <= Within(g, root, d)
  {
    if d > 0 {
      WithinGrows(g, root, d - 1, d);
    }
  }

  lemma NextLevel(g: Graph, root: int, d: nat, batch: seq<int>, parents: map<int, Option<int>>, pending: seq<int>)
    requires Level(g, root, d, batch) && Front(g, root, d, Successors(g, Elements(batch)), parents, pending)
    ensures Level(g, root, d + 1, pending) && Front(g, root, d + 1, {}, parents, [])
  {
    LevelWhole(g, root, d, batch);
    NewSuccessors(g, Nearer(g, root, d), Within(g, root, d), Elements(batch));
    assert parents.Keys == Within(g, root, d + 1);
  }

  lemma FirstRound(r: Remote, root: int)
    ensures InRound(r, root, 0, [root], 0, map[], [], map[root := None], [])
  {
    var g := RemoteGraph(r);
    assert Elements([root]) == {root};
    assert [root][..0] == [];
    assert Successors(g, Elements([])) == {};
  }

  lemma FetchedAreThere(r: Remote, issues: map<int, Issue>, order: seq<int>, parents: map<int, Option<int>>)
    requires Books(r, issues, order, parents)
    ensures issues.Keys <= r.issues.Keys
  {}

  lemma LastRound(r: Remote, root: int, d: nat, pending: seq<int>, issues: map<int, Issue>, order: seq<int>,
                  parents: map<int, Option<int>>)
    requires |pending| == 0 && InRound(r, root, d, pending, 0, issues, order, parents, [])
    ensures Collected(r, root, issues, order, parents)
    ensures forall n :: Reachable(RemoteGraph(r), root, n) ==> n in r.issues
  {
    var g := RemoteGraph(r);
    assert Elements(pending) == {} && pending[..0] == [];
    assert Successors(g, {}) == {};
    if d > 0 {
      WithinGrows(g, root, d - 1, d);
    }
    LastLevel(g, root, d);
  }

  /** The loop over one batch. */
  method FetchBatch(r: Remote, ghost root: int, ghost d: nat, batch: seq<int>, issues0: map<int, Issue>,
                    order0: seq<int>, parents0: map<int, Option<int>>)
    returns (missing: Option<int>, issues: map<int, Issue>, order: seq<int>, parents: map<int, Option<int>>, pending: seq<int>)
    requires InRound(r, root, d, batch, 0, issues0, order0, parents0, [])
    ensures missing.None? ==> InRound(r, root, d, batch, |batch|, issues, order, parents, pending)
    ensures missing.None? && |batch| > 0 ==> issues0.Keys < issues.Keys
    ensures missing.Some? ==> Reachable(RemoteGraph(r), root, missing.value) && missing.value !in r.issues
  {
    missing, issues, order, parents, pending := None, issues0, order0, parents0, [];
    var i := 0;
    while i < |batch|
      invariant 0 <= i <= |batch|
      invariant InRound(r, root, d, batch, i, issues, order, parents, pending)
      invariant issues0.Keys <= issues.Keys && (i > 0 ==> issues0.Keys < issues.Keys)
    {
      var number := batch[i];
      if number !in r.issues {
        InBatch(RemoteGraph(r), root, d, batch, i);
        return Some(number), issues, order, parents, pending;
      }
      issues, order, parents, pending := FetchOne(r, root, d, batch, i, number, issues, order, parents, pending);
      i := i + 1;
    }
  }

  method CollectHierarchy(r: Remote, root: int)
    returns (result: Result<map<int, Issue>, int>, order: seq<int>, parents: map<int, Option<int>>)
    ensures result.Ok? <==> forall n :: Reachable(RemoteGraph(r), root, n) ==> n in r.issues
    ensures result.Ok? ==> Collected(r, root, result.value, order, parents)
    ensures result.Err? ==> Reachable(RemoteGraph(r), root, result.error) && result.error !in r.issues
  {
    var issues: map<int, Issue> := map[];
    order := [];
    parents := map[root := None];
    var pending := [root];
    ghost var d := 0;
    FirstRound(r, root);
    while |pending| > 0
      invariant InRound(r, root, d, pending, 0, issues, order, parents, [])
      decreases r.issues.Keys - issues.Keys
    {
      var batch := pending;
      var missing;
      missing, issues, order, parents, pending := FetchBatch(r, root, d, batch, issues, order, parents);
      if missing.Some? {
        return Err(missing.value), order, parents;
      }
      NextRound(r, root, d, batch, issues, order, parents, pending);
      FetchedAreThere(r, issues, order, parents);
      d := d + 1;
    }
    LastRound(r, root, d, pending, issues, order, parents);
    result := Ok(issues);
  }

  // ----- the dependency pass -----

  function Numbers(dependencies: seq<Dependency>): (numbers: seq<int>)
    ensures |numbers| == |dependencies|
    ensures forall i :: 0 <= i < |numbers| ==> numbers[i] == dependencies[i].number
  {
    seq(|dependencies|, i requires 0 <= i < |dependencies| => dependencies[i].number)
  }

  /** All dependencies listed by the issues of `order`, in order. */
  ghost function Listed(r: Remote, order: seq<int>): seq<Dependency> {
    if order == [] then []
    else
      var last := order[|order| - 1];
      Listed(r, order[..|order| - 1]) + (if last in r.blockedBy then r.blockedBy[last] else [])
  }

  ghost predicate Mentions(listed: seq<Dependency>, m: int) {
    exists k :: 0 <= k < |listed| && listed[k].number == m
  }

  function Outside(d: Dependency): Issue { Issue(d.number, d.title, d.state, None, [], []) }

  /** `issue` is built from the first entry of `listed` that carries its number. */
  ghost predicate FromFirst(listed: seq<Dependency>, m: int, issue: Issue) {
    exists k :: 0 <= k < |listed| && listed[k].number == m && issue == Outside(listed[k])
             && forall j :: 0 <= j < k ==> listed[j].number != m
  }

  lemma FirstStays(listed: seq<Dependency>, more: seq<Dependency>, m: int, issue: Issue)
    requires FromFirst(listed, m, issue)
    ensures FromFirst(listed + more, m, issue)
  {
    var k :| 0 <= k < |listed| && listed[k].number == m && issue == Outside(listed[k])
             && forall j :: 0 <= j < k ==> listed[j].number != m;
    assert (listed + more)[k] == listed[k];
    assert forall j :: 0 <= j < k ==> (listed + more)[j] == listed[j];
  }

  /** The issues outside the hierarchy are those mentioned, as first mentioned. */
  ghost predicate OutsideIs(hierarchy: map<int, Issue>, listed: seq<Dependency>, all: map<int, Issue>) {
    && (forall n :: n in hierarchy ==> n in all)
    && (forall m :: m !in hierarchy ==> (m in all <==> Mentions(listed, m)))
    && (forall m :: m in all && m !in hierarchy ==> FromFirst(listed, m, all[m]))
  }

  /** The issues of `done` carry their blockers; the rest of the hierarchy is as before. */
  ghost predicate InsideIs(r: Remote, hierarchy: map<int, Issue>, done: seq<int>, all: map<int, Issue>) {
    && (forall n :: n in done ==>
          n in hierarchy && n in r.blockedBy && n in all
          && all[n] == hierarchy[n].(blockedBy := Numbers(r.blockedBy[n])))
    && (forall n :: n in hierarchy && n !in done ==> n in all && all[n] == hierarchy[n])
  }

  lemma MeetDependency(hierarchy: map<int, Issue>, listed: seq<Dependency>, all: map<int, Issue>, d: Dependency)
    requires OutsideIs(hierarchy, listed, all)
    ensures d.number in all ==> OutsideIs(hierarchy, listed + [d], all)
    ensures d.number !in all ==> OutsideIs(hierarchy, listed + [d], all[d.number := Outside(d)])
  {
    var longer := listed + [d];
    var grown := if d.number in all then all else all[d.number := Outside(d)];
    assert longer[|listed|] == d;
    forall m ensures Mentions(longer, m) <==> Mentions(listed, m) || m == d.number {
      if Mentions(listed, m) {
        var k :| 0 <= k < |listed| && listed[k].number == m;
        assert longer[k].number == m;
      }
    }
    forall m | m in grown && m !in hierarchy ensures FromFirst(longer, m, grown[m]) {
      if m in all {
        FirstStays(listed, [d], m, all[m]);
      } else {
        assert forall j :: 0 <= j < |listed| ==> longer[j] == listed[j];
        assert !Mentions(listed, m);
      }
    }
  }

  method MeetOne(ghost hierarchy: map<int, Issue>, ghost listed: seq<Dependency>, all0: map<int, Issue>,
                 dependency: Dependency)
    returns (all: map<int, Issue>)
    requires OutsideIs(hierarchy, listed, all0)
    ensures OutsideIs(hierarchy, listed + [dependency], all)
    ensures forall n :: n in all0 ==> n in all && all[n] == all0[n]
  {
    MeetDependency(hierarchy, listed, all0, dependency);
    all := all0;
    if dependency.number !in all {
      all := all[dependency.number := Outside(dependency)];
    }
  }

  method AddOutside(ghost hierarchy: map<int, Issue>, ghost listed: seq<Dependency>, all0: map<int, Issue>,
                    dependencies: seq<Dependency>)
    returns (all: map<int, Issue>)
    requires OutsideIs(hierarchy, listed, all0)
    ensures OutsideIs(hierarchy, listed + dependencies, all)
    ensures forall n :: n in all0 ==> n in all && all[n] == all0[n]
  {
    all := all0;
    var j := 0;
    assert listed + dependencies[..0] == listed;
    while j < |dependencies|
      invariant 0 <= j <= |dependencies|
      invariant OutsideIs(hierarchy, listed + dependencies[..j], all)
      invariant forall n :: n in all0 ==> n in all && all[n] == all0[n]
    {
      all := MeetOne(hierarchy, listed + dependencies[..j], all, dependencies[j]);
      assert listed + dependencies[..j + 1] == listed + dependencies[..j] + [dependencies[j]];
      j := j + 1;
    }
    assert dependencies[..j] == dependencies;
  }

  lemma SetBlockers(r: Remote, hierarchy: map<int, Issue>, done: seq<int>, listed: seq<Dependency>,
                    all: map<int, Issue>, n: int)
    requires OutsideIs(hierarchy, listed, all) && InsideIs(r, hierarchy, done, all)
    requires n in hierarchy && n !in done && n in r.blockedBy
    ensures all[n] == hierarchy[n]
    ensures var set1 := all[n := hierarchy[n].(blockedBy := Numbers(r.blockedBy[n]))];
            OutsideIs(hierarchy, listed, set1) && InsideIs(r, hierarchy, done + [n], set1)
  {
    var changed := all[n := hierarchy[n].(blockedBy := Numbers(r.blockedBy[n]))];
    assert forall m :: m in done + [n] <==> m in done || m == n;
  }

  lemma NothingListed(r: Remote, hierarchy: map<int, Issue>)
    ensures OutsideIs(hierarchy, Listed(r, []), hierarchy) && InsideIs(r, hierarchy, [], hierarchy)
  {}

  method AddDependencies(r: Remote, hierarchy: map<int, Issue>, order: seq<int>)
    returns (result: Result<map<int, Issue>, int>)
    requires NoRepeats(order) && Elements(order) == hierarchy.Keys
    ensures result.Ok? <==> forall n :: n in hierarchy ==> n in r.blockedBy
    ensures result.Ok? ==> OutsideIs(hierarchy, Listed(r, order), result.value)
    ensures result.Ok? ==> InsideIs(r, hierarchy, order, result.value)
    ensures result.Err? ==> result.error in hierarchy && result.error !in r.blockedBy
  {
    var issues := hierarchy;
    ghost var done: seq<int> := [];
    var i := 0;
    NothingListed(r, hierarchy);
    while i < |order|
      invariant 0 <= i <= |order| && done == order[..i]
      invariant OutsideIs(hierarchy, Listed(r, done), issues)
      invariant InsideIs(r, hierarchy, done, issues)
    {
      var number := order[i];
      assert number in Elements(order) && number !in done;
      if number !in r.blockedBy {
        return Err(number);
      }
      issues := AddBlockers(r, hierarchy, done, issues, number);
      done := done + [number];
      i := i + 1;
    }
    assert done == order;
    forall n | n in hierarchy ensures n in r.blockedBy {
      assert n in Elements(order);
    }
    result := Ok(issues);
  }

  /** One turn of the dependency loop. */
  method AddBlockers(r: Remote, ghost hierarchy: map<int, Issue>, ghost done: seq<int>, issues0: map<int, Issue>,
                     number: int)
    returns (issues: map<int, Issue>)
    requires OutsideIs(hierarchy, Listed(r, done), issues0) && InsideIs(r, hierarchy, done, issues0)
    requires number in hierarchy && number !in done && number in r.blockedBy
    ensures OutsideIs(hierarchy, Listed(r, done + [number]), issues)
    ensures InsideIs(r, hierarchy, done + [number], issues)
  {
    var issue := issues0[number];
    var dependencies := r.blockedBy[number];
    issues := AddOutside(hierarchy, Listed(r, done), issues0, dependencies);
    assert (done + [number])[..|done|] == done;
    SetBlockers(r, hierarchy, done, Listed(r, done + [number]), issues, number);
    issues := issues[number := Issue(issue.number, issue.title, issue.state, issue.parent, issue.children, Numbers(dependencies))];
  }

  /** scripts/render-issue-progress.py:56-120. */
  method CollectIssues(r: Remote, root: int)
    returns (result: Result<map<int, Issue>, int>, ghost hierarchy: map<int, Issue>, ghost order: seq<int>,
             ghost parents: map<int, Option<int>>)
    ensures result.Ok? <==> forall n :: Reachable(RemoteGraph(r), root, n) ==> n in r.issues && n in r.blockedBy
    ensures result.Ok? ==> Complete(r, root, result.value, hierarchy, order, parents)
  {
    var collected, fetched, links := CollectHierarchy(r, root);
    hierarchy, order, parents := map[], fetched, links;
    if collected.Err? {
      return Err(collected.error), hierarchy, order, parents;
    }
    hierarchy := collected.value;
    result := AddDependencies(r, collected.value, fetched);
  }

  ghost predicate Complete(r: Remote, root: int, all: map<int, Issue>, hierarchy: map<int, Issue>, order: seq<int>,
                           parents: map<int, Option<int>>) {
    && Collected(r, root, hierarchy, order, parents)
    && OutsideIs(hierarchy, Listed(r, order), all)
    && InsideIs(r, hierarchy, order, all)
  }

  // ----- the depth-first count -----

  method ReachableHierarchy(root: int, issues: map<int, Issue>) returns (result: Result<set<int>, int>)
    ensures result.Ok? <==> forall n :: Reachable(IssuesGraph(issues), root, n) ==> n in issues
    ensures result.Ok? ==> result.value <= issues.Keys
    ensures result.Ok? ==> forall n :: n in result.value <==> Reachable(IssuesGraph(issues), root, n)
    ensures result.Err? ==> Reachable(IssuesGraph(issues), root, result.error) && result.error !in issues
  {
    ghost var g := IssuesGraph(issues);
    var found: set<int> := {};
    var pending := [root];
    assert root in Within(g, root, 0);
    while |pending| > 0
      invariant found <= issues.Keys
      invariant root in found || root in pending
      invariant forall n :: n in found || n in pending ==> Reachable(g, root, n)
      invariant forall c :: c in Successors(g, found) ==> c in found || c in pending
      decreases issues.Keys - found, |pending|
    {
      var number := pending[|pending| - 1];
      ghost var was := pending;
      pending := pending[..|pending| - 1];
      assert forall n :: n in was <==> n in pending || n == number;
      if number !in found {
        if number !in issues {
          return Err(number);
        }
        forall c | c in issues[number].children ensures Reachable(g, root, c) {
          EdgeReaches(g, root, number, c);
        }
        SuccessorsSnoc(g, found, number);
        found := found + {number};
        pending := pending + issues[number].children;
      }
    }
    forall n | Reachable(g, root, n) ensures n in found {
      var k: nat :| n in Within(g, root, k);
      ClosedHoldsWithin(g, root, found, k);
    }
    result := Ok(found);
  }

  /** The graph read back from the collected issues reaches what the remote graph
      reaches: an issue that was only ever named as a dependency is in the
      dictionary but not in the hierarchy. */
  lemma DependenciesStayOutside(r: Remote, root: int, all: map<int, Issue>, hierarchy: map<int, Issue>,
                                order: seq<int>, parents: map<int, Option<int>>)
    requires Complete(r, root, all, hierarchy, order, parents)
    ensures forall n :: Reachable(IssuesGraph(all), root, n) <==> Reachable(RemoteGraph(r), root, n)
    ensures forall n :: Reachable(RemoteGraph(r), root, n) ==> n in all
  {
    var g, h := RemoteGraph(r), IssuesGraph(all);
    forall n | Reachable(g, root, n) ensures n in g && n in h && g[n] == h[n] {
      assert n in hierarchy && n in Elements(order);
    }
    forall n ensures Reachable(h, root, n) <==> Reachable(g, root, n) {
      forall k: nat ensures Within(g, root, k) == Within(h, root, k) {
        SameWithin(g, h, root, k);
      }
    }
  }

  // ----- the report -----

  ghost function ClosedOnes(issues: map<int, Issue>, s: set<int>): set<int> {
    set n | n in s && n in issues && issues[n].state == "closed"
  }

  ghost function RemoteClosed(r: Remote, s: set<int>): set<int> {
    set n | n in s && n in r.issues && r.issues[n].state == "closed"
  }

  /** The blocked-by edges of the issues in `s`, an edge listed twice being two. */
  ghost function Edges(issues: map<int, Issue>, s: set<int>): set<(int, int)> {
    set n, i | n in s && n in issues && 0 <= i < |issues[n].blockedBy| :: (n, i)
  }

  ghost function RemoteEdges(r: Remote, s: set<int>): set<(int, int)> {
    set n, i | n in s && n in r.blockedBy && 0 <= i < |r.blockedBy[n]| :: (n, i)
  }

  ghost function Slots(n: int, k: nat): set<(int, int)> { set i | 0 <= i < k :: (n, i) }

  lemma {:induction false} CountSlots(n: int, k: nat)
    ensures |Slots(n, k)| == k
  {
    if k > 0 {
      CountSlots(n, k - 1);
      assert Slots(n, k) == Slots(n, k - 1) + {(n, k - 1)};
    }
  }

  lemma EdgesOfOneMore(issues: map<int, Issue>, s: set<int>, n: int)
    requires n in issues && n !in s
    ensures |Edges(issues, s + {n})| == |Edges(issues, s)| + |issues[n].blockedBy|
  {
    var more := Slots(n, |issues[n].blockedBy|);
    CountSlots(n, |issues[n].blockedBy|);
    assert Edges(issues, s + {n}) == Edges(issues, s) + more;
    assert Edges(issues, s) !! more;
  }

  lemma ClosedOfOneMore(issues: map<int, Issue>, s: set<int>, n: int)
    requires n in issues && n !in s
    ensures |ClosedOnes(issues, s + {n})| == |ClosedOnes(issues, s)| + if issues[n].state == "closed" then 1 else 0
  {
    assert ClosedOnes(issues, s + {n}) == ClosedOnes(issues, s) + if issues[n].state == "closed" then {n} else {};
  }

  lemma NotEmpty(s: set<int>)
    requires s != {}
    ensures exists n :: n in s
  {
    assert (forall n :: n !in s) ==> s == {};
  }

  /** The two sums of the report over the hierarchy. */
  method Count(hierarchy: set<int>, issues: map<int, Issue>) returns (closed: nat, dependencyEdges: nat)
    requires hierarchy <= issues.Keys
    ensures closed == |ClosedOnes(issues, hierarchy)|
    ensures dependencyEdges == |Edges(issues, hierarchy)|
  {
    closed, dependencyEdges := 0, 0;
    var todo := hierarchy;
    ghost var done: set<int> := {};
    while todo != {}
      invariant todo + done == hierarchy && todo !! done
      invariant closed == |ClosedOnes(issues, done)|
      invariant dependencyEdges == |Edges(issues, done)|
      decreases todo
    {
      NotEmpty(todo);
      var n :| n in todo;
      EdgesOfOneMore(issues, done, n);
      ClosedOfOneMore(issues, done, n);
      todo, done := todo - {n}, done + {n};
      dependencyEdges := dependencyEdges + |issues[n].blockedBy|;
      if issues[n].state == "closed" {
        closed := closed + 1;
      }
    }
    assert done == hierarchy;
  }

  datatype Report = Report(total: nat, closed: nat, dependencyEdges: nat)

  lemma HierarchyAsFetched(r: Remote, root: int, all: map<int, Issue>, tree: map<int, Issue>,
                           order: seq<int>, parents: map<int, Option<int>>, n: int)
    requires Complete(r, root, all, tree, order, parents) && Reachable(RemoteGraph(r), root, n)
    ensures n in r.issues && n in r.blockedBy && n in all
    ensures all[n] == Copy(r, n, parents[n]).(blockedBy := Numbers(r.blockedBy[n]))
  {
    assert n in tree && n in Elements(order);
  }

  /** What is known of an issue of the hierarchy is what was fetched for its number:
      its parent is the root's none or a node one edge nearer that names it as a child. */
  lemma FetchedFields(r: Remote, root: int, all: map<int, Issue>, tree: map<int, Issue>,
                      order: seq<int>, parents: map<int, Option<int>>, n: int)
    requires Complete(r, root, all, tree, order, parents) && Reachable(RemoteGraph(r), root, n)
    ensures n in r.issues && n in r.blockedBy && n in all
    ensures all[n].number == n && all[n].title == r.issues[n].title && all[n].state == r.issues[n].state
    ensures all[n].children == r.issues[n].children
    ensures |all[n].blockedBy| == |r.blockedBy[n]|
    ensures forall i :: 0 <= i < |r.blockedBy[n]| ==> all[n].blockedBy[i] == r.blockedBy[n][i].number
    ensures all[n].parent == None <==> n == root
    ensures forall k: nat, p: int :: all[n].parent == Some(p) && AtDistance(RemoteGraph(r), root, n, k) ==>
              k > 0 && p in r.issues && n in r.issues[p].children && AtDistance(RemoteGraph(r), root, p, k - 1)
  {
    HierarchyAsFetched(r, root, all, tree, order, parents, n);
    if n != root {
      assert HangsRight(RemoteGraph(r), root, parents, n);
      forall k: nat | AtDistance(RemoteGraph(r), root, n, k)
        ensures k > 0 && AtDistance(RemoteGraph(r), root, parents[n].value, k - 1)
      {
        ParentIsNearer(RemoteGraph(r), root, parents, n, k);
      }
    }
  }

  /** Any other issue is what the first entry that mentions it says, and has neither
      parent nor children nor blockers. */
  lemma MentionedFields(r: Remote, root: int, all: map<int, Issue>, tree: map<int, Issue>,
                        order: seq<int>, parents: map<int, Option<int>>, m: int)
    requires Complete(r, root, all, tree, order, parents)
    requires m in all && !Reachable(RemoteGraph(r), root, m)
    ensures all[m].parent == None && all[m].children == [] && all[m].blockedBy == []
    ensures exists k :: 0 <= k < |Listed(r, order)| && Listed(r, order)[k].number == m
              && all[m].number == m
              && all[m].title == Listed(r, order)[k].title && all[m].state == Listed(r, order)[k].state
              && forall j :: 0 <= j < k ==> Listed(r, order)[j].number != m
  {
    var listed := Listed(r, order);
    assert m !in tree;
    assert FromFirst(listed, m, all[m]);
    var k :| 0 <= k < |listed| && listed[k].number == m && all[m] == Outside(listed[k])
             && forall j :: 0 <= j < k ==> listed[j].number != m;
  }

  lemma TotalsAsFetched(r: Remote, root: int, all: map<int, Issue>, tree: map<int, Issue>,
                        order: seq<int>, parents: map<int, Option<int>>, hierarchy: set<int>)
    requires Complete(r, root, all, tree, order, parents)
    requires forall n :: n in hierarchy ==> Reachable(RemoteGraph(r), root, n)
    ensures hierarchy <= r.issues.Keys
    ensures ClosedOnes(all, hierarchy) == RemoteClosed(r, hierarchy)
    ensures Edges(all, hierarchy) == RemoteEdges(r, hierarchy)
  {
    forall n | n in hierarchy
      ensures n in r.issues && n in r.blockedBy && n in all
      ensures all[n].state == r.issues[n].state && |all[n].blockedBy| == |r.blockedBy[n]|
    {
      HierarchyAsFetched(r, root, all, tree, order, parents, n);
    }
  }

  lemma FoundIsReachable(r: Remote, root: int, all: map<int, Issue>, tree: map<int, Issue>, order: seq<int>,
                         parents: map<int, Option<int>>, found: Result<set<int>, int>)
    requires Complete(r, root, all, tree, order, parents)
    requires found.Ok? <==> forall n :: Reachable(IssuesGraph(all), root, n) ==> n in all
    requires found.Ok? ==> forall n :: n in found.value <==> Reachable(IssuesGraph(all), root, n)
    ensures found.Ok?
    ensures forall n :: n in found.value <==> Reachable(RemoteGraph(r), root, n)
  {
    DependenciesStayOutside(r, root, all, tree, order, parents);
  }

  lemma RootIsReachable(g: Graph, root: int)
    ensures Reachable(g, root, root)
  {
    assert root in Within(g, root, 0);
  }

  /** What the report says of a remote repository: collecting and then counting
      never looks for an issue that is not there, and the totals are those of
      the nodes reachable from the root in the remote graph. */
  method ReportOn(r: Remote, root: int) returns (result: Result<Report, int>, hierarchy: set<int>)
    ensures result.Ok? <==> forall n :: Reachable(RemoteGraph(r), root, n) ==> n in r.issues && n in r.blockedBy
    ensures result.Ok? ==> forall n :: n in hierarchy <==> Reachable(RemoteGraph(r), root, n)
    ensures result.Ok? ==> hierarchy <= r.issues.Keys && root in hierarchy
    ensures result.Ok? ==> result.value == Report(|hierarchy|, |RemoteClosed(r, hierarchy)|, |RemoteEdges(r, hierarchy)|)
  {
    hierarchy := {};
    var collected, tree, order, parents := CollectIssues(r, root);
    if collected.Err? {
      return Err(collected.error), hierarchy;
    }
    var issues := collected.value;
    var reached := ReachableHierarchy(root, issues);
    FoundIsReachable(r, root, issues, tree, order, parents, reached);
    hierarchy := reached.value;
    TotalsAsFetched(r, root, issues, tree, order, parents, hierarchy);
    RootIsReachable(RemoteGraph(r), root);
    var closed, edges := Count(hierarchy, issues);
    result := Ok(Report(|hierarchy|, closed, edges));
  }
}
