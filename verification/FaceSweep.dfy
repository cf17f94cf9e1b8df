/** The flat faces of agent/composition/src/disk_cleanup.rs (audit, tmp, legacy):
    every expired top-level entry of the given roots goes.  The roots are one map
    from (root, entry name) to entry; none lies inside another. */
module FaceSweep {
  import opened Aging
  import opened DiskCleanup

  datatype Item = Item(root: string, name: string)

  type Items = map<Item, Node>

  ghost predicate IsDue(s: Items, k: Item, days: nat, now: int) { k in s && Expired(s[k], days, now) }

  ghost function DueIn(s: Items, root: string, days: nat, now: int): set<Item> {
    set k | k in s && k.root == root && IsDue(s, k, days, now)
  }

  ghost function DueUnder(s: Items, roots: seq<string>, days: nat, now: int): set<Item> {
    set k | k in s && k.root in roots && IsDue(s, k, days, now)
  }

  function Listing(s: Items, root: string): set<Item> { set k | k in s && k.root == root }

  /** What a dry run lists: each root in turn, from the same store. */
  ghost function Preview(s: Items, roots: seq<string>, days: nat, now: int): multiset<Item> {
    if roots == [] then multiset{}
    else Preview(s, roots[..|roots| - 1], days, now) + multiset(DueIn(s, roots[|roots| - 1], days, now))
  }

  ghost function PreviewSize(s: Items, roots: seq<string>, days: nat, now: int): nat {
    if roots == [] then 0
    else PreviewSize(s, roots[..|roots| - 1], days, now) + Total(s, DueIn(s, roots[|roots| - 1], days, now))
  }

  /** After the entries `met` of `s`: what is gone, listed and counted. */
  ghost predicate Met(s: Items, met: set<Item>, failing: set<Item>, dryRun: bool,
                        store: Items, listed: multiset<Item>, bytes: int, errors: int) {
    var skipped := if dryRun then {} else failing;
    && met <= s.Keys
    && store == (if dryRun then s else s - (met - failing))
    && listed == multiset(met - skipped) && bytes == Total(s, met - skipped) && errors == |met * skipped|
  }

  lemma MeetDry(s: Items, met: set<Item>, failing: set<Item>, store: Items, listed: multiset<Item>, bytes: int,
                errors: int, k: Item)
    requires Met(s, met, failing, true, store, listed, bytes, errors) && k in s && k !in met
    ensures Met(s, met + {k}, failing, true, store, listed + multiset{k}, bytes + Size(s[k]), errors)
  {
    MeetTaken(s, met, {}, k);
  }

  lemma MeetFailed(s: Items, met: set<Item>, failing: set<Item>, store: Items, listed: multiset<Item>, bytes: int,
                   errors: int, k: Item)
    requires Met(s, met, failing, false, store, listed, bytes, errors) && k in s && k !in met && k in failing
    ensures Met(s, met + {k}, failing, false, store, listed, bytes, errors + 1)
  {
    assert met + {k} - failing == met - failing;
    assert (met + {k}) * failing == met * failing + {k};
  }

  lemma MeetGone(s: Items, met: set<Item>, failing: set<Item>, store: Items, listed: multiset<Item>, bytes: int,
                 errors: int, k: Item)
    requires Met(s, met, failing, false, store, listed, bytes, errors) && k in s && k !in met && k !in failing
    ensures Met(s, met + {k}, failing, false, store - {k}, listed + multiset{k}, bytes + Size(s[k]), errors)
  {
    MeetTaken(s, met, failing, k);
    MinusOneMore(s, met - failing, k);
  }

  lemma MinusOneMore(s: Items, gone: set<Item>, k: Item)
    ensures s - (gone + {k}) == s - gone - {k}
  {}

  lemma MeetTaken(s: Items, met: set<Item>, skipped: set<Item>, k: Item)
    requires met <= s.Keys && k in s && k !in met && k !in skipped
    ensures met + {k} - skipped == (met - skipped) + {k} && (met + {k}) * skipped == met * skipped
    ensures Total(s, met + {k} - skipped) == Total(s, met - skipped) + Size(s[k])
    ensures multiset(met + {k} - skipped) == multiset(met - skipped) + multiset{k}
  {
    TotalRemove(s, met + {k} - skipped, k);
    assert met + {k} - skipped - {k} == met - skipped;
    assert met + {k} - skipped == (met - skipped) + {k};
  }

  ghost function DueAmong(s: Items, keys: set<Item>, days: nat, now: int): set<Item> {
    set k | k in keys && IsDue(s, k, days, now)
  }

  lemma DueAmongMore(s: Items, listing: set<Item>, todo: set<Item>, k: Item, days: nat, now: int)
    requires todo <= listing && k in todo
    ensures k !in DueAmong(s, listing - todo, days, now)
    ensures DueAmong(s, listing - (todo - {k}), days, now)
         == DueAmong(s, listing - todo, days, now) + if IsDue(s, k, days, now) then {k} else {}
  {}

  lemma NothingMet(s: Items, listing: set<Item>, failing: set<Item>, dryRun: bool, days: nat, now: int)
    ensures Met(s, DueAmong(s, listing - listing, days, now), failing, dryRun, s, multiset{}, 0, 0)
  {
    assert DueAmong(s, listing - listing, days, now) == {};
    assert s - ({} - failing) == s;
  }

  class Face {
    var store: Items
    const failing: set<Item>
    var removed: seq<Item>
    var bytes: int
    var scanned: int
    var errors: int
    var disabled: bool

    constructor (store: Items, failing: set<Item>)
      ensures this.store == store && this.failing == failing
      ensures removed == [] && bytes == 0 && scanned == 0 && errors == 0 && !disabled
    {
      this.store, this.failing, removed, bytes, scanned, errors, disabled := store, failing, [], 0, 0, 0, false;
    }

    /** One turn of the inner loop. */
    method Consider(k: Item, days: nat, now: int, dryRun: bool, ghost s: Items, ghost met: set<Item>,
                    labels: seq<Item>, size: int, failures: int)
      returns (labels': seq<Item>, size': int, failures': int)
      requires k in s && k !in met && Met(s, met, failing, dryRun, store, multiset(labels), size, failures)
      modifies this`store
      ensures Met(s, met + if IsDue(s, k, days, now) then {k} else {}, failing, dryRun, store, multiset(labels'), size', failures')
    {
      labels', size', failures' := labels, size, failures;
      assert k in store && store[k] == s[k];
      assert met + {} == met;
      var expired := IsExpired(store[k], days, now);
      if expired {
        var bytes := PathSize(store[k]);
        if dryRun {
          MeetDry(s, met, failing, store, multiset(labels), size, failures, k);
          size', labels' := size + bytes, labels + [k];
        } else if k in failing {
          MeetFailed(s, met, failing, store, multiset(labels), size, failures, k);
          failures' := failures + 1;
        } else {
          MeetGone(s, met, failing, store, multiset(labels), size, failures, k);
          store := store - {k};
          size', labels' := size + bytes, labels + [k];
        }
      }
    }

    /** The entries of one root. */
    method SweepRoot(root: string, days: nat, now: int, dryRun: bool) returns (labels: seq<Item>, size: int, failures: int)
      modifies this`store, this`scanned
      ensures Met(old(store), DueIn(old(store), root, days, now), failing, dryRun, store, multiset(labels), size, failures)
      ensures scanned == old(scanned) + |Listing(old(store), root)|
    {
      ghost var s := store;
      var listing := Listing(store, root);
      var todo := listing;
      labels, size, failures := [], 0, 0;
      NothingMet(s, listing, failing, dryRun, days, now);
      while todo != {}
        invariant todo <= listing
        invariant MetAmong(s, listing - todo, days, now, dryRun, labels, size, failures)
        invariant scanned == old(scanned) + |listing| - |todo|
        decreases |todo|
      {
        var k :| k in todo;
        scanned := scanned + 1;
        labels, size, failures := NextEntry(k, days, now, dryRun, s, listing, todo, labels, size, failures);
        todo := todo - {k};
      }
      assert DueAmong(s, listing - todo, days, now) == DueIn(s, root, days, now);
    }

    /** What has been done for these entries of `s`. */
    ghost predicate MetAmong(s: Items, keys: set<Item>, days: nat, now: int, dryRun: bool,
                             labels: seq<Item>, size: int, failures: int)
      reads this
    {
      Met(s, DueAmong(s, keys, days, now), failing, dryRun, store, multiset(labels), size, failures)
    }

    method NextEntry(k: Item, days: nat, now: int, dryRun: bool, ghost s: Items, ghost listing: set<Item>,
                     ghost todo: set<Item>, labels: seq<Item>, size: int, failures: int)
      returns (labels': seq<Item>, size': int, failures': int)
      requires k in todo && k in s && todo <= listing
      requires MetAmong(s, listing - todo, days, now, dryRun, labels, size, failures)
      modifies this`store
      ensures MetAmong(s, listing - (todo - {k}), days, now, dryRun, labels', size', failures')
    {
      DueAmongMore(s, listing, todo, k, days, now);
      labels', size', failures' :=
        Consider(k, days, now, dryRun, s, DueAmong(s, listing - todo, days, now), labels, size, failures);
    }

    /** `sweep_face`: a retention of zero days switches the face off. */
    method SweepFace(roots: seq<string>, days: nat, now: int, dryRun: bool)
      requires removed == [] && bytes == 0 && scanned == 0 && errors == 0 && !disabled
      modifies this
      ensures disabled <==> days == 0
      ensures days == 0 ==> store == old(store) && removed == [] && bytes == 0 && scanned == 0 && errors == 0
      ensures days > 0 ==> SweptUnder(old(store), roots, failing, dryRun, days, now, store, multiset(removed), bytes)
      ensures days > 0 ==> scanned == Scanned(old(store), roots, failing, dryRun, days, now)
      ensures days > 0 ==> errors == Failed(old(store), roots, failing, dryRun, days, now)
    {
      if days == 0 {
        disabled := true;
        return;
      }
      SweepRoots(roots, days, now, dryRun);
    }

    /** The loop over the roots. */
    method SweepRoots(roots: seq<string>, days: nat, now: int, dryRun: bool)
      requires removed == [] && bytes == 0 && scanned == 0 && errors == 0
      modifies this`store, this`removed, this`bytes, this`scanned, this`errors
      ensures SweptUnder(old(store), roots, failing, dryRun, days, now, store, multiset(removed), bytes)
      ensures scanned == Scanned(old(store), roots, failing, dryRun, days, now)
      ensures errors == Failed(old(store), roots, failing, dryRun, days, now)
    {
      ghost var s, done := store, [];
      NothingYet(s, failing, dryRun, days, now);
      var i := 0;
      while i < |roots|
        invariant 0 <= i <= |roots| && done == roots[..i]
        invariant SweptUnder(s, done, failing, dryRun, days, now, store, multiset(removed), bytes)
        invariant scanned == Scanned(s, done, failing, dryRun, days, now)
        invariant errors == Failed(s, done, failing, dryRun, days, now)
      {
        StoreIsAfter(s, done, failing, dryRun, days, now, store, multiset(removed), bytes);
        NextRoot(roots[i], days, now, dryRun, s, done);
        CountsSnoc(s, done, roots[i], failing, dryRun, days, now);
        done := done + [roots[i]];
        i := i + 1;
      }
      assert done == roots;
    }

    /** One turn of the loop over the roots. */
    method NextRoot(root: string, days: nat, now: int, dryRun: bool, ghost s: Items, ghost before: seq<string>)
      requires SweptUnder(s, before, failing, dryRun, days, now, store, multiset(removed), bytes)
      modifies this`store, this`removed, this`bytes, this`scanned, this`errors
      ensures SweptUnder(s, before + [root], failing, dryRun, days, now, store, multiset(removed), bytes)
      ensures scanned == old(scanned) + |Listing(old(store), root)|
      ensures errors == old(errors) + Failing(s, root, failing, dryRun, days, now)
    {
      ghost var listed, counted := multiset(removed), bytes;
      var labels, size, failures := RootSwept(root, days, now, dryRun, s, before, listed, counted);
      Add(labels, size, failures);
    }

    /** The entries of the next root, on top of what was listed and counted before. */
    method RootSwept(root: string, days: nat, now: int, dryRun: bool, ghost s: Items, ghost before: seq<string>,
                     ghost listed: multiset<Item>, ghost counted: int)
      returns (labels: seq<Item>, size: int, failures: int)
      requires SweptUnder(s, before, failing, dryRun, days, now, store, listed, counted)
      modifies this`store, this`scanned
      ensures SweptUnder(s, before + [root], failing, dryRun, days, now, store, listed + multiset(labels), counted + size)
      ensures scanned == old(scanned) + |Listing(old(store), root)|
      ensures failures == Failing(s, root, failing, dryRun, days, now)
    {
      ghost var was := store;
      labels, size, failures := SweepRoot(root, days, now, dryRun);
      OneMoreRoot(s, before, root, failing, dryRun, days, now, was, listed, counted, store, multiset(labels), size, failures);
    }

    /** Adds what one root has brought to the report. */
    method Add(labels: seq<Item>, size: int, failures: int)
      modifies this`removed, this`bytes, this`errors
      ensures multiset(removed) == multiset(old(removed)) + multiset(labels)
      ensures bytes == old(bytes) + size && errors == old(errors) + failures
    {
      removed, bytes, errors := removed + labels, bytes + size, errors + failures;
    }
  }

  /** What these roots leave. */
  ghost function StoreAfter(s: Items, roots: seq<string>, failing: set<Item>, dryRun: bool, days: nat, now: int): Items {
    if dryRun then s else s - (DueUnder(s, roots, days, now) - failing)
  }

  ghost function Failing(s: Items, root: string, failing: set<Item>, dryRun: bool, days: nat, now: int): nat {
    if dryRun then 0 else |DueIn(s, root, days, now) * failing|
  }

  /** After these roots: a real run is rid of what is due and can be deleted; a dry run has only looked. */
  ghost predicate SweptUnder(s: Items, roots: seq<string>, failing: set<Item>, dryRun: bool, days: nat, now: int,
                             store: Items, listed: multiset<Item>, bytes: int) {
    if dryRun then
      store == s && listed == Preview(s, roots, days, now) && bytes == PreviewSize(s, roots, days, now)
    else
      var gone := DueUnder(s, roots, days, now) - failing;
      store == s - gone && listed == multiset(gone) && bytes == Total(s, gone)
  }

  /** How many entries a run looks at: those each root has when its turn comes. */
  ghost function Scanned(s: Items, roots: seq<string>, failing: set<Item>, dryRun: bool, days: nat, now: int): nat {
    if roots == [] then 0
    else
      var front, last := roots[..|roots| - 1], roots[|roots| - 1];
      Scanned(s, front, failing, dryRun, days, now)
      + |Listing(StoreAfter(s, front, failing, dryRun, days, now), last)|
  }

  /** How many deletions fail: an entry fails again each time its root is named. */
  ghost function Failed(s: Items, roots: seq<string>, failing: set<Item>, dryRun: bool, days: nat, now: int): nat {
    if roots == [] then 0
    else
      Failed(s, roots[..|roots| - 1], failing, dryRun, days, now)
      + Failing(s, roots[|roots| - 1], failing, dryRun, days, now)
  }

  lemma StoreIsAfter(s: Items, roots: seq<string>, failing: set<Item>, dryRun: bool, days: nat, now: int,
                     store: Items, listed: multiset<Item>, bytes: int)
    requires SweptUnder(s, roots, failing, dryRun, days, now, store, listed, bytes)
    ensures store == StoreAfter(s, roots, failing, dryRun, days, now)
  {}

  lemma CountsSnoc(s: Items, roots: seq<string>, root: string, failing: set<Item>, dryRun: bool, days: nat, now: int)
    ensures Scanned(s, roots + [root], failing, dryRun, days, now)
         == Scanned(s, roots, failing, dryRun, days, now)
            + |Listing(StoreAfter(s, roots, failing, dryRun, days, now), root)|
    ensures Failed(s, roots + [root], failing, dryRun, days, now)
         == Failed(s, roots, failing, dryRun, days, now) + Failing(s, root, failing, dryRun, days, now)
  {
    assert (roots + [root])[..|roots|] == roots;
  }

  lemma FailuresMet(s: Items, due: set<Item>, failing: set<Item>, dryRun: bool, store: Items, listed: multiset<Item>,
                    bytes: int, failures: int)
    requires Met(s, due, failing, dryRun, store, listed, bytes, failures)
    ensures failures == if dryRun then 0 else |due * failing|
  {
    assert due * {} == {};
  }

  lemma FailingStay(s: Items, gone: set<Item>, failing: set<Item>, root: string, days: nat, now: int)
    requires gone !! failing
    ensures DueIn(s - gone, root, days, now) * failing == DueIn(s, root, days, now) * failing
  {}

  lemma NothingYet(s: Items, failing: set<Item>, dryRun: bool, days: nat, now: int)
    ensures SweptUnder(s, [], failing, dryRun, days, now, s, multiset{}, 0)
  {
    assert DueUnder(s, [], days, now) - failing == {};
    assert s - {} == s;
  }

  lemma OneMoreRoot(s: Items, roots: seq<string>, root: string, failing: set<Item>, dryRun: bool, days: nat, now: int,
                    before: Items, listed: multiset<Item>, bytes: int,
                    after: Items, more: multiset<Item>, size: int, failures: int)
    requires SweptUnder(s, roots, failing, dryRun, days, now, before, listed, bytes)
    requires Met(before, DueIn(before, root, days, now), failing, dryRun, after, more, size, failures)
    ensures SweptUnder(s, roots + [root], failing, dryRun, days, now, after, listed + more, bytes + size)
    ensures failures == Failing(s, root, failing, dryRun, days, now)
  {
    FailuresMet(before, DueIn(before, root, days, now), failing, dryRun, after, more, size, failures);
    if dryRun {
      assert (roots + [root])[..|roots|] == roots;
      assert DueIn(s, root, days, now) - {} == DueIn(s, root, days, now);
    } else {
      FailingStay(s, DueUnder(s, roots, days, now) - failing, failing, root, days, now);
      DueUnderSnoc(s, roots, root, failing, days, now, before);
      RemovedInTurn(s, DueUnder(s, roots, days, now) - failing, DueIn(before, root, days, now) - failing);
    }
  }

  lemma DueUnderSnoc(s: Items, roots: seq<string>, root: string, failing: set<Item>, days: nat, now: int, before: Items)
    requires before == s - (DueUnder(s, roots, days, now) - failing)
    ensures DueUnder(s, roots + [root], days, now) - failing
         == (DueUnder(s, roots, days, now) - failing) + (DueIn(before, root, days, now) - failing)
    ensures DueIn(before, root, days, now) - failing <= before.Keys
  {}

  /** Two removals, one after the other, are one removal. */
  lemma RemovedInTurn(s: Items, gone: set<Item>, next: set<Item>)
    requires gone <= s.Keys && next <= (s - gone).Keys
    ensures s - (gone + next) == s - gone - next
    ensures multiset(gone + next) == multiset(gone) + multiset(next)
    ensures Total(s, gone + next) == Total(s, gone) + Total(s - gone, next)
  {
    TotalSplit(s, gone, next);
    TotalSame(s - gone, s, next);
  }

  // ----- what a face promises -----

  /** A dry run lists the entries of a root once for every time the root is named. */
  lemma {:induction false} PreviewCounts(s: Items, roots: seq<string>, days: nat, now: int, k: Item)
    ensures Preview(s, roots, days, now)[k] == if IsDue(s, k, days, now) then multiset(roots)[k.root] else 0
  {
    if roots != [] {
      var front, last := roots[..|roots| - 1], roots[|roots| - 1];
      PreviewCounts(s, front, days, now, k);
      assert roots == front + [last];
    }
  }

  /** The dry run of a face lists what a failure-free run removes, exactly when no
      root that is named twice holds anything due. */
  lemma DryRunPredictsFace(s: Items, roots: seq<string>, days: nat, now: int)
    ensures Preview(s, roots, days, now) == multiset(DueUnder(s, roots, days, now))
       <==> forall k :: IsDue(s, k, days, now) ==> multiset(roots)[k.root] <= 1
  {
    var due := DueUnder(s, roots, days, now);
    forall k ensures Preview(s, roots, days, now)[k] == if IsDue(s, k, days, now) then multiset(roots)[k.root] else 0 {
      PreviewCounts(s, roots, days, now, k);
    }
    forall k ensures multiset(due)[k] == if IsDue(s, k, days, now) && k.root in roots then 1 else 0 {}
    assert forall k: Item :: k.root in roots <==> multiset(roots)[k.root] > 0;
    if forall k :: IsDue(s, k, days, now) ==> multiset(roots)[k.root] <= 1 {
      forall k ensures Preview(s, roots, days, now)[k] == multiset(due)[k] {}
    }
  }

  /** Due entries that take up space lie under roots that are named once. */
  ghost predicate SizedOnce(s: Items, roots: seq<string>, days: nat, now: int) {
    forall k :: IsDue(s, k, days, now) && Size(s[k]) > 0 ==> multiset(roots)[k.root] <= 1
  }

  lemma {:induction false} TotalZero(s: Items, keys: set<Item>)
    requires keys <= s.Keys
    ensures Total(s, keys) == 0 <==> forall k :: k in keys ==> Size(s[k]) == 0
    decreases keys
  {
    if keys != {} {
      var k :| k in keys;
      TotalRemove(s, keys, k);
      TotalZero(s, keys - {k});
    }
  }

  /** And it counts the bytes that such a run frees, exactly when no root that is
      named twice holds anything due that takes up space; else it counts more. */
  lemma {:induction false} DryRunPredictsSize(s: Items, roots: seq<string>, days: nat, now: int)
    ensures PreviewSize(s, roots, days, now) >= Total(s, DueUnder(s, roots, days, now))
    ensures PreviewSize(s, roots, days, now) == Total(s, DueUnder(s, roots, days, now)) <==> SizedOnce(s, roots, days, now)
  {
    if roots == [] {
      assert DueUnder(s, roots, days, now) == {};
    } else {
      var front, last := roots[..|roots| - 1], roots[|roots| - 1];
      DryRunPredictsSize(s, front, days, now);
      assert roots == front + [last];
      OneMoreSized(s, front, last, days, now);
    }
  }

  lemma OneMoreSized(s: Items, front: seq<string>, last: string, days: nat, now: int)
    ensures var roots, more := front + [last], Total(s, DueIn(s, last, days, now));
            if last in front then
              && DueUnder(s, roots, days, now) == DueUnder(s, front, days, now)
              && (SizedOnce(s, roots, days, now) <==> SizedOnce(s, front, days, now) && more == 0)
            else
              && Total(s, DueUnder(s, roots, days, now)) == Total(s, DueUnder(s, front, days, now)) + more
              && (SizedOnce(s, roots, days, now) <==> SizedOnce(s, front, days, now))
  {
    var roots, own := front + [last], DueIn(s, last, days, now);
    forall k: Item
      ensures multiset(roots)[k.root] == multiset(front)[k.root] + if k.root == last then 1 else 0
    {}
    if last in front {
      TotalZero(s, own);
      assert multiset(front)[last] > 0;
      assert DueUnder(s, roots, days, now) == DueUnder(s, front, days, now);
      if SizedOnce(s, roots, days, now) {
        forall k | k in own ensures Size(s[k]) == 0 {
          assert multiset(roots)[k.root] > 1;
        }
      }
    } else {
      assert DueUnder(s, roots, days, now) == DueUnder(s, front, days, now) + own;
      TotalSplit(s, DueUnder(s, front, days, now), own);
      assert multiset(front)[last] == 0;
    }
  }

  /** After a failure-free run nothing is due, and the bytes reported are the bytes freed. */
  lemma FaceRests(s: Items, roots: seq<string>, days: nat, now: int)
    ensures var gone := DueUnder(s, roots, days, now);
            && DueUnder(s - gone, roots, days, now) == {}
            && Total(s, s.Keys) == Total(s - gone, (s - gone).Keys) + Total(s, gone)
  {
    TotalMinus(s, DueUnder(s, roots, days, now));
  }

  /** Entry by entry: a real run is rid of what is expired, under one of the roots and can
      be deleted, and lists each of these once; a dry run lists what is expired as often
      as its root is named. */
  lemma EntryByEntry(s: Items, roots: seq<string>, failing: set<Item>, dryRun: bool, days: nat, now: int,
                     store: Items, listed: multiset<Item>, bytes: int, k: Item)
    requires SweptUnder(s, roots, failing, dryRun, days, now, store, listed, bytes)
    ensures k in store ==> k in s && store[k] == s[k]
    ensures k in s ==> (k !in store <==> !dryRun && k.root in roots && k !in failing && Expired(s[k], days, now))
    ensures !dryRun ==> listed[k] == if k in s && k !in store then 1 else 0
    ensures dryRun ==> listed[k] == if k in s && Expired(s[k], days, now) then multiset(roots)[k.root] else 0
  {
    PreviewCounts(s, roots, days, now, k);
  }

  ghost predicate NamedOnce(roots: seq<string>) { forall i, j :: 0 <= i < j < |roots| ==> roots[i] != roots[j] }

  /** Where no root is named twice, all entries of the roots are looked at, in a dry run
      and in a real one. */
  lemma {:induction false} LookedAtOnce(s: Items, roots: seq<string>, failing: set<Item>, dryRun: bool, days: nat, now: int)
    requires NamedOnce(roots)
    ensures Scanned(s, roots, failing, dryRun, days, now) == |set k | k in s && k.root in roots|
  {
    var all := set k | k in s && k.root in roots;
    if roots == [] {
      assert all == {};
    } else {
      var front, last := roots[..|roots| - 1], roots[|roots| - 1];
      LookedAtOnce(s, front, failing, dryRun, days, now);
      assert roots == front + [last];
      assert Listing(StoreAfter(s, front, failing, dryRun, days, now), last) == Listing(s, last);
      JoinedRoots(s, front, last, all);
    }
  }

  lemma JoinedRoots(s: Items, front: seq<string>, last: string, all: set<Item>)
    requires last !in front && all == set k | k in s && k.root in front + [last]
    ensures |all| == |set k | k in s && k.root in front| + |Listing(s, last)|
  {
    var before := set k | k in s && k.root in front;
    assert all == before + Listing(s, last);
  }

  /** And as many deletions fail as there are entries left that are expired. */
  lemma {:induction false} FailsOnce(s: Items, roots: seq<string>, failing: set<Item>, days: nat, now: int)
    requires NamedOnce(roots)
    ensures Failed(s, roots, failing, false, days, now)
         == |set k | k in s && k.root in roots && k in failing && Expired(s[k], days, now)|
  {
    var left := set k | k in s && k.root in roots && k in failing && Expired(s[k], days, now);
    if roots == [] {
      assert left == {};
    } else {
      var front, last := roots[..|roots| - 1], roots[|roots| - 1];
      FailsOnce(s, front, failing, days, now);
      assert roots == front + [last];
      JoinedFailures(s, front, last, failing, days, now, left);
    }
  }

  lemma JoinedFailures(s: Items, front: seq<string>, last: string, failing: set<Item>, days: nat, now: int, left: set<Item>)
    requires last !in front
    requires left == set k | k in s && k.root in front + [last] && k in failing && Expired(s[k], days, now)
    ensures |left| == |set k | k in s && k.root in front && k in failing && Expired(s[k], days, now)|
                      + |DueIn(s, last, days, now) * failing|
  {
    var before := set k | k in s && k.root in front && k in failing && Expired(s[k], days, now);
    var more := DueIn(s, last, days, now) * failing;
    assert before !! more && left == before + more;
  }
}
