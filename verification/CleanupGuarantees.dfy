/** What retention cleanup promises: only what is due goes, everything that is due
    goes, a dry run predicts the run, and repeating it comes to rest. */
module CleanupGuarantees {
  import opened Wrappers
  import opened Text
  import opened Aging
  import opened DiskCleanup

  /** Every entry that the cleanup of a session would delete is also read as that
      session's.  The code has these two ways to tell whose an entry is, and they
      can differ for ledgers and for the ids `` and `.`. */
  ghost predicate Agree(s: Store) {
    forall id, k :: id in Ids(s) && k in s && Covers(id, k) ==> Owner(k) == Some(id)
  }

  /** Read as belonging to a session that is there and not due. */
  ghost predicate Protected(s: Store, k: Key, days: nat, now: int) {
    k in s && Owner(k).Some? && Owner(k).value in Ids(s) && !Due(s, Owner(k).value, days, now)
  }

  /** Goes with the session it is read as belonging to. */
  ghost predicate GoesWithSession(s: Store, k: Key, days: nat, now: int) {
    k in s && Owner(k).Some? && Due(s, Owner(k).value, days, now) && Covers(Owner(k).value, k)
  }

  ghost function Leaving(s: Store, days: nat, now: int): set<Key> {
    set k | k in s && (GoesWithSession(s, k, days, now) || IsOrphan(s, Ids(s), k, days, now))
  }

  /** No entry goes with two sessions that are due, and none that goes with a session
      is an orphan besides. */
  ghost predicate EachOnce(s: Store, days: nat, now: int) {
    && (forall id, other, k :: Due(s, id, days, now) && Due(s, other, days, now) && k in s && Covers(id, k) && Covers(other, k)
          ==> id == other)
    && (forall id, k :: Due(s, id, days, now) && k in s && Covers(id, k) ==> !IsOrphan(s, Ids(s), k, days, now))
  }

  lemma AgreeMeansOnce(s: Store, days: nat, now: int)
    requires Agree(s)
    ensures EachOnce(s, days, now)
  {
    forall id, k | Due(s, id, days, now) && k in s && Covers(id, k) ensures Owner(k) == Some(id) && id in Ids(s) {}
  }

  // ----- the first loop -----

  /** The entries the first loop deletes when each id is judged on the store it started from. */
  ghost function GoneWith(s: Store, order: seq<string>, days: nat, now: int, failing: set<Key>): set<Key> {
    set k | k in s && k !in failing && exists i :: 0 <= i < |order| && Due(s, order[i], days, now) && Covers(order[i], k)
  }

  lemma DatasetOwned(id: string)
    ensures Owner(DatasetOf(id)) == Some(id) && Covers(id, DatasetOf(id))
  {
    assert (id + DATASET)[|id|..] == DATASET && (id + DATASET)[..|id|] == id;
  }

  lemma {:induction false} SweptIsGoneWith(s: Store, order: seq<string>, days: nat, now: int, failing: set<Key>)
    requires EachOnce(s, days, now) && (forall i :: 0 <= i < |order| ==> order[i] in Ids(s))
    requires forall i, j :: 0 <= i < j < |order| ==> order[i] != order[j]
    ensures Swept(s, order, days, now, failing) == s - GoneWith(s, order, days, now, failing)
  {
    if order == [] {
      assert GoneWith(s, order, days, now, failing) == {};
    } else {
      var front, id := order[..|order| - 1], order[|order| - 1];
      SweptIsGoneWith(s, front, days, now, failing);
      assert order == front + [id];
      NextGoesWith(s, front, id, days, now, failing);
    }
  }

  lemma NextGoesWith(s: Store, front: seq<string>, id: string, days: nat, now: int, failing: set<Key>)
    requires EachOnce(s, days, now) && id !in front && DatasetOf(id) in s
    requires Swept(s, front, days, now, failing) == s - GoneWith(s, front, days, now, failing)
    ensures Swept(s, front + [id], days, now, failing) == s - GoneWith(s, front + [id], days, now, failing)
  {
    var order := front + [id];
    assert order[..|order| - 1] == front && order[|order| - 1] == id;
    GoneWithSnoc(s, front, id, days, now, failing);
    DatasetStays(s, front, id, days, now, failing);
    DropFromRest(s, GoneWith(s, front, days, now, failing), id, days, now, failing);
  }

  lemma GoneWithSnoc(s: Store, front: seq<string>, id: string, days: nat, now: int, failing: set<Key>)
    ensures GoneWith(s, front + [id], days, now, failing)
         == GoneWith(s, front, days, now, failing)
            + (if Due(s, id, days, now) then Covered(s, id) - failing else {})
  {
    var order := front + [id];
    forall k | k in s
      ensures k in GoneWith(s, order, days, now, failing)
         <==> k in GoneWith(s, front, days, now, failing) || (Due(s, id, days, now) && Covers(id, k) && k !in failing)
    {
      if k in GoneWith(s, order, days, now, failing) {
        var i :| 0 <= i < |order| && Due(s, order[i], days, now) && Covers(order[i], k);
        assert i < |front| ==> front[i] == order[i];
      }
      if k in GoneWith(s, front, days, now, failing) {
        var i :| 0 <= i < |front| && Due(s, front[i], days, now) && Covers(front[i], k);
        assert front[i] == order[i];
      }
      if Due(s, id, days, now) && Covers(id, k) && k !in failing {
        assert order[|front|] == id;
      }
    }
  }

  /** The dataset of a session that is due is still there when its turn comes. */
  lemma DatasetStays(s: Store, front: seq<string>, id: string, days: nat, now: int, failing: set<Key>)
    requires EachOnce(s, days, now) && id !in front
    ensures Due(s, id, days, now) ==> DatasetOf(id) !in GoneWith(s, front, days, now, failing)
  {
    DatasetOwned(id);
    forall i | 0 <= i < |front| && Due(s, front[i], days, now) && Due(s, id, days, now)
      ensures !Covers(front[i], DatasetOf(id)) {}
  }

  lemma DropFromRest(s: Store, gone: set<Key>, id: string, days: nat, now: int, failing: set<Key>)
    requires DatasetOf(id) in s && (Due(s, id, days, now) ==> DatasetOf(id) !in gone)
    ensures DropSession(s - gone, id, days, now, failing)
         == s - (gone + (if Due(s, id, days, now) then Covered(s, id) - failing else {}))
    ensures Due(s - gone, id, days, now) <==> Due(s, id, days, now)
    ensures Covered(s - gone, id) == Covered(s, id) - gone
  {
    assert Covered(s - gone, id) == Covered(s, id) - gone;
    assert s - gone - (Covered(s, id) - gone - failing) == s - (gone + (Covered(s, id) - failing));
    assert gone + {} == gone;
  }

  // ----- exactly what goes -----

  /** In a run, whatever cannot be deleted, exactly these entries go: those that go
      with a session that is due, and the expired ones of sessions that have no
      dataset any more. */
  lemma ExactlyTheseGo(s: Store, order: seq<string>, days: nat, now: int, failing: set<Key>)
    requires Agree(s) && Lists(order, Ids(s))
    ensures Cleaned(s, order, days, now, failing) == s - (Leaving(s, days, now) - failing)
  {
    var gone := GoneWith(s, order, days, now, failing);
    AgreeMeansOnce(s, days, now);
    SweptIsGoneWith(s, order, days, now, failing);
    var rest := s - gone;
    forall k | k in s
      ensures k in gone <==> GoesWithSession(s, k, days, now) && k !in failing
      ensures k in Orphans(rest, Ids(s), days, now) <==> k !in gone && IsOrphan(s, Ids(s), k, days, now)
    {
      OrphanStays(s, gone, Ids(s), k, days, now);
    }
    assert rest - (Orphans(rest, Ids(s), days, now) - failing) == s - (Leaving(s, days, now) - failing);
  }

  /** Nothing of a session that is there and not due is ever deleted. */
  lemma ProtectedStays(s: Store, order: seq<string>, k: Key, days: nat, now: int, failing: set<Key>)
    requires Agree(s) && Lists(order, Ids(s)) && Protected(s, k, days, now)
    ensures var t := Cleaned(s, order, days, now, failing); k in t && t[k] == s[k]
  {
    ExactlyTheseGo(s, order, days, now, failing);
  }

  /** When nothing fails, a dataset that is due goes together with its lock,
      background-process, tool-results and ledger entries. */
  lemma DueGoesAltogether(s: Store, order: seq<string>, id: string, days: nat, now: int)
    requires EachOnce(s, days, now) && Lists(order, Ids(s)) && Due(s, id, days, now)
    ensures forall k :: Covers(id, k) ==> k !in Cleaned(s, order, days, now, {})
  {
    SweptIsGoneWith(s, order, days, now, {});
    assert id in Ids(s);
    var i :| 0 <= i < |order| && order[i] == id;
    forall k | Covers(id, k) && k in s ensures k in GoneWith(s, order, days, now, {}) {
      assert Covers(order[i], k);
    }
  }

  // ----- safety, exactly -----

  lemma {:induction false} SweptShrinks(s: Store, order: seq<string>, i: nat, days: nat, now: int, failing: set<Key>)
    requires i <= |order|
    ensures Swept(s, order, days, now, failing).Keys <= Swept(s, order[..i], days, now, failing).Keys
    ensures forall k :: k in Swept(s, order, days, now, failing) ==> k in s && Swept(s, order, days, now, failing)[k] == s[k]
  {
    if i < |order| {
      SweptShrinks(s, order[..|order| - 1], i, days, now, failing);
      assert order[..|order| - 1][..i] == order[..i];
    } else if order != [] {
      SweptShrinks(s, order[..|order| - 1], |order| - 1, days, now, failing);
      assert order[..i] == order;
    }
  }

  /** Whatever the first loop deletes is covered by an id that was due at the start. */
  lemma {:induction false} SweptOnlyDue(s: Store, order: seq<string>, k: Key, days: nat, now: int, failing: set<Key>)
    requires k in s && k !in Swept(s, order, days, now, failing)
    ensures exists id :: Due(s, id, days, now) && Covers(id, k)
  {
    if order != [] {
      var front, id := order[..|order| - 1], order[|order| - 1];
      var rest := Swept(s, front, days, now, failing);
      if k !in rest {
        SweptOnlyDue(s, front, k, days, now, failing);
      } else {
        SweptShrinks(s, front, 0, days, now, failing);
        assert Due(rest, id, days, now) && Covers(id, k);
        assert Due(s, id, days, now);
      }
    }
  }

  /** Without any condition on the names: every run, in whatever order the directory
      is listed and whatever cannot be deleted, spares everything that is protected,
      exactly when no session that is due covers a protected entry. */
  lemma SafeExactlyWhen(s: Store, days: nat, now: int)
    ensures (forall order, failing, k :: Lists(order, Ids(s)) && Protected(s, k, days, now) ==>
               k in Cleaned(s, order, days, now, failing))
       <==> (forall id, k :: Due(s, id, days, now) && Protected(s, k, days, now) ==> !Covers(id, k))
  {
    if forall id, k :: Due(s, id, days, now) && Protected(s, k, days, now) ==> !Covers(id, k) {
      forall order, failing, k | Lists(order, Ids(s)) && Protected(s, k, days, now)
        ensures k in Cleaned(s, order, days, now, failing)
      {
        if k !in Swept(s, order, days, now, failing) {
          SweptOnlyDue(s, order, k, days, now, failing);
        }
      }
    }
    forall id, k | Due(s, id, days, now) && Protected(s, k, days, now) && Covers(id, k)
      ensures exists order :: Lists(order, Ids(s)) && k !in Cleaned(s, order, days, now, {})
    {
      var order := TakenFirst(s, id, k, days, now);
    }
  }

  /** The session that is visited first takes along what it covers. */
  lemma TakenFirst(s: Store, id: string, k: Key, days: nat, now: int) returns (order: seq<string>)
    requires Due(s, id, days, now) && Covers(id, k)
    ensures Lists(order, Ids(s)) && k !in Cleaned(s, order, days, now, {})
  {
    order := ListingFirst(Ids(s), id);
    assert order[..1] == [id] && [id][..0] == [];
    SweptShrinks(s, order, 1, days, now, {});
    assert k !in Swept(s, order[..1], days, now, {});
  }

  lemma ListingFirst(ids: set<string>, id: string) returns (order: seq<string>)
    requires id in ids
    ensures Lists(order, ids) && |order| > 0 && order[0] == id
  {
    var rest := ListingExists(ids - {id});
    order := [id] + rest;
    forall x | x in ids ensures x in order {
      assert x == id || x in rest;
    }
  }

  // ----- a dry run predicts the run -----

  lemma {:induction false} PreviewIsReport(s: Store, order: seq<string>, days: nat, now: int)
    requires EachOnce(s, days, now) && (forall i :: 0 <= i < |order| ==> order[i] in Ids(s))
    requires forall i, j :: 0 <= i < j < |order| ==> order[i] != order[j]
    ensures SweptLabels(s, order, days, now, {}) == PreviewLabels(s, order, days, now)
    ensures SweptBytes(s, order, days, now, {}) == PreviewBytes(s, order, days, now)
  {
    if order != [] {
      var front, id := order[..|order| - 1], order[|order| - 1];
      PreviewIsReport(s, front, days, now);
      SweptIsGoneWith(s, front, days, now, {});
      TurnIsAsPreviewed(s, front, id, days, now);
    }
  }

  /** When its turn comes, a session is due as it was at the start, and nothing that
      goes with it has gone before. */
  lemma TurnIsAsPreviewed(s: Store, front: seq<string>, id: string, days: nat, now: int)
    requires EachOnce(s, days, now) && id in Ids(s) && id !in front
    ensures var rest := s - GoneWith(s, front, days, now, {});
            && (Due(rest, id, days, now) <==> Due(s, id, days, now))
            && (Due(s, id, days, now) ==>
                  Covered(rest, id) == Covered(s, id)
                  && Total(rest, Covered(rest, id) - {}) == Total(s, Covered(s, id)))
  {
    var gone := GoneWith(s, front, days, now, {});
    DatasetStays(s, front, id, days, now, {});
    DropFromRest(s, gone, id, days, now, {});
    if Due(s, id, days, now) {
      CoveredStays(s, front, id, days, now);
      assert Covered(s, id) - gone == Covered(s, id) && Covered(s, id) - {} == Covered(s, id);
      TotalSame(s, s - gone, Covered(s, id));
    }
  }

  lemma CoveredStays(s: Store, front: seq<string>, id: string, days: nat, now: int)
    requires EachOnce(s, days, now) && id !in front
    ensures Due(s, id, days, now) ==> Covered(s, id) !! GoneWith(s, front, days, now, {})
  {
    forall i, k | 0 <= i < |front| && Due(s, front[i], days, now) && Due(s, id, days, now) && k in Covered(s, id)
      ensures !Covers(front[i], k) {}
  }

  lemma OrphansNotSwept(s: Store, order: seq<string>, days: nat, now: int)
    requires EachOnce(s, days, now)
    ensures var gone := GoneWith(s, order, days, now, {});
            gone !! Orphans(s, Ids(s), days, now) && Orphans(s - gone, Ids(s), days, now) == Orphans(s, Ids(s), days, now)
  {
    var gone := GoneWith(s, order, days, now, {});
    forall k | k in s
      ensures k in Orphans(s - gone, Ids(s), days, now) <==> k in Orphans(s, Ids(s), days, now)
      ensures k in gone ==> k !in Orphans(s, Ids(s), days, now)
    {
      OrphanStays(s, gone, Ids(s), k, days, now);
    }
  }

  ghost function DueIds(s: Store, order: seq<string>, days: nat, now: int): set<string> {
    set id | id in order && Due(s, id, days, now)
  }

  ghost function SessionLabels(ids: set<string>): set<Label> { set id | id in ids :: Session(id) }

  /** What each session would free, as files of that size. */
  ghost function Costs(s: Store): map<string, Node> {
    map id | id in Ids(s) :: File(0, Total(s, Covered(s, id)))
  }

  lemma DueIdsSnoc(s: Store, front: seq<string>, id: string, days: nat, now: int)
    requires id !in front
    ensures DueIds(s, front + [id], days, now) == DueIds(s, front, days, now) + if Due(s, id, days, now) then {id} else {}
    ensures id !in DueIds(s, front, days, now)
  {}

  lemma SessionLabelsAdd(ids: set<string>, id: string)
    requires id !in ids
    ensures multiset(SessionLabels(ids + {id})) == multiset(SessionLabels(ids)) + multiset{Session(id)}
  {
    assert SessionLabels(ids + {id}) == SessionLabels(ids) + {Session(id)} && Session(id) !in SessionLabels(ids);
  }

  lemma CostsAdd(s: Store, ids: set<string>, id: string)
    requires ids <= Ids(s) && id in Ids(s) && id !in ids
    ensures ids + {id} <= Costs(s).Keys && ids <= Costs(s).Keys
    ensures Total(Costs(s), ids + {id}) == Total(Costs(s), ids) + Total(s, Covered(s, id))
  {
    TotalRemove(Costs(s), ids + {id}, id);
    assert ids + {id} - {id} == ids;
  }

  lemma PreviewReportSnoc(s: Store, front: seq<string>, id: string, days: nat, now: int)
    ensures PreviewLabels(s, front + [id], days, now)
         == PreviewLabels(s, front, days, now) + if Due(s, id, days, now) then [Session(id)] else []
    ensures PreviewBytes(s, front + [id], days, now)
         == PreviewBytes(s, front, days, now) + if Due(s, id, days, now) then Total(s, Covered(s, id)) else 0
  {
    var order := front + [id];
    assert order[..|order| - 1] == front && order[|order| - 1] == id;
  }

  /** A dry run's labels and bytes, told from the set of due sessions. */
  ghost predicate Unordered(s: Store, due: set<string>, labels: seq<Label>, bytes: nat) {
    && due <= Costs(s).Keys
    && multiset(labels) == multiset(SessionLabels(due)) && bytes == Total(Costs(s), due)
  }

  lemma UnorderedAdd(s: Store, due: set<string>, labels: seq<Label>, bytes: nat, id: string)
    requires Unordered(s, due, labels, bytes) && id in Ids(s) && id !in due
    ensures Unordered(s, due + {id}, labels + [Session(id)], bytes + Total(s, Covered(s, id)))
  {
    SessionLabelsAdd(due, id);
    CostsAdd(s, due, id);
  }

  lemma NothingUnordered(s: Store)
    ensures Unordered(s, {}, [], 0)
  {
    assert SessionLabels({}) == {};
  }

  lemma {:induction false} PreviewUnordered(s: Store, order: seq<string>, days: nat, now: int)
    requires forall i :: 0 <= i < |order| ==> order[i] in Ids(s)
    requires forall i, j :: 0 <= i < j < |order| ==> order[i] != order[j]
    ensures Unordered(s, DueIds(s, order, days, now), PreviewLabels(s, order, days, now), PreviewBytes(s, order, days, now))
  {
    if order == [] {
      assert DueIds(s, order, days, now) == {};
      NothingUnordered(s);
    } else {
      var front, id := order[..|order| - 1], order[|order| - 1];
      PreviewUnordered(s, front, days, now);
      assert order == front + [id];
      NextUnordered(s, front, id, days, now);
    }
  }

  lemma NextUnordered(s: Store, front: seq<string>, id: string, days: nat, now: int)
    requires id !in front && id in Ids(s)
    requires Unordered(s, DueIds(s, front, days, now), PreviewLabels(s, front, days, now), PreviewBytes(s, front, days, now))
    ensures var order := front + [id];
            Unordered(s, DueIds(s, order, days, now), PreviewLabels(s, order, days, now), PreviewBytes(s, order, days, now))
  {
    var order, due, labels := front + [id], DueIds(s, front, days, now), PreviewLabels(s, front, days, now);
    PreviewReportSnoc(s, front, id, days, now);
    DueIdsSnoc(s, front, id, days, now);
    if Due(s, id, days, now) {
      assert DueIds(s, order, days, now) == due + {id} && PreviewLabels(s, order, days, now) == labels + [Session(id)];
      UnorderedAdd(s, due, labels, PreviewBytes(s, front, days, now), id);
    } else {
      assert DueIds(s, order, days, now) == due && PreviewLabels(s, order, days, now) == labels;
    }
  }

  /** So any two listings of a directory give the same preview. */
  lemma PreviewsAgree(s: Store, order: seq<string>, other: seq<string>, days: nat, now: int)
    requires Lists(order, Ids(s)) && Lists(other, Ids(s))
    ensures multiset(PreviewLabels(s, order, days, now)) == multiset(PreviewLabels(s, other, days, now))
    ensures PreviewBytes(s, order, days, now) == PreviewBytes(s, other, days, now)
  {
    PreviewUnordered(s, order, days, now);
    PreviewUnordered(s, other, days, now);
    assert DueIds(s, order, days, now) == DueIds(s, other, days, now);
  }

  /** On one store on which each entry goes at most once, a dry run and a run without
      failures report the same sessions, the same orphans and the same bytes, though
      each lists the directory in an order of its own. */
  lemma DryRunPredicts(s: Store, dry: seq<string>, order: seq<string>, days: nat, now: int)
    requires EachOnce(s, days, now) && Lists(dry, Ids(s)) && Lists(order, Ids(s))
    ensures var rest := Swept(s, order, days, now, {});
            && multiset(SweptLabels(s, order, days, now, {})) == multiset(PreviewLabels(s, dry, days, now))
            && Orphans(rest, Ids(s), days, now) == Orphans(s, Ids(s), days, now)
            && SweptBytes(s, order, days, now, {}) + Total(rest, Orphans(rest, Ids(s), days, now))
               == PreviewBytes(s, dry, days, now) + Total(s, Orphans(s, Ids(s), days, now))
  {
    PreviewsAgree(s, dry, order, days, now);
    PreviewIsReport(s, order, days, now);
    SweptIsGoneWith(s, order, days, now, {});
    OrphansNotSwept(s, order, days, now);
    TotalSame(s, s - GoneWith(s, order, days, now, {}), Orphans(s, Ids(s), days, now));
  }

  /** The entries behind the labels and bytes of a dry run's first loop. */
  ghost function PreviewEntries(s: Store, order: seq<string>, days: nat, now: int): multiset<Key> {
    if order == [] then multiset{}
    else
      PreviewEntries(s, order[..|order| - 1], days, now)
      + if Due(s, order[|order| - 1], days, now) then multiset(Covered(s, order[|order| - 1])) else multiset{}
  }

  lemma DisjointUnion<K>(a: set<K>, b: set<K>)
    requires a !! b
    ensures multiset(a + b) == multiset(a) + multiset(b)
  {}

  lemma PreviewSnoc(s: Store, front: seq<string>, id: string, days: nat, now: int)
    ensures PreviewEntries(s, front + [id], days, now)
         == PreviewEntries(s, front, days, now) + multiset(if Due(s, id, days, now) then Covered(s, id) else {})
  {
    var order := front + [id];
    assert order[..|order| - 1] == front && order[|order| - 1] == id;
  }

  lemma {:induction false} PreviewedOnce(s: Store, order: seq<string>, days: nat, now: int)
    requires EachOnce(s, days, now)
    requires forall i, j :: 0 <= i < j < |order| ==> order[i] != order[j]
    ensures PreviewEntries(s, order, days, now) == multiset(GoneWith(s, order, days, now, {}))
  {
    if order == [] {
      assert GoneWith(s, order, days, now, {}) == {};
    } else {
      var front, id := order[..|order| - 1], order[|order| - 1];
      PreviewedOnce(s, front, days, now);
      assert order == front + [id];
      NextPreviewedOnce(s, front, id, days, now);
    }
  }

  lemma NextPreviewedOnce(s: Store, front: seq<string>, id: string, days: nat, now: int)
    requires EachOnce(s, days, now) && id !in front
    requires PreviewEntries(s, front, days, now) == multiset(GoneWith(s, front, days, now, {}))
    ensures PreviewEntries(s, front + [id], days, now) == multiset(GoneWith(s, front + [id], days, now, {}))
  {
    var gone, more := GoneWith(s, front, days, now, {}), if Due(s, id, days, now) then Covered(s, id) else {};
    GoneWithSnoc(s, front, id, days, now, {});
    PreviewSnoc(s, front, id, days, now);
    assert Covered(s, id) - {} == Covered(s, id);
    CoveredStays(s, front, id, days, now);
    DisjointUnion(gone, more);
  }

  /** An entry is previewed once for every session that is due and takes it along. */
  lemma {:induction false} PreviewedAtLeast(s: Store, order: seq<string>, i: nat, k: Key, days: nat, now: int)
    requires i < |order| && k in s && Due(s, order[i], days, now) && Covers(order[i], k)
    ensures PreviewEntries(s, order, days, now)[k] >= 1
    ensures forall j :: i < j < |order| && Due(s, order[j], days, now) && Covers(order[j], k) ==>
      PreviewEntries(s, order, days, now)[k] >= 2
  {
    var n := |order| - 1;
    if i < n {
      PreviewedAtLeast(s, order[..n], i, k, days, now);
      forall j | i < j < n && Due(s, order[j], days, now) && Covers(order[j], k)
        ensures PreviewEntries(s, order[..n], days, now)[k] >= 2
      {
        assert order[..n][j] == order[j];
      }
    }
  }

  /** Without any condition on the names: a dry run previews exactly the entries that
      a run without failures deletes, each once, if and only if no entry goes with
      two sessions that are due, or with one and as an orphan.  Each run lists the
      directory in an order of its own. */
  lemma DryRunExactlyWhen(s: Store, dry: seq<string>, order: seq<string>, days: nat, now: int)
    requires Lists(dry, Ids(s)) && Lists(order, Ids(s))
    ensures PreviewEntries(s, dry, days, now) + multiset(Orphans(s, Ids(s), days, now))
            == multiset(s.Keys - Cleaned(s, order, days, now, {}).Keys)
       <==> EachOnce(s, days, now)
  {
    var previewed := PreviewEntries(s, dry, days, now) + multiset(Orphans(s, Ids(s), days, now));
    if EachOnce(s, days, now) {
      EachOnceIsExact(s, dry, order, days, now);
    } else {
      var k := PreviewedTwice(s, dry, days, now);
      assert previewed[k] >= 2;
    }
  }

  /** Otherwise some entry is previewed twice. */
  lemma PreviewedTwice(s: Store, order: seq<string>, days: nat, now: int) returns (k: Key)
    requires Lists(order, Ids(s)) && !EachOnce(s, days, now)
    ensures PreviewEntries(s, order, days, now)[k] + multiset(Orphans(s, Ids(s), days, now))[k] >= 2
  {
    if id, other, e :| Due(s, id, days, now) && Due(s, other, days, now) && e in s && Covers(id, e) && Covers(other, e) && id != other {
      k := e;
      WithTwoSessions(s, order, id, other, k, days, now);
    } else {
      var id, e :| Due(s, id, days, now) && e in s && Covers(id, e) && IsOrphan(s, Ids(s), e, days, now);
      k := e;
      PreviewedAtLeast(s, order, Turn(s, order, id), k, days, now);
      assert k in Orphans(s, Ids(s), days, now);
    }
  }

  lemma WithTwoSessions(s: Store, order: seq<string>, id: string, other: string, k: Key, days: nat, now: int)
    requires Lists(order, Ids(s)) && k in s && id != other
    requires Due(s, id, days, now) && Due(s, other, days, now) && Covers(id, k) && Covers(other, k)
    ensures PreviewEntries(s, order, days, now)[k] >= 2
  {
    var i, j := Turn(s, order, id), Turn(s, order, other);
    if i < j {
      PreviewedAtLeast(s, order, i, k, days, now);
    } else {
      assert i != j;
      PreviewedAtLeast(s, order, j, k, days, now);
    }
  }

  ghost function Turn(s: Store, order: seq<string>, id: string): (i: nat)
    requires Lists(order, Ids(s)) && DatasetOf(id) in s
    ensures i < |order| && order[i] == id
  {
    assert id in Ids(s);
    var i :| 0 <= i < |order| && order[i] == id;
    i
  }

  /** Which entries go does not depend on the order either. */
  lemma GoneUnordered(s: Store, order: seq<string>, other: seq<string>, days: nat, now: int, failing: set<Key>)
    requires Lists(order, Ids(s)) && Lists(other, Ids(s))
    ensures GoneWith(s, order, days, now, failing) == GoneWith(s, other, days, now, failing)
  {
    GoneListed(s, order, other, days, now, failing);
    GoneListed(s, other, order, days, now, failing);
  }

  lemma GoneListed(s: Store, order: seq<string>, other: seq<string>, days: nat, now: int, failing: set<Key>)
    requires Lists(order, Ids(s)) && Lists(other, Ids(s))
    ensures GoneWith(s, order, days, now, failing) <= GoneWith(s, other, days, now, failing)
  {
    forall k | k in GoneWith(s, order, days, now, failing) ensures k in GoneWith(s, other, days, now, failing) {
      var i :| 0 <= i < |order| && Due(s, order[i], days, now) && Covers(order[i], k);
      var j := Turn(s, other, order[i]);
      assert Due(s, other[j], days, now) && Covers(other[j], k);
    }
  }

  lemma EachOnceIsExact(s: Store, dry: seq<string>, order: seq<string>, days: nat, now: int)
    requires EachOnce(s, days, now) && Lists(dry, Ids(s)) && Lists(order, Ids(s))
    ensures PreviewEntries(s, dry, days, now) + multiset(Orphans(s, Ids(s), days, now))
            == multiset(s.Keys - Cleaned(s, order, days, now, {}).Keys)
  {
    var gone, orphans := GoneWith(s, order, days, now, {}), Orphans(s, Ids(s), days, now);
    PreviewedOnce(s, dry, days, now);
    GoneUnordered(s, dry, order, days, now, {});
    SweptIsGoneWith(s, order, days, now, {});
    OrphansNotSwept(s, order, days, now);
    TakenAway(s, gone, orphans);
    DisjointUnion(gone, orphans);
  }

  lemma TakenAway(s: Store, gone: set<Key>, orphans: set<Key>)
    requires gone <= s.Keys && orphans <= s.Keys
    ensures s.Keys - (s - gone - (orphans - {})).Keys == gone + orphans
  {}

  lemma {:induction false} SweptBytesBalance(s: Store, order: seq<string>, days: nat, now: int, failing: set<Key>)
    ensures var rest := Swept(s, order, days, now, failing);
            Total(s, s.Keys) == Total(rest, rest.Keys) + SweptBytes(s, order, days, now, failing)
  {
    if order != [] {
      var front, id := order[..|order| - 1], order[|order| - 1];
      SweptBytesBalance(s, front, days, now, failing);
      var rest := Swept(s, front, days, now, failing);
      TotalMinus(rest, Covered(rest, id) - failing);
    }
  }

  /** The reported bytes are the size of the store before less its size after,
      whatever the names and whatever fails. */
  lemma BytesBalance(s: Store, order: seq<string>, days: nat, now: int, failing: set<Key>)
    ensures var rest := Swept(s, order, days, now, failing);
            var after := Cleaned(s, order, days, now, failing);
            Total(s, s.Keys)
            == Total(after, after.Keys) + SweptBytes(s, order, days, now, failing)
               + Total(rest, Orphans(rest, Ids(s), days, now) - failing)
  {
    var rest := Swept(s, order, days, now, failing);
    SweptBytesBalance(s, order, days, now, failing);
    TotalMinus(rest, Orphans(rest, Ids(s), days, now) - failing);
  }

  // ----- running again -----

  /** Left behind by a run: read as belonging to a session that was due, but not
      among what goes with it, and expired itself.  These are the expired
      `.dataset.stale-revision-*` and `.dataset.bak.*` entries. */
  ghost predicate Leftover(s: Store, k: Key, days: nat, now: int) {
    && k in s && Owner(k).Some? && Due(s, Owner(k).value, days, now)
    && !Covers(Owner(k).value, k) && Expired(s[k], days, now)
  }

  /** What kind of entry a leftover is. */
  lemma LeftoverIsVariant(s: Store, k: Key, days: nat, now: int)
    requires Leftover(s, k, days, now)
    ensures k.root.SessionRoot? && (Occurs(k.name, STALE) || Occurs(k.name, BACKUP))
  {
    OwnerReads(k);
  }

  lemma LedgerReads(name: string, id: string)
    requires LEDGER <= name && id == Before(name[|LEDGER|..], '.')
    ensures LEDGER + id <= name
  {
    assert id <= name[|LEDGER|..];
    assert name == LEDGER + name[|LEDGER|..];
  }

  lemma SessionOwnerReads(k: Key)
    requires k.root.SessionRoot? && Owner(k).Some?
    ensures Covers(Owner(k).value, k) || Occurs(k.name, STALE) || Occurs(k.name, BACKUP)
  {
    StripSuffixRejoins(k.name, DATASET);
    if !EndsWith(k.name, DATASET) {
      FindIsFirst(k.name, STALE, 0);
      FindIsFirst(k.name, BACKUP, 0);
      if Find(k.name, STALE).None? && Find(k.name, BACKUP).None? {
        LedgerReads(k.name, Owner(k).value);
      }
    }
  }

  /** An entry goes with the session it is read as belonging to, unless it is a
      variant of the dataset. */
  lemma OwnerReads(k: Key)
    ensures Owner(k).Some? ==>
              || Covers(Owner(k).value, k)
              || (k.root.SessionRoot? && (Occurs(k.name, STALE) || Occurs(k.name, BACKUP)))
  {
    if Owner(k).Some? {
      if k.root.SessionRoot? {
        SessionOwnerReads(k);
      } else {
        StripSuffixRejoins(k.name, LOCK);
        StripSuffixRejoins(k.name, BACKGROUND);
      }
    }
  }

  lemma IdsAfter(s: Store, days: nat, now: int)
    requires Agree(s)
    ensures forall id :: id in Ids(s - Leaving(s, days, now)) <==> id in Ids(s) && !Due(s, id, days, now)
    ensures Agree(s - Leaving(s, days, now))
  {
    var t := s - Leaving(s, days, now);
    forall id ensures id in Ids(t) <==> id in Ids(s) && !Due(s, id, days, now) {
      DatasetOwned(id);
    }
  }

  /** Where the two readings agree, a second failure-free run at the same moment
      deletes exactly the leftovers of the sessions the first one cleared. */
  lemma SecondRunTakesLeftovers(s: Store, order: seq<string>, again: seq<string>, days: nat, now: int)
    requires Agree(s) && Lists(order, Ids(s))
    requires var t := Cleaned(s, order, days, now, {}); Lists(again, Ids(t))
    ensures var t := Cleaned(s, order, days, now, {});
            && Cleaned(t, again, days, now, {}) == t - (set k | k in s && Leftover(s, k, days, now))
            && Agree(t)
  {
    var t := s - Leaving(s, days, now);
    ExactlyTheseGo(s, order, days, now, {});
    assert Leaving(s, days, now) - {} == Leaving(s, days, now);
    IdsAfter(s, days, now);
    ExactlyTheseGo(t, again, days, now, {});
    assert Leaving(t, days, now) - {} == Leaving(t, days, now);
    forall k | k in t ensures k in Leaving(t, days, now) <==> Leftover(s, k, days, now) {
      LeavingAgain(s, k, days, now);
    }
  }

  /** What leaves in the second run, entry by entry. */
  lemma LeavingAgain(s: Store, k: Key, days: nat, now: int)
    requires Agree(s) && k in s && k !in Leaving(s, days, now)
    ensures var t := s - Leaving(s, days, now);
            k in Leaving(t, days, now) <==> Leftover(s, k, days, now)
  {
    var t := s - Leaving(s, days, now);
    IdsAfter(s, days, now);
    assert !GoesWithSession(s, k, days, now) && !IsOrphan(s, Ids(s), k, days, now);
    OrphanStays(s, Leaving(s, days, now), Ids(t), k, days, now);
    if Owner(k).Some? {
      var id := Owner(k).value;
      assert Due(t, id, days, now) ==> id in Ids(t) && Due(s, id, days, now);
      assert Due(s, id, days, now) ==> id in Ids(s);
    }
  }

  /** So where the two readings agree, a caller can tell from the first store
      whether the second run will delete anything. */
  lemma IdempotentWithoutLeftovers(s: Store, order: seq<string>, again: seq<string>, days: nat, now: int)
    requires Agree(s) && Lists(order, Ids(s))
    requires var t := Cleaned(s, order, days, now, {}); Lists(again, Ids(t))
    ensures var t := Cleaned(s, order, days, now, {});
            Cleaned(t, again, days, now, {}) == t <==> forall k :: k in s ==> !Leftover(s, k, days, now)
  {
    SecondRunTakesLeftovers(s, order, again, days, now);
    var t := Cleaned(s, order, days, now, {});
    ExactlyTheseGo(s, order, days, now, {});
    var left := set k | k in s && Leftover(s, k, days, now);
    forall k | k in left ensures k in t {
      LeftoverStays(s, k, days, now);
    }
    if forall k :: k in s ==> !Leftover(s, k, days, now) {
      assert left == {};
      assert t - left == t;
    } else {
      var k :| k in s && Leftover(s, k, days, now);
      assert k in left && k in t && k !in t - left;
    }
  }

  lemma LeftoverStays(s: Store, k: Key, days: nat, now: int)
    requires Leftover(s, k, days, now)
    ensures k !in Leaving(s, days, now)
  {
    assert Owner(k).value in Ids(s);
  }

  // ----- running again, whatever the names -----

  /** Once an id has been visited, its session is not due any more. */
  lemma VisitedNotDue(s: Store, order: seq<string>, i: nat, days: nat, now: int)
    requires i < |order|
    ensures !Due(Swept(s, order, days, now, {}), order[i], days, now)
  {
    var upto, rest := order[..i + 1], Swept(s, order[..i], days, now, {});
    assert upto[..i] == order[..i];
    DatasetOwned(order[i]);
    assert !Due(Swept(s, upto, days, now, {}), order[i], days, now);
    SweptShrinks(s, order, i + 1, days, now, {});
    SweptShrinks(s, upto, 0, days, now, {});
  }

  lemma CleanedShrinks(s: Store, order: seq<string>, days: nat, now: int)
    ensures var t := Cleaned(s, order, days, now, {}); forall k :: k in t ==> k in s && t[k] == s[k]
  {
    SweptShrinks(s, order, 0, days, now, {});
  }

  lemma NobodyDueAfter(s: Store, order: seq<string>, days: nat, now: int)
    requires Lists(order, Ids(s))
    ensures forall id :: !Due(Cleaned(s, order, days, now, {}), id, days, now)
  {
    var t := Cleaned(s, order, days, now, {});
    CleanedShrinks(s, order, days, now);
    forall id ensures !Due(t, id, days, now) {
      if DatasetOf(id) in t {
        assert id in Ids(s);
        var i :| 0 <= i < |order| && order[i] == id;
        VisitedNotDue(s, order, i, days, now);
      }
    }
  }

  lemma {:induction false} SweepsNothing(t: Store, order: seq<string>, days: nat, now: int)
    requires forall id :: !Due(t, id, days, now)
    ensures Swept(t, order, days, now, {}) == t
  {
    if order != [] {
      SweepsNothing(t, order[..|order| - 1], days, now);
    }
  }

  /** A second failure-free run at the same moment deletes exactly the orphans that
      the first one has made. */
  lemma SecondRunTakesOrphans(s: Store, order: seq<string>, again: seq<string>, days: nat, now: int)
    requires Lists(order, Ids(s))
    ensures var t := Cleaned(s, order, days, now, {});
            Cleaned(t, again, days, now, {}) == t - Orphans(t, Ids(t), days, now)
  {
    var t := Cleaned(s, order, days, now, {});
    NobodyDueAfter(s, order, days, now);
    SweepsNothing(t, again, days, now);
    assert Orphans(t, Ids(t), days, now) - {} == Orphans(t, Ids(t), days, now);
  }

  lemma NoOldOrphans(s: Store, order: seq<string>, k: Key, days: nat, now: int)
    ensures var t := Cleaned(s, order, days, now, {}); k in t ==> !IsOrphan(t, Ids(s), k, days, now)
  {
    var rest := Swept(s, order, days, now, {});
    assert Orphans(rest, Ids(s), days, now) - {} == Orphans(rest, Ids(s), days, now);
  }

  /** The second run deletes nothing exactly when no entry that is left and expired
      belongs to a session which the first run has cleared.  So the idempotence the
      file header claims holds on just those stores. */
  lemma IdempotentExactlyWhen(s: Store, order: seq<string>, again: seq<string>, days: nat, now: int)
    requires Lists(order, Ids(s))
    ensures var t := Cleaned(s, order, days, now, {});
            Cleaned(t, again, days, now, {}) == t
            <==> forall k :: k in t && Expired(t[k], days, now) && Owner(k).Some? && Owner(k).value in Ids(s)
                             ==> Owner(k).value in Ids(t)
  {
    var t := Cleaned(s, order, days, now, {});
    var gone := Orphans(t, Ids(t), days, now);
    SecondRunTakesOrphans(s, order, again, days, now);
    forall k | k in t ensures !IsOrphan(t, Ids(s), k, days, now) {
      NoOldOrphans(s, order, k, days, now);
    }
    if t - gone == t {
      forall k | k in t ensures k !in gone {
        assert k in t - gone;
      }
    } else {
      assert gone != {} by {
        assert gone == {} ==> t - gone == t;
      }
    }
  }

  /** No dataset is an orphan, so deleting orphans leaves the ids as they are. */
  lemma OrphansKeepIds(t: Store, days: nat, now: int)
    ensures var u := t - Orphans(t, Ids(t), days, now);
            && (forall id :: id in Ids(u) <==> id in Ids(t))
            && Orphans(u, Ids(u), days, now) == {}
  {
    var u := t - Orphans(t, Ids(t), days, now);
    forall id ensures id in Ids(u) <==> id in Ids(t) {
      DatasetOwned(id);
    }
    forall k | k in u ensures !IsOrphan(u, Ids(u), k, days, now) {
      assert !IsOrphan(t, Ids(t), k, days, now);
    }
  }

  /** A third run deletes nothing, on any store. */
  lemma ThirdRunRests(s: Store, order: seq<string>, again: seq<string>, third: seq<string>, days: nat, now: int)
    requires Lists(order, Ids(s))
    ensures var t := Cleaned(s, order, days, now, {});
            var u := Cleaned(t, again, days, now, {});
            Cleaned(u, third, days, now, {}) == u
  {
    var t := Cleaned(s, order, days, now, {});
    var u := Cleaned(t, again, days, now, {});
    SecondRunTakesOrphans(s, order, again, days, now);
    NobodyDueAfter(s, order, days, now);
    OrphansKeepIds(t, days, now);
    forall id ensures !Due(u, id, days, now) {
      assert DatasetOf(id) in u ==> DatasetOf(id) in t && !Due(t, id, days, now);
    }
    SweepsNothing(u, third, days, now);
    assert u - ({} - {}) == u;
  }

  // ----- when the two readings agree -----

  ghost predicate Plain(id: string) {
    id != "" && '.' !in id && !(LEDGER <= id)
  }

  /** Every owner is plain, and none is a proper prefix of another. */
  ghost predicate PlainOwners(s: Store) {
    && (forall k :: k in s && Owner(k).Some? ==> Plain(Owner(k).value))
    && (forall j, k :: j in s && k in s && Owner(j).Some? && Owner(k).Some? && Owner(j).value <= Owner(k).value
          ==> Owner(j) == Owner(k))
  }

  /** For session ids without dots that are not prefixes of one another (and are
      not empty and do not start like a ledger) the two readings agree. */
  lemma PlainOwnersAgree(s: Store)
    requires PlainOwners(s)
    ensures Agree(s)
  {
    forall id, k | id in Ids(s) && k in s && Covers(id, k) ensures Owner(k) == Some(id) {
      DatasetOwned(id);
      assert Plain(id) by { assert Owner(DatasetOf(id)) == Some(id); }
      match k.root
      case ToolResultsRoot =>
      case SessionsRoot =>
        CompanionOwned(id);
      case SessionRoot =>
        if k.name != id + DATASET {
          LedgerOwner(id, k.name);
          assert Owner(k).Some? && Plain(Owner(k).value);
          assert Owner(DatasetOf(id)).value <= Owner(k).value;
        }
    }
  }

  lemma CompanionOwned(id: string)
    ensures Owner(Key(SessionsRoot, id + LOCK)) == Some(id)
    ensures Owner(Key(SessionsRoot, id + BACKGROUND)) == Some(id)
  {
    assert (id + LOCK)[|id|..] == LOCK && (id + LOCK)[..|id|] == id;
    var name := id + BACKGROUND;
    assert name[|id|..] == BACKGROUND && name[..|id|] == id;
    assert name[|name| - 1] == 's';
    EndsWithLast(name, LOCK);
  }

  /** A name that starts like a ledger of a plain id is read as belonging to an id
      that extends it, if that id is plain. */
  lemma LedgerOwner(id: string, name: string)
    requires Plain(id) && LEDGER + id <= name
    ensures var owner := Owner(Key(SessionRoot, name));
            owner.Some? && (Plain(owner.value) ==> id <= owner.value)
  {
    assert LEDGER == (LEDGER + id)[..|LEDGER|] == name[..|LEDGER|];
    if EndsWith(name, DATASET) {
      var i := |name| - |DATASET|;
      assert name[i] == name[i..][0] == '.';
      CutAtDot(id, name, i);
    } else if Find(name, STALE).Some? {
      FoundDot(name, STALE);
      CutAtDot(id, name, Find(name, STALE).value);
    } else if Find(name, BACKUP).Some? {
      FoundDot(name, BACKUP);
      CutAtDot(id, name, Find(name, BACKUP).value);
    } else {
      assert id <= name[|LEDGER|..] by {
        assert id == (LEDGER + id)[|LEDGER|..] == name[..|LEDGER| + |id|][|LEDGER|..];
      }
    }
  }

  lemma FoundDot(name: string, marker: string)
    requires Find(name, marker).Some? && marker != "" && marker[0] == '.'
    ensures Find(name, marker).value < |name| && name[Find(name, marker).value] == '.'
  {
    FindIsFirst(name, marker, 0);
    var i := Find(name, marker).value;
    assert name[i..i + |marker|][0] == name[i];
  }

  /** Cut at a dot, such a name still starts like a ledger. */
  lemma CutAtDot(id: string, name: string, i: nat)
    requires '.' !in id && LEDGER + id <= name && i < |name| && name[i] == '.'
    ensures LEDGER <= name[..i]
  {
    var p := LEDGER + id;
    assert '.' !in LEDGER;
    forall j | 0 <= j < |p| ensures name[j] != '.' {
      assert name[j] == name[..|p|][j] == p[j];
    }
    assert name[..i][..|LEDGER|] == name[..|p|][..|LEDGER|] == p[..|LEDGER|];
  }

  // ----- stores on which the promises fail -----

  const DAY: int := SECONDS_PER_DAY * NANOS

  lemma OldAndNew(bytes: nat)
    ensures Expired(File(0, bytes), 1, DAY) && !Expired(File(DAY, bytes), 1, DAY)
  {
    assert DAY in Times(File(DAY, bytes));
  }

  /** A backup variant of an expired dataset survives the first run and goes in the
      second, so cleaning up is not idempotent. */
  lemma NotIdempotent() returns (s: Store, order: seq<string>, again: seq<string>)
    ensures Agree(s) && Lists(order, Ids(s)) && Lists(again, Ids(Cleaned(s, order, 1, DAY, {})))
    ensures var t := Cleaned(s, order, 1, DAY, {}); Cleaned(t, again, 1, DAY, {}) != t
  {
    var variant;
    s, variant := VariantStore();
    order := ListingExists(Ids(s));
    again := ListingExists(Ids(Cleaned(s, order, 1, DAY, {})));
    IdempotentWithoutLeftovers(s, order, again, 1, DAY);
  }

  lemma VariantStore() returns (s: Store, variant: Key)
    ensures Agree(s) && variant in s && Leftover(s, variant, 1, DAY)
  {
    variant := Key(SessionRoot, "a" + BACKUP + "1");
    s := map[DatasetOf("a") := File(0, 1), variant := File(0, 1)];
    DatasetOwned("a");
    VariantOwned();
    OldAndNew(1);
  }

  /** Where the two readings differ, the second run can delete something without any
      leftover: a dataset named like a ledger goes with another session, and its own
      lock becomes an orphan. */
  lemma NotIdempotentWithoutLeftovers() returns (s: Store, order: seq<string>, again: seq<string>)
    ensures Lists(order, Ids(s)) && Lists(again, Ids(Cleaned(s, order, 1, DAY, {})))
    ensures forall k :: k in s ==> !Leftover(s, k, 1, DAY)
    ensures var t := Cleaned(s, order, 1, DAY, {}); Cleaned(t, again, 1, DAY, {}) != t
  {
    var id := LEDGER + "x";
    var lock := Key(SessionsRoot, id + LOCK);
    s := LedgerStore();
    order := ListingExists(Ids(s));
    DueGoesAltogether(s, order, "x", 1, DAY);
    SweptIsGoneWith(s, order, 1, DAY, {});
    var t := Cleaned(s, order, 1, DAY, {});
    CompanionOwned(id);
    assert id in Ids(s) && id !in Ids(t);
    assert lock !in GoneWith(s, order, 1, DAY, {});
    assert lock in t && t[lock] == s[lock];
    again := ListingExists(Ids(t));
    IdempotentExactlyWhen(s, order, again, 1, DAY);
  }

  /** An old dataset, a fresh one named like a ledger of the old one, and an old lock. */
  lemma LedgerStore() returns (s: Store)
    ensures var id := LEDGER + "x"; var lock := Key(SessionsRoot, id + LOCK);
            && lock in s && Expired(s[lock], 1, DAY) && !Covers("x", lock)
            && DatasetOf(id) in s && Covers("x", DatasetOf(id))
            && (forall due :: Due(s, due, 1, DAY) <==> due == "x")
            && EachOnce(s, 1, DAY) && (forall k :: k in s ==> !Leftover(s, k, 1, DAY))
  {
    var id := LEDGER + "x";
    var lock := Key(SessionsRoot, id + LOCK);
    s := map[DatasetOf("x") := File(0, 1), DatasetOf(id) := File(DAY, 1), lock := File(0, 1)];
    OldAndNew(1);
    DatasetOwned("x");
    DatasetOwned(id);
    CompanionOwned(id);
    assert |id| == 23 && |"x" + LOCK| == 6 && |"x" + BACKGROUND| == 20 && |id + LOCK| == 28 && |"x" + DATASET| == 9;
    assert (id + DATASET)[..|id|] == id;
    forall due ensures Due(s, due, 1, DAY) <==> due == "x" {
      DatasetOwned(due);
    }
  }

  lemma VariantOwned()
    ensures var k := Key(SessionRoot, "a" + BACKUP + "1"); Owner(k) == Some("a") && !Covers("a", k)
  {
    var name := "a" + BACKUP + "1";
    FindIsFirst(name, STALE, 0);
    FindIsFirst(name, BACKUP, 0);
    EndsWithLast(name, DATASET);
    assert name[|name| - 1] == '1';
    assert |STALE| > |name| && |LEDGER + "a"| > |name|;
    assert OccursAt(name, BACKUP, 1);
    OccursReadsFirst(name, BACKUP, 0);
    assert name[..1] == "a";
    assert |name| != |"a" + DATASET|;
  }

  /** One id a prefix of another: the fresh session's ledger goes with the old one. */
  lemma PrefixIdsAreUnsafe() returns (s: Store)
    ensures forall k :: k in s ==> Owner(k) == Some("a") || Owner(k) == Some("ab")
    ensures !(forall order, k :: Lists(order, Ids(s)) && Protected(s, k, 1, DAY) ==> k in Cleaned(s, order, 1, DAY, {}))
  {
    var ledger;
    s, ledger := PrefixStore();
    var order := TakenFirst(s, "a", ledger, 1, DAY);
  }

  lemma PrefixStore() returns (s: Store, ledger: Key)
    ensures forall k :: k in s ==> Owner(k) == Some("a") || Owner(k) == Some("ab")
    ensures Due(s, "a", 1, DAY) && Covers("a", ledger) && Protected(s, ledger, 1, DAY)
  {
    ledger := Key(SessionRoot, LEDGER + "ab");
    DatasetOwned("a");
    DatasetOwned("ab");
    LedgerOwned();
    assert |"a" + DATASET| == 9 && |"ab" + DATASET| == 10 && |LEDGER + "ab"| == 24;
    s := map[DatasetOf("a") := File(0, 1), DatasetOf("ab") := File(DAY, 1), ledger := File(DAY, 1)];
    OldAndNew(1);
    assert DatasetOf("a") in s && DatasetOf("ab") in s && ledger in s;
  }

  lemma LedgerName()
    ensures var name := LEDGER + "ab";
            && !EndsWith(name, DATASET) && LEDGER <= name && LEDGER + "a" <= name
            && name[|LEDGER|..] == "ab" && Before("ab", '.') == "ab"
  {
    var name := LEDGER + "ab";
    EndsWithLast(name, DATASET);
    assert name[|name| - 1] == 'b';
    assert name[..|LEDGER| + 1] == LEDGER + "a";
    assert "ab"[1..] == "b" && "b"[1..] == "";
    assert Before("b", '.') == "b";
  }

  lemma LedgerHasNoMarker()
    ensures var name := LEDGER + "ab"; Find(name, STALE).None? && Find(name, BACKUP).None?
  {
    var name := LEDGER + "ab";
    FindIsFirst(name, STALE, 0);
    FindIsFirst(name, BACKUP, 0);
    assert '.' !in name;
    forall i: nat, marker | marker == STALE || marker == BACKUP ensures !OccursAt(name, marker, i) {
      OccursReadsFirst(name, marker, i);
    }
  }

  lemma LedgerOwned()
    ensures var k := Key(SessionRoot, LEDGER + "ab"); Owner(k) == Some("ab") && Covers("a", k)
  {
    LedgerName();
    LedgerHasNoMarker();
  }

  /** A dataset named `.dataset` has the empty id; when it is due, the tool results
      of every session go. */
  lemma EmptyIdIsUnsafe() returns (s: Store)
    ensures !(forall order, k :: Lists(order, Ids(s)) && Protected(s, k, 1, DAY) ==> k in Cleaned(s, order, 1, DAY, {}))
  {
    var results := Key(ToolResultsRoot, "b");
    s := map[DatasetOf("") := File(0, 1), DatasetOf("b") := File(DAY, 1), results := File(DAY, 1)];
    OldAndNew(1);
    assert DatasetOf("") != DatasetOf("b") by { assert |"" + DATASET| != |"b" + DATASET|; }
    assert Due(s, "", 1, DAY) && Protected(s, results, 1, DAY) && Covers("", results);
    var order := TakenFirst(s, "", results, 1, DAY);
  }
}
