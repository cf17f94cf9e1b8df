/** Whose an entry is, what goes with a session and what survives, told by the names
    themselves (agent/composition/src/disk_cleanup.rs). */
module CleanupNames {
  import opened Wrappers
  import opened Text
  import opened Aging
  import opened DiskCleanup
  import opened CleanupGuarantees

  // ----- reading the owner off a name -----

  /** After an id without dots, a marker that starts with a dot is found at once. */
  lemma FirstMarker(id: string, marker: string, rest: string)
    requires '.' !in id && marker != "" && marker[0] == '.'
    ensures Find(id + marker + rest, marker) == Some(|id|)
  {
    var name := id + marker + rest;
    assert OccursAt(name, marker, |id|);
    forall i | 0 <= i < |id| ensures name[i] != '.' {
      assert name[i] == id[i];
    }
    FindIsFirst(name, marker, 0);
    OccursReadsFirst(name, marker, Find(name, marker).value);
  }

  lemma FindsOnly(name: string, marker: string)
    ensures Find(name, marker).Some? <==> Occurs(name, marker)
    ensures Find(name, marker).Some? ==> OccursAt(name, marker, Find(name, marker).value)
  {
    FindIsFirst(name, marker, 0);
  }

  /** The four readings of a name, one at a time. */
  lemma ReadAsDataset(name: string)
    requires EndsWith(name, ".dataset")
    ensures Owner(Key(SessionRoot, name)) == Some(name[..|name| - 8])
  {}

  lemma ReadAsStale(name: string, i: nat)
    requires !EndsWith(name, ".dataset") && Find(name, ".dataset.stale-revision-") == Some(i)
    ensures i <= |name| && Owner(Key(SessionRoot, name)) == Some(name[..i])
  {
    FindsOnly(name, ".dataset.stale-revision-");
  }

  lemma ReadAsBackup(name: string, i: nat)
    requires !EndsWith(name, ".dataset") && Find(name, ".dataset.stale-revision-").None?
    requires Find(name, ".dataset.bak.") == Some(i)
    ensures i <= |name| && Owner(Key(SessionRoot, name)) == Some(name[..i])
  {
    FindsOnly(name, ".dataset.bak.");
  }

  lemma ReadAsLedger(tail: string)
    requires var name := "accepted-input-ledger-" + tail;
             && !EndsWith(name, ".dataset")
             && Find(name, ".dataset.stale-revision-").None? && Find(name, ".dataset.bak.").None?
    ensures Owner(Key(SessionRoot, "accepted-input-ledger-" + tail)) == Some(Before(tail, '.'))
  {
    var name := "accepted-input-ledger-" + tail;
    assert LEDGER <= name && name[|LEDGER|..] == tail;
  }

  /** `<id>.dataset.stale-revision-<rest>` is read as belonging to `<id>`, unless it
      ends like a dataset. */
  lemma StaleIsOwned(id: string, rest: string)
    requires '.' !in id
    ensures var name := id + ".dataset.stale-revision-" + rest;
            Owner(Key(SessionRoot, name)) == Some(id) <==> !EndsWith(name, ".dataset")
  {
    var name := id + ".dataset.stale-revision-" + rest;
    FirstMarker(id, ".dataset.stale-revision-", rest);
    assert name[..|id|] == id && |name| >= |id| + 24;
    if EndsWith(name, ".dataset") {
      ReadAsDataset(name);
    } else {
      ReadAsStale(name, |id|);
    }
  }

  /** `<id>.dataset.bak.<rest>` likewise, unless a stale-revision marker follows. */
  lemma BackupIsOwned(id: string, rest: string)
    requires '.' !in id
    ensures var name := id + ".dataset.bak." + rest;
            Owner(Key(SessionRoot, name)) == Some(id)
            <==> !EndsWith(name, ".dataset") && !Occurs(name, ".dataset.stale-revision-")
  {
    var name := id + ".dataset.bak." + rest;
    FirstMarker(id, ".dataset.bak.", rest);
    assert name[..|id|] == id && |name| >= |id| + 13;
    FindsOnly(name, ".dataset.bak.");
    FindsOnly(name, ".dataset.stale-revision-");
    NotBoth(name, |id|, ".dataset.bak.", ".dataset.stale-revision-", 9);
    BackupReadings(name, |id|);
    CutElsewhere(name, id, Owner(Key(SessionRoot, name)), Find(name, ".dataset.stale-revision-"), EndsWith(name, ".dataset"));
  }

  lemma BackupReadings(name: string, i: nat)
    requires Find(name, ".dataset.bak.") == Some(i) && i <= |name|
    ensures EndsWith(name, ".dataset") ==> Owner(Key(SessionRoot, name)) == Some(name[..|name| - 8])
    ensures !EndsWith(name, ".dataset") && Find(name, ".dataset.stale-revision-").Some? ==>
      var j := Find(name, ".dataset.stale-revision-").value;
      j <= |name| && Owner(Key(SessionRoot, name)) == Some(name[..j])
    ensures !EndsWith(name, ".dataset") && Find(name, ".dataset.stale-revision-").None? ==>
      Owner(Key(SessionRoot, name)) == Some(name[..i])
  {
    if EndsWith(name, ".dataset") {
      ReadAsDataset(name);
    } else if Find(name, ".dataset.stale-revision-").Some? {
      ReadAsStale(name, Find(name, ".dataset.stale-revision-").value);
    } else {
      ReadAsBackup(name, i);
    }
  }

  lemma CutElsewhere(name: string, id: string, owner: Option<string>, stale: Option<nat>, dataset: bool)
    requires |name| >= |id| + 13 && name[..|id|] == id
    requires dataset ==> owner == Some(name[..|name| - 8])
    requires !dataset && stale.Some? ==> stale.value <= |name| && stale.value != |id| && owner == Some(name[..stale.value])
    requires !dataset && stale.None? ==> owner == Some(name[..|id|])
    ensures owner == Some(id) <==> !dataset && stale.None?
  {}

  /** Markers that differ do not start at one place. */
  lemma NotBoth(name: string, i: nat, a: string, b: string, j: nat)
    requires j < |a| && j < |b| && a[j] != b[j] && OccursAt(name, a, i)
    ensures !OccursAt(name, b, i)
  {
    assert name[i..i + |a|][j] == name[i + j];
    CharAt(name, i, b, j);
  }

  lemma CharAt(name: string, i: nat, b: string, j: nat)
    requires j < |b|
    ensures OccursAt(name, b, i) ==> name[i + j] == b[j]
  {
    if OccursAt(name, b, i) {
      assert name[i..i + |b|][j] == name[i + j];
    }
  }

  /** `accepted-input-ledger-<id>.<rest>` belongs to `<id>`, unless it ends like a
      dataset or holds one of the two markers. */
  lemma LedgerIsOwned(id: string, rest: string)
    requires '.' !in id
    ensures var name := "accepted-input-ledger-" + (id + "." + rest);
            Owner(Key(SessionRoot, name)) == Some(id)
            <==> !EndsWith(name, ".dataset") && !Occurs(name, ".dataset.stale-revision-") && !Occurs(name, ".dataset.bak.")
  {
    var tail := id + "." + rest;
    var name := "accepted-input-ledger-" + tail;
    assert tail == id + ("." + rest) && "accepted-input-ledger-" + id + "." <= name;
    FindsOnly(name, ".dataset.stale-revision-");
    FindsOnly(name, ".dataset.bak.");
    BeforeDot(id, "." + rest);
    LedgerRead(id, tail);
  }

  lemma LedgerRead(id: string, tail: string)
    requires '.' !in id && Before(tail, '.') == id && "accepted-input-ledger-" + id + "." <= "accepted-input-ledger-" + tail
    ensures var name := "accepted-input-ledger-" + tail;
            Owner(Key(SessionRoot, name)) == Some(id)
            <==> !EndsWith(name, ".dataset")
                 && Find(name, ".dataset.stale-revision-").None? && Find(name, ".dataset.bak.").None?
  {
    var name := "accepted-input-ledger-" + tail;
    if !EndsWith(name, ".dataset") && Find(name, ".dataset.stale-revision-").None? && Find(name, ".dataset.bak.").None? {
      ReadAsLedger(tail);
    } else {
      MarkedIsLonger("accepted-input-ledger-" + id, name);
    }
  }

  /** Cut at a marker, what is left still holds everything before the first dot. */
  lemma MarkedIsLonger(front: string, name: string)
    requires '.' !in front && front + "." <= name
    requires EndsWith(name, ".dataset") || Find(name, ".dataset.stale-revision-").Some? || Find(name, ".dataset.bak.").Some?
    ensures var owner := Owner(Key(SessionRoot, name)); owner.Some? && |owner.value| >= |front|
  {
    assert front == (front + ".")[..|front|] == name[..|front|];
    MarkerBehind(front, name, ".dataset.stale-revision-");
    MarkerBehind(front, name, ".dataset.bak.");
    DotBehind(front, name, ".dataset");
  }

  lemma DotBehind(front: string, name: string, marker: string)
    requires '.' !in front && front <= name && marker != "" && marker[0] == '.'
    ensures EndsWith(name, marker) ==> |name| - |marker| >= |front|
  {
    forall i | 0 <= i < |front| ensures name[i] != '.' {
      assert name[i] == front[i];
    }
    if EndsWith(name, marker) {
      assert name[|name| - |marker|..][0] == name[|name| - |marker|];
    }
  }

  /** A marker does not occur where there are no dots. */
  lemma MarkerBehind(front: string, name: string, marker: string)
    requires '.' !in front && front <= name && marker != "" && marker[0] == '.'
    ensures Find(name, marker).Some? ==> Find(name, marker).value >= |front|
  {
    FindsOnly(name, marker);
    forall i | 0 <= i < |front| ensures name[i] != '.' {
      assert name[i] == front[i];
    }
    if Find(name, marker).Some? {
      OccursReadsFirst(name, marker, Find(name, marker).value);
    }
  }

  lemma {:induction false} BeforeDot(id: string, rest: string)
    requires '.' !in id && (rest == "" || rest[0] == '.')
    ensures Before(id + rest, '.') == id
  {
    if id == "" {
      assert id + rest == rest;
    } else {
      assert (id + rest)[1..] == id[1..] + rest;
      BeforeDot(id[1..], rest);
    }
  }

  /** A ledger without a dot, and the entries of the other two roots. */
  lemma OthersAreOwned(id: string)
    requires '.' !in id
    ensures Owner(Key(SessionRoot, "accepted-input-ledger-" + id)) == Some(id)
    ensures Owner(Key(SessionsRoot, id + ".lock")) == Some(id)
    ensures Owner(Key(SessionsRoot, id + ".background-process")) == Some(id)
    ensures Owner(Key(ToolResultsRoot, id)) == Some(id)
  {
    CompanionOwned(id);
    var name := "accepted-input-ledger-" + id;
    NoDot(name, ".dataset");
    NoDot(name, ".dataset.stale-revision-");
    NoDot(name, ".dataset.bak.");
    assert name[|LEDGER|..] == id && LEDGER <= name;
    BeforeDot(id, "");
    assert id + "" == id;
  }

  lemma NoDot(name: string, marker: string)
    requires '.' !in name && marker != "" && marker[0] == '.'
    ensures Find(name, marker).None? && !EndsWith(name, marker)
  {
    MarkerBehind(name, name, marker);
    EndHolds(name, marker);
  }

  lemma EndHolds(name: string, marker: string)
    requires marker != ""
    ensures EndsWith(name, marker) ==> marker[0] in name
  {
    if EndsWith(name, marker) {
      assert name[|name| - |marker|..][0] == name[|name| - |marker|];
    }
  }

  // ----- what survives -----

  ghost predicate DueByName(s: Store, id: string, days: nat, now: int) {
    var k := Key(SessionRoot, id + ".dataset");
    k in s && Expired(s[k], days, now)
  }

  ghost predicate Survives(s: Store, k: Key, days: nat, now: int) {
    forall order, failing :: Lists(order, Ids(s)) ==> k in Cleaned(s, order, days, now, failing)
  }

  /** On any store an entry survives every run exactly when no due session covers it,
      and it is fresh, or nobody's, or of a session whose dataset is there. */
  lemma SurvivesExactlyWhen(s: Store, k: Key, days: nat, now: int)
    requires k in s
    ensures Survives(s, k, days, now)
       <==> (forall id :: DueByName(s, id, days, now) ==> !Covers(id, k))
            && (Expired(s[k], days, now) && Owner(k).Some? ==> Key(SessionRoot, Owner(k).value + ".dataset") in s)
  {
    forall id ensures DueByName(s, id, days, now) <==> Due(s, id, days, now) {}
    assert Expired(s[k], days, now) && Owner(k).Some? ==> (Key(SessionRoot, Owner(k).value + ".dataset") in s <==> Owner(k).value in Ids(s));
    if (forall id :: Due(s, id, days, now) ==> !Covers(id, k)) && !IsOrphan(s, Ids(s), k, days, now) {
      forall order, failing | Lists(order, Ids(s)) ensures k in Cleaned(s, order, days, now, failing) {
        Untouched(s, order, k, days, now, failing);
      }
    }
    if id :| Due(s, id, days, now) && Covers(id, k) {
      var order := TakenFirst(s, id, k, days, now);
    } else if IsOrphan(s, Ids(s), k, days, now) {
      var order := ListingExists(Ids(s));
      OrphanGoes(s, order, k, days, now);
    }
  }

  lemma Untouched(s: Store, order: seq<string>, k: Key, days: nat, now: int, failing: set<Key>)
    requires k in s && !IsOrphan(s, Ids(s), k, days, now) && forall id :: Due(s, id, days, now) ==> !Covers(id, k)
    ensures k in Cleaned(s, order, days, now, failing)
  {
    SweptShrinks(s, order, 0, days, now, failing);
    if k !in Swept(s, order, days, now, failing) {
      SweptOnlyDue(s, order, k, days, now, failing);
    }
  }

  lemma OrphanGoes(s: Store, order: seq<string>, k: Key, days: nat, now: int)
    requires IsOrphan(s, Ids(s), k, days, now)
    ensures k !in Cleaned(s, order, days, now, {})
  {
    var rest := Swept(s, order, days, now, {});
    SweptShrinks(s, order, 0, days, now, {});
    assert k in rest ==> k in Orphans(rest, Ids(s), days, now);
  }

  /** A stale revision of a session whose dataset is there survives, unless its name
      starts like a ledger of a session that is due. */
  lemma StaleSurvives(s: Store, id: string, rest: string, days: nat, now: int)
    requires '.' !in id && Key(SessionRoot, id + ".dataset") in s
    requires var name := id + ".dataset.stale-revision-" + rest; Key(SessionRoot, name) in s && !EndsWith(name, ".dataset")
    ensures var name := id + ".dataset.stale-revision-" + rest;
            Survives(s, Key(SessionRoot, name), days, now)
            <==> forall other :: DueByName(s, other, days, now) ==> !("accepted-input-ledger-" + other <= name)
  {
    StaleIsOwned(id, rest);
    OwnedSurvives(s, id, id + ".dataset.stale-revision-" + rest, days, now);
  }

  /** So does a backup of it. */
  lemma BackupSurvives(s: Store, id: string, rest: string, days: nat, now: int)
    requires '.' !in id && Key(SessionRoot, id + ".dataset") in s
    requires var name := id + ".dataset.bak." + rest;
             Key(SessionRoot, name) in s && !EndsWith(name, ".dataset") && !Occurs(name, ".dataset.stale-revision-")
    ensures var name := id + ".dataset.bak." + rest;
            Survives(s, Key(SessionRoot, name), days, now)
            <==> forall other :: DueByName(s, other, days, now) ==> !("accepted-input-ledger-" + other <= name)
  {
    BackupIsOwned(id, rest);
    OwnedSurvives(s, id, id + ".dataset.bak." + rest, days, now);
  }

  /** And its ledger, where only a due id that is a prefix can take it along. */
  lemma LedgerSurvives(s: Store, id: string, rest: string, days: nat, now: int)
    requires '.' !in id && Key(SessionRoot, id + ".dataset") in s
    requires var name := "accepted-input-ledger-" + (id + "." + rest);
             && Key(SessionRoot, name) in s && !EndsWith(name, ".dataset")
             && !Occurs(name, ".dataset.stale-revision-") && !Occurs(name, ".dataset.bak.")
    ensures Survives(s, Key(SessionRoot, "accepted-input-ledger-" + (id + "." + rest)), days, now)
       <==> forall other :: DueByName(s, other, days, now) ==> !(other <= id + "." + rest)
  {
    var tail := id + "." + rest;
    LedgerIsOwned(id, rest);
    OwnedSurvives(s, id, "accepted-input-ledger-" + tail, days, now);
    forall other: string ensures "accepted-input-ledger-" + other <= "accepted-input-ledger-" + tail <==> other <= tail {
      LedgerPrefix(other, tail);
    }
  }

  lemma LedgerPrefix(other: string, tail: string)
    ensures "accepted-input-ledger-" + other <= "accepted-input-ledger-" + tail <==> other <= tail
  {
    var a, b := "accepted-input-ledger-" + other, "accepted-input-ledger-" + tail;
    if a <= b {
      assert other == a[22..] == b[..|a|][22..] == tail[..|other|];
    }
    if other <= tail {
      assert b[..|a|] == "accepted-input-ledger-" + tail[..|other|];
    }
  }

  lemma OwnedSurvives(s: Store, id: string, name: string, days: nat, now: int)
    requires Key(SessionRoot, id + ".dataset") in s && Key(SessionRoot, name) in s
    requires Owner(Key(SessionRoot, name)) == Some(id) && !EndsWith(name, ".dataset")
    ensures Survives(s, Key(SessionRoot, name), days, now)
       <==> forall other :: DueByName(s, other, days, now) ==> !("accepted-input-ledger-" + other <= name)
  {
    SurvivesExactlyWhen(s, Key(SessionRoot, name), days, now);
    forall other: string ensures name != other + ".dataset" {
      assert EndsWith(other + ".dataset", ".dataset");
    }
  }

  /** The lock, the background-process entry and the tool results of a session whose
      dataset is there survive exactly when that session is not due; only the ids `` and
      `.` take the tool results of others. */
  lemma CompanionsSurvive(s: Store, id: string, k: Key, days: nat, now: int)
    requires '.' !in id && Key(SessionRoot, id + ".dataset") in s && k in s
    requires k == Key(SessionsRoot, id + ".lock") || k == Key(SessionsRoot, id + ".background-process")
          || k == Key(ToolResultsRoot, id)
    ensures Survives(s, k, days, now)
       <==> !DueByName(s, id, days, now)
            && (k.root.ToolResultsRoot? ==> !DueByName(s, "", days, now) && !DueByName(s, ".", days, now))
  {
    OthersAreOwned(id);
    SurvivesExactlyWhen(s, k, days, now);
    forall other ensures Covers(other, k) <==> other == id || (k.root.ToolResultsRoot? && (other == "" || other == ".")) {
      CompanionCovered(id, other, k);
    }
  }

  lemma CompanionCovered(id: string, other: string, k: Key)
    requires k == Key(SessionsRoot, id + ".lock") || k == Key(SessionsRoot, id + ".background-process")
          || k == Key(ToolResultsRoot, id)
    ensures Covers(other, k) <==> other == id || (k.root.ToolResultsRoot? && (other == "" || other == "."))
  {
    SameStem(other, id);
    SameStem(id, other);
  }

  /** Different ids have different locks, and no lock is named like a background process. */
  lemma SameStem(a: string, b: string)
    ensures a + ".lock" == b + ".lock" ==> a == b
    ensures a + ".background-process" == b + ".background-process" ==> a == b
    ensures a + ".lock" != b + ".background-process"
  {
    assert (a + ".lock")[..|a|] == a && (b + ".lock")[..|b|] == b;
    assert (a + ".background-process")[..|a|] == a && (b + ".background-process")[..|b|] == b;
    assert (a + ".lock")[|a + ".lock"| - 1] == 'k';
    assert (b + ".background-process")[|b + ".background-process"| - 1] == 's';
  }

  /** When nothing fails and each entry goes at most once, a due session takes these along. */
  lemma DueGoesByName(s: Store, order: seq<string>, id: string, days: nat, now: int)
    requires EachOnce(s, days, now) && Lists(order, Ids(s)) && DueByName(s, id, days, now)
    ensures var t := Cleaned(s, order, days, now, {});
            && Key(SessionRoot, id + ".dataset") !in t
            && Key(SessionsRoot, id + ".lock") !in t && Key(SessionsRoot, id + ".background-process") !in t
            && Key(ToolResultsRoot, id) !in t
            && forall name :: "accepted-input-ledger-" + id <= name ==> Key(SessionRoot, name) !in t
  {
    assert Due(s, id, days, now);
    DueGoesAltogether(s, order, id, days, now);
    forall name: string | "accepted-input-ledger-" + id <= name ensures Covers(id, Key(SessionRoot, name)) {}
    assert Covers(id, Key(SessionRoot, id + ".dataset")) && Covers(id, Key(ToolResultsRoot, id));
    assert Covers(id, Key(SessionsRoot, id + ".lock")) && Covers(id, Key(SessionsRoot, id + ".background-process"));
  }

  // ----- what is reported -----

  ghost predicate SomeLeft(s: Store, id: string, t: Store) { exists k :: k in s && Covers(id, k) && k in t }

  /** When its turn comes a session is due as it was at the start, and of its entries
      those are left that cannot be deleted. */
  lemma TurnMarks(s: Store, front: seq<string>, id: string, days: nat, now: int, failing: set<Key>)
    requires EachOnce(s, days, now) && id in Ids(s) && id !in front
    ensures var rest := s - GoneWith(s, front, days, now, failing);
            && (Due(rest, id, days, now) <==> Due(s, id, days, now))
            && (Due(s, id, days, now) ==>
                 (SessionLabel(rest, id, failing) == if Covered(s, id) !! failing then Session(id) else PartlySession(id)))
  {
    var gone := GoneWith(s, front, days, now, failing);
    DatasetStays(s, front, id, days, now, failing);
    DropFromRest(s, gone, id, days, now, failing);
    assert Covered(s, id) - gone !! failing <==> Covered(s, id) !! failing;
  }

  lemma LabelsNext(s: Store, front: seq<string>, id: string, days: nat, now: int, failing: set<Key>)
    requires EachOnce(s, days, now) && id in Ids(s) && id !in front
    requires Swept(s, front, days, now, failing) == s - GoneWith(s, front, days, now, failing)
    ensures SweptLabels(s, front + [id], days, now, failing)
         == SweptLabels(s, front, days, now, failing)
            + if !Due(s, id, days, now) then []
              else [if Covered(s, id) !! failing then Session(id) else PartlySession(id)]
  {
    assert (front + [id])[..|front|] == front;
    TurnMarks(s, front, id, days, now, failing);
  }

  lemma {:induction false} LabelsMark(s: Store, order: seq<string>, id: string, days: nat, now: int, failing: set<Key>)
    requires EachOnce(s, days, now) && (forall i :: 0 <= i < |order| ==> order[i] in Ids(s))
    requires forall i, j :: 0 <= i < j < |order| ==> order[i] != order[j]
    ensures Session(id) in SweptLabels(s, order, days, now, failing)
       <==> id in order && Due(s, id, days, now) && Covered(s, id) !! failing
    ensures PartlySession(id) in SweptLabels(s, order, days, now, failing)
       <==> id in order && Due(s, id, days, now) && !(Covered(s, id) !! failing)
  {
    if order != [] {
      var front, last := order[..|order| - 1], order[|order| - 1];
      LabelsMark(s, front, id, days, now, failing);
      SweptIsGoneWith(s, front, days, now, failing);
      LabelsNext(s, front, last, days, now, failing);
      assert order == front + [last];
    }
  }

  /** If each entry goes at most once, a session is reported exactly if its dataset is
      due, and marked as partly removed exactly if some entry of it is still there. */
  lemma ReportsWhatHappened(s: Store, order: seq<string>, id: string, days: nat, now: int, failing: set<Key>)
    requires EachOnce(s, days, now) && Lists(order, Ids(s))
    ensures var labels, t := SweptLabels(s, order, days, now, failing), Cleaned(s, order, days, now, failing);
            && (Session(id) in labels <==> DueByName(s, id, days, now) && !SomeLeft(s, id, t))
            && (PartlySession(id) in labels <==> DueByName(s, id, days, now) && SomeLeft(s, id, t))
  {
    LabelsMark(s, order, id, days, now, failing);
    SweptIsGoneWith(s, order, days, now, failing);
    assert DueByName(s, id, days, now) <==> Due(s, id, days, now);
    if Due(s, id, days, now) {
      LeftIsFailing(s, order, id, days, now, failing);
    }
  }

  lemma LeftIsFailing(s: Store, order: seq<string>, id: string, days: nat, now: int, failing: set<Key>)
    requires Swept(s, order, days, now, failing) == s - GoneWith(s, order, days, now, failing)
    requires id in order && Due(s, id, days, now)
    ensures SomeLeft(s, id, Cleaned(s, order, days, now, failing)) <==> !(Covered(s, id) !! failing)
  {
    forall k | k in s && Covers(id, k) ensures k in Cleaned(s, order, days, now, failing) <==> k in failing {
      var i :| 0 <= i < |order| && order[i] == id;
      assert k in failing ==> k in Swept(s, order, days, now, failing);
    }
    if !(Covered(s, id) !! failing) {
      var k :| k in Covered(s, id) && k in failing;
      assert k in s && Covers(id, k);
    }
  }
}
