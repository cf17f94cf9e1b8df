/** The lock-free snowflake generator of agent/shared/src/ids.rs, as a state
    machine: any number of threads share one 64-bit word, and each attempt is a
    load, a clock reading and a compare-and-swap that other threads may
    interleave with.  Steps are sequentially consistent. */
module Snowflake {

  const TWO_TO_64: nat := 0x1_0000_0000_0000_0000
  const TWO_TO_48: nat := 0x1_0000_0000_0000
  const TWO_TO_42: nat := 0x400_0000_0000
  const TWO_TO_22: nat := 0x40_0000
  const EPOCH: nat := 1_767_225_600_000

  // ----- 64-bit arithmetic -----

  function ShiftLeft22(x: nat): nat { x * TWO_TO_22 % TWO_TO_64 }

  function ShiftLeft12(x: nat): nat { x * 4096 % TWO_TO_64 }

  function WrappingSub(x: nat, y: nat): nat
    requires x < TWO_TO_64 && y < TWO_TO_64
  {
    if x >= y then x - y else x + TWO_TO_64 - y
  }

  function PackState(ms: nat, sequence: nat): nat
    requires sequence < 4096
  {
    ShiftLeft12(ms) + sequence
  }

  function PackId(ms: nat, process: nat, sequence: nat): nat
    requires ms < TWO_TO_64 && process < 1024 && sequence < 4096
  {
    ShiftLeft22(WrappingSub(ms, EPOCH)) + process * 4096 + sequence
  }

  // ----- packing with OR -----

  /** OR of two numbers, bit by bit from the lowest. */
  function Or(x: nat, y: nat): nat
    decreases x + y
  {
    if x == 0 && y == 0 then 0 else 2 * Or(x / 2, y / 2) + (if x % 2 == 1 || y % 2 == 1 then 1 else 0)
  }

  ghost predicate Bit(x: nat, k: nat)
    decreases k
  {
    if k == 0 then x % 2 == 1 else Bit(x / 2, k - 1)
  }

  lemma OrHalves(x: nat, y: nat)
    ensures Or(x, y) / 2 == Or(x / 2, y / 2)
    ensures Or(x, y) % 2 == 1 <==> x % 2 == 1 || y % 2 == 1
  {}

  lemma {:induction false} OrByBits(x: nat, y: nat, k: nat)
    ensures Bit(Or(x, y), k) <==> Bit(x, k) || Bit(y, k)
    decreases k
  {
    OrHalves(x, y);
    if k > 0 {
      OrByBits(x / 2, y / 2, k - 1);
    }
  }

  ghost function Power(k: nat): nat {
    if k == 0 then 1 else 2 * Power(k - 1)
  }

  lemma {:induction false} OrNothing(x: nat)
    ensures Or(x, 0) == x
  {
    if x > 0 {
      OrNothing(x / 2);
    }
  }

  /** OR with a number below the lowest bits of the other is addition. */
  lemma {:induction false} OrIsPlus(q: nat, y: nat, k: nat, x: nat)
    requires x == q * Power(k) && y < Power(k)
    ensures Or(x, y) == x + y
    decreases k
  {
    if k == 0 {
      OrNothing(x);
    } else {
      assert x == 2 * (q * Power(k - 1));
      OrIsPlus(q, y / 2, k - 1, x / 2);
    }
  }

  lemma Powers()
    ensures Power(12) == 4096 && Power(22) == TWO_TO_22
  {
    assert Power(11) == 2048;
    assert Power(22) == TWO_TO_22;
  }

  /** The source packs its words with `|`; since the fields do not overlap, that is
      the sum. */
  lemma StatePackedWithOr(ms: nat, sequence: nat)
    requires ms < TWO_TO_48 && sequence < 4096
    ensures PackState(ms, sequence) == Or(ShiftLeft12(ms), sequence)
  {
    ShiftedState(ms);
    SequenceOred(ms, sequence);
  }

  lemma ShiftedState(ms: nat)
    requires ms < TWO_TO_48
    ensures ShiftLeft12(ms) == ms * 4096
  {
    SmallMod(ms * 4096, TWO_TO_64);
  }

  lemma SequenceOred(ms: nat, sequence: nat)
    requires sequence < 4096
    ensures Or(ms * 4096, sequence) == ms * 4096 + sequence
  {
    Powers();
    OrIsPlus(ms, sequence, 12, ms * 4096);
  }

  lemma IdPackedWithOr(ms: nat, process: nat, sequence: nat)
    requires ms < TWO_TO_48 && process < 1024 && sequence < 4096
    ensures PackId(ms, process, sequence) == Or(Or(ShiftLeft22(WrappingSub(ms, EPOCH)), ShiftLeft12(process)), sequence)
  {
    TopBitsDrop(ms);
    var shown := (ms - EPOCH) % TWO_TO_42;
    FieldsOred(shown, process, sequence);
    SmallMod(process * 4096, TWO_TO_64);
  }

  lemma FieldsOred(shown: nat, process: nat, sequence: nat)
    requires process < 1024 && sequence < 4096
    ensures Or(Or(shown * TWO_TO_22, process * 4096), sequence) == shown * TWO_TO_22 + process * 4096 + sequence
  {
    Powers();
    OrIsPlus(shown, process * 4096, 22, shown * TWO_TO_22);
    OrIsPlus(shown * 1024 + process, sequence, 12, shown * TWO_TO_22 + process * 4096);
  }

  // ----- the machine -----

  /** Where one thread stands in the loop.  `seen` counts the successful swaps
      before its load; the code has no such variable, it only names a moment. */
  datatype Thread =
    | Idle
    | Loaded(state: nat, seen: nat)
    | Clocked(state: nat, seen: nat, now: nat)

  /** `writes` lists every value the word has held, oldest first, and `ids` the
      ids returned so far, in the order of their swaps. */
  datatype World = World(word: nat, threads: map<nat, Thread>, writes: seq<nat>, ids: seq<nat>)

  datatype Action =
    | Load(thread: nat)
    | ReadClock(thread: nat, millis: nat)
    | Swap(thread: nat)

  const START: World := World(0, map[], [0], [])

  function ThreadAt(w: World, t: nat): Thread {
    if t in w.threads then w.threads[t] else Idle
  }

  /** The candidate millisecond and sequence number computed from a loaded state
      and a clock reading. */
  function Candidate(state: nat, now: nat): (nat, nat) {
    if now > state / 4096 then (now, 0) else (state / 4096, state % 4096 + 1)
  }

  /** Whether the pending swap of thread `t` stores and returns an id. */
  predicate Succeeds(w: World, t: nat) {
    && ThreadAt(w, t).Clocked?
    && Candidate(ThreadAt(w, t).state, ThreadAt(w, t).now).1 <= 0xFFF
    && w.word == ThreadAt(w, t).state
  }

  /** One step; an action that does not fit its thread's position changes
      nothing.  The clock is arbitrary at every reading: its value is the upper
      48 bits of a version-7 UUID (section 5.7 of RFC 9562). */
  function Step(w: World, a: Action, process: nat): World
    requires process < 1024
  {
    match a
    case Load(t) =>
      if ThreadAt(w, t).Idle? then
        w.(threads := w.threads[t := Loaded(w.word, |w.ids|)])
      else w
    case ReadClock(t, millis) =>
      if ThreadAt(w, t).Loaded? then
        var l := ThreadAt(w, t);
        w.(threads := w.threads[t := Clocked(l.state, l.seen, millis % TWO_TO_48)])
      else w
    case Swap(t) =>
      if !ThreadAt(w, t).Clocked? then w
      else
        var retry := w.(threads := w.threads[t := Idle]);
        if !Succeeds(w, t) then retry
        else
          var (ms, sequence) := Candidate(ThreadAt(w, t).state, ThreadAt(w, t).now);
          var stored := PackState(ms, sequence);
          retry.(word := stored,
                 writes := w.writes + [stored],
                 ids := w.ids + [PackId(ms % TWO_TO_64, process, sequence)])
  }

  function Run(w: World, actions: seq<Action>, process: nat): World
    requires process < 1024
  {
    if actions == [] then w
    else Step(Run(w, actions[..|actions| - 1], process), actions[|actions| - 1], process)
  }

  // ----- what every step keeps -----

  ghost predicate Increasing(s: seq<nat>) {
    forall i, j :: 0 <= i < j < |s| ==> s[i] < s[j]
  }

  ghost predicate ThreadOk(w: World, th: Thread) {
    !th.Idle? ==>
      && th.seen < |w.writes|
      && w.writes[th.seen] == th.state
      && (th.Clocked? ==> th.now < TWO_TO_48)
  }

  /** The id returned with the word value `stored`. */
  function IdOf(stored: nat, process: nat): nat
    requires process < 1024 && stored < TWO_TO_64
  {
    PackId(stored / 4096, process, stored % 4096)
  }

  ghost predicate Inv(w: World, process: nat)
    requires process < 1024
  {
    && |w.writes| == |w.ids| + 1
    && w.writes[0] == 0
    && w.writes[|w.ids|] == w.word
    && Increasing(w.writes)
    && (forall i :: 0 <= i < |w.writes| ==> w.writes[i] < TWO_TO_48 * 4096)
    && (forall i :: 0 <= i < |w.ids| ==> w.ids[i] == IdOf(w.writes[i + 1], process))
    && (forall t :: t in w.threads ==> ThreadOk(w, w.threads[t]))
  }

  /** A swap that succeeds stores a larger word, and the id it returns is
      determined by that word. */
  lemma StoredGrows(state: nat, now: nat, process: nat)
    requires state < TWO_TO_48 * 4096 && now < TWO_TO_48 && process < 1024
    requires Candidate(state, now).1 <= 0xFFF
    ensures var (ms, sequence) := Candidate(state, now);
            && state < PackState(ms, sequence) < TWO_TO_48 * 4096
            && PackState(ms, sequence) / 4096 == ms
            && PackState(ms, sequence) % 4096 == sequence
            && PackId(ms % TWO_TO_64, process, sequence) == IdOf(PackState(ms, sequence), process)
  {
    var (ms, sequence) := Candidate(state, now);
    assert ms < TWO_TO_48;
    assert PackState(ms, sequence) == ms * 4096 + sequence;
    assert state == state / 4096 * 4096 + state % 4096;
  }

  lemma StepKeepsInv(w: World, a: Action, process: nat)
    requires process < 1024 && Inv(w, process)
    ensures Inv(Step(w, a, process), process)
  {
    if a.Swap? && Succeeds(w, a.thread) {
      var th := ThreadAt(w, a.thread);
      StoredGrows(th.state, th.now, process);
    }
  }

  /** The invariant holds in every state any interleaving can reach. */
  lemma {:induction false} Reachable(actions: seq<Action>, process: nat)
    requires process < 1024
    ensures Inv(Run(START, actions, process), process)
  {
    if actions != [] {
      Reachable(actions[..|actions| - 1], process);
      StepKeepsInv(Run(START, actions[..|actions| - 1], process), actions[|actions| - 1], process);
    }
  }

  /** Nothing already published is ever revised, and the word never decreases. */
  lemma {:induction false} HistoryOnlyGrows(actions: seq<Action>, later: seq<Action>, process: nat)
    requires process < 1024
    ensures var w, v := Run(START, actions, process), Run(START, actions + later, process);
            w.word <= v.word && w.ids <= v.ids && w.writes <= v.writes
  {
    if later == [] {
      assert actions + later == actions;
    } else {
      var front, last := later[..|later| - 1], later[|later| - 1];
      HistoryOnlyGrows(actions, front, process);
      assert (actions + later)[..|actions + later| - 1] == actions + front;
      Reachable(actions + front, process);
      StepExtends(Run(START, actions + front, process), last, process);
    }
  }

  lemma StepExtends(w: World, a: Action, process: nat)
    requires process < 1024 && Inv(w, process)
    ensures var v := Step(w, a, process);
            w.word <= v.word && w.ids <= v.ids && w.writes <= v.writes
  {
    if a.Swap? && Succeeds(w, a.thread) {
      var th := ThreadAt(w, a.thread);
      StoredGrows(th.state, th.now, process);
    }
  }

  /** No ABA: a swap that succeeds finds the word untouched since its load.  No
      other swap fell in between, not even one that was later undone. */
  lemma SwapSeesNoInterference(actions: seq<Action>, t: nat, process: nat)
    requires process < 1024
    requires Succeeds(Run(START, actions, process), t)
    ensures var w := Run(START, actions, process);
            ThreadAt(w, t).seen == |w.ids|
  {
    Reachable(actions, process);
    var w := Run(START, actions, process);
    var th := ThreadAt(w, t);
    assert w.writes[th.seen] == th.state == w.writes[|w.ids|];
  }

  /** Lock-freedom: a swap that is ready and has a sequence number left fails exactly
      if another one has succeeded since its load. */
  lemma FailsOnlyByOthers(actions: seq<Action>, t: nat, process: nat)
    requires process < 1024
    requires var th := ThreadAt(Run(START, actions, process), t); th.Clocked? && Candidate(th.state, th.now).1 <= 0xFFF
    ensures var w := Run(START, actions, process);
            && ThreadAt(w, t).seen <= |w.ids|
            && (!Succeeds(w, t) <==> ThreadAt(w, t).seen < |w.ids|)
  {
    Reachable(actions, process);
    var w := Run(START, actions, process);
    var th := ThreadAt(w, t);
    assert w.writes[th.seen] == th.state;
    assert th.seen < |w.ids| ==> w.writes[th.seen] < w.writes[|w.ids|];
  }

  /** The stored millisecond is never invented: it is some reading of the clock
      (or zero, before the first positive reading). */
  lemma {:induction false} MillisWereRead(actions: seq<Action>, process: nat)
    requires process < 1024
    ensures MillisRead(Run(START, actions, process), actions)
  {
    if actions != [] {
      var front, last := actions[..|actions| - 1], actions[|actions| - 1];
      MillisWereRead(front, process);
      Reachable(front, process);
      var w := Run(START, front, process);
      forall m | WasRead(front, m) ensures WasRead(actions, m) {
        if m != 0 {
          var i :| 0 <= i < |front| && ReadsAt(front, i, m);
          assert ReadsAt(actions, i, m);
        }
      }
      assert last.ReadClock? ==> ReadsAt(actions, |actions| - 1, last.millis % TWO_TO_48);
      if last.Swap? && Succeeds(w, last.thread) {
        var th := ThreadAt(w, last.thread);
        StoredGrows(th.state, th.now, process);
        assert WasRead(front, w.writes[th.seen] / 4096);
      }
    }
  }

  ghost predicate MillisRead(w: World, actions: seq<Action>) {
    && (forall i :: 0 <= i < |w.writes| ==> WasRead(actions, w.writes[i] / 4096))
    && (forall t :: t in w.threads && w.threads[t].Clocked? ==> WasRead(actions, w.threads[t].now))
  }

  ghost predicate ReadsAt(actions: seq<Action>, i: nat, m: nat)
    requires i < |actions|
  {
    actions[i].ReadClock? && actions[i].millis % TWO_TO_48 == m
  }

  ghost predicate WasRead(actions: seq<Action>, m: nat) {
    m == 0 || exists i :: 0 <= i < |actions| && ReadsAt(actions, i, m)
  }

  // ----- the ids -----

  /** The three fields of an id can be read back exactly when the millisecond is
      at or past the epoch and less than 2^42 beyond it.  (The source's comment
      speaks of 41 time bits; the shift keeps 42.) */
  lemma FieldsKept(ms: nat, process: nat, sequence: nat)
    requires ms < TWO_TO_48 && process < 1024 && sequence < 4096
    ensures PackId(ms, process, sequence) < TWO_TO_64
    ensures PackId(ms, process, sequence) % 4096 == sequence
    ensures PackId(ms, process, sequence) / 4096 % 1024 == process
    ensures PackId(ms, process, sequence) / TWO_TO_22 == (ms - EPOCH) % TWO_TO_42
    ensures PackId(ms, process, sequence) / TWO_TO_22 == ms - EPOCH <==> EPOCH <= ms < EPOCH + TWO_TO_42
  {
    var shown := (ms - EPOCH) % TWO_TO_42;
    TopBitsDrop(ms);
    var id := PackId(ms, process, sequence);
    assert id == (shown * 1024 + process) * 4096 + sequence;
    assert id / 4096 == shown * 1024 + process;
    assert id / TWO_TO_22 == shown;
    if EPOCH <= ms < EPOCH + TWO_TO_42 {
      SmallMod(ms - EPOCH, TWO_TO_42);
    }
  }

  lemma SmallMod(x: nat, m: nat)
    requires x < m
    ensures x % m == x
  {}

  lemma TopBitsDrop(ms: nat)
    requires ms < TWO_TO_48
    ensures ShiftLeft22(WrappingSub(ms, EPOCH)) == (ms - EPOCH) % TWO_TO_42 * TWO_TO_22
  {
    var x := WrappingSub(ms, EPOCH);
    var r := x % TWO_TO_42;
    assert x * TWO_TO_22 == x / TWO_TO_42 * TWO_TO_64 + r * TWO_TO_22;
    ModUnique(x * TWO_TO_22, TWO_TO_64, x / TWO_TO_42, r * TWO_TO_22);
    var wraps := if ms >= EPOCH then 0 else TWO_TO_22;
    assert ms - EPOCH == (x / TWO_TO_42 - wraps) * TWO_TO_42 + r;
    ModUnique(ms - EPOCH, TWO_TO_42, x / TWO_TO_42 - wraps, r);
  }

  /** Quotient and remainder are determined by their defining equation. */
  lemma ModUnique(x: int, m: nat, q: int, r: nat)
    requires m > 0 && x == q * m + r && r < m
    ensures x % m == r
  {
    var d := q - x / m;
    assert d * m == x % m - r;
    MulBounds(d, m);
  }

  lemma MulBounds(d: int, m: nat)
    requires m > 0
    ensures d >= 1 ==> d * m >= m
    ensures d <= -1 ==> d * m <= 0 - m
  {
    if d >= 1 {
      assert d * m == m + (d - 1) * m;
    } else if d <= -1 {
      assert d * m == (d + 1) * m - m;
    }
  }

  /** Two ids of one process are equal exactly when their words agree below bit
      54: same sequence number, and milliseconds that differ by a multiple of 2^42. */
  lemma IdsEqualWhen(a: nat, b: nat, process: nat)
    requires a < TWO_TO_48 * 4096 && b < TWO_TO_48 * 4096 && process < 1024
    ensures IdOf(a, process) == IdOf(b, process)
       <==> a % 4096 == b % 4096 && (a / 4096 - b / 4096) % TWO_TO_42 == 0
  {
    FieldsKept(a / 4096, process, a % 4096);
    FieldsKept(b / 4096, process, b % 4096);
    TopBitsDrop(a / 4096);
    TopBitsDrop(b / 4096);
    SameResidue(a / 4096 - EPOCH, b / 4096 - EPOCH, TWO_TO_42);
  }

  lemma SameResidue(x: int, y: int, m: nat)
    requires m > 0
    ensures x % m == y % m <==> (x - y) % m == 0
  {
    assert x - y == (x / m - y / m) * m + (x % m - y % m);
    if x % m == y % m {
      ModUnique(x - y, m, x / m - y / m, 0);
    } else if x % m > y % m {
      ModUnique(x - y, m, x / m - y / m, x % m - y % m);
    } else {
      ModUnique(x - y, m, x / m - y / m - 1, x % m - y % m + m);
    }
  }

  /** The millisecond stored first, once something has been stored. */
  ghost function FirstMillis(w: World): nat {
    if |w.writes| > 1 then w.writes[1] / 4096 else 0
  }

  /** The time field of the id that is returned with a word. */
  function Elapsed(stored: nat): int { (stored / 4096 - EPOCH) % TWO_TO_42 }

  /** Of two words of one process, the one with the smaller id. */
  lemma IdsLessWhen(a: nat, b: nat, process: nat)
    requires a < TWO_TO_48 * 4096 && b < TWO_TO_48 * 4096 && process < 1024
    ensures IdOf(a, process) < IdOf(b, process)
       <==> Elapsed(a) < Elapsed(b) || (Elapsed(a) == Elapsed(b) && a % 4096 < b % 4096)
  {
    var x, y := IdOf(a, process), IdOf(b, process);
    FieldsKept(a / 4096, process, a % 4096);
    FieldsKept(b / 4096, process, b % 4096);
    if Elapsed(a) < Elapsed(b) || (Elapsed(a) == Elapsed(b) && a % 4096 < b % 4096) {
      FieldOrder(x, y, process);
    } else if Elapsed(b) < Elapsed(a) || b % 4096 < a % 4096 {
      FieldOrder(y, x, process);
    } else {
      SameFields(x, y);
    }
  }

  lemma SameFields(x: nat, y: nat)
    requires x / TWO_TO_22 == y / TWO_TO_22 && x / 4096 % 1024 == y / 4096 % 1024 && x % 4096 == y % 4096
    ensures x == y
  {
    FieldsMakeUp(x);
    FieldsMakeUp(y);
  }

  lemma FieldsMakeUp(x: nat)
    ensures x == x / TWO_TO_22 * TWO_TO_22 + x / 4096 % 1024 * 4096 + x % 4096
  {}

  /** A word stored after another either is the next number in the same millisecond,
      or starts a later one at zero. */
  ghost predicate Paced(writes: seq<nat>) {
    forall i :: 0 < i < |writes| ==> Follows(writes[i - 1], writes[i])
  }

  ghost predicate Follows(a: nat, b: nat) {
    || (b == a + 1 && b / 4096 == a / 4096)
    || (b % 4096 == 0 && b / 4096 > a / 4096)
  }

  /** What a successful swap stores. */
  lemma StoredFollows(state: nat, now: nat)
    requires state < TWO_TO_48 * 4096 && now < TWO_TO_48 && Candidate(state, now).1 <= 0xFFF
    ensures var (ms, sequence) := Candidate(state, now);
            && Follows(state, PackState(ms, sequence))
            && (now > state / 4096 ==> PackState(ms, sequence) == now * 4096)
            && (now <= state / 4096 ==> PackState(ms, sequence) == state + 1)
  {
    var (ms, sequence) := Candidate(state, now);
    assert PackState(ms, sequence) == ms * 4096 + sequence;
    assert state == state / 4096 * 4096 + state % 4096;
  }

  /** When a thread that has loaded the word and read the clock swaps: exactly if no
      other has swapped since its load, and the clock is past the word's millisecond
      or one of its 4096 sequence numbers is left.  Then the word becomes the start
      of the later millisecond, or one more. */
  lemma SwapsExactlyWhen(actions: seq<Action>, t: nat, process: nat)
    requires process < 1024 && ThreadAt(Run(START, actions, process), t).Clocked?
    ensures var w := Run(START, actions, process);
            var th := ThreadAt(w, t);
            var v := Step(w, Swap(t), process);
            && (|v.ids| == |w.ids| + 1
                <==> th.seen == |w.ids| && (th.now > w.word / 4096 || w.word % 4096 < 4095))
            && (|v.ids| > |w.ids| ==> v.word == if th.now > w.word / 4096 then th.now * 4096 else w.word + 1)
            && (|v.ids| <= |w.ids| ==> v.word == w.word && v.ids == w.ids)
  {
    Reachable(actions, process);
    var w := Run(START, actions, process);
    var th := ThreadAt(w, t);
    assert w.writes[th.seen] == th.state;
    assert th.seen < |w.ids| ==> w.writes[th.seen] < w.writes[|w.ids|];
    if Succeeds(w, t) {
      StoredFollows(th.state, th.now);
    }
  }

  lemma {:induction false} WordsArePaced(actions: seq<Action>, process: nat)
    requires process < 1024
    ensures Paced(Run(START, actions, process).writes)
  {
    if actions != [] {
      var front, last := actions[..|actions| - 1], actions[|actions| - 1];
      WordsArePaced(front, process);
      Reachable(front, process);
      StepKeepsPace(Run(START, front, process), last, process);
    }
  }

  lemma StepKeepsPace(w: World, a: Action, process: nat)
    requires process < 1024 && Inv(w, process) && Paced(w.writes)
    ensures Paced(Step(w, a, process).writes)
  {
    if a.Swap? && Succeeds(w, a.thread) {
      var th := ThreadAt(w, a.thread);
      StoredGrows(th.state, th.now, process);
      StoredFollows(th.state, th.now);
    }
  }

  /** The word has gone on to `b`: in the same millisecond, or the time field is greater. */
  ghost predicate MovesOn(a: nat, b: nat) {
    a / 4096 == b / 4096 || Elapsed(a) < Elapsed(b)
  }

  /** So it has with the id numbered `i`. */
  ghost predicate MovesOnAt(w: World, i: nat)
    requires i + 1 < |w.writes|
  {
    MovesOn(w.writes[i], w.writes[i + 1])
  }

  lemma NextIdGreaterWhen(a: nat, b: nat, process: nat)
    requires a < b < TWO_TO_48 * 4096 && process < 1024
    requires a / 4096 == b / 4096 || b % 4096 == 0
    ensures IdOf(a, process) < IdOf(b, process) <==> MovesOn(a, b)
  {
    IdsLessWhen(a, b, process);
    assert a == a / 4096 * 4096 + a % 4096;
    assert b == b / 4096 * 4096 + b % 4096;
  }

  lemma {:induction false} StepsIncrease(s: seq<nat>, i: nat, j: nat)
    requires forall k :: 0 < k < |s| ==> s[k - 1] < s[k]
    requires i < j < |s|
    ensures s[i] < s[j]
    decreases j
  {
    if i < j - 1 {
      StepsIncrease(s, i, j - 1);
    }
    assert s[j - 1] < s[j];
  }

  lemma IncreasingByStep(s: seq<nat>)
    ensures Increasing(s) <==> forall k :: 0 < k < |s| ==> s[k - 1] < s[k]
  {
    if forall k :: 0 < k < |s| ==> s[k - 1] < s[k] {
      forall i, j | 0 <= i < j < |s| ensures s[i] < s[j] {
        StepsIncrease(s, i, j);
      }
    }
  }

  /** In any run, ids increase in the order of the swaps exactly when the time
      field grows whenever a new millisecond is stored. */
  lemma IncreaseExactlyWhen(actions: seq<Action>, process: nat)
    requires process < 1024
    ensures var w := Run(START, actions, process);
            && |w.writes| == |w.ids| + 1
            && (Increasing(w.ids) <==> forall i :: 0 < i < |w.ids| ==> MovesOnAt(w, i))
  {
    Reachable(actions, process);
    WordsArePaced(actions, process);
    var w := Run(START, actions, process);
    IncreasingByStep(w.ids);
    if Increasing(w.ids) {
      forall i | 0 < i < |w.ids| ensures MovesOnAt(w, i) {
        IdStep(w, i, process);
      }
    }
    if forall i :: 0 < i < |w.ids| ==> MovesOnAt(w, i) {
      forall k | 0 < k < |w.ids| ensures w.ids[k - 1] < w.ids[k] {
        IdStep(w, k, process);
      }
    }
  }

  lemma IdStep(w: World, i: nat, process: nat)
    requires process < 1024 && Inv(w, process) && Paced(w.writes) && 0 < i < |w.ids|
    ensures w.ids[i - 1] < w.ids[i] <==> MovesOnAt(w, i)
  {
    var a, b := w.writes[i], w.writes[i + 1];
    assert Follows(a, b);
    NextIdGreaterWhen(a, b, process);
  }

  lemma IdsFit(actions: seq<Action>, process: nat)
    requires process < 1024
    ensures var w := Run(START, actions, process); forall i :: 0 <= i < |w.ids| ==> w.ids[i] < TWO_TO_64
  {
    Reachable(actions, process);
    var w := Run(START, actions, process);
    forall i | 0 <= i < |w.ids| ensures w.ids[i] < TWO_TO_64 {
      FieldsKept(w.writes[i + 1] / 4096, process, w.writes[i + 1] % 4096);
    }
  }

  /** How many times the time field has started over. */
  function Era(ms: nat): int { (ms - EPOCH) / TWO_TO_42 }

  lemma WithinAnEra(a: nat, b: nat)
    requires a <= b && Era(a / 4096) == Era(b / 4096)
    ensures Elapsed(b) - Elapsed(a) == b / 4096 - a / 4096
  {}

  lemma AcrossAnEra(a: nat, b: nat)
    requires a <= b && b / 4096 - a / 4096 < TWO_TO_42 && Era(a / 4096) != Era(b / 4096)
    ensures Elapsed(b) < Elapsed(a)
  {
    var x, y := a / 4096 - EPOCH, b / 4096 - EPOCH;
    assert x == x / TWO_TO_42 * TWO_TO_42 + x % TWO_TO_42;
    assert y == y / TWO_TO_42 * TWO_TO_42 + y % TWO_TO_42;
    assert y / TWO_TO_42 == x / TWO_TO_42 + 1;
  }

  /** While the milliseconds in use span less than 2^42, a caller can tell from the
      first and the last alone: ids increase exactly when no multiple of 2^42,
      counted from the epoch, lies between them. */
  lemma IncreaseWithinAnEra(actions: seq<Action>, process: nat)
    requires process < 1024
    requires var w := Run(START, actions, process); |w.ids| > 0 && w.word / 4096 - FirstMillis(w) < TWO_TO_42
    ensures var w := Run(START, actions, process);
            Increasing(w.ids) <==> Era(FirstMillis(w)) == Era(w.word / 4096)
  {
    Reachable(actions, process);
    EraDecides(Run(START, actions, process), process);
  }

  lemma EraDecides(w: World, process: nat)
    requires process < 1024 && Inv(w, process) && |w.ids| > 0 && w.word / 4096 - FirstMillis(w) < TWO_TO_42
    ensures Increasing(w.ids) <==> Era(FirstMillis(w)) == Era(w.word / 4096)
  {
    var first := w.writes[1];
    if Era(first / 4096) == Era(w.word / 4096) {
      forall i, j | 0 <= i < j < |w.ids| ensures w.ids[i] < w.ids[j] {
        EraOrders(first, w.writes[i + 1], w.writes[j + 1], w.word, process);
      }
    } else {
      EraCrossed(first, w.word, process);
      assert w.ids[|w.ids| - 1] < w.ids[0];
    }
  }

  lemma EraOrders(first: nat, a: nat, b: nat, last: nat, process: nat)
    requires first <= a < b <= last < TWO_TO_48 * 4096 && process < 1024
    requires Era(first / 4096) == Era(last / 4096)
    ensures IdOf(a, process) < IdOf(b, process)
  {
    SameEra(first, a, last);
    SameEra(first, b, last);
    WithinAnEra(a, b);
    IdsLessWhen(a, b, process);
    assert a == a / 4096 * 4096 + a % 4096;
    assert b == b / 4096 * 4096 + b % 4096;
  }

  lemma EraCrossed(first: nat, last: nat, process: nat)
    requires first <= last < TWO_TO_48 * 4096 && process < 1024
    requires last / 4096 - first / 4096 < TWO_TO_42 && Era(first / 4096) != Era(last / 4096)
    ensures IdOf(last, process) < IdOf(first, process)
  {
    AcrossAnEra(first, last);
    IdsLessWhen(last, first, process);
  }

  lemma SameEra(a: nat, b: nat, c: nat)
    requires a <= b <= c && Era(a / 4096) == Era(c / 4096)
    ensures Era(b / 4096) == Era(a / 4096)
  {
    assert a / 4096 <= b / 4096 <= c / 4096;
  }

  /** While the milliseconds in use span less than 2^42 (139 years), every id
      returned is different, whatever the clock did and wherever it stood. */
  lemma IdsDistinct(actions: seq<Action>, process: nat, i: nat, j: nat)
    requires process < 1024
    requires var w := Run(START, actions, process);
             && i < j < |w.ids|
             && w.word / 4096 - FirstMillis(w) < TWO_TO_42
    ensures var w := Run(START, actions, process); w.ids[i] != w.ids[j]
  {
    Reachable(actions, process);
    var w := Run(START, actions, process);
    var a, b := w.writes[i + 1], w.writes[j + 1];
    assert w.writes[1] <= a < b <= w.word;
    IdsEqualWhen(b, a, process);
    if w.ids[i] == w.ids[j] {
      SmallMod(b / 4096 - a / 4096, TWO_TO_42);
    }
  }

  /** If moreover the first stored millisecond is at or past the epoch and the
      last is less than 2^42 beyond it, ids increase in the order of the swaps,
      and each shows the millisecond it was stored with. */
  lemma IdsIncrease(actions: seq<Action>, process: nat)
    requires process < 1024
    requires var w := Run(START, actions, process);
             |w.ids| > 0 ==> EPOCH <= FirstMillis(w) && w.word / 4096 < EPOCH + TWO_TO_42
    ensures var w := Run(START, actions, process);
            && Increasing(w.ids) && |w.writes| == |w.ids| + 1
            && forall i :: 0 <= i < |w.ids| ==>
                 w.ids[i] < TWO_TO_64 && w.ids[i] / TWO_TO_22 == w.writes[i + 1] / 4096 - EPOCH
  {
    Reachable(actions, process);
    var w := Run(START, actions, process);
    forall i | 0 <= i < |w.ids|
      ensures w.ids[i] < TWO_TO_64 && w.ids[i] / TWO_TO_22 == w.writes[i + 1] / 4096 - EPOCH
    {
      assert w.writes[1] <= w.writes[i + 1] <= w.word;
      FieldsKept(w.writes[i + 1] / 4096, process, w.writes[i + 1] % 4096);
    }
    forall i, j | 0 <= i < j < |w.ids| ensures w.ids[i] < w.ids[j] {
      var a, b := w.writes[i + 1], w.writes[j + 1];
      assert a < b;
      FieldsKept(a / 4096, process, a % 4096);
      FieldsKept(b / 4096, process, b % 4096);
      FieldOrder(w.ids[i], w.ids[j], process);
    }
  }

  lemma FieldOrder(x: nat, y: nat, process: nat)
    requires process < 1024
    requires x / 4096 % 1024 == process && y / 4096 % 1024 == process
    requires x / TWO_TO_22 < y / TWO_TO_22 || (x / TWO_TO_22 == y / TWO_TO_22 && x % 4096 < y % 4096)
    ensures x < y
  {
    FieldsMakeUp(x);
    FieldsMakeUp(y);
  }

  /** Both conditions are needed.  A first reading before the epoch wraps the
      subtraction and the second id is smaller than the first; readings 2^42
      apart give one id twice. */
  lemma WithoutTheBounds(process: nat)
    requires process < 1024
    ensures exists actions :: var w := Run(START, actions, process); |w.ids| == 2 && w.ids[1] < w.ids[0]
    ensures exists actions :: var w := Run(START, actions, process); |w.ids| == 2 && w.ids[1] == w.ids[0]
  {
    var early := TwoReadings(EPOCH - 1, EPOCH, process);
    FieldsKept(EPOCH - 1, process, 0);
    FieldsKept(EPOCH, process, 0);
    var far := TwoReadings(EPOCH, EPOCH + TWO_TO_42, process);
    IdsEqualWhen(EPOCH * 4096, (EPOCH + TWO_TO_42) * 4096, process);
  }

  /** One thread, two attempts, two increasing readings. */
  lemma TwoReadings(first: nat, second: nat, process: nat) returns (actions: seq<Action>)
    requires 0 < first < second < TWO_TO_48 && process < 1024
    ensures var w := Run(START, actions, process);
            w.ids == [PackId(first, process, 0), PackId(second, process, 0)]
  {
    var a := [Load(0), ReadClock(0, first), Swap(0)];
    actions := a + [Load(0), ReadClock(0, second), Swap(0)];
    RunThree(START, first, process);
    var w := Run(START, a, process);
    RunThree(w, second, process);
    RunAppend(START, a, [Load(0), ReadClock(0, second), Swap(0)], process);
  }

  lemma RunThree(w: World, millis: nat, process: nat)
    requires process < 1024 && millis < TWO_TO_48
    requires ThreadAt(w, 0).Idle? && w.word / 4096 < millis
    ensures var v := Run(w, [Load(0), ReadClock(0, millis), Swap(0)], process);
            && v.word / 4096 == millis && ThreadAt(v, 0).Idle?
            && v.ids == w.ids + [PackId(millis, process, 0)]
  {
    var acts := [Load(0), ReadClock(0, millis), Swap(0)];
    assert acts[..2][..1][..0] == [] && acts[..2][..1] == [Load(0)] && acts[..2] == [Load(0), ReadClock(0, millis)];
    var w1 := Step(w, Load(0), process);
    var w2 := Step(w1, ReadClock(0, millis), process);
    assert Run(w, [Load(0)], process) == w1;
    assert Run(w, acts[..2], process) == w2;
    assert Run(w, acts, process) == Step(w2, Swap(0), process);
    SmallMod(millis, TWO_TO_48);
    SmallMod(millis, TWO_TO_64);
    assert Succeeds(w2, 0);
  }

  lemma {:induction false} RunAppend(w: World, a: seq<Action>, b: seq<Action>, process: nat)
    requires process < 1024
    ensures Run(w, a + b, process) == Run(Run(w, a, process), b, process)
  {
    if b == [] {
      assert a + b == a;
    } else {
      assert (a + b)[..|a + b| - 1] == a + b[..|b| - 1];
      RunAppend(w, a, b[..|b| - 1], process);
    }
  }
}
