/**
 * One key of a two-tier cache (tiered.go) over distinct tiers without loaders, Stores or async writes.
 * Tiered writes of the key are serialized by its write lock; Gets that missed in L1 run beside them.
 * A watch is superseded by every write, delete or invalidation of the key in its tier after it began.
 */
module Tiered {
  import opened Prelude

  type Val(==, !new)

  // A value and the number of the write that made it.
  datatype Cell = Cell(v: Val, stamp: nat)

  datatype Writer =
    | Free
    | Setting(c: Cell)   // L1 written, L2 not yet
    | Removing(d: nat)   // L2 deleted, L1 not yet; d is the stamp the next write would have had

  datatype Pc =
    | Watched1                   // L1 watched
    | Watched2                   // both tiers watched
    | Got(got: Option<Cell>)     // L2 read
    | Copying(c: Cell)           // guard passed under the L1 shard lock, which it holds; L1 not yet written

  // stale1 and stale2 hold the Gets whose L1 and L2 watch is superseded; begun every Get so far.
  datatype State = State(
    l1: Option<Cell>, l2: Option<Cell>, readers: map<nat, Pc>, stale1: set<nat>, stale2: set<nat>, begun: set<nat>,
    writer: Writer, next: nat, barrier: nat)

  datatype Step =
    | SetL1(v: Val) | SetL2(ok: bool)
    | DeleteL2 | DeleteL1
    | DirectL1(w: Option<Val>) | DirectL2(w: Option<Val>) // a superseding write to one tier alone
    | DropL1 | DropL2                                     // eviction or expiry
    | WatchL1(r: nat) | WatchL2(r: nat) | ReadL2(r: nat) | Guard(r: nat) | CopyL1(r: nat, kept: bool) | End(r: nat)

  // No Get is inside the L1 shard lock.
  ghost predicate L1Unlocked(s: State) {
    forall r :: r in s.readers ==> !s.readers[r].Copying?
  }

  ghost predicate Enabled(s: State, a: Step) {
    match a
    case SetL1(_) => s.writer.Free? && L1Unlocked(s)
    case SetL2(_) => s.writer.Setting?
    case DeleteL2 => s.writer.Free?
    case DeleteL1 => s.writer.Removing? && L1Unlocked(s)
    case DirectL1(_) => L1Unlocked(s)
    case DirectL2(_) => true
    case DropL1 => L1Unlocked(s)
    case DropL2 => true
    case WatchL1(r) => r !in s.begun && r !in s.readers && L1Unlocked(s)
    case WatchL2(r) => r in s.readers && s.readers[r].Watched1?
    case ReadL2(r) => r in s.readers && s.readers[r].Watched2?
    case Guard(r) =>
      && r in s.readers && s.readers[r].Got? && s.readers[r].got.Some? && L1Unlocked(s)
      && r !in s.stale1 && r !in s.stale2
    case CopyL1(r, _) => r in s.readers && s.readers[r].Copying?
    case End(r) => r in s.readers && !s.readers[r].Copying?
  }

  function Stamped(v: Option<Val>, stamp: nat): Option<Cell> {
    match v case None => None case Some(x) => Some(Cell(x, stamp))
  }

  function WriteL1(s: State, c: Option<Cell>): State {
    s.(l1 := c, stale1 := s.stale1 + s.readers.Keys)
  }

  function WriteL2(s: State, c: Option<Cell>): State {
    s.(l2 := c, stale2 := s.stale2 + s.readers.Keys)
  }

  ghost function Apply(s: State, a: Step): State
    requires Enabled(s, a)
  {
    match a
    case SetL1(v) => WriteL1(s, Some(Cell(v, s.next))).(writer := Setting(Cell(v, s.next)), next := s.next + 1)
    case SetL2(ok) => if ok then WriteL2(s, Some(s.writer.c)).(writer := Free) else s.(writer := Free)
    case DeleteL2 => WriteL2(s, None).(writer := Removing(s.next))
    case DeleteL1 => WriteL1(s, None).(writer := Free, barrier := s.writer.d)
    case DirectL1(v) => WriteL1(s, Stamped(v, s.next)).(next := s.next + 1)
    case DirectL2(v) => WriteL2(s, Stamped(v, s.next)).(next := s.next + 1)
    case DropL1 => s.(l1 := None)
    case DropL2 => s.(l2 := None)
    case WatchL1(r) => s.(readers := s.readers[r := Watched1], begun := s.begun + {r})
    case WatchL2(r) => s.(readers := s.readers[r := Watched2], stale2 := s.stale2 - {r})
    case ReadL2(r) => s.(readers := s.readers[r := Got(s.l2)])
    case Guard(r) => s.(readers := s.readers[r := Copying(s.readers[r].got.value)])
    case CopyL1(r, kept) =>
      WriteL1(s, if kept then Some(s.readers[r].c) else s.l1).(readers := s.readers - {r})
    case End(r) => s.(readers := s.readers - {r})
  }

  ghost predicate Run(steps: seq<Step>, states: seq<State>) {
    && |states| == |steps| + 1
    && states[0] == State(None, None, map[], {}, {}, {}, Free, 0, 0)
    && forall i :: 0 <= i < |steps| ==> Enabled(states[i], steps[i]) && states[i + 1] == Apply(states[i], steps[i])
  }

  predicate Since(c: Cell, low: nat, next: nat) {
    low <= c.stamp < next
  }

  // Whatever L1 holds or a Get may still put there was written at or after the latest completed Delete;
  // so was whatever L2 holds, and during a Delete even at or after that one.
  ghost predicate Inv(s: State) {
    && s.barrier <= s.next && s.readers.Keys <= s.begun && s.stale1 + s.stale2 <= s.begun
    && (s.l1.Some? ==> Since(s.l1.value, s.barrier, s.next))
    && (s.l2.Some? ==> Since(s.l2.value, if s.writer.Removing? then s.writer.d else s.barrier, s.next))
    && (s.writer.Setting? ==> Since(s.writer.c, s.barrier, s.next))
    && (s.writer.Removing? ==> s.barrier <= s.writer.d <= s.next)
    && (forall r :: r in s.readers && s.readers[r].Copying? ==> Since(s.readers[r].c, s.barrier, s.next))
    && (forall r :: r in s.readers && s.readers[r].Got? && s.readers[r].got.Some? && r !in s.stale1 ==>
          Since(s.readers[r].got.value, s.barrier, s.next))
    && (forall r :: r in s.readers && s.readers[r].Got? && r !in s.stale2 ==> s.l2 == s.readers[r].got || s.l2.None?)
  }

  predicate OfReader(a: Step) {
    a.WatchL1? || a.WatchL2? || a.ReadL2? || a.Guard? || a.CopyL1? || a.End?
  }

  lemma WriterInv(s: State, a: Step)
    requires Inv(s) && Enabled(s, a) && !OfReader(a)
    ensures Inv(Apply(s, a)) && s.next <= Apply(s, a).next && s.barrier <= Apply(s, a).barrier
  {
  }

  lemma ReaderInv(s: State, a: Step)
    requires Inv(s) && Enabled(s, a) && OfReader(a)
    ensures Inv(Apply(s, a)) && s.next <= Apply(s, a).next && s.barrier <= Apply(s, a).barrier
  {
  }

  lemma InvStep(s: State, a: Step)
    requires Inv(s) && Enabled(s, a)
    ensures Inv(Apply(s, a)) && s.next <= Apply(s, a).next && s.barrier <= Apply(s, a).barrier
  {
    hide Inv, Apply;
    if OfReader(a) { ReaderInv(s, a); } else { WriterInv(s, a); }
  }

  // -- Whole runs ---------------------------------------------------------------------------------

  lemma {:induction false} RunInv(steps: seq<Step>, states: seq<State>, i: nat)
    requires Run(steps, states) && i < |states|
    ensures Inv(states[i])
  {
    if i > 0 {
      hide Inv, Apply;
      RunInv(steps, states, i - 1);
      InvStep(states[i - 1], steps[i - 1]);
    }
  }

  lemma {:induction false} Forward(steps: seq<Step>, states: seq<State>, i: nat, j: nat)
    requires Run(steps, states) && i <= j < |states|
    ensures states[i].next <= states[j].next && states[i].barrier <= states[j].barrier
  {
    hide Inv, Apply;
    if i < j {
      Forward(steps, states, i, j - 1);
      RunInv(steps, states, j - 1);
      InvStep(states[j - 1], steps[j - 1]);
    }
  }

  // Once Delete returns, no value that L2 or L1 held at any time up to its L2 delete is in L1 again.
  lemma DeleteIsNotUndone(steps: seq<Step>, states: seq<State>, m: nat, l: nat, i: nat, j: nat)
    requires Run(steps, states) && m <= l < i < j < |states|
    requires steps[l].DeleteL2? && steps[i].DeleteL1? && states[i].writer == Removing(states[l].next)
    ensures states[j].l1.Some? ==> states[j].l1 != states[m].l1 && states[j].l1 != states[m].l2
    ensures states[j].l2.Some? ==> states[j].l2 != states[m].l1 && states[j].l2 != states[m].l2
  {
    RunInv(steps, states, m);
    RunInv(steps, states, j);
    Forward(steps, states, m, l);
    Forward(steps, states, i + 1, j);
    assert states[i + 1] == Apply(states[i], steps[i]);
  }

  // A copy that passes the guard is of L2's current value, unless L2 has just dropped it.
  lemma GuardedCopyIsCurrent(steps: seq<Step>, states: seq<State>, i: nat)
    requires Run(steps, states) && i < |steps| && steps[i].Guard?
    ensures states[i + 1].readers[steps[i].r].Copying?
    ensures states[i].l2.Some? ==> states[i].l2 == Some(states[i + 1].readers[steps[i].r].c)
  {
    RunInv(steps, states, i);
    assert states[i + 1] == Apply(states[i], steps[i]);
  }

  // -- When a Get copies --------------------------------------------------------------------------

  predicate Writes1(a: Step) {
    a.SetL1? || a.DeleteL1? || a.DirectL1? || a.CopyL1?
  }

  predicate Writes2(a: Step) {
    (a.SetL2? && a.ok) || a.DeleteL2? || a.DirectL2?
  }

  ghost predicate None1(steps: seq<Step>, i: nat, j: nat)
    requires i <= j <= |steps|
  {
    forall m :: i <= m < j ==> !Writes1(steps[m])
  }

  ghost predicate None2(steps: seq<Step>, i: nat, j: nat)
    requires i <= j <= |steps|
  {
    forall m :: i <= m < j ==> !Writes2(steps[m])
  }

  // Get r, begun at i, is still under way at j.
  ghost predicate Under(steps: seq<Step>, r: nat, i: nat, j: nat)
    requires i < j <= |steps|
  {
    steps[i] == WatchL1(r) && forall m :: i < m < j ==> !(steps[m].CopyL1? && steps[m].r == r) && steps[m] != End(r)
  }

  lemma StaleStep(s: State, a: Step, r: nat)
    requires Inv(s) && Enabled(s, a) && r in s.readers && !(a.CopyL1? && a.r == r) && a != End(r)
    ensures var t := Apply(s, a);
      && r in t.readers && (r !in t.stale1 <==> r !in s.stale1 && !Writes1(a))
      && (a != WatchL2(r) ==> (r !in t.stale2 <==> r !in s.stale2 && !Writes2(a)))
      && (a == WatchL2(r) ==> r !in t.stale2 && t.readers[r] == Watched2)
      && (a == ReadL2(r) ==> t.readers[r] == Got(s.l2))
      && (a == Guard(r) ==>
            s.readers[r].Got? && s.readers[r].got.Some? && t.readers[r] == Copying(s.readers[r].got.value))
      && (a != WatchL2(r) && a != ReadL2(r) && a != Guard(r) ==> t.readers[r] == s.readers[r])
  {
  }

  lemma BeginStep(s: State, r: nat)
    requires Inv(s) && Enabled(s, WatchL1(r))
    ensures var t := Apply(s, WatchL1(r)); r in t.readers && t.readers[r] == Watched1 && r !in t.stale1
  {
  }

  // In every run a Get's L1 watch is good if and only if L1 has not been written since it began.
  lemma {:induction false} L1WatchIff(steps: seq<Step>, states: seq<State>, i: nat, j: nat, r: nat)
    requires Run(steps, states) && i < j < |states| && Under(steps, r, i, j)
    ensures r in states[j].readers && (r !in states[j].stale1 <==> None1(steps, i + 1, j))
    decreases j
  {
    hide Inv, Apply, Enabled;
    RunInv(steps, states, j - 1);
    if j == i + 1 {
      BeginStep(states[i], r);
    } else {
      L1WatchIff(steps, states, i, j - 1, r);
      StaleStep(states[j - 1], steps[j - 1], r);
    }
  }

  // And its L2 watch if and only if L2 has not been written since that began.
  lemma {:induction false} L2WatchIff(steps: seq<Step>, states: seq<State>, i: nat, l: nat, j: nat, r: nat)
    requires Run(steps, states) && i < l < j < |states| && Under(steps, r, i, j) && steps[l] == WatchL2(r)
    requires forall m :: l < m < j ==> steps[m] != WatchL2(r)
    ensures r !in states[j].stale2 <==> None2(steps, l + 1, j)
    decreases j
  {
    hide Inv, Apply, Enabled;
    RunInv(steps, states, j - 1);
    L1WatchIff(steps, states, i, j - 1, r);
    StaleStep(states[j - 1], steps[j - 1], r);
    if j > l + 1 { L2WatchIff(steps, states, i, l, j - 1, r); }
  }

  // So a Get may copy what it read if and only if it read something and neither tier has been written since
  // its watch on it began, and no other Get is inside the L1 shard lock.
  lemma CopiesIffUnwritten(steps: seq<Step>, states: seq<State>, i: nat, l: nat, j: nat, r: nat)
    requires Run(steps, states) && i < l < j < |states| && Under(steps, r, i, j) && steps[l] == WatchL2(r)
    requires forall m :: l < m < j ==> steps[m] != WatchL2(r)
    requires r in states[j].readers && states[j].readers[r].Got?
    ensures Enabled(states[j], Guard(r)) <==>
      states[j].readers[r].got.Some? && L1Unlocked(states[j]) && None1(steps, i + 1, j) && None2(steps, l + 1, j)
  {
    L1WatchIff(steps, states, i, j, r);
    L2WatchIff(steps, states, i, l, j, r);
  }

  // -- What the tiers hold ------------------------------------------------------------------------

  // Step a at s leaves L1 (or L2) as c, whatever it was.
  ghost predicate Puts1(s: State, a: Step, c: Option<Cell>) {
    match a
    case SetL1(v) => c == Some(Cell(v, s.next))
    case DeleteL1 => c.None?
    case DirectL1(w) => c == Stamped(w, s.next)
    case DropL1 => c.None?
    case CopyL1(r, kept) => kept && r in s.readers && s.readers[r].Copying? && c == Some(s.readers[r].c)
    case _ => false
  }

  ghost predicate Puts2(s: State, a: Step, c: Option<Cell>) {
    match a
    case SetL2(ok) => ok && s.writer.Setting? && c == Some(s.writer.c)
    case DeleteL2 => c.None?
    case DirectL2(w) => c == Stamped(w, s.next)
    case DropL2 => c.None?
    case _ => false
  }

  lemma TierStep(s: State, a: Step)
    requires Enabled(s, a)
    ensures var t := Apply(s, a);
      && (forall c :: Puts1(s, a, c) ==> t.l1 == c) && (t.l1 == s.l1 || Puts1(s, a, t.l1))
      && (forall c :: Puts2(s, a, c) ==> t.l2 == c) && (t.l2 == s.l2 || Puts2(s, a, t.l2))
      && (a.SetL1? ==> t.writer == Setting(Cell(a.v, s.next))) && (a.SetL2? || a.DeleteL1? ==> t.writer.Free?)
      && (!a.SetL1? && !a.SetL2? && !a.DeleteL1? && !a.DeleteL2? ==> t.writer == s.writer)
  {
  }

  ghost predicate Passes1(s: State, a: Step) {
    forall c :: !Puts1(s, a, c)
  }

  ghost predicate Passes2(s: State, a: Step) {
    forall c :: !Puts2(s, a, c)
  }

  // In every run L1 holds what the latest step that wrote it put there.
  lemma {:induction false} L1IsLatest(steps: seq<Step>, states: seq<State>, j: nat) returns (i: nat)
    requires Run(steps, states) && j < |states| && states[j].l1.Some?
    ensures i < j && Puts1(states[i], steps[i], states[j].l1)
    ensures forall m :: i < m < j ==> Passes1(states[m], steps[m])
  {
    hide Apply, Enabled, Puts1, Puts2;
    i := j - 1;
    TierStep(states[i], steps[i]);
    if !Puts1(states[i], steps[i], states[j].l1) {
      assert Passes1(states[i], steps[i]);
      i := L1IsLatest(steps, states, j - 1);
    }
  }

  // And so does L2.
  lemma {:induction false} L2IsLatest(steps: seq<Step>, states: seq<State>, j: nat) returns (i: nat)
    requires Run(steps, states) && j < |states| && states[j].l2.Some?
    ensures i < j && Puts2(states[i], steps[i], states[j].l2)
    ensures forall m :: i < m < j ==> Passes2(states[m], steps[m])
  {
    hide Apply, Enabled, Puts1, Puts2;
    i := j - 1;
    TierStep(states[i], steps[i]);
    if !Puts2(states[i], steps[i], states[j].l2) {
      assert Passes2(states[i], steps[i]);
      i := L2IsLatest(steps, states, j - 1);
    }
  }

  // What a Set puts in L2 is what it put in L1.
  lemma {:induction false} SetIsBoth(steps: seq<Step>, states: seq<State>, j: nat)
    requires Run(steps, states) && j < |states| && states[j].writer.Setting?
    ensures exists i :: 0 <= i < j && steps[i].SetL1? && Puts1(states[i], steps[i], Some(states[j].writer.c))
  {
    hide Apply, Enabled, Puts1, Puts2;
    SettingPuts(states[j - 1], steps[j - 1]);
    if states[j].writer == states[j - 1].writer { SetIsBoth(steps, states, j - 1); }
  }

  lemma SettingPuts(s: State, a: Step)
    requires Enabled(s, a)
    ensures var t := Apply(s, a);
      t.writer.Setting? ==> t.writer == s.writer || (a.SetL1? && Puts1(s, a, Some(t.writer.c)))
  {
  }

  // A run of a Set, an eviction from L1, a Get that brings the value back, and a Delete.
  function TourStep(v: Val, i: int): Step {
    if i <= 0 then SetL1(v) else if i == 1 then SetL2(true) else if i == 2 then DropL1 else if i == 3 then WatchL1(0)
    else if i == 4 then WatchL2(0) else if i == 5 then ReadL2(0) else if i == 6 then Guard(0)
    else if i == 7 then CopyL1(0, true) else if i == 8 then DeleteL2 else DeleteL1
  }

  function TourState(v: Val, i: int): State {
    var c := Cell(v, 0);
    State(
      if i in {1, 2, 8, 9} then Some(c) else None, if 2 <= i <= 8 then Some(c) else None,
      if i == 4 then map[0 := Watched1] else if i == 5 then map[0 := Watched2]
      else if i == 6 then map[0 := Got(Some(c))] else if i == 7 then map[0 := Copying(c)] else map[],
      if i >= 8 then {0} else {}, {}, if i >= 4 then {0} else {},
      if i == 1 then Setting(c) else if i == 9 then Removing(1) else Free, if i <= 0 then 0 else 1,
      if i >= 10 then 1 else 0)
  }

  lemma Tour(v: Val)
    ensures var steps, states := seq(10, i => TourStep(v, i)), seq(11, i => TourState(v, i));
      Run(steps, states) && states[8].l1 == states[8].l2 == Some(Cell(v, 0)) && states[10].l1 == states[10].l2 == None
  {
    forall i | 0 <= i < 10
      ensures Enabled(TourState(v, i), TourStep(v, i)) && TourState(v, i + 1) == Apply(TourState(v, i), TourStep(v, i))
    {
      TourNext(v, i);
    }
  }

  lemma TourNext(v: Val, i: int)
    requires 0 <= i < 10
    ensures Enabled(TourState(v, i), TourStep(v, i)) && TourState(v, i + 1) == Apply(TourState(v, i), TourStep(v, i))
  {
  }
}
