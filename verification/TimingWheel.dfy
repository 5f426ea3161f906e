/** The hashed timing wheel of internal/wheel/wheel.go, refined to a set of (entry, due tick). */
module TimingWheel {
  import opened Queues

  // A wheel entry: its expiry, the laps left before it fires, and the slot that holds it.
  datatype Node = Node(expireAtNs: int, revolutions: nat, slot: nat)

  function Wrap(cursor: nat, ahead: nat, n: nat): int {
    if cursor + ahead < n then cursor + ahead else cursor + ahead - n
  }

  // How many ticks after the cursor an entry due in delta nanoseconds fires.
  function TicksAhead(delta: int, tickNs: int): (t: int)
    requires tickNs > 0
    ensures t >= 1 && delta <= t * tickNs
    ensures delta > 0 ==> t * tickNs < delta + tickNs
    ensures delta <= 0 ==> t == 1
  {
    var whole := if delta > 0 then delta / tickNs else 0;
    var up := if delta > 0 && delta % tickNs != 0 then whole + 1 else whole;
    RoundUp(delta, tickNs);
    if up < 1 then 1 else up
  }

  lemma RoundUp(delta: int, tickNs: int)
    requires tickNs > 0
    ensures delta > 0 ==> delta == delta / tickNs * tickNs + delta % tickNs
    ensures delta > 0 ==> (delta / tickNs + 1) * tickNs == delta / tickNs * tickNs + tickNs
    ensures delta > 0 ==> delta / tickNs >= 0
    ensures delta > 0 && delta % tickNs == 0 ==> delta / tickNs >= 1
  {
  }

  // The node fires at tick due, seen from a wheel of n slots whose cursor stands at tick.
  ghost predicate Scheduled(e: Node, due: int, tick: int, cursor: nat, n: nat) {
    var pos := due - tick - 1 - e.revolutions * n;
    0 <= pos < n && e.slot == Wrap(cursor, pos + 1, n)
  }

  lemma ScheduledAhead(expireAtNs: int, ahead: int, tick: int, cursor: nat, n: nat)
    requires n > 0 && cursor < n && ahead >= 1
    ensures Scheduled(Node(expireAtNs, (ahead - 1) / n, (cursor + ahead % n) % n), tick + ahead, tick, cursor, n)
  {
    var r, pos := (ahead - 1) / n, (ahead - 1) % n;
    assert ahead == r * n + pos + 1;
    if pos + 1 < n {
      Remainder(ahead, r, pos + 1, n);
    } else {
      assert ahead == (r + 1) * n;
      Remainder(ahead, r + 1, 0, n);
    }
    if cursor + ahead % n < n {
      Remainder(cursor + ahead % n, 0, cursor + ahead % n, n);
    } else {
      Remainder(cursor + ahead % n, 1, cursor + ahead % n - n, n);
    }
  }

  lemma Remainder(x: int, q: int, r: int, n: nat)
    requires n > 0 && x == q * n + r && 0 <= r < n
    ensures x % n == r && x / n == q
  {
    assert x == x / n * n + x % n;
    assert (q - x / n) * n == q * n - x / n * n;
    ZeroMultiple(q - x / n, n);
  }

  lemma ZeroMultiple(d: int, n: nat)
    requires -(n as int) < d * n < n
    ensures d == 0
  {
    assert (d - 1) * n == d * n - n && (d + 1) * n == d * n + n;
    assert d >= 1 ==> (d - 1) * n >= 0;
    assert d <= -1 ==> (d + 1) * n <= 0;
  }

  // One tick: the entries of the next slot are those with a whole number of laps left.
  lemma ScheduledTick(e: Node, due: int, tick: int, cursor: nat, n: nat)
    requires n > 0 && cursor < n && Scheduled(e, due, tick, cursor, n)
    ensures var next := Wrap(cursor, 1, n);
      && (e.slot == next && e.revolutions == 0 <==> due == tick + 1)
      && (e.slot == next && e.revolutions > 0 ==>
            Scheduled(e.(revolutions := e.revolutions - 1), due, tick + 1, next, n))
      && (e.slot != next ==> Scheduled(e, due, tick + 1, next, n))
  {
    assert e.revolutions > 0 ==> (e.revolutions - 1) * n == e.revolutions * n - n;
    assert e.revolutions > 0 ==> e.revolutions * n >= n;
  }

  // Whole laps bring the cursor back to its slot.
  lemma ScheduledLaps(e: Node, due: int, tick: int, cursor: nat, n: nat, laps: nat)
    requires n > 0 && cursor < n && Scheduled(e, due, tick, cursor, n)
    ensures e.revolutions < laps <==> due <= tick + laps * n
    ensures e.revolutions >= laps ==>
              Scheduled(e.(revolutions := e.revolutions - laps), due, tick + laps * n, cursor, n)
  {
    Laps(e.revolutions, laps, n);
  }

  lemma Laps(revolutions: nat, laps: nat, n: nat)
    ensures revolutions < laps ==> revolutions * n + n <= laps * n
    ensures revolutions >= laps ==> (revolutions - laps) * n == revolutions * n - laps * n >= 0
  {
    if revolutions < laps {
      Sums(revolutions + 1, laps - revolutions - 1, n);
      Sums(revolutions, 1, n);
    } else {
      Sums(laps, revolutions - laps, n);
    }
  }

  lemma {:induction false} Sums(a: nat, b: nat, n: nat)
    ensures (a + b) * n == a * n + b * n && b * n >= 0
  {
    if b > 0 {
      Sums(a, b - 1, n);
      assert (a + b) * n == (a + b - 1) * n + n && b * n == (b - 1) * n + n;
    }
  }

  // ---- The wheel -----------------------------------------------------------------------------

  function Owned<T>(nodes: map<T, Node>, slot: nat): set<T> {
    set e | e in nodes && nodes[e].slot == slot
  }

  // Each slot lists, once each, the entries whose node names it.
  ghost predicate Linked<T(!new)>(slots: seq<seq<T>>, nodes: map<T, Node>) {
    && (forall s :: 0 <= s < |slots| ==> Distinct(slots[s]) && Keys(slots[s]) == Owned(nodes, s))
    && (forall e :: e in nodes ==> nodes[e].slot < |slots|)
  }

  // The entries of list whose laps run out within n, and the rest, in order.
  function Ripe<T(==)>(list: seq<T>, nodes: map<T, Node>, n: nat): seq<T> {
    if list == [] then []
    else if Due(nodes, list[0], n) then [list[0]] + Ripe(list[1..], nodes, n)
    else Ripe(list[1..], nodes, n)
  }

  function Unripe<T(==)>(list: seq<T>, nodes: map<T, Node>, n: nat): seq<T> {
    if list == [] then []
    else if Due(nodes, list[0], n) then Unripe(list[1..], nodes, n)
    else [list[0]] + Unripe(list[1..], nodes, n)
  }

  predicate Due<T(==)>(nodes: map<T, Node>, e: T, n: nat) {
    e in nodes && nodes[e].revolutions < n
  }

  function DueOf<T>(s: set<T>, nodes: map<T, Node>, n: nat): set<T> {
    set e | e in s && Due(nodes, e, n)
  }

  lemma DueStep<T>(s: set<T>, e: T, nodes: map<T, Node>, n: nat)
    requires e !in s
    ensures DueOf(s + {e}, nodes, n) == DueOf(s, nodes, n) + if Due(nodes, e, n) then {e} else {}
    ensures s + {e} - DueOf(s + {e}, nodes, n) == s - DueOf(s, nodes, n) + if Due(nodes, e, n) then {} else {e}
  {
  }

  lemma {:induction false} RipeSplit<T>(list: seq<T>, nodes: map<T, Node>, n: nat)
    requires Distinct(list)
    ensures Distinct(Ripe(list, nodes, n)) && Keys(Ripe(list, nodes, n)) == DueOf(Keys(list), nodes, n)
    ensures Distinct(Unripe(list, nodes, n))
    ensures Keys(Unripe(list, nodes, n)) == Keys(list) - DueOf(Keys(list), nodes, n)
  {
    hide Keys, Distinct, DueOf, Due;
    NoKeys<T>();
    if list == [] {
      NoneDue(nodes, n);
    } else {
      var e, rest := list[0], list[1..];
      DropHead(list);
      InKeys(list, e);
      InKeys(rest, e);
      RipeSplit(rest, nodes, n);
      assert Keys(list) == Keys(rest) + {e};
      DueStep(Keys(rest), e, nodes, n);
      DueWithin(Keys(rest), nodes, n);
      InKeys(Ripe(rest, nodes, n), e);
      InKeys(Unripe(rest, nodes, n), e);
      if Due(nodes, e, n) { Append(Ripe(rest, nodes, n), e); } else { Append(Unripe(rest, nodes, n), e); }
    }
  }

  lemma NoneDue<T>(nodes: map<T, Node>, n: nat)
    ensures DueOf({}, nodes, n) == {}
  {
  }

  lemma DueWithin<T>(s: set<T>, nodes: map<T, Node>, n: nat)
    ensures DueOf(s, nodes, n) <= s
  {
  }

  lemma {:induction false} RipeSnoc<T>(list: seq<T>, e: T, nodes: map<T, Node>, n: nat)
    ensures Ripe(list + [e], nodes, n) == Ripe(list, nodes, n) + (if Due(nodes, e, n) then [e] else [])
    ensures Unripe(list + [e], nodes, n) == Unripe(list, nodes, n) + (if Due(nodes, e, n) then [] else [e])
  {
    if list != [] {
      hide Due;
      assert (list + [e])[1..] == list[1..] + [e];
      RipeSnoc(list[1..], e, nodes, n);
    }
  }

  // The nodes left after n laps of the entries in done.
  ghost function Turned<T(!new)>(nodes: map<T, Node>, done: set<T>, n: nat): map<T, Node> {
    map e | e in nodes && !(e in done && Due(nodes, e, n)) ::
      if e in done then nodes[e].(revolutions := nodes[e].revolutions - n) else nodes[e]
  }

  lemma TurnedNone<T(!new)>(nodes: map<T, Node>, n: nat)
    ensures Turned(nodes, Keys([]), n) == nodes && Ripe([], nodes, n) == [] && Unripe([], nodes, n) == []
  {
  }

  lemma TurnedNext<T(!new)>(nodes: map<T, Node>, done: set<T>, e: T, n: nat)
    requires e in nodes && e !in done
    ensures e in Turned(nodes, done, n) && Turned(nodes, done, n)[e] == nodes[e]
    ensures Turned(nodes, done + {e}, n) ==
      if Due(nodes, e, n) then Turned(nodes, done, n) - {e}
      else Turned(nodes, done, n)[e := nodes[e].(revolutions := nodes[e].revolutions - n)]
  {
  }

  lemma TurnedLinked<T(!new)>(slots: seq<seq<T>>, nodes: map<T, Node>, slot: nat, n: nat)
    requires Linked(slots, nodes) && slot < |slots|
    ensures Linked(slots[slot := Unripe(slots[slot], nodes, n)], Turned(nodes, Owned(nodes, slot), n))
    ensures |Turned(nodes, Owned(nodes, slot), n)| == |nodes| - |Ripe(slots[slot], nodes, n)|
  {
    hide Ripe, Unripe, Keys;
    var ripe := Ripe(slots[slot], nodes, n);
    var rest := Turned(nodes, Owned(nodes, slot), n);
    RipeSplit(slots[slot], nodes, n);
    forall s | 0 <= s < |slots| && s != slot ensures Owned(rest, s) == Owned(nodes, s) {}
    assert Owned(rest, slot) == Owned(nodes, slot) - DueOf(Owned(nodes, slot), nodes, n);
    assert nodes.Keys == rest.Keys + DueOf(Owned(nodes, slot), nodes, n);
  }

  // A wheel's fixed geometry: n slots of tickNs nanoseconds, tick 0 at originNs.
  datatype Dial = Dial(n: nat, tickNs: int, originNs: int) {
    ghost function TimeOf(tick: int): int {
      originNs + tick * tickNs
    }
  }

  lemma TimeAdvance(d: Dial, tick: int, steps: int)
    ensures d.TimeOf(tick + steps) == d.TimeOf(tick) + steps * d.tickNs
  {
    assert (tick + steps) * d.tickNs == tick * d.tickNs + steps * d.tickNs;
  }

  // Every node fires at its due tick, which is no earlier than its expiry.
  ghost predicate OnSchedule<T(!new)>(nodes: map<T, Node>, due: map<T, int>, tick: int, cursor: nat, d: Dial) {
    && due.Keys == nodes.Keys
    && forall e :: e in nodes ==>
         Scheduled(nodes[e], due[e], tick, cursor, d.n) && nodes[e].expireAtNs <= d.TimeOf(due[e])
  }

  function Passed<T>(due: map<T, int>, t: int): set<T> {
    set e | e in due && due[e] <= t
  }

  function Later<T>(due: map<T, int>, t: int): map<T, int> {
    map e | e in due && due[e] > t :: due[e]
  }

  lemma PassedSplit<T(!new)>(due: map<T, int>, a: int, b: int)
    requires a <= b
    ensures Later(Later(due, a), b) == Later(due, b)
    ensures Passed(due, b) == Passed(due, a) + Passed(Later(due, a), b)
    ensures Passed(due, a) !! Passed(Later(due, a), b)
  {
  }

  lemma ScheduledLater(e: Node, due: int, tick: int, cursor: nat, n: nat)
    requires Scheduled(e, due, tick, cursor, n)
    ensures due > tick
  {
    assert e.revolutions * n >= 0;
  }

  // Nothing tracked is due yet.
  lemma AllAhead<T(!new)>(nodes: map<T, Node>, due: map<T, int>, tick: int, cursor: nat, d: Dial)
    requires OnSchedule(nodes, due, tick, cursor, d)
    ensures forall e :: e in due ==> due[e] > tick
    ensures Later(due, tick) == due && Passed(due, tick) == {}
  {
    hide Scheduled;
    forall e | e in due ensures due[e] > tick {
      ScheduledLater(nodes[e], due[e], tick, cursor, d.n);
    }
  }

  lemma TickOnSchedule<T(!new)>(nodes: map<T, Node>, due: map<T, int>, tick: int, cursor: nat, d: Dial)
    requires d.n > 0 && cursor < d.n && OnSchedule(nodes, due, tick, cursor, d)
    ensures var next := Wrap(cursor, 1, d.n);
      && OnSchedule(Turned(nodes, Owned(nodes, next), 1), Later(due, tick + 1), tick + 1, next, d)
      && DueOf(Owned(nodes, next), nodes, 1) == Passed(due, tick + 1)
  {
    hide Scheduled;
    AllAhead(nodes, due, tick, cursor, d);
    var next := Wrap(cursor, 1, d.n);
    var rest := Turned(nodes, Owned(nodes, next), 1);
    forall e | e in nodes
      ensures Due(nodes, e, 1) && nodes[e].slot == next <==> due[e] == tick + 1
      ensures e in rest ==> Scheduled(rest[e], due[e], tick + 1, next, d.n)
    {
      ScheduledTick(nodes[e], due[e], tick, cursor, d.n);
    }
  }

  lemma LapsOnSchedule<T(!new)>(nodes: map<T, Node>, due: map<T, int>, tick: int, cursor: nat, d: Dial, laps: nat)
    requires d.n > 0 && cursor < d.n && OnSchedule(nodes, due, tick, cursor, d)
    ensures OnSchedule(Turned(nodes, nodes.Keys, laps), Later(due, tick + laps * d.n), tick + laps * d.n, cursor, d)
    ensures DueOf(nodes.Keys, nodes, laps) == Passed(due, tick + laps * d.n)
  {
    hide Scheduled;
    var t := tick + laps * d.n;
    var rest := Turned(nodes, nodes.Keys, laps);
    forall e | e in nodes
      ensures Due(nodes, e, laps) <==> due[e] <= t
      ensures e in rest ==> Scheduled(rest[e], due[e], t, cursor, d.n)
    {
      ScheduledLaps(nodes[e], due[e], tick, cursor, d.n, laps);
    }
  }

  lemma AddOnSchedule<T(!new)>(
      nodes: map<T, Node>, due: map<T, int>, tick: int, cursor: nat, d: Dial, e: T, node: Node, t: int)
    requires OnSchedule(nodes, due, tick, cursor, d)
    requires Scheduled(node, t, tick, cursor, d.n) && node.expireAtNs <= d.TimeOf(t)
    ensures OnSchedule(nodes[e := node], due[e := t], tick, cursor, d)
  {
  }

  lemma RemoveOnSchedule<T(!new)>(nodes: map<T, Node>, due: map<T, int>, tick: int, cursor: nat, d: Dial, e: T)
    requires OnSchedule(nodes, due, tick, cursor, d)
    ensures OnSchedule(nodes - {e}, due - {e}, tick, cursor, d)
  {
  }

  lemma AbsentNotDue<T(!new)>(nodes: map<T, Node>, due: map<T, int>, tick: int, cursor: nat, d: Dial, e: T)
    requires OnSchedule(nodes, due, tick, cursor, d) && e !in nodes
    ensures due - {e} == due
  {
  }

  lemma AddLinked<T(!new)>(slots: seq<seq<T>>, nodes: map<T, Node>, e: T, node: Node)
    requires Linked(slots, nodes) && e !in nodes && node.slot < |slots|
    ensures Linked(slots[node.slot := [e] + slots[node.slot]], nodes[e := node])
  {
    hide Keys, Distinct;
    var after := nodes[e := node];
    forall s | 0 <= s < |slots| ensures Owned(after, s) == Owned(nodes, s) + (if s == node.slot then {e} else {}) {}
    InKeys(slots[node.slot], e);
    Append(slots[node.slot], e);
  }

  lemma RemoveLinked<T(!new)>(slots: seq<seq<T>>, nodes: map<T, Node>, e: T)
    requires Linked(slots, nodes) && e in nodes
    ensures var s := nodes[e].slot;
      s < |slots| && Linked(slots[s := Without(slots[s], e)], nodes - {e}) && |nodes - {e}| == |nodes| - 1
  {
    hide Keys, Distinct;
    var slot, after := nodes[e].slot, nodes - {e};
    forall s | 0 <= s < |slots| ensures Owned(after, s) == Owned(nodes, s) - {e} {}
    forall s | 0 <= s < |slots| && s != slot ensures Owned(after, s) == Owned(nodes, s) {}
    Unlink(slots[slot], e);
    assert nodes.Keys == after.Keys + {e};
  }

  // The entries in the first k slots.
  function Below<T>(nodes: map<T, Node>, k: nat): set<T> {
    set e | e in nodes && nodes[e].slot < k
  }

  lemma BelowEnds<T(!new)>(slots: seq<seq<T>>, nodes: map<T, Node>, n: nat)
    requires Linked(slots, nodes)
    ensures Below(nodes, |slots|) == nodes.Keys
    ensures Turned(nodes, Below(nodes, 0), n) == nodes
    ensures Distinct<T>([]) && Keys<T>([]) == DueOf(Below(nodes, 0), nodes, n)
  {
  }

  lemma TurnedBelow<T(!new)>(nodes: map<T, Node>, k: nat, n: nat)
    ensures var part := Turned(nodes, Below(nodes, k), n);
      && Turned(part, Owned(part, k), n) == Turned(nodes, Below(nodes, k + 1), n)
      && DueOf(Owned(part, k), part, n) == DueOf(Owned(nodes, k), nodes, n)
      && DueOf(Below(nodes, k + 1), nodes, n) == DueOf(Below(nodes, k), nodes, n) + DueOf(Owned(nodes, k), nodes, n)
      && DueOf(Below(nodes, k), nodes, n) !! DueOf(Owned(nodes, k), nodes, n)
  {
  }

  lemma SlotSplit<T(!new)>(slots: seq<seq<T>>, nodes: map<T, Node>, s: nat, n: nat)
    requires Linked(slots, nodes) && s < |slots|
    ensures Distinct(Ripe(slots[s], nodes, n)) && Keys(Ripe(slots[s], nodes, n)) == DueOf(Owned(nodes, s), nodes, n)
  {
    RipeSplit(slots[s], nodes, n);
  }

  class Wheel<T(==, !new)> {
    const slotCount: nat
    const tickNs: int
    const originNs: int
    var slots: seq<seq<T>>
    var nodes: map<T, Node>
    var cursor: nat
    var cursorAtNs: int
    var totalEntries: int

    // The refined state: the tick the cursor stands at and the tick each entry fires at.
    ghost var tick: int
    ghost var due: map<T, int>

    ghost function D(): Dial {
      Dial(slotCount, tickNs, originNs)
    }

    ghost predicate Shape()
      reads `slots, `nodes, `cursor, `totalEntries
    {
      && slotCount > 0 && tickNs > 0 && |slots| == slotCount && cursor < slotCount
      && Linked(slots, nodes) && totalEntries == |nodes|
    }

    ghost predicate Valid()
      reads this
    {
      Ticking() && cursorAtNs == D().TimeOf(tick)
    }

    ghost predicate Ticking()
      reads `slots, `nodes, `cursor, `totalEntries, `tick, `due
    {
      Shape() && OnSchedule(nodes, due, tick, cursor, D())
    }

    constructor (slotCount: int, tickNs: int, originNs: int)
      ensures Valid() && due == map[] && tick == 0 && this.originNs == originNs
      ensures this.slotCount == (if slotCount <= 0 then 1 else slotCount)
      ensures this.tickNs == (if tickNs <= 0 then 1 else tickNs)
    {
      this.slotCount := if slotCount <= 0 then 1 else slotCount;
      this.tickNs := if tickNs <= 0 then 1 else tickNs;
      this.originNs, cursorAtNs := originNs, originNs;
      slots := seq(if slotCount <= 0 then 1 else slotCount, _ => []);
      nodes, cursor, totalEntries, tick, due := map[], 0, 0, 0, map[];
    }

    lemma Geometry()
      requires Ticking()
      ensures slotCount > 0 && tickNs > 0
    {
    }

    // Nothing tracked is due yet.
    lemma Ahead()
      requires Ticking()
      ensures forall e :: e in due ==> due[e] > tick
      ensures Later(due, tick) == due && Passed(due, tick) == {}
    {
      AllAhead(nodes, due, tick, cursor, D());
    }

    lemma Untracked(e: T)
      requires Valid() && e !in due
      ensures e !in nodes
    {
    }

    // processSlot (n = 1) and one slot of decrementAllRevolutions: entries with fewer than n laps
    // left are unlinked and returned, the others lose n laps.
    method TurnSlot(slot: nat, n: nat) returns (expired: seq<T>)
      requires Shape() && slot < slotCount
      modifies this`slots, this`nodes, this`totalEntries
      ensures Shape()
      ensures expired == Ripe(old(slots)[slot], old(nodes), n)
      ensures slots == old(slots)[slot := Unripe(old(slots)[slot], old(nodes), n)]
      ensures nodes == Turned(old(nodes), Owned(old(nodes), slot), n)
    {
      hide Ripe, Unripe, Keys, Distinct, Turned;
      var list := slots[slot];
      ghost var was := nodes;
      assert Keys(list) == Owned(was, slot);
      TurnedLinked(slots, nodes, slot, n);
      var kept := [];
      expired := [];
      TurnedNone(was, n);
      for i := 0 to |list|
        invariant slots == old(slots)
        invariant expired == Ripe(list[..i], was, n) && kept == Unripe(list[..i], was, n)
        invariant nodes == Turned(was, Keys(list[..i]), n)
        invariant totalEntries == old(totalEntries) - |expired|
      {
        var e := list[i];
        assert list[..i + 1] == list[..i] + [e];
        Prefix(list, i);
        TurnedNext(was, Keys(list[..i]), e, n);
        RipeSnoc(list[..i], e, was, n);
        if nodes[e].revolutions < n {
          nodes := nodes - {e};
          totalEntries := totalEntries - 1;
          expired := expired + [e];
        } else {
          nodes := nodes[e := nodes[e].(revolutions := nodes[e].revolutions - n)];
          kept := kept + [e];
        }
      }
      assert list[..|list|] == list;
      slots := slots[slot := kept];
    }

    method DecrementAllRevolutions(n: nat) returns (expired: seq<T>)
      requires Shape()
      modifies this`slots, this`nodes, this`totalEntries
      ensures Shape()
      ensures nodes == Turned(old(nodes), old(nodes).Keys, n)
      ensures Distinct(expired) && Keys(expired) == DueOf(old(nodes).Keys, old(nodes), n)
    {
      hide Ripe, Unripe, Keys, Distinct, Turned, Owned, DueOf, Below, Linked;
      ghost var was := nodes;
      expired := [];
      BelowEnds(slots, was, n);
      for s := 0 to slotCount
        invariant Shape()
        invariant nodes == Turned(was, Below(was, s), n)
        invariant Distinct(expired) && Keys(expired) == DueOf(Below(was, s), was, n)
      {
        expired := TurnNext(s, n, expired, was);
      }
    }

    // One more slot of decrementAllRevolutions, with s slots of was done.
    method TurnNext(s: nat, n: nat, sofar: seq<T>, ghost was: map<T, Node>) returns (expired: seq<T>)
      requires Shape() && s < slotCount && nodes == Turned(was, Below(was, s), n)
      requires Distinct(sofar) && Keys(sofar) == DueOf(Below(was, s), was, n)
      modifies this`slots, this`nodes, this`totalEntries
      ensures Shape() && nodes == Turned(was, Below(was, s + 1), n)
      ensures Distinct(expired) && Keys(expired) == DueOf(Below(was, s + 1), was, n)
    {
      hide Ripe, Unripe, Keys, Distinct, Turned, Owned, DueOf, Below, Linked;
      TurnedBelow(was, s, n);
      SlotSplit(slots, nodes, s, n);
      var more := TurnSlot(s, n);
      Concat(sofar, more);
      expired := sofar + more;
    }

    method ProcessSlot(slot: nat) returns (expired: seq<T>)
      requires Shape() && slot < slotCount
      modifies this`slots, this`nodes, this`totalEntries
      ensures Shape()
      ensures nodes == Turned(old(nodes), Owned(old(nodes), slot), 1)
      ensures Distinct(expired) && Keys(expired) == DueOf(Owned(old(nodes), slot), old(nodes), 1)
    {
      hide Ripe, Unripe, Keys, Distinct, Turned, Owned, DueOf, Linked;
      SlotSplit(slots, nodes, slot, 1);
      expired := TurnSlot(slot, 1);
    }

    method Laps(n: nat) returns (expired: seq<T>)
      requires Ticking()
      modifies this
      ensures Ticking() && tick == old(tick) + n * slotCount
      ensures cursor == old(cursor) && cursorAtNs == old(cursorAtNs)
      ensures due == Later(old(due), tick)
      ensures Distinct(expired) && Keys(expired) == Passed(old(due), tick)
    {
      hide Keys, Distinct, Owned, DueOf, Linked, OnSchedule;
      LapsOnSchedule(nodes, due, tick, cursor, D(), n);
      expired := DecrementAllRevolutions(n);
      tick := tick + n * slotCount;
      due := Later(due, tick);
    }

    method Tick() returns (expired: seq<T>)
      requires Ticking()
      modifies this
      ensures Ticking() && tick == old(tick) + 1
      ensures cursorAtNs == old(cursorAtNs)
      ensures due == Later(old(due), tick)
      ensures Distinct(expired) && Keys(expired) == Passed(old(due), tick)
    {
      hide Keys, Distinct, Owned, DueOf, Linked, OnSchedule;
      TickOnSchedule(nodes, due, tick, cursor, D());
      cursor := if cursor + 1 == slotCount then 0 else cursor + 1;
      expired := ProcessSlot(cursor);
      tick := tick + 1;
      due := Later(due, tick);
    }

    method Ticks(n: nat) returns (expired: seq<T>)
      requires Ticking()
      modifies this
      ensures Ticking() && tick == old(tick) + n && cursorAtNs == old(cursorAtNs)
      ensures due == Later(old(due), tick)
      ensures Distinct(expired) && Keys(expired) == Passed(old(due), tick)
    {
      hide Keys, Distinct, Later, Passed, Wheel.Ticking;
      ghost var was := due;
      NoKeys<T>();
      Ahead();
      expired := [];
      for i := 0 to n
        invariant Ticking() && cursorAtNs == old(cursorAtNs) && tick == old(tick) + i && due == Later(was, tick)
        invariant Distinct(expired) && Keys(expired) == Passed(was, tick)
      {
        PassedSplit(was, tick, tick + 1);
        var more := Tick();
        Concat(expired, more);
        expired := expired + more;
      }
    }

    // Moves the cursor to the last tick at or before nowNs and returns exactly the entries due by it.
    method AdvanceTo(nowNs: int) returns (expired: seq<T>)
      requires Valid()
      modifies this
      ensures Valid()
      ensures tick == old(tick) + (if nowNs <= old(cursorAtNs) then 0 else (nowNs - old(cursorAtNs)) / tickNs)
      ensures due == Later(old(due), tick)
      ensures Distinct(expired) && Keys(expired) == Passed(old(due), tick)
    {
      hide Keys, Distinct, Later, Passed, Dial.TimeOf, Wheel.Ticking;
      Ahead();
      Geometry();
      NoKeys<T>();
      expired := [];
      if nowNs <= cursorAtNs {
        return;
      }
      var stepsTotal := (nowNs - cursorAtNs) / tickNs;
      if stepsTotal <= 0 {
        return;
      }
      var fullRevs, partial := stepsTotal / slotCount, stepsTotal % slotCount;
      assert stepsTotal == fullRevs * slotCount + partial;
      if fullRevs > 0 {
        expired := Laps(fullRevs);
      }
      PassedSplit(old(due), tick, tick + partial);
      var more := Ticks(partial);
      Concat(expired, more);
      expired := expired + more;
      TimeAdvance(D(), old(tick), stepsTotal);
      cursorAtNs := cursorAtNs + stepsTotal * tickNs;
    }

    // Schedules e for the first tick at or after expireAtNs, or the next tick if that has passed.
    method Add(e: T, expireAtNs: int)
      requires Valid() && e !in nodes
      modifies this
      ensures Valid() && tick == old(tick) && cursorAtNs == old(cursorAtNs)
      ensures e in due && due == old(due)[e := due[e]] && due[e] > tick
      ensures D().TimeOf(due[e]) >= expireAtNs
      ensures expireAtNs > cursorAtNs ==> D().TimeOf(due[e]) < expireAtNs + tickNs
      ensures expireAtNs <= cursorAtNs ==> due[e] == tick + 1
    {
      hide Keys, Distinct, Linked, OnSchedule, Scheduled, Dial.TimeOf;
      var ticksAhead := TicksAhead(expireAtNs - cursorAtNs, tickNs);
      var revolutions := (ticksAhead - 1) / slotCount;
      var slot := (cursor + ticksAhead % slotCount) % slotCount;
      TimeAdvance(D(), tick, ticksAhead);
      ScheduledAhead(expireAtNs, ticksAhead, tick, cursor, slotCount);
      AddOnSchedule(nodes, due, tick, cursor, D(), e, Node(expireAtNs, revolutions, slot), tick + ticksAhead);
      AddLinked(slots, nodes, e, Node(expireAtNs, revolutions, slot));
      nodes := nodes[e := Node(expireAtNs, revolutions, slot)];
      slots := slots[slot := [e] + slots[slot]];
      totalEntries := totalEntries + 1;
      due := due[e := tick + ticksAhead];
    }

    method Remove(e: T)
      requires Valid()
      modifies this
      ensures Valid() && tick == old(tick) && cursorAtNs == old(cursorAtNs)
      ensures due == old(due) - {e}
    {
      hide Keys, Distinct, Linked, OnSchedule, Scheduled, Dial.TimeOf, Without;
      if e !in nodes {
        AbsentNotDue(nodes, due, tick, cursor, D(), e);
        return;
      }
      RemoveOnSchedule(nodes, due, tick, cursor, D(), e);
      RemoveLinked(slots, nodes, e);
      var slot := nodes[e].slot;
      slots := slots[slot := Without(slots[slot], e)];
      nodes := nodes - {e};
      totalEntries := totalEntries - 1;
      due := due - {e};
    }

    // Len is zero and the cursor is back at the origin.
    method Reset()
      requires Valid()
      modifies this
      ensures Valid() && tick == 0 && due == map[] && totalEntries == 0
    {
      slots := seq(slotCount, _ => []);
      nodes, cursor, totalEntries, tick, due := map[], 0, 0, 0, map[];
      cursorAtNs := originNs;
    }
  }
}
