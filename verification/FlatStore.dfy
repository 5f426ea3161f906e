/** The open-addressing shard storage of flatstore.go, refined to a finite map. */
module FlatStorage {
  import opened Prelude

  const INITIAL_CAP := 16
  const TWO64 := 0x1_0000_0000_0000_0000
  const FIBONACCI := 0x9E37_79B9_7F4A_7C15

  datatype Slot<K, V> = Empty | Occupied(key: K, value: V) | Tombstone

  predicate PowerOfTwo(n: nat) {
    n == 1 || (n > 1 && n % 2 == 0 && PowerOfTwo(n / 2))
  }

  // probe's start slot: the top log2(n) bits of the 64-bit Fibonacci product. For a power of two
  // n, shifting right by 64 - log2(n) is multiplying by n and dropping the low 64 bits.
  function FibonacciSlot(h: nat, n: nat): (s: nat)
    ensures n > 0 ==> s < n
  {
    TopBits((h * FIBONACCI) % TWO64, n)
  }

  function TopBits(product: nat, n: nat): (s: nat)
    requires product < TWO64
    ensures n > 0 ==> s < n
  {
    assert n > 0 ==> product * n < n * TWO64;
    QuotientBelow(product * n, n, TWO64);
    product * n / TWO64
  }

  lemma QuotientBelow(x: nat, n: nat, d: nat)
    requires 0 < d && (0 < n ==> x < n * d)
    ensures 0 < n ==> x / d < n
  {
    assert (x / d - n) * d == x / d * d - n * d;
  }

  // nextPowerOfTwo (options.go): the least power of two at or above n.
  method NextPowerOfTwo(n: int) returns (p: nat)
    ensures PowerOfTwo(p) && p >= n
    ensures p == 1 || p / 2 < n
  {
    p := 1;
    while p < n
      invariant PowerOfTwo(p) && (p == 1 || p / 2 < n)
      decreases n - p
    {
      p := 2 * p;
    }
  }

  // The slots a linear probe from s visits up to and including i, wrapping around.
  predicate OnPath(s: nat, i: nat, j: nat) {
    if s <= i then s <= j <= i else s <= j || j <= i
  }

  // The first d slots of a probe from s in a table of n slots.
  predicate Visited(s: nat, d: nat, n: nat, j: nat) {
    s <= j < s + d || j + n < s + d
  }

  datatype SlotState = EmptyState | OccupiedState | TombstoneState

  function StateOf<K, V>(s: Slot<K, V>): SlotState {
    match s
    case Empty => EmptyState
    case Occupied(_, _) => OccupiedState
    case Tombstone => TombstoneState
  }

  function Count<K, V>(s: seq<Slot<K, V>>, t: SlotState): nat {
    if s == [] then 0 else Count(s[1..], t) + (if StateOf(s[0]) == t then 1 else 0)
  }

  lemma {:induction false} CountWitness<K, V>(s: seq<Slot<K, V>>, t: SlotState) returns (i: nat)
    requires Count(s, t) > 0
    ensures i < |s| && StateOf(s[i]) == t
  {
    if StateOf(s[0]) == t {
      i := 0;
    } else {
      i := CountWitness(s[1..], t);
      i := i + 1;
    }
  }

  lemma {:induction false} CountUpdate<K, V>(s: seq<Slot<K, V>>, i: nat, x: Slot<K, V>, t: SlotState)
    requires i < |s|
    ensures Count(s, t) >= if StateOf(s[i]) == t then 1 else 0
    ensures Count(s[i := x], t)
         == Count(s, t) - (if StateOf(s[i]) == t then 1 else 0) + (if StateOf(x) == t then 1 else 0)
  {
    if i == 0 {
      assert s[i := x][1..] == s[1..];
    } else {
      assert s[i := x][1..] == s[1..][i - 1 := x];
      CountUpdate(s[1..], i - 1, x, t);
    }
  }

  lemma {:induction false} CountAllEmpty<K(!new), V(!new)>(s: seq<Slot<K, V>>)
    requires forall i :: 0 <= i < |s| ==> s[i].Empty?
    ensures Count(s, EmptyState) == |s| && Count(s, OccupiedState) == 0 && Count(s, TombstoneState) == 0
  {
    if s != [] { CountAllEmpty(s[1..]); }
  }

  lemma {:induction false} CountPartition<K, V>(s: seq<Slot<K, V>>)
    ensures Count(s, EmptyState) + Count(s, OccupiedState) + Count(s, TombstoneState) == |s|
  {
    if s != [] { CountPartition(s[1..]); }
  }

  lemma {:induction false} CountPrefix<K, V>(s: seq<Slot<K, V>>, i: nat, t: SlotState)
    requires i < |s|
    ensures Count(s[..i + 1], t) == Count(s[..i], t) + (if StateOf(s[i]) == t then 1 else 0)
    ensures Count(s[..i + 1], t) <= Count(s, t)
  {
    if i == 0 {
      assert s[..1][1..] == [];
    } else {
      assert s[..i + 1][1..] == s[1..][..i] && s[..i][1..] == s[1..][..i - 1];
      CountPrefix(s[1..], i - 1, t);
    }
  }

  // m is what table s holds: position p is the one place of each key, and no empty slot lies
  // between a key's start slot and its position.
  ghost predicate Holds<K(!new), V(!new)>(s: seq<Slot<K, V>>, start: (K, nat) -> nat, m: map<K, V>, p: map<K, nat>) {
    && p.Keys == m.Keys
    && (forall k :: k in m ==> p[k] < |s| && s[p[k]] == Occupied(k, m[k]))
    && (forall i :: 0 <= i < |s| && s[i].Occupied? ==> s[i].key in p && p[s[i].key] == i)
    && (forall k, j :: k in m && 0 <= j < |s| && OnPath(start(k, |s|), p[k], j) ==> !s[j].Empty?)
  }

  // A slot where key may be inserted: not occupied, and reached from key's start slot without
  // passing an empty one.
  ghost predicate Vacant<K(!new), V(!new)>(s: seq<Slot<K, V>>, start: (K, nat) -> nat, key: K, idx: nat) {
    && idx < |s| && !s[idx].Occupied?
    && forall j :: 0 <= j < |s| && j != idx && OnPath(start(key, |s|), idx, j) ==> !s[j].Empty?
  }

  lemma EmptyTable<K(!new), V(!new)>(s: seq<Slot<K, V>>, start: (K, nat) -> nat)
    requires forall i :: 0 <= i < |s| ==> s[i].Empty?
    ensures Holds(s, start, map[], map[])
    ensures Count(s, EmptyState) == |s| && Count(s, OccupiedState) == 0 && Count(s, TombstoneState) == 0
  {
    CountAllEmpty(s);
  }

  lemma InsertHolds<K(!new), V(!new)>(
      s: seq<Slot<K, V>>, start: (K, nat) -> nat, m: map<K, V>, p: map<K, nat>, idx: nat, key: K, value: V)
    requires Holds(s, start, m, p) && key !in m && Vacant(s, start, key, idx)
    ensures Holds(s[idx := Occupied(key, value)], start, m[key := value], p[key := idx])
  {
  }

  lemma DeleteHolds<K(!new), V(!new)>(
      s: seq<Slot<K, V>>, start: (K, nat) -> nat, m: map<K, V>, p: map<K, nat>, key: K)
    requires Holds(s, start, m, p) && key in m
    ensures p[key] < |s| && StateOf(s[p[key]]) == OccupiedState
    ensures Holds(s[p[key] := Tombstone], start, m - {key}, p - {key})
    ensures |m - {key}| == |m| - 1
  {
    assert m.Keys == (m - {key}).Keys + {key};
  }

  lemma ReplaceHolds<K(!new), V(!new)>(
      s: seq<Slot<K, V>>, start: (K, nat) -> nat, m: map<K, V>, p: map<K, nat>, key: K, value: V)
    requires Holds(s, start, m, p) && key in m
    ensures p[key] < |s| && StateOf(s[p[key]]) == OccupiedState
    ensures Holds(s[p[key] := Occupied(key, value)], start, m[key := value], p)
  {
  }

  // The first d slots of a probe for key from first are neither empty nor hold key.
  ghost predicate Passed<K, V>(s: seq<Slot<K, V>>, first: nat, d: nat, key: K) {
    forall j :: 0 <= j < |s| && Visited(first, d, |s|, j) ==> !s[j].Empty? && (s[j].Occupied? ==> s[j].key != key)
  }

  function At(first: nat, d: nat, n: nat): int {
    if first + d < n then first + d else first + d - n
  }

  lemma PassedNext<K, V>(s: seq<Slot<K, V>>, first: nat, d: nat, key: K)
    requires first < |s| && d < |s| && Passed(s, first, d, key)
    requires var x := s[At(first, d, |s|)]; !x.Empty? && (x.Occupied? ==> x.key != key)
    ensures Passed(s, first, d + 1, key)
    ensures d + 1 == |s| ==> Count(s, EmptyState) == 0
  {
    if d + 1 == |s| && Count(s, EmptyState) > 0 {
      var e := CountWitness(s, EmptyState);
    }
  }

  // A probe that met only other keys before an empty slot has shown that key is absent.
  lemma AbsentAtEmpty<K(!new), V(!new)>(
      s: seq<Slot<K, V>>, start: (K, nat) -> nat, m: map<K, V>, p: map<K, nat>, key: K, d: nat, i: nat)
    requires Holds(s, start, m, p) && start(key, |s|) < |s| && d < |s|
    requires i == At(start(key, |s|), d, |s|) && Passed(s, start(key, |s|), d, key)
    requires s[i].Empty?
    ensures key !in m
  {
    assert key in m ==> !OnPath(start(key, |s|), p[key], i);
  }

  // The first i slots of a rebuilt table s of map was have been re-inserted, giving m.
  ghost predicate Moved<K(!new), V(!new)>(s: seq<Slot<K, V>>, i: nat, was: map<K, V>, m: map<K, V>) {
    && i <= |s|
    && (forall k :: k in m ==> k in was && m[k] == was[k] && exists j :: 0 <= j < i && s[j] == Occupied(k, m[k]))
    && (forall j :: 0 <= j < i && s[j].Occupied? ==> s[j].key in m)
  }

  lemma MovedNone<K(!new), V(!new)>(s: seq<Slot<K, V>>, was: map<K, V>)
    ensures Moved(s, 0, was, map[]) && Count(s[..0], OccupiedState) == 0
  {
  }

  lemma MovedNext<K(!new), V(!new)>(
      s: seq<Slot<K, V>>, start: (K, nat) -> nat, was: map<K, V>, at: map<K, nat>, m: map<K, V>, i: nat)
    requires i < |s| && Holds(s, start, was, at) && Moved(s, i, was, m)
    ensures !s[i].Occupied? ==> Moved(s, i + 1, was, m)
    ensures s[i].Occupied? ==> s[i].key !in m && Moved(s, i + 1, was, m[s[i].key := s[i].value])
  {
  }

  lemma MovedAll<K(!new), V(!new)>(
      s: seq<Slot<K, V>>, start: (K, nat) -> nat, was: map<K, V>, at: map<K, nat>, m: map<K, V>)
    requires Holds(s, start, was, at) && Moved(s, |s|, was, m)
    ensures m == was
  {
    forall k | k in was ensures k in m {
      assert s[at[k]].Occupied?;
    }
  }

  class FlatStore<K(==, !new), V(!new)> {
    // The start slot of a key in a table of a given length; newFlatStore uses FibonacciSlot.
    const start: (K, nat) -> nat
    var slots: array<Slot<K, V>>
    var occupied: nat
    var tombstones: nat
    var compactCount: nat

    // The map this table stands for, and where each key sits in it.
    ghost var contents: map<K, V>
    ghost var pos: map<K, nat>

    ghost predicate Table()
      reads this, slots
    {
      && slots.Length > 0
      && (forall k, n :: 0 < n ==> start(k, n) < n)
      && pos.Keys == contents.Keys && Holds(slots[..], start, contents, pos)
      && occupied == |contents| == Count(slots[..], OccupiedState)
      && tombstones == Count(slots[..], TombstoneState)
    }

    ghost predicate Valid()
      reads this, slots
    {
      && Table()
      && PowerOfTwo(slots.Length) && slots.Length >= INITIAL_CAP
      && 4 * Count(slots[..], EmptyState) >= slots.Length
    }

    constructor (start: (K, nat) -> nat, initialCap: int)
      requires forall k, n :: 0 < n ==> start(k, n) < n
      ensures Valid() && fresh(slots) && this.start == start
      ensures contents == map[] && slots.Length >= initialCap
    {
      var cap := NextPowerOfTwo(if initialCap < INITIAL_CAP then INITIAL_CAP else initialCap);
      this.start := start;
      this.slots := new Slot<K, V>[cap](_ => Empty);
      occupied, tombstones, compactCount := 0, 0, 0;
      contents, pos := map[], map[];
      new;
      hide Count, Holds;
      EmptyTable(slots[..], start);
    }

    method Probe(key: K) returns (idx: nat, found: bool)
      requires Table() && Count(slots[..], EmptyState) > 0
      ensures idx < slots.Length
      ensures found <==> key in contents
      ensures found ==> idx == pos[key]
      ensures !found ==> Vacant(slots[..], start, key, idx)
    {
      var n := slots.Length;
      ghost var s := slots[..];
      var first := start(key, n);
      var insertIdx := -1;
      var i, d := first, 0;
      while true
        invariant 0 <= d < n && i == At(first, d, n) && Passed(s, first, d, key)
        invariant insertIdx == -1 || (0 <= insertIdx < n && Visited(first, d, n, insertIdx) && s[insertIdx].Tombstone?)
        decreases n - d
      {
        assert slots[i] == s[i];
        match slots[i] {
          case Empty =>
            AbsentAtEmpty(s, start, contents, pos, key, d, i);
            return if insertIdx == -1 then i else insertIdx, false;
          case Tombstone =>
            if insertIdx == -1 { insertIdx := i; }
          case Occupied(k, _) =>
            if k == key { return i, true; }
        }
        PassedNext(s, first, d, key);  // so a full sweep without an empty slot cannot happen
        i, d := if i + 1 == n then 0 else i + 1, d + 1;
      }
    }

    method Get(key: K) returns (r: Option<V>)
      requires Valid()
      ensures r == if key in contents then Some(contents[key]) else None
    {
      var idx, found := Probe(key);
      r := if found then Some(slots[idx].value) else None;
    }

    predicate ShouldGrowBeforeInsert()
      reads this
    {
      (occupied + tombstones) * 4 >= 3 * slots.Length
    }

    predicate ShouldCompactAfterDelete()
      reads this
    {
      tombstones != 0 && tombstones * 2 >= slots.Length
    }

    function NextRebuildCap(): nat
      reads this
    {
      if occupied * 4 >= 3 * slots.Length then slots.Length * 2 else slots.Length
    }

    // Fill the slot that a probe for key returned.
    method Place(idx: nat, key: K, value: V)
      requires Table() && key !in contents && Vacant(slots[..], start, key, idx)
      modifies this, slots
      ensures slots == old(slots) && Table() && compactCount == old(compactCount)
      ensures contents == old(contents)[key := value]
      ensures tombstones == old(tombstones) - (if old(slots[idx]).Tombstone? then 1 else 0)
    {
      hide Holds, Count;
      ghost var s := slots[..];
      CountUpdate(s, idx, Occupied(key, value), OccupiedState);
      InsertHolds(s, start, contents, pos, idx, key, value);
      CountUpdate(s, idx, Occupied(key, value), TombstoneState);
      if slots[idx].Tombstone? { tombstones := tombstones - 1; }
      slots[idx] := Occupied(key, value);
      occupied := occupied + 1;
      contents, pos := contents[key := value], pos[key := idx];
      assert slots[..] == s[idx := Occupied(key, value)];
    }

    method Rebuild(newCap: nat)
      requires Table() && newCap > occupied
      modifies this
      ensures fresh(slots) && slots.Length == newCap && Table()
      ensures contents == old(contents) && tombstones == 0
      ensures compactCount == old(compactCount) + 1
    {
      hide Holds, Moved, Count;
      var from := slots;
      ghost var was, at, s := contents, pos, slots[..];
      slots := new Slot<K, V>[newCap](_ => Empty);
      occupied, tombstones := 0, 0;
      contents, pos := map[], map[];
      EmptyTable(slots[..], start);
      MovedNone(s, was);
      for i := 0 to from.Length
        invariant fresh(slots) && slots.Length == newCap && Table() && tombstones == 0
        invariant compactCount == old(compactCount)
        invariant occupied == Count(s[..i], OccupiedState)
        invariant Moved(s, i, was, contents)
      {
        CountPrefix(s, i, OccupiedState);
        MovedNext(s, start, was, at, contents, i);
        if from[i].Occupied? {
          CountPartition(slots[..]);
          var idx, _ := Probe(from[i].key);
          Place(idx, from[i].key, from[i].value);
        }
      }
      compactCount := compactCount + 1;
      MovedAll(s, start, was, at, contents);
    }

    method Set(key: K, value: V)
      requires Valid()
      modifies this, slots
      ensures Valid() && (slots == old(slots) || fresh(slots))
      ensures contents == old(contents)[key := value]
      // A rebuild comes exactly when a new key finds three quarters of the slots in use, and doubles the
      // table exactly when three quarters are occupied.
      ensures fresh(slots) <==> old(key !in contents && 4 * (occupied + tombstones) >= 3 * slots.Length)
      ensures slots.Length == old(slots.Length) * if fresh(slots) && old(4 * occupied >= 3 * slots.Length) then 2 else 1
    {
      hide Holds, Count, PowerOfTwo;
      DivisibleByFour(slots.Length);
      CountPartition(slots[..]);
      var idx, found := Probe(key);
      if found {
        Replace(idx, key, value);
        return;
      }
      if ShouldGrowBeforeInsert() {
        Rebuild(NextRebuildCap());
        CountPartition(slots[..]);
        idx, found := Probe(key);
      }
      Place(idx, key, value);
      CountPartition(slots[..]);
    }

    method Replace(idx: nat, key: K, value: V)
      requires Valid() && key in contents && idx == pos[key]
      modifies this, slots
      ensures Valid() && slots == old(slots)
      ensures contents == old(contents)[key := value]
    {
      hide Holds, Count, PowerOfTwo;
      ghost var s := slots[..];
      ReplaceHolds(s, start, contents, pos, key, value);
      CountUpdate(s, idx, Occupied(key, value), TombstoneState);
      CountUpdate(s, idx, Occupied(key, value), OccupiedState);
      CountUpdate(s, idx, Occupied(key, value), EmptyState);
      slots[idx] := Occupied(key, value);
      contents := contents[key := value];
      assert slots[..] == s[idx := Occupied(key, value)];
    }

    method Del(key: K) returns (removed: bool)
      requires Valid()
      modifies this, slots
      ensures Valid() && (slots == old(slots) || fresh(slots))
      ensures removed <==> key in old(contents)
      ensures contents == old(contents) - {key}
      // A rebuild comes exactly when half the slots are tombstones, and never grows the table.
      ensures fresh(slots) <==> removed && old(2 * (tombstones + 1) >= slots.Length)
      ensures slots.Length == old(slots.Length) && (removed ==> 2 * tombstones < slots.Length)
    {
      hide Holds, Count, PowerOfTwo;
      CountPartition(slots[..]);
      DivisibleByFour(slots.Length);
      var idx, found := Probe(key);
      if !found { return false; }
      Bury(idx, key);
      if ShouldCompactAfterDelete() {
        CountPartition(slots[..]);
        Rebuild(NextRebuildCap());
        CountPartition(slots[..]);
      }
      return true;
    }

    // Leave a tombstone at key's slot.
    method Bury(idx: nat, key: K)
      requires Valid() && key in contents && idx == pos[key]
      modifies this, slots
      ensures Valid() && slots == old(slots) && tombstones == old(tombstones) + 1 && occupied == old(occupied) - 1
      ensures contents == old(contents) - {key}
    {
      hide Holds, Count, PowerOfTwo;
      ghost var s := slots[..];
      DeleteHolds(s, start, contents, pos, key);
      CountUpdate(s, idx, Tombstone, TombstoneState);
      CountUpdate(s, idx, Tombstone, OccupiedState);
      CountUpdate(s, idx, Tombstone, EmptyState);
      slots[idx] := Tombstone;
      occupied, tombstones := occupied - 1, tombstones + 1;
      contents, pos := contents - {key}, pos - {key};
      assert slots[..] == s[idx := Tombstone];
    }

    method ClearAll()
      requires Valid()
      modifies this, slots
      ensures Valid() && slots == old(slots) && contents == map[]
    {
      hide Holds, Count, PowerOfTwo;
      forall i | 0 <= i < slots.Length {
        slots[i] := Empty;
      }
      occupied, tombstones := 0, 0;
      contents, pos := map[], map[];
      EmptyTable(slots[..], start);
    }
  }

  lemma DivisibleByFour(n: nat)
    requires PowerOfTwo(n) && n >= 4
    ensures n % 4 == 0 && PowerOfTwo(2 * n)
  {
    assert n / 2 > 1 && PowerOfTwo(n / 2);
    assert 2 * n / 2 == n;
  }
}
