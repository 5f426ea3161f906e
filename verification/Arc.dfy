/** The ARC policy of arc.go: two resident lists, two ghost lists and an adaptive target. */
module ArcPolicy {
  import opened Prelude
  import opened Queues

  // Lists run from most to least recently used. c is the budget, p the target size of t1, recent the
  // latest insert until it is removed.
  datatype Arc<K> = Arc(t1: seq<K>, t2: seq<K>, b1: seq<K>, b2: seq<K>, p: int, c: int, recent: Option<K>)

  function Max(a: int, b: int): int { if a >= b then a else b }

  function Min(a: int, b: int): int { if a <= b then a else b }

  predicate Resident<K(==)>(s: Arc<K>, k: K) {
    k in s.t1 || k in s.t2
  }

  // -- Operations ---------------------------------------------------------------------------------

  // How far a ghost hit moves p: by the ratio of the other ghost list to this one, at least 1.
  function Delta(own: nat, other: nat): (d: int)
    ensures d >= 1
  {
    if own > 0 && other > own then Max(other / own, 1) else 1
  }

  function Trim<K>(q: seq<K>, room: int): seq<K> {
    Oldest(q, Max(room, 0))
  }

  function Rebudgeted<K>(s: Arc<K>, budget: int): Arc<K> {
    var c := Max(budget, 1);
    s.(c := c, p := Min(s.p, c), b1 := Trim(s.b1, c - |s.t1|), b2 := Trim(s.b2, 2 * c - |s.t2|))
  }

  function Inserted<K(==)>(s: Arc<K>, k: K): Arc<K> {
    var t := s.(recent := Some(k));
    if k in s.b1 then
      t.(p := Min(s.p + Delta(|s.b1|, |s.b2|), s.c), b1 := Without(s.b1, k), t2 := [k] + s.t2)
    else if k in s.b2 then
      t.(p := Max(s.p - Delta(|s.b2|, |s.b1|), 0), b2 := Without(s.b2, k), t2 := [k] + s.t2)
    else t.(t1 := [k] + s.t1)
  }

  function Accessed<K(==)>(s: Arc<K>, k: K): Arc<K> {
    if k in s.t1 then s.(t1 := Without(s.t1, k), t2 := [k] + s.t2)
    else if k in s.t2 then s.(t2 := [k] + Without(s.t2, k))
    else s
  }

  function Removed<K(==)>(s: Arc<K>, k: K): Arc<K> {
    s.(t1 := Without(s.t1, k), t2 := Without(s.t2, k), recent := if s.recent == Some(k) then None else s.recent)
  }

  predicate LastIs<K(==)>(q: seq<K>, k: Option<K>) {
    q != [] && k == Some(q[|q| - 1])
  }

  // Whether REPLACE takes t1's least recently used entry, deferring to the other list rather than evict
  // the latest insert.
  predicate UsesT1<K(==)>(s: Arc<K>) {
    var first := |s.t1| > 0 && (|s.t2| == 0 || |s.t1| > s.p);
    if first && LastIs(s.t1, s.recent) && s.t2 != [] then false
    else if !first && LastIs(s.t2, s.recent) && s.t1 != [] then true
    else first
  }

  function VictimOf<K(==)>(s: Arc<K>): Option<K> {
    if UsesT1(s) && s.t1 != [] then Some(s.t1[|s.t1| - 1])
    else if s.t2 != [] then Some(s.t2[|s.t2| - 1])
    else None
  }

  // recordB1 and recordB2
  function Recorded<K(==)>(b: seq<K>, k: K, room: int): seq<K> {
    if k in b then b else Trim([k] + b, room)
  }

  function Evicted<K(==)>(s: Arc<K>): Arc<K> {
    if UsesT1(s) && s.t1 != [] then
      var n := |s.t1| - 1;
      s.(t1 := s.t1[..n], b1 := Recorded(s.b1, s.t1[n], s.c - n))
    else if s.t2 != [] then
      var n := |s.t2| - 1;
      s.(t2 := s.t2[..n], b2 := Recorded(s.b2, s.t2[n], 2 * s.c - n))
    else s
  }

  // -- What every operation keeps -----------------------------------------------------------------

  ghost predicate Apart<K(!new)>(a: set<K>, b: set<K>, c: set<K>, d: set<K>) {
    a !! b && a !! c && a !! d && b !! c && b !! d && c !! d
  }

  ghost predicate Valid<K(!new)>(s: Arc<K>) {
    && Distinct(s.t1) && Distinct(s.t2) && Distinct(s.b1) && Distinct(s.b2)
    && Apart(Keys(s.t1), Keys(s.t2), Keys(s.b1), Keys(s.b2))
    && 1 <= s.c && 0 <= s.p <= s.c && |s.b1| <= s.c && |s.b2| <= 2 * s.c
  }

  lemma ApartMoves<K(!new)>(a: set<K>, b: set<K>, c: set<K>, d: set<K>, k: K)
    requires Apart(a, b, c, d)
    ensures k in c ==> k !in d && Apart(a, b + {k}, c - {k}, d)
    ensures k in d ==> k !in c && Apart(a, b + {k}, c, d - {k})
    ensures k !in b + c + d ==> Apart(a + {k}, b, c, d)
    ensures Apart(a - {k}, b - {k}, c, d)
    ensures k in a ==> k !in b && Apart(a - {k}, b + {k}, c, d)
    ensures k in b ==> k !in a && Apart(a, b - {k} + {k}, c, d)
    ensures a + (b + {k}) == a + b + {k} == a + {k} + b && a - {k} + (b - {k}) == a + b - {k}
    ensures (k in a ==> a - {k} + (b + {k}) == a + b) && (k in b ==> a + (b - {k} + {k}) == a + b)
  {
  }

  lemma TrimKeeps<K(!new)>(q: seq<K>, room: int)
    requires Distinct(q)
    ensures Distinct(Trim(q, room)) && Keys(Trim(q, room)) <= Keys(q)
    ensures |Trim(q, room)| <= Max(room, 0) && |Trim(q, room)| <= |q|
  {
    TrimBack(q, Max(room, 0));
  }

  lemma RebudgetedKeeps<K(!new)>(s: Arc<K>, budget: int)
    requires Valid(s)
    ensures var t := Rebudgeted(s, budget);
      && Valid(t) && t.t1 == s.t1 && t.t2 == s.t2 && t.recent == s.recent
      && t.c == Max(budget, 1) && t.p == Min(s.p, t.c) && t.b1 <= s.b1 && t.b2 <= s.b2
      && |t.b1| == Min(|s.b1|, Max(t.c - |s.t1|, 0)) && |t.b2| == Min(|s.b2|, Max(2 * t.c - |s.t2|, 0))
  {
    hide Distinct, Keys;
    var c := Max(budget, 1);
    TrimKeeps(s.b1, c - |s.t1|);
    TrimKeeps(s.b2, 2 * c - |s.t2|);
  }

  // A new key joins t1, a ghost of either kind joins t2.
  lemma InsertedKeeps<K(!new)>(s: Arc<K>, k: K)
    requires Valid(s) && !Resident(s, k)
    ensures var t := Inserted(s, k);
      && Valid(t) && t.recent == Some(k) && Keys(t.t1) + Keys(t.t2) == Keys(s.t1) + Keys(s.t2) + {k}
      && (k in s.b1 || k in s.b2 ==> t.t2 == [k] + s.t2) && (k !in s.b1 && k !in s.b2 ==> t.t1 == [k] + s.t1)
  {
    hide Distinct, Keys, Without, Delta, Apart, Valid;
    if k in s.b1 {
      RebornFromB1(s, k);
    } else if k in s.b2 {
      RebornFromB2(s, k);
    } else {
      Newcomer(s, k);
    }
  }

  lemma RebornFromB1<K(!new)>(s: Arc<K>, k: K)
    requires Valid(s) && !Resident(s, k) && k in s.b1
    ensures Valid(Inserted(s, k)) && Keys(s.t1) + Keys([k] + s.t2) == Keys(s.t1) + Keys(s.t2) + {k}
  {
    hide Distinct, Keys, Without, Delta, Apart;
    InKeys(s.b1, k);
    ApartMoves(Keys(s.t1), Keys(s.t2), Keys(s.b1), Keys(s.b2), k);
    Unlink(s.b1, k);
    Append(s.t2, k);
  }

  lemma RebornFromB2<K(!new)>(s: Arc<K>, k: K)
    requires Valid(s) && !Resident(s, k) && k !in s.b1 && k in s.b2
    ensures Valid(Inserted(s, k)) && Keys(s.t1) + Keys([k] + s.t2) == Keys(s.t1) + Keys(s.t2) + {k}
  {
    hide Distinct, Keys, Without, Delta, Apart;
    InKeys(s.b2, k);
    ApartMoves(Keys(s.t1), Keys(s.t2), Keys(s.b1), Keys(s.b2), k);
    Unlink(s.b2, k);
    Append(s.t2, k);
  }

  lemma Newcomer<K(!new)>(s: Arc<K>, k: K)
    requires Valid(s) && !Resident(s, k) && k !in s.b1 && k !in s.b2
    ensures Valid(Inserted(s, k)) && Keys([k] + s.t1) + Keys(s.t2) == Keys(s.t1) + Keys(s.t2) + {k}
  {
    hide Distinct, Keys, Apart;
    InKeys(s.t2, k);
    InKeys(s.b1, k);
    InKeys(s.b2, k);
    ApartMoves(Keys(s.t1), Keys(s.t2), Keys(s.b1), Keys(s.b2), k);
    Append(s.t1, k);
  }

  // A ghost hit moves p towards the list whose ghost it was, by how many times larger the other ghost list
  // is, at least 1, within its bounds.
  lemma InsertedAdapts<K(!new)>(s: Arc<K>, k: K)
    requires Valid(s)
    ensures k in s.b1 ==> |s.b1| > 0 && Inserted(s, k).p == Min(s.c, s.p + Max(1, |s.b2| / |s.b1|))
    ensures k !in s.b1 && k in s.b2 ==> |s.b2| > 0 && Inserted(s, k).p == Max(0, s.p - Max(1, |s.b1| / |s.b2|))
    ensures k !in s.b1 && k !in s.b2 ==> Inserted(s, k).p == s.p
    ensures k in s.b1 ==> s.p < Inserted(s, k).p <= s.c || s.p == Inserted(s, k).p == s.c
    ensures k !in s.b1 && k in s.b2 ==> 0 <= Inserted(s, k).p < s.p || s.p == Inserted(s, k).p == 0
  {
    hide Distinct, Keys, Without;
    if s.b1 != [] && |s.b2| <= |s.b1| { Ratio(|s.b1|, |s.b2|); }
    if s.b2 != [] && |s.b1| <= |s.b2| { Ratio(|s.b2|, |s.b1|); }
  }

  lemma Ratio(own: nat, other: nat)
    requires other <= own && own > 0
    ensures other / own <= 1
  {
  }

  lemma AccessedKeeps<K(!new)>(s: Arc<K>, k: K)
    requires Valid(s)
    ensures var t := Accessed(s, k); Valid(t) && Keys(t.t1) + Keys(t.t2) == Keys(s.t1) + Keys(s.t2)
    ensures Resident(s, k) ==> Accessed(s, k).t2 != [] && Accessed(s, k).t2[0] == k
  {
    hide Distinct, Keys, Without, Apart;
    InKeys(s.t1, k);
    InKeys(s.t2, k);
    ApartMoves(Keys(s.t1), Keys(s.t2), Keys(s.b1), Keys(s.b2), k);
    if k in s.t1 {
      Unlink(s.t1, k);
      Append(s.t2, k);
    } else if k in s.t2 {
      Unlink(s.t2, k);
      InKeys(Without(s.t2, k), k);
      Append(Without(s.t2, k), k);
    }
  }

  lemma RemovedKeeps<K(!new)>(s: Arc<K>, k: K)
    requires Valid(s)
    ensures var t := Removed(s, k);
      Valid(t) && Keys(t.t1) + Keys(t.t2) == Keys(s.t1) + Keys(s.t2) - {k} && t.recent != Some(k)
  {
    hide Distinct, Keys, Without, Apart;
    ApartMoves(Keys(s.t1), Keys(s.t2), Keys(s.b1), Keys(s.b2), k);
    Unlink(s.t1, k);
    Unlink(s.t2, k);
  }

  // Something is evicted whenever anything is resident, from one list into its ghost list, which is
  // trimmed to what the budget leaves beside the list.
  lemma EvictedKeeps<K(!new)>(s: Arc<K>)
    requires Valid(s)
    ensures Valid(Evicted(s)) && (VictimOf(s).None? <==> s.t1 == [] && s.t2 == [])
    ensures VictimOf(s).Some? ==>
      var t, v := Evicted(s), VictimOf(s).value;
      Resident(s, v) && Keys(t.t1) + Keys(t.t2) == Keys(s.t1) + Keys(s.t2) - {v}
    ensures |Evicted(s).t1| < |s.t1| ==> |Evicted(s).t1| + |Evicted(s).b1| <= Max(s.c, |Evicted(s).t1|)
    ensures |Evicted(s).t2| < |s.t2| ==> |Evicted(s).t2| + |Evicted(s).b2| <= Max(2 * s.c, |Evicted(s).t2|)
  {
    hide Distinct, Keys, Trim, LastIs;
    if UsesT1(s) && s.t1 != [] {
      EvictOne(s.t1, s.b1, s.c - |s.t1| + 1);
    } else if s.t2 != [] {
      EvictOne(s.t2, s.b2, 2 * s.c - |s.t2| + 1);
    }
  }

  // The last of q moves to the head of its ghosts b.
  lemma EvictOne<K(!new)>(q: seq<K>, b: seq<K>, room: int)
    requires q != [] && Distinct(q) && Distinct(b) && Keys(q) !! Keys(b)
    ensures var n := |q| - 1; var r := Recorded(b, q[n], room);
      && q[n] in Keys(q) && Distinct(q[..n]) && Keys(q[..n]) == Keys(q) - {q[n]}
      && Distinct(r) && Keys(r) <= Keys(b) + {q[n]} && |r| <= Max(room, 0)
  {
    hide Distinct;
    var n := |q| - 1;
    DropLast(q);
    Append(b, q[n]);
    TrimKeeps([q[n]] + b, room);
  }

  // -- The latest insert --------------------------------------------------------------------------

  // REPLACE evicts the latest insert exactly when it is the least recently used of its list and the
  // other list is empty.
  lemma EvictsRecentIff<K(!new)>(s: Arc<K>)
    requires Valid(s) && s.recent.Some?
    ensures VictimOf(s) == s.recent <==>
      (LastIs(s.t1, s.recent) && s.t2 == []) || (LastIs(s.t2, s.recent) && s.t1 == [])
  {
    hide Distinct;
    if s.t1 != [] && s.t2 != [] { assert s.t1[|s.t1| - 1] in Keys(s.t1) && s.t2[|s.t2| - 1] in Keys(s.t2); }
  }

  // The latest insert leads its list, as it does until it is accessed or removed.
  predicate Leads<K(==)>(s: Arc<K>) {
    s.recent.Some? && ((s.t1 != [] && s.recent == Some(s.t1[0])) || (s.t2 != [] && s.recent == Some(s.t2[0])))
  }

  // Evictions straight after an insert pass over it while anything else is resident, however many.
  lemma EvictionSparesInsert<K(!new)>(s: Arc<K>)
    requires Valid(s) && Leads(s) && |s.t1| + |s.t2| > 1
    ensures VictimOf(s).Some? && VictimOf(s) != s.recent && Leads(Removed(Evicted(s), VictimOf(s).value))
  {
    hide Distinct, Trim, Keys;
    if |s.t1| > 1 { DistinctAt(s.t1, |s.t1| - 1); }
    if |s.t2| > 1 { DistinctAt(s.t2, |s.t2| - 1); }
    EvictsRecentIff(s);
    EvictedKeeps(s);
    var t, v := Evicted(s), VictimOf(s).value;
    WithoutHead(t.t1, v);
    WithoutHead(t.t2, v);
  }

  // n rounds of Victim and OnRemove.
  function EvictTimes<K(==)>(s: Arc<K>, n: nat): Arc<K> {
    if n == 0 then s
    else var t := EvictTimes(s, n - 1); if VictimOf(t).Some? then Removed(Evicted(t), VictimOf(t).value) else t
  }

  lemma Count<K(!new)>(s: Arc<K>)
    requires Valid(s)
    ensures |s.t1| + |s.t2| == |Keys(s.t1) + Keys(s.t2)|
  {
  }

  // So the entry just inserted outlives every other: n evictions leave it resident unless n covers all.
  lemma {:induction false} InsertOutlives<K(!new)>(s: Arc<K>, n: nat)
    requires Valid(s) && Leads(s) && n < |s.t1| + |s.t2|
    ensures var t := EvictTimes(s, n);
      Valid(t) && Leads(t) && t.recent == s.recent && |t.t1| + |t.t2| == |s.t1| + |s.t2| - n
  {
    hide Valid, Leads, VictimOf, Evicted, Keys;
    if n > 0 {
      InsertOutlives(s, n - 1);
      var t := EvictTimes(s, n - 1);
      EvictionSparesInsert(t);
      EvictedKeeps(t);
      RemovedKeeps(Evicted(t), VictimOf(t).value);
      EvictedRecent(t);
      Count(t);
      Count(Removed(Evicted(t), VictimOf(t).value));
      InKeys(t.t1, VictimOf(t).value);
      InKeys(t.t2, VictimOf(t).value);
    }
  }

  lemma EvictedRecent<K(!new)>(s: Arc<K>)
    ensures Evicted(s).recent == s.recent
  {
  }

  lemma WithoutHead<K>(q: seq<K>, k: K)
    ensures q != [] && q[0] != k ==> Without(q, k) != [] && Without(q, k)[0] == q[0]
  {
  }

  // -- The header's bound -------------------------------------------------------------------------

  // |t1| + |b1| <= c is not kept by inserts, which do not trim b1: after one it holds exactly when it held
  // with room to spare, or the key was a ghost.
  lemma HeaderBoundIff<K(!new)>(s: Arc<K>, k: K)
    requires Valid(s) && !Resident(s, k)
    ensures var t := Inserted(s, k);
      |t.t1| + |t.b1| <= s.c <==>
      |s.t1| + |s.b1| < s.c || (k in s.b1 && |s.t1| + |s.b1| <= s.c + 1) || (k in s.b2 && |s.t1| + |s.b1| <= s.c)
  {
    hide Distinct, Keys, Delta;
    InKeys(s.b1, k);
    InKeys(s.b2, k);
    Unlink(s.b1, k);
  }

  // One entry, evicted, and a new key in its place.
  lemma HeaderBoundFails(a: int, b: int)
    requires a != b
    ensures var s := Inserted(Removed(Evicted(Inserted(Arc([], [], [], [], 0, 1, None), a)), a), b);
      s.c == 1 && |s.t1| + |s.b1| == 2
  {
    var s := Inserted(Arc([], [], [], [], 0, 1, None), a);
    assert s == Arc([a], [], [], [], 0, 1, Some(a));
    assert Evicted(s) == Arc([], [], [a], [], 0, 1, Some(a));
    assert Removed(Evicted(s), a) == Arc([], [], [a], [], 0, 1, None);
  }

  // |t2| + |b2| <= 2c is not kept either: an access that moves an entry from t1, or an insert of a b1 ghost,
  // adds to t2 without trimming b2. After either it holds exactly when it held with room to spare.
  lemma SecondHeaderBoundIff<K(!new)>(s: Arc<K>, k: K)
    requires Valid(s)
    ensures var t := Accessed(s, k);
      |t.t2| + |t.b2| <= 2 * s.c <==> |s.t2| + |s.b2| < 2 * s.c || (k !in s.t1 && |s.t2| + |s.b2| <= 2 * s.c)
    ensures !Resident(s, k) ==>
      var t := Inserted(s, k);
      |t.t2| + |t.b2| <= 2 * s.c <==> |s.t2| + |s.b2| < 2 * s.c || (k !in s.b1 && |s.t2| + |s.b2| <= 2 * s.c)
  {
    hide Distinct, Keys, Delta;
    InKeys(s.b1, k);
    InKeys(s.b2, k);
    Unlink(s.t2, k);
    Unlink(s.b2, k);
  }

  // With a budget of 1: a is accessed and evicted, b takes its place and is accessed, d comes in, b is
  // evicted, and d is accessed.
  lemma SecondHeaderBoundFails(a: int, b: int, d: int)
    requires a != b && a != d && b != d
    ensures
      var s := Accessed(Inserted(Arc([], [], [], [], 0, 1, None), a), a);
      var t := Accessed(Inserted(Removed(Evicted(s), a), b), b);
      var u := Accessed(Removed(Evicted(Inserted(t, d)), b), d);
      VictimOf(s) == Some(a) && VictimOf(Inserted(t, d)) == Some(b) && u.c == 1 && |u.t2| + |u.b2| == 3
  {
    var s := Accessed(Inserted(Arc([], [], [], [], 0, 1, None), a), a);
    assert s == Arc([], [a], [], [], 0, 1, Some(a));
    assert Removed(Evicted(s), a) == Arc([], [], [], [a], 0, 1, None);
    var t := Accessed(Inserted(Removed(Evicted(s), a), b), b);
    assert t == Arc([], [b], [], [a], 0, 1, Some(b));
    assert Removed(Evicted(Inserted(t, d)), b) == Arc([d], [], [], [b, a], 0, 1, Some(d));
  }

  // -- The policy, updated in place ---------------------------------------------------------------

  class Policy<K(==, !new)> {
    var t1: seq<K>
    var t2: seq<K>
    var b1: seq<K>
    var b2: seq<K>
    var p: int
    var c: int
    var recent: Option<K>

    ghost function View(): Arc<K>
      reads this
    {
      Arc(t1, t2, b1, b2, p, c, recent)
    }

    constructor (budget: int)
      ensures View() == Arc([], [], [], [], 0, Max(budget, 1), None) && Valid(View())
    {
      t1, t2, b1, b2, p, c, recent := [], [], [], [], 0, Max(budget, 1), None;
    }

    // Drops the least recently used ghosts until at most limit are left.
    static method TrimGhosts(q: seq<K>, limit: int) returns (r: seq<K>)
      requires limit >= 0
      ensures r == Oldest(q, limit)
    {
      r := q;
      while |r| > limit
        invariant |r| <= |q| && r == q[..|r|] && (|r| >= limit || r == q)
      {
        r := r[..|r| - 1];
      }
    }

    method SetBudget(budget: int)
      requires Valid(View())
      modifies this
      ensures View() == Rebudgeted(old(View()), budget) && Valid(View())
    {
      RebudgetedKeeps(View(), budget);
      hide Valid;
      c := Max(budget, 1);
      if p > c {
        p := c;
      }
      b1 := TrimGhosts(b1, Max(c - |t1|, 0));
      b2 := TrimGhosts(b2, Max(2 * c - |t2|, 0));
    }

    method OnInsert(k: K)
      requires Valid(View()) && !Resident(View(), k)
      modifies this
      ensures View() == Inserted(old(View()), k) && Valid(View()) && Leads(View())
    {
      hide Valid, Keys;
      InsertedKeeps(View(), k);
      recent := Some(k);
      if k in b1 {
        var delta := 1;
        if |b1| > 0 && |b2| > |b1| {
          delta := Max(|b2| / |b1|, 1);
        }
        p := Min(p + delta, c);
        b1 := Without(b1, k);
        t2 := [k] + t2;
      } else if k in b2 {
        var delta := 1;
        if |b2| > 0 && |b1| > |b2| {
          delta := Max(|b1| / |b2|, 1);
        }
        p := Max(p - delta, 0);
        b2 := Without(b2, k);
        t2 := [k] + t2;
      } else {
        t1 := [k] + t1;
      }
    }

    // Also OnUpdate.
    method OnAccess(k: K)
      requires Valid(View())
      modifies this
      ensures View() == Accessed(old(View()), k) && Valid(View())
    {
      hide Valid, Keys;
      AccessedKeeps(View(), k);
      if k in t1 {
        t1 := Without(t1, k);
        t2 := [k] + t2;
      } else if k in t2 && k != t2[0] {
        t2 := [k] + Without(t2, k);
      }
    }

    method OnRemove(k: K)
      requires Valid(View())
      modifies this
      ensures View() == Removed(old(View()), k) && Valid(View())
    {
      hide Valid, Keys;
      RemovedKeeps(View(), k);
      Elsewhere(View(), k);
      if k in t2 {
        t2 := Without(t2, k);
      } else {
        t1 := Without(t1, k);
      }
      if recent == Some(k) {
        recent := None;
      }
    }

    // The third branch of the source, for t1 when t2 is empty and t1 was passed over, never arises.
    method Victim() returns (v: Option<K>)
      requires Valid(View())
      modifies this
      ensures v == VictimOf(old(View())) && View() == Evicted(old(View())) && Valid(View())
    {
      hide Valid, Keys;
      EvictedKeeps(View());
      if |t1| + |t2| == 0 {
        return None;
      }
      var useT1 := |t1| > 0 && (|t2| == 0 || |t1| > p);
      if useT1 && LastIs(t1, recent) && t2 != [] {
        useT1 := false;
      } else if !useT1 && LastIs(t2, recent) && t1 != [] {
        useT1 := true;
      }
      if useT1 && t1 != [] {
        var n := |t1| - 1;
        v := Some(t1[n]);
        t1 := t1[..n];
        if v.value !in b1 {
          b1 := TrimGhosts([v.value] + b1, Max(c - n, 0));
        }
      } else {
        var n := |t2| - 1;
        v := Some(t2[n]);
        t2 := t2[..n];
        if v.value !in b2 {
          b2 := TrimGhosts([v.value] + b2, Max(2 * c - n, 0));
        }
      }
    }

    method Reset()
      requires Valid(View())
      modifies this
      ensures View() == Arc([], [], [], [], 0, old(c), None) && Valid(View())
    {
      t1, t2, b1, b2, p, recent := [], [], [], [], 0, None;
    }
  }

  lemma Elsewhere<K(!new)>(s: Arc<K>, k: K)
    requires Valid(s)
    ensures (k in s.t2 ==> Without(s.t1, k) == s.t1) && (k !in s.t2 ==> Without(s.t2, k) == s.t2)
  {
    hide Distinct;
    InKeys(s.t1, k);
    InKeys(s.t2, k);
    if k in s.t2 { UnlinkAbsent(s.t1, k); } else { UnlinkAbsent(s.t2, k); }
  }
}
