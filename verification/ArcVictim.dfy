/**
 * Which entry ARC gives up (arc.go), and what its lists hold over any history: t1 the entries used once and
 * t2 those used again, each by latest use.
 */
module ArcVictim {
  import opened Prelude
  import opened Queues
  import opened ArcPolicy

  // -- REPLACE ------------------------------------------------------------------------------------

  // The least recently used entry of q moves to the head of its ghosts b, of which the oldest make room.
  predicate Demoted<K(==)>(q: seq<K>, b: seq<K>, q': seq<K>, b': seq<K>, room: int) {
    && q != [] && q' == q[..|q| - 1] && b' <= [q[|q| - 1]] + b
    && |b'| == Min(|b| + 1, Max(room - |q'|, 0))
  }

  predicate FromT1<K(==)>(s: Arc<K>, v: Option<K>, t: Arc<K>) {
    s.t1 != [] && v == Some(s.t1[|s.t1| - 1]) && t == s.(t1 := t.t1, b1 := t.b1) && Demoted(s.t1, s.b1, t.t1, t.b1, s.c)
  }

  predicate FromT2<K(==)>(s: Arc<K>, v: Option<K>, t: Arc<K>) {
    s.t2 != [] && v == Some(s.t2[|s.t2| - 1]) && t == s.(t2 := t.t2, b2 := t.b2)
    && Demoted(s.t2, s.b2, t.t2, t.b2, 2 * s.c)
  }

  // t1 gives up an entry when it holds more than its target p, else t2 does; a list that is empty, or whose
  // least recently used entry is the latest insert, leaves it to the other.
  lemma VictimRule<K(!new)>(s: Arc<K>)
    requires Valid(s)
    ensures var v, t := VictimOf(s), Evicted(s);
      if s.t1 == [] && s.t2 == [] then v.None? && t == s
      else if s.t2 == [] then FromT1(s, v, t)
      else if s.t1 == [] then FromT2(s, v, t)
      else if |s.t1| > s.p then if s.recent == Some(s.t1[|s.t1| - 1]) then FromT2(s, v, t) else FromT1(s, v, t)
      else if s.recent == Some(s.t2[|s.t2| - 1]) then FromT1(s, v, t) else FromT2(s, v, t)
  {
    hide Distinct;
    if s.t1 != [] {
      InKeys(s.t1, s.t1[|s.t1| - 1]);
      InKeys(s.b1, s.t1[|s.t1| - 1]);
    }
    if s.t2 != [] {
      InKeys(s.t2, s.t2[|s.t2| - 1]);
      InKeys(s.b2, s.t2[|s.t2| - 1]);
    }
  }

  // -- A history ----------------------------------------------------------------------------------

  // reborn says that the key was a ghost; Evict is Victim and the removal that follows it.
  datatype Event<K> = Insert(k: K, reborn: bool) | Access(k: K) | Remove(k: K) | Evict(k: K) | Budget(b: int)

  // The latest use of every entry, and which entries have been used again since they came in.
  datatype Seen<K> = Seen(last: map<K, nat>, again: set<K>, now: nat)

  function Count<K>(t: Seen<K>, e: Event<K>): Seen<K> {
    var u := t.(now := t.now + 1);
    match e
    case Insert(k, reborn) => u.(last := t.last[k := t.now], again := if reborn then t.again + {k} else t.again - {k})
    case Access(k) => if k in t.last then u.(last := t.last[k := t.now], again := t.again + {k}) else u
    case Remove(k) => u.(last := t.last - {k}, again := t.again - {k})
    case Evict(k) => u.(last := t.last - {k}, again := t.again - {k})
    case Budget(_) => u
  }

  function Replay<K>(events: seq<Event<K>>): Seen<K> {
    if events == [] then Seen(map[], {}, 0) else Count(Replay(events[..|events| - 1]), events[|events| - 1])
  }

  predicate Enabled<K(==)>(s: Arc<K>, e: Event<K>) {
    match e
    case Insert(k, reborn) => !Resident(s, k) && reborn == (k in s.b1 || k in s.b2)
    case Evict(k) => VictimOf(s) == Some(k)
    case _ => true
  }

  function After<K(==)>(s: Arc<K>, e: Event<K>): Arc<K>
    requires Enabled(s, e)
  {
    match e
    case Insert(k, _) => Inserted(s, k)
    case Access(k) => Accessed(s, k)
    case Remove(k) => Removed(s, k)
    case Evict(k) => Removed(Evicted(s), k)
    case Budget(b) => Rebudgeted(s, b)
  }

  ghost predicate History<K(!new)>(events: seq<Event<K>>, states: seq<Arc<K>>) {
    && |states| == |events| + 1 && states[0] == Arc([], [], [], [], 0, states[0].c, None) && states[0].c >= 1
    && forall i :: 0 <= i < |events| ==> Enabled(states[i], events[i]) && states[i + 1] == After(states[i], events[i])
  }

  // q runs from the latest use to the earliest.
  ghost predicate Latest<K(!new)>(q: seq<K>, last: map<K, nat>) {
    q == [] ||
    (q[0] in last && Latest(q[1..], last) && forall x :: x in q[1..] ==> x in last && last[x] < last[q[0]])
  }

  ghost predicate Agrees<K(!new)>(s: Arc<K>, t: Seen<K>) {
    && t.again <= t.last.Keys && Keys(s.t1) == t.last.Keys - t.again && Keys(s.t2) == t.again
    && Latest(s.t1, t.last) && Latest(s.t2, t.last)
    && forall x :: x in t.last ==> t.last[x] < t.now
  }

  lemma {:induction false} LatestWithout<K(!new)>(q: seq<K>, last: map<K, nat>, k: K)
    requires Latest(q, last)
    ensures Latest(Without(q, k), last) && forall x :: x in Without(q, k) ==> x in q
  {
    if q != [] && q[0] != k { LatestWithout(q[1..], last, k); }
  }

  lemma {:induction false} LatestSame<K(!new)>(q: seq<K>, last: map<K, nat>, other: map<K, nat>)
    requires Latest(q, last) && forall x :: x in q && x in last ==> x in other && other[x] == last[x]
    ensures Latest(q, other)
  {
    if q != [] { LatestSame(q[1..], last, other); }
  }

  lemma {:induction false} LatestPrefix<K(!new)>(q: seq<K>, last: map<K, nat>, n: nat)
    requires Latest(q, last) && n <= |q|
    ensures Latest(q[..n], last)
  {
    if n > 0 {
      LatestPrefix(q[1..], last, n - 1);
      assert q[..n][1..] == q[1..][..n - 1];
    }
  }

  lemma {:induction false} LastIsLeast<K(!new)>(q: seq<K>, last: map<K, nat>)
    requires Latest(q, last) && q != []
    ensures q[|q| - 1] in last && forall x :: x in q && x != q[|q| - 1] ==> x in last && last[q[|q| - 1]] < last[x]
  {
    if |q| > 1 {
      LastIsLeast(q[1..], last);
      assert q[1..][|q| - 2] == q[|q| - 1] && q[|q| - 1] in q[1..];
    }
  }

  // k is used: it leads q, which held neither it nor a later use.
  lemma LatestUse<K(!new)>(q: seq<K>, last: map<K, nat>, k: K, now: nat)
    requires Latest(q, last) && k !in q && forall x :: x in last ==> last[x] < now
    ensures Latest(q, last[k := now]) && Latest([k] + q, last[k := now]) && Keys([k] + q) == Keys(q) + {k}
  {
    LatestIn(q, last);
    LatestSame(q, last, last[k := now]);
    assert ([k] + q)[1..] == q;
  }

  lemma {:induction false} LatestIn<K(!new)>(q: seq<K>, last: map<K, nat>)
    requires Latest(q, last)
    ensures forall x :: x in q ==> x in last
  {
    if q != [] { LatestIn(q[1..], last); }
  }

  lemma InsertAgrees<K(!new)>(s: Arc<K>, t: Seen<K>, k: K, reborn: bool)
    requires Valid(s) && Agrees(s, t) && Enabled(s, Insert(k, reborn))
    ensures Agrees(Inserted(s, k), Count(t, Insert(k, reborn)))
  {
    hide Latest, Distinct, Apart, Keys;
    InKeys(s.t1, k);
    InKeys(s.t2, k);
    LatestUse(s.t1, t.last, k, t.now);
    LatestUse(s.t2, t.last, k, t.now);
  }

  lemma AccessAgrees<K(!new)>(s: Arc<K>, t: Seen<K>, k: K)
    requires Valid(s) && Agrees(s, t)
    ensures Agrees(Accessed(s, k), Count(t, Access(k)))
  {
    hide Latest, Distinct, Apart, Keys, Without;
    InKeys(s.t1, k);
    InKeys(s.t2, k);
    if k in s.t1 { PromotedAgrees(s, t, k); } else if k in s.t2 { LedAgrees(s, t, k); }
  }

  lemma PromotedAgrees<K(!new)>(s: Arc<K>, t: Seen<K>, k: K)
    requires Valid(s) && Agrees(s, t) && k in s.t1
    ensures Agrees(Accessed(s, k), Count(t, Access(k)))
  {
    hide Latest, Distinct, Apart, Keys, Without;
    InKeys(s.t1, k);
    InKeys(s.t2, k);
    Unlink(s.t1, k);
    InKeys(Without(s.t1, k), k);
    LatestWithout(s.t1, t.last, k);
    LatestUse(Without(s.t1, k), t.last, k, t.now);
    LatestUse(s.t2, t.last, k, t.now);
  }

  lemma LedAgrees<K(!new)>(s: Arc<K>, t: Seen<K>, k: K)
    requires Valid(s) && Agrees(s, t) && k !in s.t1 && k in s.t2
    ensures Agrees(Accessed(s, k), Count(t, Access(k)))
  {
    hide Latest, Distinct, Apart, Keys, Without;
    InKeys(s.t1, k);
    InKeys(s.t2, k);
    Unlink(s.t2, k);
    InKeys(Without(s.t2, k), k);
    LatestWithout(s.t2, t.last, k);
    LatestUse(s.t1, t.last, k, t.now);
    LatestUse(Without(s.t2, k), t.last, k, t.now);
    assert t.again - {k} + {k} == t.again == t.again + {k};
    assert t.last[k := t.now].Keys == t.last.Keys;
  }

  lemma RemoveAgrees<K(!new)>(s: Arc<K>, t: Seen<K>, k: K)
    requires Valid(s) && Agrees(s, t)
    ensures Agrees(Removed(s, k), Count(t, Remove(k)))
  {
    hide Latest, Distinct, Apart, Keys, Without;
    GoneFrom(s.t1, t.last, k);
    GoneFrom(s.t2, t.last, k);
  }

  lemma GoneFrom<K(!new)>(q: seq<K>, last: map<K, nat>, k: K)
    requires Distinct(q) && Latest(q, last)
    ensures Latest(Without(q, k), last - {k}) && Keys(Without(q, k)) == Keys(q) - {k}
  {
    hide Latest, Distinct, Keys;
    Unlink(q, k);
    LatestWithout(q, last, k);
    InKeys(Without(q, k), k);
    LatestSame(Without(q, k), last, last - {k});
  }

  lemma EvictAgrees<K(!new)>(s: Arc<K>, t: Seen<K>, k: K)
    requires Valid(s) && Agrees(s, t) && Enabled(s, Evict(k))
    ensures Agrees(Removed(Evicted(s), k), Count(t, Evict(k)))
  {
    EvictIsRemove(s, k);
    RemoveAgrees(s, t, k);
  }

  // To the resident lists an eviction is the removal of its victim.
  lemma EvictIsRemove<K(!new)>(s: Arc<K>, k: K)
    requires Valid(s) && VictimOf(s) == Some(k)
    ensures var t, u := Removed(Evicted(s), k), Removed(s, k); t.t1 == u.t1 && t.t2 == u.t2
  {
    hide VictimOf, Evicted, Distinct, Apart, Without, Keys;
    VictimRule(s);
    InKeys(s.t1, k);
    InKeys(s.t2, k);
    if s.t1 != [] && k == s.t1[|s.t1| - 1] { LastGone(s.t1); }
    if s.t2 != [] && k == s.t2[|s.t2| - 1] { LastGone(s.t2); }
  }

  lemma {:induction false} LastGone<K(!new)>(q: seq<K>)
    requires Distinct(q) && q != []
    ensures var n := |q| - 1; Without(q, q[n]) == q[..n] && Without(q[..n], q[n]) == q[..n]
  {
    hide Distinct;
    var n := |q| - 1;
    DropLast(q);
    UnlinkAbsent(q[..n], q[n]);
    WithoutEnd(q[..n], q[n]);
    assert q == q[..n] + [q[n]];
  }

  lemma {:induction false} WithoutEnd<K(!new)>(q: seq<K>, k: K)
    requires k !in q
    ensures Without(q + [k], k) == q
  {
    if q != [] {
      WithoutEnd(q[1..], k);
      assert (q + [k])[1..] == q[1..] + [k];
    }
  }

  lemma AgreesStep<K(!new)>(s: Arc<K>, t: Seen<K>, e: Event<K>)
    requires Valid(s) && Agrees(s, t) && Enabled(s, e)
    ensures Valid(After(s, e)) && Agrees(After(s, e), Count(t, e))
  {
    hide Valid, Latest, Inserted, Accessed, Removed, Evicted, VictimOf, Keys, Agrees, Count;
    match e {
      case Insert(k, reborn) => InsertedKeeps(s, k); InsertAgrees(s, t, k, reborn);
      case Access(k) => AccessedKeeps(s, k); AccessAgrees(s, t, k);
      case Remove(k) => RemovedKeeps(s, k); RemoveAgrees(s, t, k);
      case Evict(k) => EvictedKeeps(s); RemovedKeeps(Evicted(s), k); EvictAgrees(s, t, k);
      case Budget(b) => RebudgetedKeeps(s, b); BudgetAgrees(s, t, b);
    }
  }

  lemma BudgetAgrees<K(!new)>(s: Arc<K>, t: Seen<K>, b: int)
    requires Agrees(s, t)
    ensures Agrees(Rebudgeted(s, b), Count(t, Budget(b)))
  {
  }

  lemma {:induction false} HistoryAgrees<K(!new)>(events: seq<Event<K>>, states: seq<Arc<K>>, j: nat)
    requires History(events, states) && j < |states|
    ensures Valid(states[j]) && Agrees(states[j], Replay(events[..j]))
  {
    hide Valid, Agrees, After, Enabled, Count, Replay;
    if j == 0 {
      NothingSeen(states[0]);
      assert events[..0] == [];
    } else {
      HistoryAgrees(events, states, j - 1);
      AgreesStep(states[j - 1], Replay(events[..j - 1]), events[j - 1]);
      ReplayNext(events, j);
    }
  }

  lemma NothingSeen<K(!new)>(s: Arc<K>)
    requires s == Arc([], [], [], [], 0, s.c, None) && s.c >= 1
    ensures Valid(s) && Agrees(s, Replay([]))
  {
  }

  lemma ReplayNext<K(!new)>(events: seq<Event<K>>, j: nat)
    requires 0 < j <= |events|
    ensures Replay(events[..j]) == Count(Replay(events[..j - 1]), events[j - 1])
  {
    assert events[..j][..j - 1] == events[..j - 1];
  }

  // v is the least recently used entry of group.
  ghost predicate Earliest<K(!new)>(t: Seen<K>, group: set<K>, v: K) {
    v in group && group <= t.last.Keys && forall x :: x in group ==> t.last[v] <= t.last[x]
  }

  // After any history the victim is the least recently used of the entries used once, if there are more of
  // them than the target p, else of those used again; a group that is empty or whose least recently used
  // entry is the latest insert leaves it to the other.
  lemma VictimIsLru<K(!new)>(events: seq<Event<K>>, states: seq<Arc<K>>, j: nat, a: K, b: K)
    requires History(events, states) && j < |states|
    requires var t := Replay(events[..j]);
      (t.again != t.last.Keys ==> Earliest(t, t.last.Keys - t.again, a)) && (t.again != {} ==> Earliest(t, t.again, b))
    ensures var s, t := states[j], Replay(events[..j]);
      var once := t.last.Keys - t.again;
      VictimOf(s) ==
        if once == {} && t.again == {} then None
        else if t.again == {} then Some(a)
        else if once == {} then Some(b)
        else if (|once| > s.p && s.recent != Some(a)) || (|once| <= s.p && s.recent == Some(b)) then Some(a)
        else Some(b)
  {
    hide Valid, Agrees, Earliest, VictimOf, Replay, After, Enabled;
    HistoryAgrees(events, states, j);
    LruRule(states[j], Replay(events[..j]), a, b);
  }

  lemma LruRule<K(!new)>(s: Arc<K>, t: Seen<K>, a: K, b: K)
    requires Valid(s) && Agrees(s, t)
    requires t.again != t.last.Keys ==> Earliest(t, t.last.Keys - t.again, a)
    requires t.again != {} ==> Earliest(t, t.again, b)
    ensures var once := t.last.Keys - t.again;
      VictimOf(s) ==
        if once == {} && t.again == {} then None
        else if t.again == {} then Some(a)
        else if once == {} then Some(b)
        else if (|once| > s.p && s.recent != Some(a)) || (|once| <= s.p && s.recent == Some(b)) then Some(a)
        else Some(b)
  {
    hide VictimOf, Evicted, Latest, Earliest, Apart, Demoted;
    VictimRule(s);
    if s.t1 != [] { EarliestIsLast(s.t1, t, a); }
    if s.t2 != [] { EarliestIsLast(s.t2, t, b); }
  }

  lemma EarliestIsLast<K(!new)>(q: seq<K>, t: Seen<K>, v: K)
    requires q != [] && Latest(q, t.last) && (Keys(q) != {} ==> Earliest(t, Keys(q), v))
    ensures v == q[|q| - 1] && Keys(q) != {}
  {
    InKeys(q, q[|q| - 1]);
    InKeys(q, v);
    LastIsLeast(q, t.last);
  }
}
