/**
 * What one shard keeps in step under its lock (cache.go, expiry.go): storage, the eviction policy, the
 * TTL heap, and its share of the cache-wide counters. Every public method is a whole locked section.
 */
module Accounting {
  import opened Prelude
  import opened Queues
  import S3Fifo
  import ExpiryHeap

  // An entry's weight and expiry; expireAt 0 means none.
  datatype Entry = Entry(weight: int, expireAt: int)

  ghost function Weight<K(!new)>(m: map<K, Entry>): int {
    if m == map[] then 0
    else var k :| k in m; m[k].weight + Weight(m - {k})
  }

  lemma {:induction false} WeightWithout<K(!new)>(m: map<K, Entry>, k: K)
    requires k in m
    ensures Weight(m) == m[k].weight + Weight(m - {k})
    decreases |m|
  {
    var j :| j in m && Weight(m) == m[j].weight + Weight(m - {j});
    if j != k {
      Smaller(m, j);
      Smaller(m, k);
      WeightWithout(m - {j}, k);
      WeightWithout(m - {k}, j);
      assert m - {j} - {k} == m - {k} - {j};
    }
  }

  lemma Smaller<K(!new)>(m: map<K, Entry>, k: K)
    requires k in m
    ensures |m - {k}| == |m| - 1
  {
    assert (m - {k}).Keys == m.Keys - {k};
  }

  lemma WeightSet<K(!new)>(m: map<K, Entry>, k: K, e: Entry)
    ensures Weight(m[k := e]) == Weight(m) - (if k in m then m[k].weight else 0) + e.weight
    ensures |m[k := e]| == |m| + (if k in m then 0 else 1)
  {
    hide Weight;
    WeightWithout(m[k := e], k);
    assert m[k := e] - {k} == m - {k};
    assert m[k := e].Keys == m.Keys + {k};
    if k in m { WeightWithout(m, k); } else { assert m - {k} == m; }
  }

  lemma WeightInsert<K(!new)>(m: map<K, Entry>, k: K, e: Entry)
    requires k !in m
    ensures Weight(m[k := e]) == Weight(m) + e.weight && |m[k := e]| == |m| + 1 && m[k := e].Keys == m.Keys + {k}
  {
    WeightSet(m, k, e);
  }

  class Counters {
    var entries: int
    var bytes: int

    constructor ()
      ensures entries == bytes == 0
    {
      entries, bytes := 0, 0;
    }
  }

  // -- The TTL heap -------------------------------------------------------------------------------

  ghost function Expiring<K(!new)>(m: map<K, Entry>): set<K> {
    set k | k in m && m[k].expireAt != 0
  }

  // The entries of m expired at now.
  ghost function Expired<K(!new)>(m: map<K, Entry>, now: int): set<K> {
    set k | k in m && m[k].expireAt != 0 && m[k].expireAt <= now
  }

  // The heap tracks the entries of m with an expiry, at that expiry, but for those just swept and
  // those it has lost, whose expiry is negative.
  ghost predicate TtlAgrees<K(!new)>(
    tracked: set<K>, exp: map<K, int>, m: map<K, Entry>, swept: set<K>, lost: set<K>)
  {
    && tracked == Expiring(m) - swept - lost
    && (forall k :: k in lost ==> k in m && m[k].expireAt < 0)
    && (forall k :: k in tracked ==> k in exp && exp[k] == m[k].expireAt)
  }

  // What the heap has lost once k's expiry is x: k itself if x is negative and k was not tracked.
  ghost function LostBy<K(!new)>(m: map<K, Entry>, lost: set<K>, k: K, x: int): set<K> {
    if x < 0 && k in m && (m[k].expireAt == 0 || k in lost) then lost + {k} else lost - {k}
  }

  lemma TtlSet<K(!new)>(tracked: set<K>, exp: map<K, int>, m: map<K, Entry>, lost: set<K>, k: K, e: Entry)
    requires TtlAgrees(tracked, exp, m, {}, lost) && k in m
    ensures TtlAgrees(
      ExpiryHeap.Refixed(tracked, k, e.expireAt), exp[k := e.expireAt], m[k := e], {}, LostBy(m, lost, k, e.expireAt))
  {
  }

  lemma TtlAdd<K(!new)>(tracked: set<K>, exp: map<K, int>, m: map<K, Entry>, lost: set<K>, k: K, e: Entry)
    requires TtlAgrees(tracked, exp, m, {}, lost) && k !in m
    ensures k !in tracked
    ensures TtlAgrees(tracked + (if e.expireAt == 0 then {} else {k}), exp[k := e.expireAt], m[k := e], {}, lost)
  {
  }

  // A sweep takes exactly the stored entries whose expiry has come, but for the lost ones.
  lemma TtlSwept<K(!new)>(tracked: set<K>, exp: map<K, int>, m: map<K, Entry>, lost: set<K>, now: int)
    requires TtlAgrees(tracked, exp, m, {}, lost)
    ensures var due := ExpiryHeap.DueBy(tracked, exp, now);
      due == Expired(m, now) - lost && due <= m.Keys && TtlAgrees(tracked - due, exp, m, due, lost)
  {
  }

  lemma TtlDrop<K(!new)>(tracked: set<K>, exp: map<K, int>, m: map<K, Entry>, swept: set<K>, lost: set<K>, k: K)
    requires TtlAgrees(tracked, exp, m, swept, lost)
    ensures TtlAgrees(tracked - {k}, exp, m - {k}, swept - {k}, lost - {k})
  {
  }

  // -- The eviction policy ------------------------------------------------------------------------

  // p tracks exactly the given keys, under the given shard budget.
  ghost predicate Tracks<K(!new)>(p: S3Fifo.S3<K>, keys: set<K>, budget: int) {
    && S3Fifo.Valid(p) && S3Fifo.Resident(p) == keys
    && (p.smallBudget, p.mainBudget) == S3Fifo.SplitBudget(budget)
  }

  lemma InsertTracks<K(!new)>(p: S3Fifo.S3<K>, keys: set<K>, budget: int, k: K)
    requires Tracks(p, keys, budget) && k !in keys
    ensures Tracks(S3Fifo.Inserted(p, k), keys + {k}, budget)
  {
    hide S3Fifo.Valid, S3Fifo.Resident;
    S3Fifo.OnInsertKeeps(p, k);
  }

  lemma AccessTracks<K(!new)>(p: S3Fifo.S3<K>, keys: set<K>, budget: int, k: K)
    requires Tracks(p, keys, budget)
    ensures Tracks(S3Fifo.Accessed(p, k), keys, budget)
  {
    hide S3Fifo.Valid, S3Fifo.Resident;
    S3Fifo.OnAccessKeeps(p, k);
  }

  lemma RemoveTracks<K(!new)>(p: S3Fifo.S3<K>, keys: set<K>, budget: int, k: K)
    requires Tracks(p, keys, budget)
    ensures Tracks(S3Fifo.Removed(p, k), keys - {k}, budget)
  {
    hide S3Fifo.Valid, S3Fifo.Resident;
    S3Fifo.OnRemoveKeeps(p, k);
  }

  lemma LenIsSize<K(!new)>(p: S3Fifo.S3<K>, keys: set<K>, budget: int)
    requires Tracks(p, keys, budget)
    ensures S3Fifo.Len(p) == |keys|
  {
    assert |keys| == |Keys(p.small)| + |Keys(p.main)|;
  }

  // A round gives up a tracked key or none, one whenever it may and only then, and spares the latest insert
  // if asked to.
  lemma EvictTracks<K(!new)>(
    p: S3Fifo.S3<K>, keys: set<K>, budget: int, overShard: bool, overTotal: bool, keepRecent: bool)
    requires Tracks(p, keys, budget)
    ensures var (v, q) := S3Fifo.EvictOf(p, overShard, overTotal, keepRecent);
      && (v.None? ==> Tracks(q, keys, budget))
      && (v.Some? ==> v.value in keys && Tracks(S3Fifo.Removed(q, v.value), keys - {v.value}, budget))
      && (overShard && 0 < budget < |keys| ==> v.Some?)
      && (overTotal && |keys| >= (if keepRecent then 2 else 1) ==> v.Some?)
      && (v.Some? ==> overShard || overTotal) && (v.Some? && keepRecent ==> v != p.recent)
      && (v.Some? && v != p.recent ==> S3Fifo.Removed(q, v.value).recent == p.recent)
      && (v.None? ==> q.recent == p.recent)
  {
    hide S3Fifo.VictimOf, S3Fifo.ShedOf, S3Fifo.Removed, S3Fifo.Linked, S3Fifo.GhostsValid, Keys;
    LenIsSize(p, keys, budget);
    S3Fifo.VictimSound(p);
    S3Fifo.GoneSelf(p);
    var (v0, q0) := if overShard then S3Fifo.VictimOf(p) else (None, p);
    if v0.None? && overTotal {
      S3Fifo.ShedVictimSound(q0, keepRecent);
      var (v1, q1) := S3Fifo.ShedVictimOf(q0, keepRecent);
      S3Fifo.GoneTwice(p, q0, v1, q1);
    }
    var (v, q) := S3Fifo.EvictOf(p, overShard, overTotal, keepRecent);
    if v.Some? { S3Fifo.OnRemoveEvicted(p, v.value, q); }
  }

  // A sweep of due that has taken n entries out of m0, leaving m with left still to take.
  ghost predicate SweptTo<K(!new)>(m0: map<K, Entry>, m: map<K, Entry>, due: set<K>, left: set<K>, n: nat) {
    left <= m.Keys * due && m == m0 - (due - left) && |m| == |m0| - n
  }

  lemma SweptStart<K(!new)>(m: map<K, Entry>, due: set<K>)
    requires due <= m.Keys
    ensures SweptTo(m, m, due, due, 0)
  {
  }

  lemma SweptNext<K(!new)>(m0: map<K, Entry>, m: map<K, Entry>, due: set<K>, left: set<K>, n: nat, k: K)
    requires SweptTo(m0, m, due, left, n) && k in left
    ensures left <= m.Keys && SweptTo(m0, m - {k}, due, left - {k}, n + 1)
  {
    Smaller(m, k);
  }

  lemma SweptEnd<K(!new)>(m0: map<K, Entry>, m: map<K, Entry>, due: set<K>, n: nat)
    requires SweptTo(m0, m, due, {}, n)
    ensures m == m0 - due && n == |m0| - |m|
  {
  }

  // -- A shard ------------------------------------------------------------------------------------

  class Shard<K(==, !new)> {
    var storage: map<K, Entry>
    // The entries whose expiry the heap has lost.
    ghost var lost: set<K>
    const budget: int
    const policy: S3Fifo.S3Policy<K>
    const ttl: ExpiryHeap.ExpiryHeapBackend<K>

    ghost predicate Policy()
      reads this, policy
    {
      Tracks(policy.View(), storage.Keys, budget)
    }

    ghost predicate Ttl(swept: set<K>)
      reads this, ttl
    {
      ttl.Valid() && TtlAgrees(ttl.index.Keys, ttl.exp, storage, swept, lost)
    }

    ghost predicate Valid()
      reads this, policy, ttl
    {
      Policy() && Ttl({})
    }

    // c's counts differ from before by what the shard gained.
    twostate predicate Moved(c: Counters)
      reads this, c
    {
      && c.entries == old(c.entries) + |storage| - old(|storage|)
      && c.bytes == old(c.bytes) + Weight(storage) - old(Weight(storage))
    }

    constructor (budget: int)
      ensures Valid() && storage == map[] && lost == {} && this.budget == budget && fresh(policy) && fresh(ttl)
    {
      storage := map[];
      lost := {};
      this.budget := budget;
      policy := new S3Fifo.S3Policy<K>(budget);
      ttl := new ExpiryHeap.ExpiryHeapBackend<K>();
    }

    lemma RecentIsStored()
      requires Valid()
      ensures policy.recent.Some? ==> policy.recent.value in storage
    {
    }

    // removeLocked. The policy may already have given k up, and the heap may have swept it.
    method RemoveLocked(k: K, c: Counters, ghost swept: set<K>)
      requires k in storage && Ttl(swept)
      requires Tracks(S3Fifo.Removed(policy.View(), k), storage.Keys - {k}, budget)
      modifies this, policy, ttl, c
      ensures Policy() && Ttl(swept - {k}) && Moved(c) && policy.View() == S3Fifo.Removed(old(policy.View()), k)
      ensures storage == old(storage) - {k} && lost == old(lost) - {k}
    {
      hide Tracks, Weight, TtlAgrees, ExpiryHeap.BackPointers, ExpiryHeap.Ordered, S3Fifo.Removed;
      TtlDrop(ttl.index.Keys, ttl.exp, storage, swept, lost, k);
      WeightWithout(storage, k);
      Smaller(storage, k);
      var w := storage[k].weight;
      assert (storage - {k}).Keys == storage.Keys - {k};
      storage := storage - {k};
      lost := lost - {k};
      ttl.Remove(k);
      policy.OnRemove(k);
      c.entries := c.entries - 1;
      c.bytes := c.bytes - w;
    }

    method Delete(k: K, c: Counters) returns (removed: bool)
      requires Valid()
      modifies this, policy, ttl, c
      ensures Valid() && Moved(c) && storage == old(storage) - {k} && removed == (k in old(storage))
      ensures policy.View() == if removed then S3Fifo.Removed(old(policy.View()), k) else old(policy.View())
    {
      hide Tracks, Weight, TtlAgrees, ExpiryHeap.BackPointers, ExpiryHeap.Ordered, S3Fifo.Removed;
      if k !in storage {
        assert storage - {k} == storage;
        return false;
      }
      RemoveTracks(policy.View(), storage.Keys, budget, k);
      RemoveLocked(k, c, {});
      assert {} - {k} == {};
      return true;
    }

    // The insert path of upsertLocked, before it evicts.
    method Insert(k: K, e: Entry, c: Counters)
      requires Valid() && k !in storage
      modifies this, policy, ttl, c
      ensures Valid() && Moved(c) && storage == old(storage)[k := e] && lost == old(lost)
      ensures policy.View() == S3Fifo.Inserted(old(policy.View()), k)
    {
      hide Tracks, S3Fifo.Inserted, Weight, TtlAgrees, ExpiryHeap.BackPointers, ExpiryHeap.Ordered;
      InsertTracks(policy.View(), storage.Keys, budget, k);
      TtlAdd(ttl.index.Keys, ttl.exp, storage, lost, k, e);
      WeightInsert(storage, k, e);
      storage := storage[k := e];
      ttl.Add(k, e.expireAt);
      policy.OnInsert(k);
      c.entries := c.entries + 1;
      c.bytes := c.bytes + e.weight;
    }

    // The update path of upsertLocked; with e's expiry the stored one, replaceValueLocked.
    method Update(k: K, e: Entry, c: Counters)
      requires Valid() && k in storage
      modifies this, policy, ttl, c
      ensures Valid() && Moved(c) && storage == old(storage)[k := e]
      ensures lost == LostBy(old(storage), old(lost), k, e.expireAt)
      ensures policy.View() == S3Fifo.Accessed(old(policy.View()), k)
    {
      hide Tracks, S3Fifo.Accessed, Weight, TtlAgrees, LostBy;
      hide ExpiryHeap.BackPointers, ExpiryHeap.Ordered, ExpiryHeap.Refixed;
      AccessTracks(policy.View(), storage.Keys, budget, k);
      TtlSet(ttl.index.Keys, ttl.exp, storage, lost, k, e);
      WeightSet(storage, k, e);
      c.bytes := c.bytes - storage[k].weight + e.weight;
      assert storage[k := e].Keys == storage.Keys;
      lost := LostBy(storage, lost, k, e.expireAt);
      storage := storage[k := e];
      ttl.Fix(k, e.expireAt);
      policy.OnAccess(k);
    }

    // applySnapshot: a loaded record takes the place of any entry of its key.
    method Replace(k: K, e: Entry, c: Counters)
      requires Valid()
      modifies this, policy, ttl, c
      ensures Valid() && Moved(c) && storage == old(storage)[k := e]
      ensures var p := if k in old(storage) then S3Fifo.Removed(old(policy.View()), k) else old(policy.View());
        policy.View() == S3Fifo.Inserted(p, k)
    {
      hide Tracks, Weight, TtlAgrees, ExpiryHeap.BackPointers, ExpiryHeap.Ordered, S3Fifo.Removed, S3Fifo.Inserted;
      var _ := Delete(k, c);
      assert storage[k := e] == old(storage)[k := e];
      Insert(k, e, c);
    }

    // One round of evictOverBudgetLocked.
    method EvictOne(c: Counters, overShard: bool, overTotal: bool, keepRecent: bool) returns (v: Option<K>)
      requires Valid()
      modifies this, policy, ttl, c
      ensures Valid() && Moved(c) && (v.None? ==> storage == old(storage))
      ensures v.Some? ==> v.value in old(storage) && storage == old(storage) - {v.value}
      ensures overShard && 0 < budget < old(|storage|) ==> v.Some?
      ensures overTotal && old(|storage|) >= (if keepRecent then 2 else 1) ==> v.Some?
      ensures v.Some? ==> overShard || overTotal
      ensures keepRecent ==> policy.View().recent == old(policy.View()).recent
      ensures keepRecent && v.Some? ==> v != policy.View().recent
      ensures var (w, q) := S3Fifo.EvictOf(old(policy.View()), overShard, overTotal, keepRecent);
        v == w && policy.View() == if w.Some? then S3Fifo.Removed(q, w.value) else q
    {
      hide Tracks, S3Fifo.EvictOf, S3Fifo.Removed, Weight, TtlAgrees, ExpiryHeap.BackPointers, ExpiryHeap.Ordered;
      EvictTracks(policy.View(), storage.Keys, budget, overShard, overTotal, keepRecent);
      v := Choose(overShard, overTotal, keepRecent);
      if v.Some? {
        RemoveLocked(v.value, c, {});
        assert {} - {v.value} == {};
      }
    }

    method Choose(overShard: bool, overTotal: bool, keepRecent: bool) returns (v: Option<K>)
      modifies policy
      ensures (v, policy.View()) == S3Fifo.EvictOf(old(policy.View()), overShard, overTotal, keepRecent)
    {
      hide S3Fifo.VictimOf, S3Fifo.ShedVictimOf;
      v := None;
      if overShard { v := policy.Victim(); }
      if v.None? && overTotal { v := policy.ShedVictim(keepRecent); }
    }

    method SweepExpired(now: int, c: Counters) returns (n: nat)
      requires Valid()
      modifies this, policy, ttl, c
      ensures Valid() && Moved(c)
      ensures storage == old(storage) - (Expired(old(storage), now) - old(lost))
      ensures n == old(|storage|) - |storage|
    {
      hide Shard.Policy, Shard.Ttl, Weight, Expired, Keys, Distinct, SweptTo;
      NoKeys<K>();
      var expired := TakeDue(now);
      ghost var due := Keys(expired);
      SweptStart(storage, due);
      n := |expired|;
      for i := 0 to |expired|
        invariant Policy() && Ttl(Keys(expired[i..])) && Moved(c) && Distinct(expired[i..])
        invariant SweptTo(old(storage), storage, due, Keys(expired[i..]), i)
      {
        InKeys(expired[i..], expired[i]);
        SweptNext(old(storage), storage, due, Keys(expired[i..]), i, expired[i]);
        assert expired[i..][1..] == expired[i + 1..];
        RemoveSwept(expired[i..], c);
      }
      SweptEnd(old(storage), storage, due, n);
    }

    method TakeDue(now: int) returns (due: seq<K>)
      requires Ttl({})
      modifies ttl
      ensures Ttl(Keys(due)) && Distinct(due) && Keys(due) <= storage.Keys && Keys(due) == Expired(storage, now) - lost
    {
      hide TtlAgrees, Expired, ExpiryHeap.BackPointers, ExpiryHeap.Ordered, Keys, Distinct;
      hide ExpiryHeap.DueBy, ExpiryHeap.SoonestFirst;
      TtlSwept(ttl.index.Keys, ttl.exp, storage, lost, now);
      due := ttl.Sweep(now);
    }

    method RemoveSwept(rest: seq<K>, c: Counters)
      requires rest != [] && Distinct(rest) && Keys(rest) <= storage.Keys && Policy() && Ttl(Keys(rest))
      modifies this, policy, ttl, c
      ensures Policy() && Ttl(Keys(rest[1..])) && Moved(c)
      ensures storage == old(storage) - {rest[0]}
      ensures Distinct(rest[1..]) && Keys(rest[1..]) == Keys(rest) - {rest[0]}
    {
      hide Tracks, Weight, TtlAgrees, ExpiryHeap.BackPointers, ExpiryHeap.Ordered, Keys, Distinct, S3Fifo.Removed;
      DropHead(rest);
      InKeys(rest, rest[0]);
      RemoveTracks(policy.View(), storage.Keys, budget, rest[0]);
      RemoveLocked(rest[0], c, Keys(rest));
    }

    // Clear and Reset on one shard.
    method Clear(c: Counters)
      requires Valid()
      modifies this, policy, ttl, c
      ensures Valid() && Moved(c) && storage == map[]
    {
      hide Weight, Tracks, TtlAgrees, S3Fifo.Valid, S3Fifo.Resident, ExpiryHeap.BackPointers, ExpiryHeap.Ordered;
      WeightOfNone<K>();
      ForgetAll(c);
      storage := map[];
      lost := {};
      policy.Reset();
      ttl.Reset();
      assert storage.Keys == ttl.index.Keys == {};
      NothingTracked(policy.View(), budget, ttl.exp);
    }

    method ForgetAll(c: Counters)
      requires Policy()
      modifies policy, c
      ensures (policy.smallBudget, policy.mainBudget) == S3Fifo.SplitBudget(budget)
      ensures c.entries == old(c.entries) - |storage| && c.bytes == old(c.bytes) - Weight(storage)
    {
      hide S3Fifo.Valid, S3Fifo.Resident, S3Fifo.Removed, Weight;
      var rest := storage;
      WeightOfNone<K>();
      while rest != map[]
        invariant rest.Keys <= storage.Keys && forall k :: k in rest ==> rest[k] == storage[k]
        invariant c.entries == old(c.entries) + |rest| - |storage|
        invariant c.bytes == old(c.bytes) + Weight(rest) - Weight(storage)
        invariant (policy.smallBudget, policy.mainBudget) == S3Fifo.SplitBudget(budget)
        decreases |rest|
      {
        var k :| k in rest;
        WeightWithout(rest, k);
        Smaller(rest, k);
        c.entries := c.entries - 1;
        c.bytes := c.bytes - storage[k].weight;
        RemovedBudgets(policy.View(), k);
        policy.OnRemove(k);
        rest := rest - {k};
      }
    }
  }

  lemma NothingTracked<K(!new)>(p: S3Fifo.S3<K>, budget: int, exp: map<K, int>)
    requires S3Fifo.Valid(p) && S3Fifo.Resident(p) == {}
    requires (p.smallBudget, p.mainBudget) == S3Fifo.SplitBudget(budget)
    ensures Tracks(p, {}, budget) && TtlAgrees({}, exp, map[], {}, {})
  {
  }

  // An update that gives an entry without expiry a negative one leaves it expired and never swept.
  method SweepLeavesLost(k: int, x: int, now: int) returns (s: Shard<int>)
    requires x < 0 && x <= now
    ensures fresh(s) && s.Valid() && k in s.storage && k in Expired(s.storage, now)
  {
    hide Shard.Valid, Weight;
    var c := new Counters();
    s := new Shard<int>(0);
    s.Insert(k, Entry(1, 0), c);
    s.Update(k, Entry(1, x), c);
    var _ := s.SweepExpired(now, c);
  }

  lemma RemovedBudgets<K(!new)>(p: S3Fifo.S3<K>, k: K)
    ensures var q := S3Fifo.Removed(p, k); q.smallBudget == p.smallBudget && q.mainBudget == p.mainBudget
  {
  }

  lemma WeightOfNone<K(!new)>()
    ensures Weight<K>(map[]) == 0
  {
  }

  // -- The cache ----------------------------------------------------------------------------------

  ghost function Entries<K(!new)>(shards: seq<map<K, Entry>>): int {
    if shards == [] then 0 else |shards[|shards| - 1]| + Entries(shards[..|shards| - 1])
  }

  ghost function Bytes<K(!new)>(shards: seq<map<K, Entry>>): int {
    if shards == [] then 0 else Weight(shards[|shards| - 1]) + Bytes(shards[..|shards| - 1])
  }

  // A section that moves the counters by what its own shard gained keeps them equal to the sums.
  lemma {:induction false} CountersStaySums<K(!new)>(shards: seq<map<K, Entry>>, i: nat, m: map<K, Entry>)
    requires i < |shards|
    ensures Entries(shards[i := m]) == Entries(shards) + |m| - |shards[i]|
    ensures Bytes(shards[i := m]) == Bytes(shards) + Weight(m) - Weight(shards[i])
  {
    hide Weight;
    var n := |shards| - 1;
    if i == n {
      assert shards[i := m][..n] == shards[..n];
    } else {
      CountersStaySums(shards[..n], i, m);
      assert shards[i := m][..n] == shards[..n][i := m];
    }
  }

  lemma {:induction false} NoneStored<K(!new)>(shards: seq<map<K, Entry>>)
    requires forall i :: 0 <= i < |shards| ==> shards[i] == map[]
    ensures Entries(shards) == 0 && Bytes(shards) == 0
  {
    WeightOfNone<K>();
    if shards != [] { NoneStored(shards[..|shards| - 1]); }
  }

  ghost function Storages<K(!new)>(shards: seq<Shard<K>>): (r: seq<map<K, Entry>>)
    reads shards
    ensures |r| == |shards| && forall i :: 0 <= i < |shards| ==> r[i] == shards[i].storage
  {
    if shards == [] then [] else Storages(shards[..|shards| - 1]) + [shards[|shards| - 1].storage]
  }

  ghost predicate Apart<K(!new)>(shards: seq<Shard<K>>) {
    forall i, j :: 0 <= i < j < |shards| ==>
      shards[i] != shards[j] && shards[i].policy != shards[j].policy && shards[i].ttl != shards[j].ttl
  }

  ghost function Parts<K(!new)>(shards: seq<Shard<K>>): set<object> {
    (set i | 0 <= i < |shards| :: shards[i] as object) + (set i | 0 <= i < |shards| :: shards[i].policy as object)
    + (set i | 0 <= i < |shards| :: shards[i].ttl as object)
  }

  lemma NoShards<K(!new)>()
    ensures Apart<K>([]) && Parts<K>([]) == {}
  {
  }

  lemma OneMore<K(!new)>(all: seq<Shard<K>>, s: Shard<K>)
    requires Apart(all) && s !in Parts(all) && s.policy !in Parts(all) && s.ttl !in Parts(all)
    ensures Apart(all + [s]) && Parts(all + [s]) == Parts(all) + {s, s.policy, s.ttl}
    ensures forall i :: 0 <= i < |all| ==> {all[i], all[i].policy, all[i].ttl} <= Parts(all)
  {
    var more := all + [s];
    assert more[|all|] == s && forall i :: 0 <= i < |all| ==> more[i] == all[i];
    forall o | o in Parts(all) ensures o in Parts(more) {
      var i :| 0 <= i < |all| && o in {all[i], all[i].policy, all[i].ttl};
      assert o in {more[i], more[i].policy, more[i].ttl};
    }
  }

  method NewShards<K(==, !new)>(n: nat, budget: int) returns (all: seq<Shard<K>>)
    ensures |all| == n && Apart(all) && fresh(Parts(all))
    ensures forall i :: 0 <= i < n ==> all[i].Valid() && all[i].storage == map[] && all[i].budget == budget
  {
    hide Shard.Valid, Apart, Parts;
    all := [];
    NoShards<K>();
    ghost var parts: set<object> := {};
    for j := 0 to n
      invariant |all| == j && Apart(all) && parts == Parts(all) && fresh(parts)
      invariant forall i :: 0 <= i < j ==> all[i].Valid() && all[i].storage == map[] && all[i].budget == budget
    {
      var s := new Shard<K>(budget);
      OneMore(all, s);
      all, parts := all + [s], parts + {s, s.policy, s.ttl};
    }
  }

  // m is m0 with entries gone.
  ghost predicate Kept<K(!new)>(m0: map<K, Entry>, m: map<K, Entry>) {
    forall k :: k in m ==> k in m0 && m[k] == m0[k]
  }

  lemma KeptAll<K(!new)>(m: map<K, Entry>)
    ensures Kept(m, m)
  {
  }

  class Cache<K(==, !new)> {
    const shards: seq<Shard<K>>
    const counters: Counters
    var maxEntries: int
    var maxBytes: int

    predicate OverBudget()
      reads this, counters
    {
      (maxEntries > 0 && counters.entries > maxEntries) || (maxBytes > 0 && counters.bytes > maxBytes)
    }

    // With n entries in a shard of the given budget, and these counts, an eviction is due: the shard is over
    // its budget, or it holds more than keep and the cache is over a bound it has.
    predicate Due(n: nat, budget: int, keep: nat, entries: int, bytes: int)
      reads this
    {
      || n > budget > 0
      || (n > keep && (entries > maxEntries > 0 || bytes > maxBytes > 0))
    }

    // The counters are the sums over the shards, and every shard is in step with itself.
    ghost predicate Valid()
      reads counters, Parts(shards)
    {
      && Apart(shards) && (forall i :: 0 <= i < |shards| ==> shards[i].Valid())
      && counters.entries == Entries(Storages(shards)) && counters.bytes == Bytes(Storages(shards))
    }

    // What a locked section on shard i leaves.
    twostate predicate Section(i: nat)
      requires i < |shards|
      reads counters, Parts(shards)
    {
      && shards[i].Valid() && shards[i].Moved(counters)
      && forall j :: 0 <= j < |shards| && j != i ==> shards[j].Valid() && shards[j].storage == old(shards[j].storage)
    }

    twostate lemma StillSums(i: nat)
      requires i < |shards| && old(Valid()) && Section(i)
      ensures Valid() && Storages(shards) == old(Storages(shards))[i := shards[i].storage]
    {
      hide Weight, Entries, Bytes, Storages, Shard.Valid;
      assert Storages(shards) == old(Storages(shards))[i := shards[i].storage];
      CountersStaySums(old(Storages(shards)), i, shards[i].storage);
    }

    constructor (n: nat, budget: int, maxEntries: int, maxBytes: int)
      ensures Valid() && |shards| == n && this.maxEntries == maxEntries && this.maxBytes == maxBytes
      ensures forall i :: 0 <= i < n ==> shards[i].storage == map[] && shards[i].budget == budget
      ensures fresh(Parts(shards)) && fresh(counters)
    {
      hide Shard.Valid, Storages, Entries, Bytes, Parts;
      counters := new Counters();
      var all := NewShards<K>(n, budget);
      shards := all;
      this.maxEntries, this.maxBytes := maxEntries, maxBytes;
      new;
      NoneStored(Storages(shards));
    }

    method Insert(i: nat, k: K, e: Entry)
      requires Valid() && i < |shards| && k !in shards[i].storage
      modifies shards[i], shards[i].policy, shards[i].ttl, counters
      ensures Valid() && Storages(shards) == old(Storages(shards))[i := old(shards[i].storage)[k := e]]
    {
      hide Shard.Policy, Shard.Ttl, Weight, Entries, Bytes, Storages;
      shards[i].Insert(k, e, counters);
      StillSums(i);
    }

    method Update(i: nat, k: K, e: Entry)
      requires Valid() && i < |shards| && k in shards[i].storage
      modifies shards[i], shards[i].policy, shards[i].ttl, counters
      ensures Valid() && Storages(shards) == old(Storages(shards))[i := old(shards[i].storage)[k := e]]
    {
      hide Shard.Policy, Shard.Ttl, Weight, Entries, Bytes, Storages;
      shards[i].Update(k, e, counters);
      StillSums(i);
    }

    method Replace(i: nat, k: K, e: Entry)
      requires Valid() && i < |shards|
      modifies shards[i], shards[i].policy, shards[i].ttl, counters
      ensures Valid() && Storages(shards) == old(Storages(shards))[i := old(shards[i].storage)[k := e]]
    {
      hide Shard.Policy, Shard.Ttl, Weight, Entries, Bytes, Storages;
      shards[i].Replace(k, e, counters);
      StillSums(i);
    }

    method Delete(i: nat, k: K) returns (removed: bool)
      requires Valid() && i < |shards|
      modifies shards[i], shards[i].policy, shards[i].ttl, counters
      ensures Valid() && Storages(shards) == old(Storages(shards))[i := old(shards[i].storage) - {k}]
      ensures removed == (k in old(shards[i].storage))
    {
      hide Shard.Policy, Shard.Ttl, Weight, Entries, Bytes, Storages;
      removed := shards[i].Delete(k, counters);
      StillSums(i);
    }

    method SweepExpired(i: nat, now: int) returns (n: nat)
      requires Valid() && i < |shards|
      modifies shards[i], shards[i].policy, shards[i].ttl, counters
      ensures Valid() && Storages(shards) == old(Storages(shards))[i := 
        old(shards[i].storage) - (Expired(old(shards[i].storage), now) - old(shards[i].lost))]
    {
      hide Shard.Policy, Shard.Ttl, Weight, Entries, Bytes, Storages;
      n := shards[i].SweepExpired(now, counters);
      StillSums(i);
    }

    method Clear(i: nat)
      requires Valid() && i < |shards|
      modifies shards[i], shards[i].policy, shards[i].ttl, counters
      ensures Valid() && Storages(shards) == old(Storages(shards))[i := map[]]
    {
      hide Shard.Policy, Shard.Ttl, Weight, Entries, Bytes, Storages;
      shards[i].Clear(counters);
      StillSums(i);
    }

    // With the last of the entries evicted from m0 back in m, an eviction would be due.
    ghost predicate Needed(m0: map<K, Entry>, m: map<K, Entry>, budget: int, keep: nat, entries: int, bytes: int)
      reads this
    {
      exists v :: v in m0 && v !in m && Due(|m| + 1, budget, keep, entries + 1, bytes + m0[v].weight)
    }

    lemma LastNeeded(m0: map<K, Entry>, m: map<K, Entry>, v: K, budget: int, keep: nat, entries: int, bytes: int)
      requires Kept(m0, m) && v in m && Due(|m|, budget, keep, entries, bytes)
      ensures Kept(m0, m - {v}) && Needed(m0, m - {v}, budget, keep, entries - 1, bytes - m[v].weight)
    {
      Smaller(m, v);
    }

    // What count evictions from m0, begun with entries0 and bytes0, have come to.
    ghost predicate Evicting(m0: map<K, Entry>, entries0: int, bytes0: int, m: map<K, Entry>, entries: int, bytes: int,
                             budget: int, keep: nat, count: nat)
      reads this
    {
      && Kept(m0, m) && count == |m0| - |m|
      && (count > 0 ==> Due(|m0|, budget, keep, entries0, bytes0) && Needed(m0, m, budget, keep, entries, bytes))
      && (count == 0 ==> m == m0 && entries == entries0 && bytes == bytes0)
    }

    lemma EvictingStep(m0: map<K, Entry>, entries0: int, bytes0: int, m: map<K, Entry>, entries: int, bytes: int,
                       budget: int, keep: nat, count: nat, v: K)
      requires Evicting(m0, entries0, bytes0, m, entries, bytes, budget, keep, count)
      requires v in m && Due(|m|, budget, keep, entries, bytes)
      ensures Evicting(m0, entries0, bytes0, m - {v}, entries - 1, bytes - m[v].weight, budget, keep, count + 1)
    {
      hide Due, Kept, Needed;
      LastNeeded(m0, m, v, budget, keep, entries, bytes);
      Smaller(m, v);
    }

    // Evicts from shard i while it holds more than its budget, or while the cache is over its entry or
    // byte bound and the shard holds more than keep entries; no more than that takes, and with keep not the
    // latest insert.
    method EvictOverBudgetLocked(i: nat, keep: nat) returns (count: nat)
      requires Valid() && i < |shards|
      modifies shards[i], shards[i].policy, shards[i].ttl, counters
      ensures Valid() && Storages(shards) == old(Storages(shards))[i := shards[i].storage]
      ensures Kept(old(shards[i].storage), shards[i].storage)
      ensures count == old(|shards[i].storage|) - |shards[i].storage|
      ensures !Due(|shards[i].storage|, shards[i].budget, keep, counters.entries, counters.bytes)
      ensures count > 0 ==>
        Needed(old(shards[i].storage), shards[i].storage, shards[i].budget, keep, counters.entries, counters.bytes)
      ensures old(!Due(|shards[i].storage|, shards[i].budget, keep, counters.entries, counters.bytes)) ==> count == 0
      ensures keep > 0 ==> shards[i].policy.View().recent == old(shards[i].policy.View()).recent
      ensures keep > 0 && shards[i].policy.recent.Some? ==> shards[i].policy.recent.value in shards[i].storage
    {
      hide Shard.Valid, Weight, Entries, Bytes, Storages, Due, Kept, Needed;
      count := 0;
      ghost var was := Storages(shards);
      var s := shards[i];
      ghost var m0, entries0, bytes0 := s.storage, counters.entries, counters.bytes;
      KeptAll(m0);
      assert Evicting(m0, entries0, bytes0, m0, entries0, bytes0, s.budget, keep, 0);
      while true
        invariant Valid() && Storages(shards) == was[i := s.storage]
        invariant
          Evicting(m0, entries0, bytes0, s.storage, counters.entries, counters.bytes, s.budget, keep, count)
        invariant keep > 0 ==> s.policy.View().recent == old(s.policy.View()).recent
        decreases |s.storage|
      {
        ghost var m, entries, bytes := s.storage, counters.entries, counters.bytes;
        var v := EvictOne(i, keep);
        if v.None? {
          s.RecentIsStored();
          return;
        }
        EvictingStep(m0, entries0, bytes0, m, entries, bytes, s.budget, keep, count, v.value);
        count := count + 1;
      }
    }

    // One round of it.
    method EvictOne(i: nat, keep: nat) returns (v: Option<K>)
      requires Valid() && i < |shards|
      modifies shards[i], shards[i].policy, shards[i].ttl, counters
      ensures Valid() && Storages(shards) == old(Storages(shards))[i := shards[i].storage]
      ensures v.Some? == old(Due(|shards[i].storage|, shards[i].budget, keep, counters.entries, counters.bytes))
      ensures v.Some? ==> v.value in old(shards[i].storage) && shards[i].storage == old(shards[i].storage) - {v.value}
      ensures v.Some? ==> |shards[i].storage| == old(|shards[i].storage|) - 1
      ensures v.Some? ==> counters.entries == old(counters.entries) - 1
      ensures v.Some? ==> counters.bytes == old(counters.bytes) - old(shards[i].storage)[v.value].weight
      ensures v.None? ==> shards[i].storage == old(shards[i].storage)
      ensures v.None? ==> counters.entries == old(counters.entries) && counters.bytes == old(counters.bytes)
      ensures keep > 0 ==> shards[i].policy.View().recent == old(shards[i].policy.View()).recent
    {
      hide Shard.Policy, Shard.Ttl, Weight, Entries, Bytes, Storages, S3Fifo.EvictOf;
      var s := shards[i];
      var n := |s.storage|;
      v := s.EvictOne(counters, s.budget > 0 && n > s.budget, n > keep && OverBudget(), keep > 0);
      StillSums(i);
      if v.Some? {
        Smaller(old(s.storage), v.value);
        WeightWithout(old(s.storage), v.value);
      }
    }
  }
}
