/** The entry bound of a sharded S3-FIFO cache (cache.go): an insert survives its own evictions. */
module S3Cache {
  import opened Prelude
  import opened S3Fifo

  function PerShardBudget(maxEntries: int, shardCount: int): (b: nat)
    ensures maxEntries >= 1 && shardCount >= 1 ==> b >= 2 && b * shardCount >= maxEntries
    ensures maxEntries <= 0 || shardCount <= 0 ==> b == 0
  {
    if maxEntries <= 0 || shardCount <= 0 then 0
    else
      var per := (maxEntries + shardCount - 1) / shardCount;
      CeilingCovers(maxEntries, shardCount);
      var slop := if per * 10 / 100 > 1 then per * 10 / 100 else 1;
      assert (per + slop) * shardCount == per * shardCount + slop * shardCount;
      per + slop
  }

  lemma CeilingCovers(x: nat, n: nat)
    requires x >= 1 && n >= 1
    ensures (x + n - 1) / n >= 1 && (x + n - 1) / n * n >= x
  {
    var q := (x + n - 1) / n;
    assert x + n - 1 == q * n + (x + n - 1) % n;
    assert q < 1 ==> q * n <= 0;
  }

  function Total<K>(shards: seq<S3<K>>): nat {
    if shards == [] then 0 else Total(shards[..|shards| - 1]) + Len(shards[|shards| - 1])
  }

  lemma {:induction false} TotalUpdate<K>(shards: seq<S3<K>>, i: nat, p: S3<K>)
    requires i < |shards|
    ensures Total(shards[i := p]) == Total(shards) - Len(shards[i]) + Len(p)
    ensures Total(shards) >= Len(shards[i])
  {
    var n := |shards| - 1;
    if i < n {
      assert shards[i := p][..n] == shards[..n][i := p];
      TotalUpdate(shards[..n], i, p);
    } else {
      assert shards[i := p][..n] == shards[..n];
    }
  }

  lemma {:induction false} TotalEmpty<K>(shards: seq<S3<K>>, keep: nat)
    requires forall i :: 0 <= i < |shards| && i != keep ==> Len(shards[i]) == 0
    ensures Total(shards) == if keep < |shards| then Len(shards[keep]) else 0
  {
    if shards != [] { TotalEmpty(shards[..|shards| - 1], keep); }
  }

  // p is what remains of p0 after some evictions.
  ghost predicate Survives<K(!new)>(p0: S3<K>, p: S3<K>) {
    && S3Fifo.Valid(p) && p.smallBudget == p0.smallBudget && p.mainBudget == p0.mainBudget
    && Resident(p) <= Resident(p0) && Len(p) <= Len(p0)
  }

  lemma Evicted<K(!new)>(p: S3<K>, v: K, q: S3<K>)
    requires S3Fifo.Valid(p) && Gone(p, Some(v), q)
    ensures Survives(p, Removed(q, v)) && Len(Removed(q, v)) == Len(p) - 1
    ensures p.recent != Some(v) ==> Removed(q, v).recent == p.recent
  {
    OnRemoveEvicted(p, v, q);
  }

  // A shard of a cache whose shards have the given budget.
  ghost predicate ShardValid<K(!new)>(p: S3<K>, i: nat, budget: nat, shardFor: K -> nat) {
    && S3Fifo.Valid(p) && (p.smallBudget, p.mainBudget) == SplitBudget(budget)
    && p.smallBudget + p.mainBudget == budget
    && forall k :: k in Resident(p) ==> shardFor(k) == i
  }

  lemma ShardSurvives<K(!new)>(p0: S3<K>, i: nat, budget: nat, shardFor: K -> nat, p: S3<K>)
    requires ShardValid(p0, i, budget, shardFor) && Survives(p0, p)
    ensures ShardValid(p, i, budget, shardFor)
  {
  }

  ghost predicate AllSurvive<K(!new)>(was: seq<S3<K>>, now: seq<S3<K>>) {
    |now| == |was| && forall j :: 0 <= j < |was| ==> Survives(was[j], now[j])
  }

  ghost predicate AllWithin<K(!new)>(shards: seq<S3<K>>, budget: nat) {
    forall j :: 0 <= j < |shards| ==> Len(shards[j]) <= budget
  }

  lemma SurvivesSelf<K(!new)>(p: S3<K>)
    requires S3Fifo.Valid(p)
    ensures Survives(p, p)
  {
  }

  lemma Shorter<K(!new)>(p: S3<K>, q: S3<K>)
    requires Survives(p, q)
    ensures Len(q) <= Len(p)
  {
  }

  lemma SurvivesTwice<K(!new)>(p: S3<K>, q: S3<K>, r: S3<K>)
    requires Survives(p, q) && Survives(q, r)
    ensures Survives(p, r)
  {
  }

  class Cache<K(==, !new)> {
    const shardFor: K -> nat
    var maxEntries: nat
    var budget: nat
    // The keys of a shard's storage are those its policy tracks.
    var shards: seq<S3<K>>
    var entries: int
    var shedNext: nat

    predicate OverBudget()
      reads this
    {
      maxEntries > 0 && entries > maxEntries
    }

    ghost predicate Valid()
      reads this
    {
      && |shards| >= 1 && maxEntries >= 1 && budget == PerShardBudget(maxEntries, |shards|)
      && (forall i :: 0 <= i < |shards| ==> ShardValid(shards[i], i, budget, shardFor))
      && entries == Total(shards)
    }

    constructor (maxEntries: nat, shardCount: nat, shardFor: K -> nat)
      requires maxEntries >= 1 && shardCount >= 1
      ensures Valid() && !OverBudget()
      ensures this.maxEntries == maxEntries && |shards| == shardCount && this.shardFor == shardFor
      ensures forall i :: 0 <= i < |shards| ==> Resident(shards[i]) == {}
    {
      var b := PerShardBudget(maxEntries, shardCount);
      var (s, m) := SplitBudget(b);
      this.shardFor, this.maxEntries, budget, entries, shedNext := shardFor, maxEntries, b, 0, 0;
      shards := seq(shardCount, _ => S3([], [], [], map[], None, s, m));
      new;
      TotalEmpty(shards, shardCount);
    }

    // The next eviction of evictOverBudgetLocked on p, if it makes one.
    method PickVictim(p: S3<K>, keep: nat) returns (victim: Option<K>, q: S3<K>)
      requires S3Fifo.Valid(p) && p.smallBudget + p.mainBudget == budget >= 2 && keep <= 1
      ensures victim.None? ==> q == p && Len(p) <= budget && (Len(p) <= keep || !OverBudget())
      ensures victim.Some? ==> Gone(p, victim, q) && (Len(p) > budget || (Len(p) > keep && OverBudget()))
      ensures victim.Some? ==> (victim, q) == EvictOf(p, Len(p) > budget, Len(p) > keep && OverBudget(), keep > 0)
      ensures keep == 1 && victim.Some? ==> victim != p.recent
    {
      hide S3Fifo.Valid, Gone, VictimOf, ShedVictimOf;
      var n := Len(p);
      var overShard := budget > 0 && n > budget;
      var overTotal := n > keep && OverBudget();
      victim, q := None, p;
      if overShard {
        VictimSound(p);
        var r := VictimOf(p);
        victim, q := r.0, r.1;
      }
      if victim.None? && overTotal {
        ShedVictimSound(p, keep > 0);
        var r := ShedVictimOf(q, keep > 0);
        victim, q := r.0, r.1;
      }
    }

    // Evicts from shard i while it is over its budget, or the cache over its bound and the shard
    // holds more than keep entries.
    method EvictOverBudgetLocked(i: nat, keep: nat)
      requires Valid() && i < |shards| && keep <= 1
      modifies this`shards, this`entries
      ensures Valid() && |shards| == |old(shards)|
      ensures Survives(old(shards[i]), shards[i]) && shards == old(shards)[i := shards[i]]
      ensures Len(shards[i]) <= budget && (Len(shards[i]) <= keep || !OverBudget())
      ensures keep == 1 ==> shards[i].recent == old(shards[i]).recent
      ensures old(Len(shards[i]) <= budget && (Len(shards[i]) <= keep || !OverBudget())) ==> shards == old(shards)
      ensures entries - old(entries) == Len(shards[i]) - Len(old(shards[i])) && entries <= old(entries)
      ensures entries < old(entries) ==> Len(shards[i]) >= budget || (entries >= maxEntries && Len(shards[i]) >= keep)
    {
      hide S3Fifo.Valid, Gone, Resident, Removed, Survives, SplitBudget, EvictOf;
      ghost var was := shards;
      SurvivesSelf(shards[i]);
      while true
        invariant Valid() && |shards| == |was| && shards == was[i := shards[i]]
        invariant Survives(was[i], shards[i])
        invariant keep == 1 ==> shards[i].recent == was[i].recent
        invariant entries <= old(entries) && (entries == old(entries) ==> shards == was)
        invariant entries - old(entries) == Len(shards[i]) - Len(was[i])
        invariant entries < old(entries) ==>
          Len(shards[i]) >= budget || (entries >= maxEntries && Len(shards[i]) >= keep)
        invariant old(Len(shards[i]) <= budget && (Len(shards[i]) <= keep || !OverBudget())) ==> entries == old(entries)
        decreases Len(shards[i])
      {
        var victim, q := PickVictim(shards[i], keep);
        if victim.None? { return; }
        ghost var p := shards[i];
        RemoveLocked(i, victim.value, q);
        SurvivesTwice(was[i], p, shards[i]);
      }
    }

    // removeLocked of a victim the policy has already unlinked.
    method RemoveLocked(i: nat, v: K, q: S3<K>)
      requires Valid() && i < |shards| && Gone(shards[i], Some(v), q)
      modifies this`shards, this`entries
      ensures Valid() && |shards| == |old(shards)|
      ensures shards == old(shards)[i := shards[i]] && Len(shards[i]) == Len(old(shards[i])) - 1
      ensures Survives(old(shards[i]), shards[i])
      ensures old(shards[i]).recent != Some(v) ==> shards[i].recent == old(shards[i]).recent
      ensures entries == old(entries) - 1
    {
      hide S3Fifo.Valid, Gone, Resident, Removed, PerShardBudget, SplitBudget;
      Evicted(shards[i], v, q);
      ShardSurvives(shards[i], i, budget, shardFor, Removed(q, v));
      TotalUpdate(shards, i, Removed(q, v));
      shards := shards[i := Removed(q, v)];
      entries := entries - 1;
    }

    lemma ShardsSurvive()
      requires Valid()
      ensures AllSurvive(shards, shards)
    {
      forall j | 0 <= j < |shards| ensures Survives(shards[j], shards[j]) { SurvivesSelf(shards[j]); }
    }

    // With every other shard empty, an overage is all in shard last.
    lemma TotalWhenSwept(last: Option<nat>)
      requires Valid() && (last.Some? ==> last.value < |shards|)
      requires OverBudget() ==> forall j :: 0 <= j < |shards| && last != Some(j) ==> Len(shards[j]) == 0
      ensures OverBudget() ==> last.Some? && Len(shards[last.value]) > maxEntries
    {
      if OverBudget() { TotalEmpty(shards, if last.Some? then last.value else |shards|); }
    }

    // The sweep of one shard.
    method ShedShard(i: nat, ghost was: seq<S3<K>>)
      requires Valid() && i < |shards| && AllSurvive(was, shards)
      modifies this`shards, this`entries
      ensures Valid() && AllSurvive(was, shards)
      ensures shards == old(shards)[i := shards[i]] && (OverBudget() ==> Len(shards[i]) == 0)
      ensures entries <= old(entries) && (entries < old(entries) && AllWithin(was, budget) ==> entries >= maxEntries)
    {
      hide S3Fifo.Valid, Survives, Resident, SplitBudget, PerShardBudget, ShardValid, Total;
      ghost var p := shards[i];
      EvictOverBudgetLocked(i, 0);
      SurvivesTwice(was[i], p, shards[i]);
      Shorter(was[i], p);
    }

    // One sweep over the shards from shedNext on, with shard last, if any, after the others.
    method ShedPass(last: Option<nat>)
      requires Valid() && (last.Some? ==> last.value < |shards|)
      modifies this`shards, this`entries, this`shedNext
      ensures Valid() && AllSurvive(old(shards), shards) && !OverBudget() && shedNext == old(shedNext) + 1
      ensures last.Some? && shards[last.value] != old(shards[last.value]) ==> Len(old(shards[last.value])) > maxEntries
      ensures entries < old(entries) && AllWithin(old(shards), budget) ==> entries == maxEntries
    {
      hide S3Fifo.Valid, AllSurvive, AllWithin, Resident, SplitBudget, PerShardBudget, ShardValid, Total;
      ghost var was := shards;
      var n := |shards|;
      shedNext := shedNext + 1;
      var first := shedNext % n;
      ShardsSurvive();
      for i := 0 to n
        invariant Valid() && AllSurvive(was, shards) && |shards| == n && shedNext == old(shedNext) + 1
        invariant last.Some? ==> shards[last.value] == was[last.value]
        invariant entries <= old(entries)
        invariant entries < old(entries) && AllWithin(was, budget) ==> entries >= maxEntries
        invariant OverBudget() ==>
          forall j :: 0 <= j < n && Swept(first, i, n, j) && last != Some(j) ==> Len(shards[j]) == 0
      {
        var s := if first + i < n then first + i else first + i - n;
        if last != Some(s) {
          if !OverBudget() { return; }
          ghost var before := shards;
          ShedShard(s, was);
          assert forall j :: 0 <= j < n && j != s ==> shards[j] == before[j];
        }
      }
      TotalWhenSwept(last);
      if last.Some? && OverBudget() {
        ShedShard(last.value, was);
        TotalWhenSwept(last);
      }
    }

    method ShedOverBudget(last: Option<nat>)
      requires Valid() && (last.Some? ==> last.value < |shards|)
      modifies this`shards, this`entries, this`shedNext
      ensures Valid() && AllSurvive(old(shards), shards) && !OverBudget()
      ensures !old(OverBudget()) ==> shards == old(shards) && entries == old(entries)
      ensures last.Some? && shards[last.value] != old(shards[last.value]) ==> Len(old(shards[last.value])) > maxEntries
      ensures entries < old(entries) && AllWithin(old(shards), budget) ==> entries == maxEntries
    {
      hide S3Fifo.Valid, Survives, Resident, ShardValid;
      ShardsSurvive();
      if OverBudget() { ShedPass(last); }
    }

    method InsertLocked(key: K)
      requires Valid() && shardFor(key) < |shards| && key !in Resident(shards[shardFor(key)])
      modifies this`shards, this`entries
      ensures Valid() && entries == old(entries) + 1
      ensures shards == old(shards)[shardFor(key) := Inserted(old(shards)[shardFor(key)], key)]
    {
      hide S3Fifo.Valid, Resident, Inserted, PerShardBudget, SplitBudget, ShardValid;
      var i := shardFor(key);
      InsertedShard(shards[i], i, budget, shardFor, key);
      TotalUpdate(shards, i, Inserted(shards[i], key));
      shards := shards[i := Inserted(shards[i], key)];
      entries := entries + 1;
    }

    method UpdateLocked(key: K)
      requires Valid() && shardFor(key) < |shards|
      modifies this`shards
      ensures Valid()
      ensures shards == old(shards)[shardFor(key) := Accessed(old(shards)[shardFor(key)], key)]
    {
      hide S3Fifo.Valid, Resident, Accessed, PerShardBudget, SplitBudget, ShardValid;
      var i := shardFor(key);
      AccessedShard(shards[i], i, budget, shardFor, key);
      TotalUpdate(shards, i, Accessed(shards[i], key));
      shards := shards[i := Accessed(shards[i], key)];
    }

    method Get(key: K)
      requires Valid() && !OverBudget() && shardFor(key) < |shards|
      modifies this`shards
      ensures Valid() && !OverBudget() && |shards| == |old(shards)|
      ensures forall j :: 0 <= j < |shards| ==> Resident(shards[j]) == Resident(old(shards)[j])
    {
      hide S3Fifo.Valid, Resident, ShardValid, Accessed, PerShardBudget, Total;
      TrackedIsStored(key);
      OnAccessKeeps(shards[shardFor(key)], key);
      UpdateLocked(key);
    }

    method Delete(key: K)
      requires Valid() && !OverBudget() && shardFor(key) < |shards|
      modifies this`shards, this`entries
      ensures Valid() && !OverBudget() && |shards| == |old(shards)|
      ensures forall j :: 0 <= j < |shards| ==>
        Resident(shards[j]) == Resident(old(shards)[j]) - (if j == shardFor(key) then {key} else {})
    {
      hide S3Fifo.Valid, Resident, Removed, PerShardBudget, SplitBudget, ShardValid, Total;
      var i := shardFor(key);
      TrackedIsStored(key);
      if key in shards[i].freq {
        RemovedShard(shards[i], i, budget, shardFor, key);
        TotalUpdate(shards, i, Removed(shards[i], key));
        shards := shards[i := Removed(shards[i], key)];
        entries := entries - 1;
      }
    }

    // A Set on an idle cache.
    method Set(key: K)
      requires Valid() && !OverBudget() && shardFor(key) < |shards|
      modifies this`shards, this`entries, this`shedNext
      ensures Valid() && |shards| == |old(shards)| && !OverBudget()
      ensures key in Resident(shards[shardFor(key)])
      ensures key !in Resident(old(shards)[shardFor(key)]) ==> Len(shards[shardFor(key)]) <= budget
      ensures forall j :: 0 <= j < |shards| ==> Resident(shards[j]) <= Resident(old(shards)[j]) + {key}
      ensures key in Resident(old(shards)[shardFor(key)])
              || (Len(old(shards)[shardFor(key)]) < budget && old(entries) < maxEntries) ==>
        forall j :: 0 <= j < |shards| ==>
          Resident(shards[j]) == Resident(old(shards)[j]) + (if j == shardFor(key) then {key} else {})
    {
      hide S3Fifo.Valid, Resident, ShardValid, Inserted, Accessed, PerShardBudget, Total;
      var i := shardFor(key);
      TrackedIsStored(key);
      if key in shards[i].freq {
        OnAccessKeeps(shards[i], key);
        UpdateLocked(key);
        ShedOverBudget(Some(i));
      } else {
        OnInsertKeeps(shards[i], key);
        InsertLocked(key);
        EvictOverBudgetLocked(i, 1);
        TrackedIsStored(key);
        ShedOverBudget(Some(i));
      }
    }

    lemma TrackedIsStored(key: K)
      requires Valid() && shardFor(key) < |shards|
      ensures var p := shards[shardFor(key)];
        S3Fifo.Valid(p) && (key in p.freq <==> key in Resident(p)) && (p.recent == Some(key) ==> key in p.freq)
    {
    }
  }

  predicate Swept(first: nat, i: nat, n: nat, j: nat) {
    first <= j < first + i || j + n < first + i
  }

  lemma InsertedShard<K(!new)>(p: S3<K>, i: nat, budget: nat, shardFor: K -> nat, k: K)
    requires ShardValid(p, i, budget, shardFor) && k !in Resident(p) && shardFor(k) == i
    ensures ShardValid(Inserted(p, k), i, budget, shardFor) && Len(Inserted(p, k)) == Len(p) + 1
  {
    hide S3Fifo.Valid, Resident;
    OnInsertKeeps(p, k);
  }

  lemma AccessedShard<K(!new)>(p: S3<K>, i: nat, budget: nat, shardFor: K -> nat, k: K)
    requires ShardValid(p, i, budget, shardFor)
    ensures ShardValid(Accessed(p, k), i, budget, shardFor) && Len(Accessed(p, k)) == Len(p)
  {
    hide S3Fifo.Valid, Resident;
    OnAccessKeeps(p, k);
  }

  lemma RemovedShard<K(!new)>(p: S3<K>, i: nat, budget: nat, shardFor: K -> nat, k: K)
    requires ShardValid(p, i, budget, shardFor) && k in p.freq
    ensures var q := Removed(p, k);
      ShardValid(q, i, budget, shardFor) && Len(q) == Len(p) - 1 && Resident(q) == Resident(p) - {k}
  {
    hide S3Fifo.Valid, Resident;
    OnRemoveKeeps(p, k);
    RemovedLen(p, k);
  }

  lemma RemovedLen<K(!new)>(p: S3<K>, k: K)
    requires S3Fifo.Valid(p) && k in p.freq
    ensures Len(Removed(p, k)) == Len(p) - 1
  {
    Queues.InKeys(p.small, k);
    Queues.InKeys(p.main, k);
    Queues.Unlink(p.small, k);
    Queues.Unlink(p.main, k);
  }
}
