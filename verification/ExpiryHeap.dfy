/** The expiry min-heap with back-pointers of expiry.go and ttlbackend.go, driven by container/heap. */
module ExpiryHeap {
  import opened Queues

  function Parent(i: nat): nat {
    if i == 0 then 0 else (i - 1) / 2
  }

  // index is the inverse of heap: heapIndex of every tracked entry, and nothing else.
  ghost predicate BackPointers<E(!new)>(heap: seq<E>, index: map<E, nat>) {
    && (forall i :: 0 <= i < |heap| ==> heap[i] in index && index[heap[i]] == i)
    && (forall e :: e in index ==> index[e] < |heap| && heap[index[e]] == e)
  }

  // The first n entries, all with an expiry, are ordered except between i and its parent (up) or
  // between i and its children (down); across i they are.
  ghost predicate Ordered<E(!new)>(heap: seq<E>, exp: map<E, int>, n: nat, up: int, down: int) {
    && n <= |heap| && (forall i :: 0 <= i < |heap| ==> heap[i] in exp)
    && (forall k :: 0 < k < n && k != up && Parent(k) != down ==> exp[heap[Parent(k)]] <= exp[heap[k]])
    && (forall k :: 0 < k < n && 0 < Parent(k) && (Parent(k) == up || Parent(k) == down) ==>
          exp[heap[Parent(Parent(k))]] <= exp[heap[k]])
  }

  ghost predicate HeapOrdered<E(!new)>(heap: seq<E>, exp: map<E, int>) {
    Ordered(heap, exp, |heap|, -1, -1)
  }

  function Swapped<E>(heap: seq<E>, i: nat, j: nat): seq<E>
    requires i < |heap| && j < |heap|
  {
    heap[i := heap[j]][j := heap[i]]
  }

  lemma SwapBackPointers<E(!new)>(heap: seq<E>, index: map<E, nat>, i: nat, j: nat)
    requires BackPointers(heap, index) && i < |heap| && j < |heap|
    ensures BackPointers(Swapped(heap, i, j), index[heap[j] := i][heap[i] := j])
    ensures index[heap[j] := i][heap[i] := j].Keys == index.Keys
  {
  }

  lemma UpStep<E(!new)>(heap: seq<E>, exp: map<E, int>, n: nat, j: nat)
    requires 0 < j < n && Ordered(heap, exp, n, j, -1) && exp[heap[j]] < exp[heap[Parent(j)]]
    ensures Ordered(Swapped(heap, Parent(j), j), exp, n, Parent(j), -1)
  {
  }

  lemma DownStep<E(!new)>(heap: seq<E>, exp: map<E, int>, n: nat, i: nat, j: nat)
    requires i < n && j < n && Parent(j) == i && 0 < j && (Ordered(heap, exp, n, -1, i) || Ordered(heap, exp, n, i, i))
    requires forall k :: 0 < k < n && Parent(k) == i ==> exp[heap[j]] <= exp[heap[k]]
    requires exp[heap[j]] < exp[heap[i]]
    ensures Ordered(Swapped(heap, i, j), exp, n, -1, j)
  {
  }

  // j is a child of i expiring no later than the other.
  lemma DownStop<E(!new)>(heap: seq<E>, exp: map<E, int>, n: nat, up: int, i: nat, j: nat)
    requires i < n && 0 < j && Parent(j) == i && Ordered(heap, exp, n, up, i)
    requires forall k :: 0 < k < n && Parent(k) == i ==> j < n && exp[heap[j]] <= exp[heap[k]]
    requires j < n ==> exp[heap[i]] <= exp[heap[j]]
    ensures Ordered(heap, exp, n, up, -1)
  {
  }

  lemma Domain<E(!new)>(heap: seq<E>, exp: map<E, int>, n: nat, up: int, down: int)
    requires Ordered(heap, exp, n, up, down)
    ensures n <= |heap| && forall i :: 0 <= i < |heap| ==> heap[i] in exp
  {
  }

  lemma {:induction false} RootLeast<E(!new)>(heap: seq<E>, exp: map<E, int>, i: nat)
    requires HeapOrdered(heap, exp) && i < |heap|
    ensures exp[heap[0]] <= exp[heap[i]]
  {
    if i > 0 { RootLeast(heap, exp, Parent(i)); }
  }

  lemma PushOrdered<E(!new)>(heap: seq<E>, exp: map<E, int>, e: E, x: int)
    requires HeapOrdered(heap, exp) && e !in heap
    ensures Ordered(heap + [e], exp[e := x], |heap| + 1, |heap|, -1)
  {
  }

  lemma ReplaceLast<E(!new)>(heap: seq<E>, exp: map<E, int>, i: nat)
    requires HeapOrdered(heap, exp) && i < |heap|
    ensures var n := |heap| - 1;
      Ordered(Swapped(heap, i, n), exp, n, if i < n then i else -1, if i < n then i else -1)
  {
  }

  lemma RefixOrdered<E(!new)>(heap: seq<E>, exp: map<E, int>, index: map<E, nat>, e: E, x: int)
    requires HeapOrdered(heap, exp) && BackPointers(heap, index) && e in index
    ensures Ordered(heap, exp[e := x], |heap|, index[e], index[e])
  {
  }

  lemma PopBackPointers<E(!new)>(heap: seq<E>, index: map<E, nat>)
    requires BackPointers(heap, index) && heap != []
    ensures var n := |heap| - 1; BackPointers(heap[..n], index - {heap[n]})
  {
  }

  lemma PushBackPointers<E(!new)>(heap: seq<E>, index: map<E, nat>, e: E)
    requires BackPointers(heap, index) && e !in index
    ensures BackPointers(heap + [e], index[e := |heap|]) && e !in heap
  {
  }

  lemma PrefixOrdered<E(!new)>(heap: seq<E>, exp: map<E, int>, n: nat)
    requires Ordered(heap, exp, n, -1, -1)
    ensures HeapOrdered(heap[..n], exp)
  {
  }

  lemma Least<E(!new)>(heap: seq<E>, index: map<E, nat>, exp: map<E, int>)
    requires BackPointers(heap, index) && HeapOrdered(heap, exp) && heap != []
    ensures heap[0] in index && heap[0] in exp
    ensures forall x :: x in index ==> x in exp && exp[heap[0]] <= exp[x]
  {
    forall x | x in index ensures x in exp && exp[heap[0]] <= exp[x] { RootLeast(heap, exp, index[x]); }
  }

  lemma At<E(!new)>(heap: seq<E>, index: map<E, nat>, e: E)
    requires BackPointers(heap, index) && e in index
    ensures index[e] < |heap| && heap[index[e]] == e
  {
  }

  lemma UntrackedExpiry<E(!new)>(heap: seq<E>, index: map<E, nat>, exp: map<E, int>, e: E, x: int)
    requires BackPointers(heap, index) && HeapOrdered(heap, exp) && e !in index
    ensures HeapOrdered(heap, exp[e := x])
  {
  }

  lemma Roots<E(!new)>(heap: seq<E>, index: map<E, nat>, exp: map<E, int>)
    requires BackPointers(heap, index) && HeapOrdered(heap, exp)
    ensures heap != [] ==> heap[0] in exp && heap[0] in index
    ensures heap == [] ==> index.Keys == {}
  {
  }

  // The tracked entries whose expiry has come.
  ghost function DueBy<E(!new)>(tracked: set<E>, exp: map<E, int>, now: int): set<E> {
    set e | e in tracked && e in exp && exp[e] <= now
  }

  ghost predicate SoonestFirst<E>(out: seq<E>, exp: map<E, int>) {
    && (forall i :: 0 <= i < |out| ==> out[i] in exp)
    && (forall i, j :: 0 <= i < j < |out| ==> exp[out[i]] <= exp[out[j]])
  }

  // A sweep that has popped out of was and left the rest, none of it sooner.
  ghost predicate SweptSoFar<E(!new)>(out: seq<E>, exp: map<E, int>, was: set<E>, left: set<E>, now: int) {
    && Distinct(out) && SoonestFirst(out, exp) && left <= was && Keys(out) == was - left
    && (forall e :: e in Keys(out) ==> e in exp && exp[e] <= now)
    && (forall e, x :: e in Keys(out) && x in left ==> x in exp && exp[e] <= exp[x])
  }

  lemma SweepStart<E(!new)>(was: set<E>, exp: map<E, int>, now: int)
    ensures SweptSoFar([], exp, was, was, now)
  {
  }

  lemma SweepNext<E(!new)>(out: seq<E>, exp: map<E, int>, was: set<E>, left: set<E>, now: int, root: E, e: E)
    requires SweptSoFar(out, exp, was, left, now) && e in left && root in left
    requires forall x :: x in left ==> x in exp && e in exp && exp[e] <= exp[x]
    requires root in exp && exp[root] <= now
    ensures SweptSoFar(out + [e], exp, was, left - {e}, now)
  {
    Append(out, e);
    forall i | 0 <= i < |out| ensures out[i] in exp && exp[out[i]] <= exp[e] {
      assert out[i] in Keys(out);
    }
  }

  lemma SweepEnd<E(!new)>(out: seq<E>, exp: map<E, int>, was: set<E>, heap: seq<E>, index: map<E, nat>, now: int)
    requires SweptSoFar(out, exp, was, index.Keys, now) && BackPointers(heap, index) && HeapOrdered(heap, exp)
    requires heap != [] ==> exp[heap[0]] > now
    ensures Distinct(out) && SoonestFirst(out, exp) && Keys(out) == DueBy(was, exp, now)
    ensures index.Keys == was - Keys(out)
  {
    hide Distinct;
    if heap != [] { Least(heap, index, exp); }
    assert forall e :: e in index.Keys ==> e in exp && exp[e] > now;
  }

  // The entries tracked once e's expiry is x. Fix tests for x > 0 where Add tests for x != 0, so an
  // entry not tracked before stays untracked under a negative expiry.
  function Refixed<E>(tracked: set<E>, e: E, x: int): set<E> {
    if x == 0 then tracked - {e} else if x > 0 then tracked + {e} else tracked
  }

  class ExpiryHeapBackend<E(==, !new)> {
    var heap: seq<E>
    // heapIndex of the tracked entries; an entry outside its domain has heapIndex -1.
    var index: map<E, nat>
    // expireAt of the entries the backend has been told of.
    var exp: map<E, int>

    ghost predicate Valid()
      reads this
    {
      BackPointers(heap, index) && HeapOrdered(heap, exp)
    }

    constructor ()
      ensures Valid() && index == map[]
    {
      heap, index, exp := [], map[], map[];
    }

    method Swap(i: nat, j: nat)
      requires BackPointers(heap, index) && i < |heap| && j < |heap|
      modifies this`heap, this`index
      ensures heap == Swapped(old(heap), i, j)
      ensures BackPointers(heap, index) && index.Keys == old(index).Keys
    {
      SwapBackPointers(heap, index, i, j);
      var a, b := heap[i], heap[j];
      heap := heap[i := b][j := a];
      index := index[b := i][a := j];
    }

    method Up(start: nat, n: nat)
      requires BackPointers(heap, index) && start < n && Ordered(heap, exp, n, start, -1)
      modifies this`heap, this`index
      ensures BackPointers(heap, index) && index.Keys == old(index).Keys
      ensures |heap| == |old(heap)| && heap[n..] == old(heap)[n..]
      ensures Ordered(heap, exp, n, -1, -1)
    {
      hide BackPointers;
      var j: nat := start;
      while true
        invariant j < n && Ordered(heap, exp, n, j, -1)
        invariant BackPointers(heap, index) && index.Keys == old(index).Keys
        invariant |heap| == |old(heap)| && heap[n..] == old(heap)[n..]
        decreases j
      {
        var i := Parent(j);
        if i == j || !(exp[heap[j]] < exp[heap[i]]) { break; }
        UpStep(heap, exp, n, j);
        Swap(i, j);
        j := i;
      }
    }

    method Down(i0: nat, n: nat) returns (moved: bool)
      requires BackPointers(heap, index) && i0 < n && Ordered(heap, exp, n, i0, i0)
      modifies this`heap, this`index
      ensures BackPointers(heap, index) && index.Keys == old(index).Keys
      ensures |heap| == |old(heap)| && heap[n..] == old(heap)[n..]
      ensures Ordered(heap, exp, n, if moved then -1 else i0, -1)
    {
      hide BackPointers, Ordered;
      Domain(heap, exp, n, i0, i0);
      var i := i0;
      while true
        invariant i0 <= i < n <= |heap| && Ordered(heap, exp, n, if i == i0 then i else -1, i)
        invariant BackPointers(heap, index) && index.Keys == old(index).Keys
        invariant |heap| == |old(heap)| && heap[n..] == old(heap)[n..]
        decreases n - i
      {
        Domain(heap, exp, n, if i == i0 then i else -1, i);
        var j := 2 * i + 1;
        if j >= n {
          DownStop(heap, exp, n, if i == i0 then i else -1, i, j);
          break;
        }
        if j + 1 < n && exp[heap[j + 1]] < exp[heap[j]] { j := j + 1; }
        assert forall k :: 0 < k < n && Parent(k) == i ==> k == 2 * i + 1 || k == 2 * i + 2;
        if !(exp[heap[j]] < exp[heap[i]]) {
          DownStop(heap, exp, n, if i == i0 then i else -1, i, j);
          break;
        }
        DownStep(heap, exp, n, i, j);
        Swap(i, j);
        i := j;
      }
      moved := i > i0;
    }

    // expiryHeap.Pop: cut off the last entry.
    method Cut() returns (e: E)
      requires BackPointers(heap, index) && heap != [] && Ordered(heap, exp, |heap| - 1, -1, -1)
      modifies this`heap, this`index
      ensures Valid() && e == old(heap)[|old(heap)| - 1] && index.Keys == old(index).Keys - {e}
    {
      hide BackPointers, Ordered;
      var n := |heap| - 1;
      PopBackPointers(heap, index);
      PrefixOrdered(heap, exp, n);
      e := heap[n];
      heap := heap[..n];
      index := index - {e};
    }

    // heap.Push.
    method Push(e: E, expireAt: int)
      requires Valid() && e !in index
      modifies this
      ensures Valid() && index.Keys == old(index).Keys + {e} && exp == old(exp)[e := expireAt]
    {
      PushBackPointers(heap, index, e);
      PushOrdered(heap, exp, e, expireAt);
      hide BackPointers, Ordered;
      exp := exp[e := expireAt];
      index := index[e := |heap|];
      heap := heap + [e];
      Up(|heap| - 1, |heap|);
    }

    // heap.Pop: the entry with the least expiry.
    method PopLeast() returns (e: E)
      requires Valid() && heap != []
      modifies this`heap, this`index
      ensures Valid() && e in old(index) && index.Keys == old(index).Keys - {e}
      ensures forall x :: x in old(index) ==> x in exp && e in exp && exp[e] <= exp[x]
    {
      Least(heap, index, exp);
      ReplaceLast(heap, exp, 0);
      hide BackPointers;
      var n := |heap| - 1;
      Swap(0, n);
      if n > 0 { var _ := Down(0, n); }
      e := Cut();
    }

    // heap.Remove at e's back-pointer.
    method RemoveTracked(e: E)
      requires Valid() && e in index
      modifies this`heap, this`index
      ensures Valid() && index.Keys == old(index).Keys - {e}
    {
      hide BackPointers, Ordered;
      At(heap, index, e);
      var i, n := index[e], |heap| - 1;
      ReplaceLast(heap, exp, i);
      if n != i {
        Swap(i, n);
        var moved := Down(i, n);
        if !moved { Up(i, n); }
      } else {
        assert Swapped(heap, i, n) == heap;
      }
      var _ := Cut();
    }

    method Add(e: E, expireAt: int)
      requires Valid() && e !in index
      modifies this
      ensures Valid() && exp == old(exp)[e := expireAt]
      ensures index.Keys == old(index).Keys + (if expireAt == 0 then {} else {e})
    {
      if expireAt == 0 {
        UntrackedExpiry(heap, index, exp, e, expireAt);
        exp := exp[e := expireAt];
        return;
      }
      Push(e, expireAt);
    }

    method Remove(e: E)
      requires Valid()
      modifies this
      ensures Valid() && exp == old(exp)
      ensures index.Keys == old(index).Keys - {e}
    {
      if e !in index { return; }
      RemoveTracked(e);
    }

    // e's expiry has changed to expireAt; moves, tracks or untracks it accordingly.
    method Fix(e: E, expireAt: int)
      requires Valid()
      modifies this
      ensures Valid() && exp == old(exp)[e := expireAt]
      ensures index.Keys == Refixed(old(index).Keys, e, expireAt)
    {
      if e !in index && expireAt > 0 {
        Push(e, expireAt);
      } else if e in index && expireAt == 0 {
        RemoveTracked(e);
        UntrackedExpiry(heap, index, exp, e, expireAt);
        exp := exp[e := expireAt];
      } else if e in index {
        var i := index[e];
        RefixOrdered(heap, exp, index, e, expireAt);
        At(heap, index, e);
        hide BackPointers, Ordered;
        exp := exp[e := expireAt];
        var moved := Down(i, |heap|);
        if !moved { Up(i, |heap|); }
      } else {
        UntrackedExpiry(heap, index, exp, e, expireAt);
        exp := exp[e := expireAt];
      }
    }

    // Pops every entry due at now, soonest first.
    method Sweep(now: int) returns (out: seq<E>)
      requires Valid()
      modifies this`heap, this`index
      ensures Valid() && Distinct(out) && Keys(out) == DueBy(old(index).Keys, exp, now)
      ensures index.Keys == old(index).Keys - Keys(out) && SoonestFirst(out, exp)
    {
      hide BackPointers, Ordered, Distinct, Keys, SweptSoFar;
      ghost var was := index.Keys;
      out := [];
      SweepStart(was, exp, now);
      Roots(heap, index, exp);
      while heap != [] && exp[heap[0]] <= now
        invariant BackPointers(heap, index) && HeapOrdered(heap, exp) && (heap != [] ==> heap[0] in exp)
        invariant SweptSoFar(out, exp, was, index.Keys, now)
        decreases |index.Keys|
      {
        ghost var left := index.Keys;
        var e := heap[0];
        Least(heap, index, exp);
        var least := PopLeast();
        SweepNext(out, exp, was, left, now, e, least);
        out := out + [least];
        Roots(heap, index, exp);
      }
      SweepEnd(out, exp, was, heap, index, now);
    }

    method Reset()
      modifies this`heap, this`index
      ensures Valid() && index == map[]
    {
      heap, index := [], map[];
    }
  }
}
