/** Duplicate-free queues, standing for the intrusive linked lists of the eviction policies. */
module Queues {

  function Keys<K>(q: seq<K>): set<K> {
    set k | k in q
  }

  // No key occurs twice.
  predicate Distinct<K(==)>(q: seq<K>) {
    |Keys(q)| == |q|
  }

  // Unlink k.
  function Without<K(==)>(q: seq<K>, k: K): seq<K> {
    if q == [] then [] else if q[0] == k then q[1..] else [q[0]] + Without(q[1..], k)
  }

  // Trim from the front to at most n keys.
  function Newest<K>(q: seq<K>, n: nat): seq<K> {
    if |q| <= n then q else q[|q| - n..]
  }

  // Trim from the back to at most n keys.
  function Oldest<K>(q: seq<K>, n: nat): seq<K> {
    if |q| <= n then q else q[..n]
  }

  lemma InKeys<K>(q: seq<K>, k: K)
    ensures k in Keys(q) <==> k in q
  {
  }

  lemma NoKeys<K>()
    ensures Keys<K>([]) == {} && Distinct<K>([])
  {
  }

  lemma {:induction false} KeysAtMost<K>(q: seq<K>)
    ensures |Keys(q)| <= |q|
  {
    if q != [] {
      KeysAtMost(q[1..]);
      assert Keys(q) == Keys(q[1..]) + {q[0]};
    }
  }

  lemma DropHead<K>(q: seq<K>)
    requires q != [] && Distinct(q)
    ensures Distinct(q[1..]) && Keys(q[1..]) == Keys(q) - {q[0]}
    ensures q[0] !in q[1..]
  {
    KeysAtMost(q[1..]);
    assert Keys(q) == Keys(q[1..]) + {q[0]};
  }

  lemma DropLast<K>(q: seq<K>)
    requires q != [] && Distinct(q)
    ensures Distinct(q[..|q| - 1]) && Keys(q[..|q| - 1]) == Keys(q) - {q[|q| - 1]}
    ensures q[|q| - 1] !in q[..|q| - 1]
  {
    KeysAtMost(q[..|q| - 1]);
    assert q == q[..|q| - 1] + [q[|q| - 1]];
    assert Keys(q) == Keys(q[..|q| - 1]) + {q[|q| - 1]};
  }

  lemma Append<K>(q: seq<K>, k: K)
    requires Distinct(q) && k !in q
    ensures Distinct(q + [k]) && Distinct([k] + q)
    ensures Keys(q + [k]) == Keys(q) + {k} == Keys([k] + q)
  {
    assert Keys(q + [k]) == Keys(q) + {k} == Keys([k] + q);
  }

  lemma Concat<K>(q: seq<K>, r: seq<K>)
    requires Distinct(q) && Distinct(r) && Keys(q) !! Keys(r)
    ensures Distinct(q + r) && Keys(q + r) == Keys(q) + Keys(r)
  {
    assert Keys(q + r) == Keys(q) + Keys(r);
  }

  lemma RotateHead<K>(q: seq<K>)
    requires q != []
    ensures Keys(q[1..] + [q[0]]) == Keys(q)
    ensures Distinct(q) ==> Distinct(q[1..] + [q[0]])
  {
    assert Keys(q[1..] + [q[0]]) == Keys(q);
  }

  lemma {:induction false} Unlink<K>(q: seq<K>, k: K)
    requires Distinct(q)
    ensures Distinct(Without(q, k)) && Keys(Without(q, k)) == Keys(q) - {k}
    ensures |Without(q, k)| == |q| - (if k in q then 1 else 0)
  {
    if q != [] {
      DropHead(q);
      if q[0] != k {
        Unlink(q[1..], k);
        assert q[0] !in Keys(Without(q[1..], k));
        Append(Without(q[1..], k), q[0]);
      }
    }
  }

  lemma {:induction false} UnlinkAbsent<K>(q: seq<K>, k: K)
    requires k !in q
    ensures Without(q, k) == q
  {
    if q != [] { UnlinkAbsent(q[1..], k); }
  }

  lemma {:induction false} TrimFront<K>(q: seq<K>, n: nat)
    requires Distinct(q)
    ensures Distinct(Newest(q, n)) && Keys(Newest(q, n)) <= Keys(q) && |Newest(q, n)| <= n
  {
    if |q| > n {
      DropHead(q);
      assert Newest(q, n) == Newest(q[1..], n);
      TrimFront(q[1..], n);
    }
  }

  lemma {:induction false} TrimBack<K>(q: seq<K>, n: nat)
    requires Distinct(q)
    ensures Distinct(Oldest(q, n)) && Keys(Oldest(q, n)) <= Keys(q) && |Oldest(q, n)| <= n
  {
    if |q| > n {
      DropLast(q);
      assert Oldest(q, n) == Oldest(q[..|q| - 1], n);
      TrimBack(q[..|q| - 1], n);
    }
  }

  lemma Prefix<K>(q: seq<K>, i: nat)
    requires Distinct(q) && i < |q|
    ensures q[i] in Keys(q) && q[i] !in Keys(q[..i]) && Keys(q[..i + 1]) == Keys(q[..i]) + {q[i]}
  {
    TrimBack(q, i + 1);
    assert Oldest(q, i + 1) == q[..i + 1];
    DropLast(q[..i + 1]);
    assert q[..i + 1][..i] == q[..i];
  }

  lemma DistinctAt<K>(q: seq<K>, i: nat)
    requires Distinct(q) && 0 < i < |q|
    ensures q[i] != q[0]
  {
    DropHead(q);
    assert q[i] in q[1..];
  }
}
