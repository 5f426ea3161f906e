/**
 * What S3-FIFO's rotations amount to (s3fifo.go): which entry Victim gives up, said without rotating, and
 * what an entry's access counter counts over any history.
 */
module S3Victim {
  import opened Prelude
  import opened Queues
  import opened S3Fifo

  // -- The rule -----------------------------------------------------------------------------------

  // The queue but for the latest insert.
  function Others<K(==)>(q: seq<K>, recent: Option<K>): seq<K> {
    if recent.Some? then Without(q, recent.value) else q
  }

  // How many entries Small holds over its budget, of those it may part with.
  function Overflow<K(==)>(p: S3<K>): nat {
    var over, o := |p.small| - p.smallBudget, |Others(p.small, p.recent)|;
    if over <= 0 then 0 else if over < o then over else o
  }

  // The number of entries at the head of o, up to cap, accessed since they came in.
  function Warm<K>(o: seq<K>, freq: map<K, nat>, cap: nat): (n: nat)
    ensures n <= cap && n <= |o|
    ensures forall i :: 0 <= i < n ==> o[i] in freq && freq[o[i]] >= 1
    ensures n < cap && n < |o| ==> !(o[n] in freq && freq[o[n]] >= 1)
  {
    if cap == 0 || o == [] || !(o[0] in freq && freq[o[0]] >= 1) then 0 else 1 + Warm(o[1..], freq, cap - 1)
  }

  // main[i] is the entry of main, other than the latest insert, with the fewest accesses left, the oldest
  // in the queue among equals.
  ghost predicate Coldest<K(!new)>(main: seq<K>, freq: map<K, nat>, recent: Option<K>, i: nat) {
    && i < |main| && recent != Some(main[i])
    && forall j :: 0 <= j < |main| && j != i && recent != Some(main[j]) ==>
         Uses(freq, main[i]) < Uses(freq, main[j]) || (Uses(freq, main[i]) == Uses(freq, main[j]) && i < j)
  }

  function Uses<K>(freq: map<K, nat>, k: K): nat {
    if k in freq then freq[k] else 0
  }

  // -- The main phase -----------------------------------------------------------------------------

  // The turns until the entry at position i of Main would go.
  function Wait<K>(main: seq<K>, freq: map<K, nat>, i: nat): nat
    requires i < |main|
  {
    Uses(freq, main[i]) * |main| + i
  }

  ghost predicate Soonest<K(!new)>(p: S3<K>, i: nat) {
    && i < |p.main| && p.recent != Some(p.main[i])
    && forall j :: 0 <= j < |p.main| && p.recent != Some(p.main[j]) ==>
         Wait(p.main, p.freq, i) <= Wait(p.main, p.freq, j)
  }

  lemma WaitOrder(f: nat, g: nat, n: nat, i: nat, j: nat)
    requires i < n && j < n && (f < g || (f == g && i < j))
    ensures f * n + i < g * n + j
  {
    if f < g {
      var d: nat := g - f - 1;
      assert g * n == f * n + n + d * n;
      assert d * n >= 0;
    }
  }

  lemma ColdestIsSoonest<K(!new)>(p: S3<K>, i: nat)
    requires Coldest(p.main, p.freq, p.recent, i)
    ensures Soonest(p, i)
  {
    forall j | 0 <= j < |p.main| && p.recent != Some(p.main[j])
      ensures Wait(p.main, p.freq, i) <= Wait(p.main, p.freq, j)
    {
      if j != i { WaitOrder(Uses(p.freq, p.main[i]), Uses(p.freq, p.main[j]), |p.main|, i, j); }
    }
  }

  // What one turn does to the entry at position j: it moves up, the head to the tail for one access.
  function Moved(n: nat, j: nat): nat
    requires j < n
  {
    if j == 0 then n - 1 else j - 1
  }

  // A turn of the main phase brings every candidate one turn closer.
  lemma TurnWait<K(!new)>(p: S3<K>, j: nat)
    requires Linked(p) && |p.small| <= p.smallBudget && Step(p).Rotate? && j < |p.main|
    ensures var q := Step(p).next;
      && q == p.(main := q.main, freq := q.freq) && |q.main| == |p.main| && q.main == p.main[1..] + [p.main[0]]
      && q.main[Moved(|p.main|, j)] == p.main[j]
      && (p.recent != Some(p.main[j]) ==>
            Wait(q.main, q.freq, Moved(|p.main|, j)) == Wait(p.main, p.freq, j) - 1)
      && Uses(q.freq, p.main[j]) ==
           Uses(p.freq, p.main[j]) - (if j == 0 && p.recent != Some(p.main[0]) then 1 else 0)
  {
    hide Keys;
    var f, n := Uses(p.freq, p.main[j]), |p.main|;
    if j > 0 { DistinctAt(p.main, j); } else { assert (f - 1) * n + n == f * n; }
  }

  lemma TurnSoonest<K(!new)>(p: S3<K>, i: nat)
    requires Linked(p) && |p.small| <= p.smallBudget && Step(p).Rotate? && Soonest(p, i)
    ensures Soonest(Step(p).next, Moved(|p.main|, i))
  {
    hide Step, Wait, Linked;
    var q, n := Step(p).next, |p.main|;
    TurnWait(p, i);
    forall j | 0 <= j < n && p.recent != Some(q.main[j])
      ensures Wait(q.main, q.freq, Moved(n, i)) <= Wait(q.main, q.freq, j)
    {
      var was := if j == n - 1 then 0 else j + 1;
      TurnWait(p, was);
      assert Moved(n, was) == j;
    }
  }

  // The main phase took main[i] and left r: the queue turned past it, every other candidate served as often
  // as main[i] was, and those ahead of it once more.
  ghost predicate TookMain<K(!new)>(p: S3<K>, i: nat, r: S3<K>)
    requires i < |p.main|
  {
    && r == p.(main := p.main[i + 1..] + p.main[..i], freq := r.freq)
    && r.freq.Keys == p.freq.Keys - {p.main[i]}
    && (forall k :: k in r.freq && k !in p.main ==> r.freq[k] == p.freq[k])
    && forall j :: 0 <= j < |p.main| && j != i ==>
         Uses(r.freq, p.main[j]) == Uses(p.freq, p.main[j])
           - (if p.recent == Some(p.main[j]) then 0 else Uses(p.freq, p.main[i]) + if j < i then 1 else 0)
  }

  lemma {:induction false} MainPhase<K(!new)>(p: S3<K>, fuel: nat, i: nat)
    requires Linked(p) && |p.small| <= p.smallBudget && |p.main| > p.mainBudget
    requires Soonest(p, i) && fuel > Wait(p.main, p.freq, i)
    ensures var r := Run(p, fuel); r.Done? && r.victim == Some(p.main[i]) && TookMain(p, i, r.next)
    decreases fuel
  {
    hide Wait, Soonest, Linked, TookMain;
    if Step(p).Rotate? {
      var q, n := Step(p).next, |p.main|;
      RotateConserves(p);
      Candidate(p, i);
      TurnWait(p, i);
      TurnSoonest(p, i);
      MainPhase(q, fuel - 1, Moved(n, i));
      TookTurn(p, i, Run(p, fuel).next);
    } else {
      HeadGoes(p, i);
    }
  }

  lemma Candidate<K(!new)>(p: S3<K>, i: nat)
    requires Soonest(p, i)
    ensures i < |p.main| && p.recent != Some(p.main[i])
  {
  }

  lemma HeadGoes<K(!new)>(p: S3<K>, i: nat)
    requires Linked(p) && |p.small| <= p.smallBudget && |p.main| > p.mainBudget && Soonest(p, i) && !Step(p).Rotate?
    ensures i == 0 && Step(p).Evict? && Step(p).key == p.main[0] && TookMain(p, 0, Step(p).next)
  {
    assert Wait(p.main, p.freq, 0) == 0;
    assert Wait(p.main, p.freq, i) >= i;
    assert p.main[1..] + p.main[..0] == p.main[1..];
    forall j | 0 < j < |p.main| ensures p.main[j] != p.main[0] { DistinctAt(p.main, j); }
  }

  lemma TookTurn<K(!new)>(p: S3<K>, i: nat, r: S3<K>)
    requires Linked(p) && |p.small| <= p.smallBudget && Step(p).Rotate? && i < |p.main|
    requires p.recent != Some(p.main[i]) && |Step(p).next.main| == |p.main|
    requires TookMain(Step(p).next, Moved(|p.main|, i), r)
    ensures TookMain(p, i, r)
  {
    hide Wait, Linked, Step, Uses;
    var q, n := Step(p).next, |p.main|;
    TurnWait(p, i);
    TurnKeeps(p);
    assert q.main[Moved(n, i) + 1..] + q.main[..Moved(n, i)] == p.main[i + 1..] + p.main[..i];
    forall j | 0 <= j < n && j != i
      ensures Uses(r.freq, p.main[j]) == Uses(p.freq, p.main[j])
                - (if p.recent == Some(p.main[j]) then 0 else Uses(p.freq, p.main[i]) + if j < i then 1 else 0)
    {
      TurnWait(p, j);
      assert Moved(n, j) != Moved(n, i) && q.main[Moved(n, j)] == p.main[j];
    }
  }

  lemma TurnKeeps<K(!new)>(p: S3<K>)
    requires |p.small| <= p.smallBudget && Step(p).Rotate?
    ensures var q := Step(p).next;
      && q.freq.Keys == p.freq.Keys && (forall k :: k in q.main <==> k in p.main)
      && forall k :: k in p.freq && k !in p.main ==> q.freq[k] == p.freq[k]
  {
    assert p.main == [p.main[0]] + p.main[1..];
  }

  // -- The small phase ----------------------------------------------------------------------------

  // q is p with the first a candidates of Small promoted to Main, their counters cleared.
  ghost predicate Promoted<K(!new)>(p: S3<K>, a: nat, q: S3<K>) {
    var o := Others(p.small, p.recent);
    && a <= |o| && q == p.(small := q.small, main := p.main + o[..a], freq := q.freq)
    && Others(q.small, p.recent) == o[a..] && |q.small| == |p.small| - a
    && q.freq.Keys == p.freq.Keys && (forall k :: k in p.freq ==> q.freq[k] == if k in o[..a] then 0 else p.freq[k])
    && Linked(q)
  }

  lemma {:induction false} WarmSame<K(!new)>(o: seq<K>, f: map<K, nat>, g: map<K, nat>, cap: nat)
    requires forall k :: k in o ==> Uses(f, k) == Uses(g, k)
    ensures Warm(o, f, cap) == Warm(o, g, cap)
  {
    if o != [] && cap > 0 {
      assert o[0] in o;
      WarmSame(o[1..], f, g, cap - 1);
    }
  }

  // The latest insert at the head of Small is turned to its tail.
  lemma TurnRecent<K(!new)>(p: S3<K>)
    requires Linked(p) && |p.small| > p.smallBudget && |p.small| >= 2 && p.recent == Some(p.small[0])
    ensures var q := Step(p).next;
      && Step(p).Rotate? && q == p.(small := q.small) && q.small == p.small[1..] + [p.small[0]] && Linked(q)
      && Others(q.small, p.recent) == Others(p.small, p.recent) && SmallTurns(q) < SmallTurns(p)
  {
    hide Keys, Distinct;
    var n, rest := p.small[0], p.small[1..];
    DropHead(p.small);
    RotateConserves(p);
    WithoutLast(rest, n);
    assert (rest + [n])[..|rest|] == rest;
  }

  lemma {:induction false} WithoutLast<K>(q: seq<K>, k: K)
    requires k !in q
    ensures Without(q + [k], k) == q
  {
    if q == [] {
    } else {
      WithoutLast(q[1..], k);
      assert (q + [k])[1..] == q[1..] + [k];
    }
  }

  // An accessed head of Small is promoted.
  lemma TurnWarm<K(!new)>(p: S3<K>)
    requires Linked(p) && |p.small| > p.smallBudget && p.recent != Some(p.small[0]) && Freq(p, p.small[0]) >= 1
    ensures var q := Step(p).next;
      && Step(p).Rotate? && Promoted(p, 1, q) && p.small[0] == Others(p.small, p.recent)[0] && q.small == p.small[1..]
      && p.small[0] !in p.small[1..] && Linked(q) && q.smallBudget == p.smallBudget && q.recent == p.recent
  {
    hide Keys, Distinct;
    RotateConserves(p);
    DropHead(p.small);
    OthersHead(p.small, p.recent);
  }

  lemma OthersHead<K>(q: seq<K>, recent: Option<K>)
    requires q != [] && recent != Some(q[0])
    ensures Others(q, recent) == [q[0]] + Others(q[1..], recent)
  {
  }

  lemma {:induction false} OthersIn<K>(q: seq<K>, recent: Option<K>)
    ensures forall k :: k in Others(q, recent) ==> k in q
  {
    if recent.Some? { WithoutIn(q, recent.value); }
  }

  lemma {:induction false} WithoutIn<K>(q: seq<K>, k: K)
    ensures forall x :: x in Without(q, k) ==> x in q
  {
    if q != [] && q[0] != k { WithoutIn(q[1..], k); }
  }

  lemma PromotedTwice<K(!new)>(p: S3<K>, q: S3<K>, a: nat, r: S3<K>)
    requires Promoted(p, 1, q) && Promoted(q, a, r)
    ensures Promoted(p, a + 1, r)
  {
    hide Linked, Others;
    var o, o' := Others(p.small, p.recent), Others(q.small, p.recent);
    assert o[..1] + o'[..a] == o[..a + 1];
    assert o'[a..] == o[a + 1..];
    assert p.main + o[..1] + o'[..a] == p.main + o[..a + 1];
  }

  // Where Small's phase ends: at a candidate to evict, within budget, or with nothing but the latest insert.
  ghost predicate SmallEnds<K(!new)>(p: S3<K>, q: S3<K>) {
    var o, n := Others(p.small, p.recent), Overflow(p);
    var a := Warm(o, p.freq, n);
    && Promoted(p, a, q)
    && (a < n ==> |q.small| > q.smallBudget && q.small[0] == o[a] && p.recent != Some(o[a]))
    && (a == n ==> |q.small| <= q.smallBudget || (q.recent.Some? && q.small == [q.recent.value]))
  }

  // Small's phase promotes the accessed head of its overflow, in at most one turn each and one for the
  // latest insert.
  lemma {:induction false} SmallPhase<K(!new)>(p: S3<K>, fuel: nat) returns (q: S3<K>, left: nat)
    requires Linked(p) && (|p.small| > p.smallBudget ==> fuel > SmallTurns(p))
    ensures Run(p, fuel) == Run(q, left) && SmallEnds(p, q) && Linked(q)
    ensures |p.small| > p.smallBudget ==> left + SmallTurns(p) >= fuel
    ensures |p.small| <= p.smallBudget ==> q == p && left == fuel
    decreases fuel
  {
    hide Linked, SmallEnds, SmallTurns, Step;
    if |p.small| > p.smallBudget && p.recent == Some(p.small[0]) && |p.small| >= 2 {
      TurnRecent(p);
      q, left := SmallPhase(Step(p).next, fuel - 1);
      EndsTurned(p, Step(p).next, q);
    } else if |p.small| > p.smallBudget && p.recent != Some(p.small[0]) && Freq(p, p.small[0]) >= 1 {
      TurnWarm(p);
      FewerTurns(p, Step(p).next);
      q, left := SmallPhase(Step(p).next, fuel - 1);
      EndsWarm(p, Step(p).next, q);
    } else {
      q, left := p, fuel;
      EndsHere(p);
    }
  }

  lemma EndsHere<K(!new)>(p: S3<K>)
    requires Linked(p)
    requires |p.small| > p.smallBudget ==>
      if p.recent == Some(p.small[0]) then |p.small| < 2 else Freq(p, p.small[0]) == 0
    ensures SmallEnds(p, p) && (|p.small| > p.smallBudget ==> SmallTurns(p) >= 1)
  {
    hide Linked;
    PromotedNone(p);
    OthersSize(p.small, p.recent);
    if p.small != [] && p.recent != Some(p.small[0]) { OthersHead(p.small, p.recent); }
  }

  lemma EndsTurned<K(!new)>(p: S3<K>, q: S3<K>, r: S3<K>)
    requires q == p.(small := q.small) && |q.small| == |p.small|
    requires Others(q.small, p.recent) == Others(p.small, p.recent) && SmallEnds(q, r)
    ensures SmallEnds(p, r)
  {
    hide Promoted, Others;
    PromotedTurned(p, q, Warm(Others(p.small, p.recent), p.freq, Overflow(p)), r);
  }

  lemma EndsWarm<K(!new)>(p: S3<K>, q: S3<K>, r: S3<K>)
    requires Promoted(p, 1, q) && |p.small| > p.smallBudget && Freq(p, p.small[0]) >= 1 && p.recent != Some(p.small[0])
    requires q.small == p.small[1..] && p.small[0] !in p.small[1..] && SmallEnds(q, r)
    ensures SmallEnds(p, r)
  {
    hide Linked, Others, Warm, Overflow, Freq;
    WarmTurn(p, q);
    PromotedTwice(p, q, Warm(Others(q.small, p.recent), q.freq, Overflow(q)), r);
  }

  lemma PromotedNone<K(!new)>(p: S3<K>)
    requires Linked(p)
    ensures Promoted(p, 0, p)
  {
  }

  lemma PromotedTurned<K(!new)>(p: S3<K>, q: S3<K>, a: nat, r: S3<K>)
    requires q == p.(small := q.small) && |q.small| == |p.small|
    requires Others(q.small, p.recent) == Others(p.small, p.recent) && Promoted(q, a, r)
    ensures Promoted(p, a, r)
  {
  }

  lemma WarmTurn<K(!new)>(p: S3<K>, q: S3<K>)
    requires Promoted(p, 1, q) && |p.small| > p.smallBudget && Freq(p, p.small[0]) >= 1 && p.recent != Some(p.small[0])
    requires q.small == p.small[1..] && p.small[0] !in p.small[1..]
    ensures var o := Others(p.small, p.recent);
      && o != [] && Others(q.small, p.recent) == o[1..] && Overflow(q) == Overflow(p) - 1
      && Warm(o, p.freq, Overflow(p)) == 1 + Warm(o[1..], q.freq, Overflow(q))
      && Overflow(p) <= |o| && (Warm(o[1..], q.freq, Overflow(q)) < Overflow(q) ==>
            o[1..][Warm(o[1..], q.freq, Overflow(q))] == o[Warm(o, p.freq, Overflow(p))])
  {
    hide Linked, Others;
    var o := Others(p.small, p.recent);
    OthersHead(p.small, p.recent);
    OthersIn(p.small[1..], p.recent);
    assert o[1..] == Others(p.small[1..], p.recent) && o[..1] == [p.small[0]];
    WarmSame(o[1..], p.freq, q.freq, Overflow(q));
  }

  lemma FewerTurns<K(!new)>(p: S3<K>, q: S3<K>)
    requires p.small != [] && q.small == p.small[1..] && q.recent == p.recent
    ensures SmallTurns(p) >= 1 && (q.small != [] ==> SmallTurns(q) < SmallTurns(p))
  {
    if q.small != [] { InnerSlice(p.small); }
  }

  lemma {:induction false} OthersSize<K>(q: seq<K>, recent: Option<K>)
    ensures |Others(q, recent)| <= |q| && (q != [] && recent == Some(q[0]) ==> Others(q, recent) == q[1..])
  {
    if recent.Some? { WithoutSize(q, recent.value); }
  }

  lemma {:induction false} WithoutSize<K>(q: seq<K>, k: K)
    ensures |Without(q, k)| <= |q|
  {
    if q != [] && q[0] != k { WithoutSize(q[1..], k); }
  }

  // -- The victim ---------------------------------------------------------------------------------

  // What follows once Small has promoted its whole overflow: Main gives up its coldest entry if it is over
  // budget. With no budget at all the latest insert may be all that Small, or Main, has left to turn; then
  // the oldest entry of the other queue goes.
  ghost predicate FromMain<K(!new)>(r: S3<K>, v: Option<K>, q: S3<K>) {
    if |r.small| > r.smallBudget then
      if r.main == [] then v.None? && q == r else v == Some(r.main[0]) && q == TakeMain(r, r.main[0])
    else if |r.main| <= r.mainBudget then v.None? && q == r
    else if Others(r.main, r.recent) == [] then
      if r.small == [] then v.None? && q == r else v == Some(r.small[0]) && q == TakeSmall(r, r.small[0])
    else exists i: nat :: Coldest(r.main, r.freq, r.recent, i) && v == Some(r.main[i]) && TookMain(r, i, q)
  }

  // What Victim does: the accessed entries at the head of Small's overflow are promoted, and the first one
  // not accessed goes; if all were accessed Main decides.
  ghost predicate Chosen<K(!new)>(p: S3<K>, v: Option<K>, q: S3<K>) {
    var o, n := Others(p.small, p.recent), Overflow(p);
    var a := Warm(o, p.freq, n);
    if a < n then v == Some(o[a]) && exists r :: Promoted(p, a, r) && q == TakeSmall(r, o[a])
    else exists r :: Promoted(p, n, r) && FromMain(r, v, q)
  }

  lemma {:induction false} Stuck<K(!new)>(p: S3<K>, fuel: nat)
    requires Step(p) == Rotate(p)
    ensures Run(p, fuel) == Exhausted(p)
  {
    if fuel > 0 { Stuck(p, fuel - 1); }
  }

  lemma {:induction false} ColdestExists<K(!new)>(main: seq<K>, freq: map<K, nat>, recent: Option<K>, n: nat)
    returns (i: nat)
    requires n <= |main| && exists j :: 0 <= j < n && recent != Some(main[j])
    ensures i < n && recent != Some(main[i])
    ensures forall j :: 0 <= j < n && j != i && recent != Some(main[j]) ==>
      Uses(freq, main[i]) < Uses(freq, main[j]) || (Uses(freq, main[i]) == Uses(freq, main[j]) && i < j)
  {
    var m := n - 1;
    if exists j :: 0 <= j < m && recent != Some(main[j]) {
      i := ColdestExists(main, freq, recent, m);
      if recent != Some(main[m]) && Uses(freq, main[m]) < Uses(freq, main[i]) { i := m; }
    } else {
      i := m;
    }
  }

  function Settled<K(==)>(r: Outcome<K>): (Option<K>, S3<K>) {
    match r
    case Done(v, q) => (v, q)
    case Exhausted(q) => Fallback(q)
  }

  lemma {:induction false} NoneOther<K(!new)>(q: seq<K>, recent: Option<K>)
    requires Distinct(q)
    ensures Others(q, recent) == [] <==> (forall j :: 0 <= j < |q| ==> recent == Some(q[j]))
    ensures Others(q, recent) == [] ==> |q| <= 1
  {
    hide Distinct;
    if q != [] && recent == Some(q[0]) {
      if |q| > 1 {
        DistinctAt(q, 1);
        assert Others(q, recent) == q[1..];
      }
    } else if q != [] {
      OthersHead(q, recent);
    }
  }

  // Nothing left of Small but the latest insert, and no budget.
  lemma SmallStuck<K(!new)>(r: S3<K>, left: nat)
    requires Linked(r) && |r.small| > r.smallBudget && r.recent.Some? && r.small == [r.recent.value]
    ensures var (v, q) := Settled(Run(r, left)); FromMain(r, v, q)
  {
    InKeys(r.small, r.recent.value);
    if r.main != [] { InKeys(r.main, r.main[0]); }
    assert Step(r) == Rotate(r);
    Stuck(r, left);
    assert FirstOther(r.small, r.recent).None?;
  }

  // Nothing in Main but the latest insert, and no budget.
  lemma MainStuck<K(!new)>(r: S3<K>, left: nat)
    requires Linked(r) && |r.small| <= r.smallBudget && |r.main| > r.mainBudget && Others(r.main, r.recent) == []
    ensures var (v, q) := Settled(Run(r, left)); FromMain(r, v, q)
  {
    NoneOther(r.main, r.recent);
    InKeys(r.main, r.main[0]);
    if r.small != [] { InKeys(r.small, r.small[0]); }
    assert r.main == [r.main[0]];
    assert Step(r) == Rotate(r);
    Stuck(r, left);
    assert FirstOther(r.main, r.recent).None?;
  }

  lemma MainDecides<K(!new)>(r: S3<K>, left: nat)
    requires Linked(r) && left > 0 && (|r.small| <= r.smallBudget || (r.recent.Some? && r.small == [r.recent.value]))
    requires Enough(r, left)
    ensures var (v, q) := Settled(Run(r, left)); FromMain(r, v, q)
  {
    hide TookMain, Enough, Coldest;
    if |r.small| > r.smallBudget {
      SmallStuck(r, left);
    } else if |r.main| <= r.mainBudget {
    } else if Others(r.main, r.recent) == [] {
      MainStuck(r, left);
    } else {
      hide FromMain, Linked;
      MainTurns(r, left);
    }
  }

  lemma MainTurns<K(!new)>(r: S3<K>, left: nat)
    requires Linked(r) && |r.small| <= r.smallBudget && |r.main| > r.mainBudget && Others(r.main, r.recent) != []
    requires Enough(r, left)
    ensures var (v, q) := Settled(Run(r, left)); FromMain(r, v, q)
  {
    hide TookMain, Wait, Soonest;
    NoneOther(r.main, r.recent);
    var i := ColdestExists(r.main, r.freq, r.recent, |r.main|);
    assert Coldest(r.main, r.freq, r.recent, i);
    ColdestIsSoonest(r, i);
    MainPhase(r, left, i);
  }

  // However Main's phase goes, left turns see it through.
  ghost predicate Enough<K(!new)>(r: S3<K>, left: nat) {
    forall j: nat :: Soonest(r, j) ==> Wait(r.main, r.freq, j) < left
  }

  // The turns left after Small's phase are enough for Main's.
  lemma WaitFits<K(!new)>(p: S3<K>, r: S3<K>, left: nat)
    requires Valid(p) && Promoted(p, Overflow(p), r)
    requires
      if |p.small| > p.smallBudget then left + |p.small| + 1 >= MaxRotations(p) else left == MaxRotations(p) && r == p
    ensures Enough(r, left)
  {
    hide Valid;
    assert MaxRotations(p) == 4 * Len(p) + 5;
    forall j: nat | Soonest(r, j) ensures Wait(r.main, r.freq, j) < left {
      if Overflow(p) > 0 {
        LastPromoted(p, Overflow(p), r);
        assert Wait(r.main, r.freq, j) <= Wait(r.main, r.freq, |r.main| - 1) == |r.main| - 1;
      } else {
        NonePromoted(p, r);
        WaitAtMost(p, j);
      }
    }
  }

  lemma NonePromoted<K(!new)>(p: S3<K>, r: S3<K>)
    requires Promoted(p, 0, r)
    ensures r.main == p.main && r.freq == p.freq
  {
  }

  lemma WaitAtMost<K(!new)>(p: S3<K>, j: nat)
    requires Valid(p) && j < |p.main|
    ensures Wait(p.main, p.freq, j) < 4 * |p.main|
  {
    InKeys(p.main, p.main[j]);
    FewTimes(Uses(p.freq, p.main[j]), |p.main|);
  }

  lemma FewTimes(f: nat, n: nat)
    requires f <= 3
    ensures f * n <= 3 * n
  {
    assert (3 - f) * n >= 0;
  }

  lemma LastPromoted<K(!new)>(p: S3<K>, n: nat, r: S3<K>)
    requires Valid(p) && Promoted(p, n, r) && n > 0
    ensures var m := |r.main| - 1; r.main != [] && r.recent != Some(r.main[m]) && Uses(r.freq, r.main[m]) == 0
    ensures |r.main| <= Len(p)
  {
    var o := Others(p.small, p.recent);
    assert o[n - 1] in o[..n] && o[n - 1] in o;
    OthersIn(p.small, p.recent);
    OthersSize(p.small, p.recent);
    InKeys(p.small, o[n - 1]);
    if p.recent.Some? { Unlink(p.small, p.recent.value); InKeys(o, o[n - 1]); }
  }

  // Victim's rotation loop and its fallback give up exactly the entry the rule names.
  lemma VictimIs<K(!new)>(p: S3<K>)
    requires Valid(p)
    ensures var (v, q) := VictimOf(p); Chosen(p, v, q)
  {
    hide Valid, Promoted, FromMain, Enough, Linked;
    var fuel := MaxRotations(p);
    var o, n := Others(p.small, p.recent), Overflow(p);
    var a := Warm(o, p.freq, n);
    ValidLinked(p);
    var q, left := SmallPhase(p, fuel);
    if a < n {
      SmallGoes(p, a, q, left);
    } else {
      WaitFits(p, q, left);
      MainDecides(q, left);
    }
  }

  lemma SmallGoes<K(!new)>(p: S3<K>, a: nat, q: S3<K>, left: nat)
    requires Promoted(p, a, q) && a < |Others(p.small, p.recent)| && left > 0
    requires |q.small| > q.smallBudget && q.small[0] == Others(p.small, p.recent)[a] && p.recent != Some(q.small[0])
    requires Uses(p.freq, q.small[0]) == 0
    ensures Run(q, left) == Done(Some(q.small[0]), TakeSmall(q, q.small[0]))
  {
    hide Others, Linked, TakeSmall;
    assert q.small[0] in q.freq ==> q.freq[q.small[0]] == 0;
  }

  lemma ValidLinked<K(!new)>(p: S3<K>)
    requires Valid(p)
    ensures Linked(p)
  {
  }

  // An accessed entry of Small goes only if every other candidate of the overflow was accessed too.
  lemma AccessedGoesLast<K(!new)>(p: S3<K>, k: K, i: nat)
    requires Valid(p) && VictimOf(p).0 == Some(k) && k in p.small && Freq(p, k) >= 1 && i < Overflow(p)
    ensures Freq(p, Others(p.small, p.recent)[i]) >= 1
  {
    hide VictimOf, Promoted, FromMain, Valid;
    VictimIs(p);
  }

  // -- The counters over any history --------------------------------------------------------------

  // What the cache and Victim do to the queues, one turn of the rotation at a time.
  datatype Event<K> =
    | Insert(k: K)
    | Access(k: K)
    | Remove(k: K)
    | Turn              // a turn of Victim's loop that evicts nothing
    | Take(k: K)        // Victim or shed unlinks its choice
    | Budget(b: int)

  predicate Enabled<K(==)>(p: S3<K>, e: Event<K>) {
    match e
    case Insert(k) => k !in Resident(p)
    case Turn => Step(p).Rotate?
    case Take(k) => k in Resident(p)
    case _ => true
  }

  function After<K(==)>(p: S3<K>, e: Event<K>): S3<K>
    requires Enabled(p, e)
  {
    match e
    case Insert(k) => Inserted(p, k)
    case Access(k) => Accessed(p, k)
    case Remove(k) => Removed(p, k)
    case Turn => Step(p).next
    case Take(k) => if k in p.small then TakeSmall(p, k) else TakeMain(p, k)
    case Budget(b) => Rebudgeted(p, b)
  }

  ghost predicate History<K(!new)>(events: seq<Event<K>>, states: seq<S3<K>>) {
    && |states| == |events| + 1 && states[0].small == states[0].main == states[0].ghosts == []
    && states[0].freq == map[] && states[0].recent.None?
    && forall i :: 0 <= i < |events| ==> Enabled(states[i], events[i]) && states[i + 1] == After(states[i], events[i])
  }

  // A turn serves the head of the queue over its budget, unless that is the latest insert.
  predicate Served<K(==)>(p: S3<K>, e: Event<K>, k: K) {
    e.Turn? && p.recent != Some(k) &&
    if |p.small| > p.smallBudget then p.small[0] == k else p.main != [] && p.main[0] == k
  }

  // e gives k's counter a new start: an insert, a promotion or a second chance.
  predicate Restarts<K(==)>(p: S3<K>, e: Event<K>, k: K) {
    e == Insert(k) || Served(p, e, k)
  }

  // Where that start is: 0 for a new or promoted entry, 1 for one whose key was a ghost, one less for a
  // second chance.
  function StartOf<K(==)>(p: S3<K>, e: Event<K>, k: K): int {
    if e == Insert(k) then if k in p.ghosts then 1 else 0
    else if |p.small| > p.smallBudget then 0 else Freq(p, k) - 1
  }

  function Accesses<K(==)>(events: seq<Event<K>>, k: K): nat {
    if events == [] then 0
    else Accesses(events[..|events| - 1], k) + if events[|events| - 1] == Access(k) then 1 else 0
  }

  lemma RestartStep<K(!new)>(p: S3<K>, e: Event<K>, k: K)
    requires Enabled(p, e) && k in After(p, e).freq && (forall x :: x in p.freq ==> p.freq[x] <= 3)
    ensures forall x :: x in After(p, e).freq ==> After(p, e).freq[x] <= 3
    ensures Restarts(p, e, k) ==> After(p, e).freq[k] == StartOf(p, e, k)
    ensures !Restarts(p, e, k) ==>
      k in p.freq && After(p, e).freq[k] == if e == Access(k) && p.freq[k] < 3 then p.freq[k] + 1 else p.freq[k]
  {
    hide Newest, Without;
  }

  // An entry's counter is where it started at its last insert, promotion or second chance, plus the
  // accesses since, up to 3.
  lemma {:induction false} CounterLaw<K(!new)>(events: seq<Event<K>>, states: seq<S3<K>>, j: nat, k: K) returns (i: nat)
    requires History(events, states) && j < |states| && k in states[j].freq
    ensures i < j && Restarts(states[i], events[i], k)
    ensures forall m :: i < m < j ==> !Restarts(states[m], events[m], k)
    ensures var n := StartOf(states[i], events[i], k) + Accesses(events[i + 1..j], k);
      states[j].freq[k] == if n < 3 then n else 3
  {
    hide After, Enabled, Restarts, StartOf;
    Capped(events, states, j - 1);
    RestartStep(states[j - 1], events[j - 1], k);
    if Restarts(states[j - 1], events[j - 1], k) {
      i := j - 1;
      assert events[j..j] == [];
      Capped(events, states, j);
    } else {
      i := CounterLaw(events, states, j - 1, k);
      assert events[i + 1..j][..j - i - 2] == events[i + 1..j - 1];
    }
  }

  lemma {:induction false} Capped<K(!new)>(events: seq<Event<K>>, states: seq<S3<K>>, j: nat)
    requires History(events, states) && j < |states|
    ensures forall x :: x in states[j].freq ==> states[j].freq[x] <= 3
  {
    hide After, Enabled;
    if j > 0 {
      Capped(events, states, j - 1);
      forall x | x in states[j].freq ensures states[j].freq[x] <= 3 { RestartStep(states[j - 1], events[j - 1], x); }
    }
  }

  // Counters are kept for exactly the entries in the queues, which share none.
  ghost predicate Tracked<K(!new)>(p: S3<K>) {
    Linked(p) && p.freq.Keys == Resident(p)
  }

  lemma SmallStep<K(!new)>(p: S3<K>, e: Event<K>, k: K)
    requires Enabled(p, e) && k in After(p, e).small && e != Insert(k) && Tracked(p)
    ensures k in p.small && !Served(p, e, k)
  {
    hide Keys, Distinct, Step, Tracked, Ghosted, Newest;
    match e {
      case Remove(x) => WithoutIn(p.small, x);
      case Take(x) => TakeIn(p, x);
      case Turn => TurnSmall(p, k);
      case _ =>
    }
  }

  lemma TakeIn<K(!new)>(p: S3<K>, x: K)
    ensures forall k :: k in TakeSmall(p, x).small ==> k in p.small
  {
    WithoutIn(p.small, x);
  }

  lemma TurnSmall<K(!new)>(p: S3<K>, k: K)
    requires Tracked(p) && Step(p).Rotate? && k in Step(p).next.small
    ensures k in p.small && !Served(p, Turn, k)
  {
    hide Keys, Distinct, Resident;
    InKeys(p.small, k);
    InKeys(p.main, k);
    if |p.small| > p.smallBudget { DropHead(p.small); }
  }

  lemma TrackedStep<K(!new)>(p: S3<K>, e: Event<K>)
    requires Enabled(p, e) && Tracked(p)
    ensures Tracked(After(p, e))
  {
    hide Keys, Distinct, Newest, TakeSmall, TakeMain, Inserted, Removed, Step, Tracked;
    match e {
      case Insert(k) => InsertTracked(p, k);
      case Remove(k) => RemoveTracked(p, k);
      case Take(k) => TakeTracked(p, k);
      case Turn => TurnTracked(p);
      case _ => OtherTracked(p, e);
    }
  }

  lemma OtherTracked<K(!new)>(p: S3<K>, e: Event<K>)
    requires Tracked(p) && (e.Access? || e.Budget?)
    ensures Tracked(After(p, e))
  {
  }

  lemma InsertTracked<K(!new)>(p: S3<K>, k: K)
    requires Tracked(p) && k !in Resident(p)
    ensures Tracked(Inserted(p, k))
  {
    hide Keys, Distinct, Without;
    InKeys(p.small, k);
    InKeys(p.main, k);
    Append(p.small, k);
    Append(p.main, k);
  }

  lemma RemoveTracked<K(!new)>(p: S3<K>, k: K)
    requires Tracked(p)
    ensures Tracked(Removed(p, k))
  {
    hide Keys, Distinct, Without;
    Unlink(p.small, k);
    Unlink(p.main, k);
  }

  lemma TurnTracked<K(!new)>(p: S3<K>)
    requires Tracked(p) && Step(p).Rotate?
    ensures Tracked(Step(p).next)
  {
    hide Keys, Distinct;
    RotateConserves(p);
  }

  lemma TakeTracked<K(!new)>(p: S3<K>, k: K)
    requires Tracked(p) && k in Resident(p)
    ensures Tracked(if k in p.small then TakeSmall(p, k) else TakeMain(p, k))
  {
    hide Keys, Distinct, Newest;
    InKeys(p.small, k);
    Unlink(p.small, k);
    Unlink(p.main, k);
  }

  lemma {:induction false} AlwaysTracked<K(!new)>(events: seq<Event<K>>, states: seq<S3<K>>, j: nat)
    requires History(events, states) && j < |states|
    ensures Tracked(states[j])
  {
    if j > 0 {
      hide After, Enabled, Tracked;
      AlwaysTracked(events, states, j - 1);
      TrackedStep(states[j - 1], events[j - 1]);
    }
  }

  // While it stays in Small, an entry accessed since it came in is never the one a turn of Victim evicts.
  lemma {:induction false} AccessedIsSpared<K(!new)>(
    events: seq<Event<K>>, states: seq<S3<K>>, a: nat, j: nat, k: K)
    requires History(events, states) && a < j < |states| && events[a] == Access(k) && k in states[j].small
    requires forall m :: a <= m < j ==> events[m] != Insert(k)
    ensures Freq(states[j], k) >= 1 && (Step(states[j]).Evict? ==> Step(states[j]).key != k)
  {
    hide After, Enabled, Served, Step, Tracked;
    AlwaysTracked(events, states, j);
    AlwaysTracked(events, states, j - 1);
    SmallStep(states[j - 1], events[j - 1], k);
    Capped(events, states, j - 1);
    InSmall(states[j], k);
    RestartStep(states[j - 1], events[j - 1], k);
    if a < j - 1 { AccessedIsSpared(events, states, a, j - 1, k); }
    NotEvicted(states[j], k);
  }

  lemma InSmall<K(!new)>(p: S3<K>, k: K)
    requires Tracked(p) && k in p.small
    ensures k in p.freq
  {
    InKeys(p.small, k);
  }

  lemma NotEvicted<K(!new)>(p: S3<K>, k: K)
    requires Tracked(p) && k in p.small
    ensures Freq(p, k) >= 1 && Step(p).Evict? ==> Step(p).key != k
  {
    hide Keys, Distinct;
    InKeys(p.small, k);
    if p.main != [] { InKeys(p.main, p.main[0]); }
  }

  // -- Victim and shed as such a history ----------------------------------------------------------

  function Play<K(==)>(p: S3<K>, turns: nat): (r: Option<S3<K>>) {
    if turns == 0 then Some(p)
    else match Play(p, turns - 1)
      case Some(q) => if Enabled(q, Turn) then Some(After(q, Turn)) else None
      case None => None
  }

  lemma {:induction false} PlayFirst<K(!new)>(p: S3<K>, n: nat)
    requires Enabled(p, Turn)
    ensures Play(p, n + 1) == Play(After(p, Turn), n)
  {
    if n > 0 { PlayFirst(p, n - 1); }
  }

  lemma {:induction false} RunPlays<K(!new)>(p: S3<K>, fuel: nat) returns (n: nat)
    ensures Play(p, n).Some?
    ensures var q := Play(p, n).value;
      match Run(p, fuel)
      case Exhausted(r) => r == q
      case Done(v, r) => if v.None? then r == q else Step(q) == Evict(v.value, r)
    decreases fuel
  {
    n := 0;
    if fuel > 0 && Step(p).Rotate? {
      n := RunPlays(Step(p).next, fuel - 1);
      PlayFirst(p, n);
      n := n + 1;
    }
  }

  // Victim is some turns of its loop, and then its choice is taken or nothing is.
  lemma VictimPlays<K(!new)>(p: S3<K>) returns (n: nat)
    requires Valid(p)
    ensures Play(p, n).Some?
    ensures var (v, r), q := VictimOf(p), Play(p, n).value;
      if v.None? then r == q else Enabled(q, Take(v.value)) && r == After(q, Take(v.value))
  {
    hide Valid, Run, MaxRotations;
    n := RunPlays(p, MaxRotations(p));
    var q := Play(p, n).value;
    PlayTracked(p, n);
    TakesOne(q);
  }

  lemma {:induction false} PlayTracked<K(!new)>(p: S3<K>, n: nat)
    requires Valid(p)
    ensures Play(p, n).Some? ==> Tracked(Play(p, n).value)
  {
    hide Enabled, After;
    if n > 0 {
      PlayTracked(p, n - 1);
      if Play(p, n).Some? { TrackedStep(Play(p, n - 1).value, Turn); }
    }
  }

  lemma TakesOne<K(!new)>(q: S3<K>)
    requires Linked(q)
    ensures Step(q).Evict? ==> Enabled(q, Take(Step(q).key)) && Step(q).next == After(q, Take(Step(q).key))
    ensures var (v, r) := Fallback(q);
      if v.None? then r == q else Enabled(q, Take(v.value)) && r == After(q, Take(v.value))
  {
    hide Keys, Distinct, TakeSmall, TakeMain;
    OtherFound(q.small, q.recent);
    OtherFound(q.main, q.recent);
    if q.small != [] { InKeys(q.small, q.small[0]); }
    if q.main != [] { InKeys(q.small, q.main[0]); InKeys(q.main, q.main[0]); }
    var m, s := FirstOther(q.main, q.recent), FirstOther(q.small, q.recent);
    if m.Some? { InKeys(q.small, m.value); InKeys(q.main, m.value); }
    if s.Some? { InKeys(q.small, s.value); }
  }

  // Shed takes the oldest candidate of Small, else of Main, else the latest insert if it may.
  lemma ShedIs<K(!new)>(p: S3<K>, keepRecent: bool)
    requires Valid(p)
    ensures var v, s, m := ShedOf(p, keepRecent).0, Others(p.small, p.recent), Others(p.main, p.recent);
      v == if s != [] then Some(s[0]) else if m != [] then Some(m[0]) else if keepRecent then None else p.recent
  {
    FirstIsHead(p.small, p.recent);
    FirstIsHead(p.main, p.recent);
  }

  lemma {:induction false} FirstIsHead<K(!new)>(q: seq<K>, recent: Option<K>)
    requires Distinct(q)
    ensures FirstOther(q, recent) == if Others(q, recent) == [] then None else Some(Others(q, recent)[0])
  {
    hide Distinct;
    if q != [] && recent == Some(q[0]) {
      assert Others(q, recent) == q[1..];
      if |q| > 1 { DistinctAt(q, 1); }
    } else if q != [] {
      OthersHead(q, recent);
    }
  }
}
