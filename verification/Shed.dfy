/**
 * The cross-shard shed protocol (shedOverBudget and shedPass in cache.go) as a step system. Any number
 * of threads run calls; each atomic load, store or swap is a step of its own, and so is each eviction.
 */
module Shed {
  import opened Prelude

  datatype Bound = Entries | Bytes

  // What the threads share: entries and bytes held by each shard, the two bounds (0 is unbounded) and
  // the two flags.
  datatype Shared = Shared(
    held: seq<nat>, weight: seq<nat>, maxEntries: nat, maxBytes: nat, shedding: bool, retry: bool)

  // Where a thread is. done holds the shards its sweep has finished with, count what it has evicted.
  datatype Pc =
    | Idle
    | Busy(lock: Option<nat>)                       // between a call's first effect and its shedOverBudget
    | Guard                                         // about to load the entry count for the loop guard
    | GuardBytes                                    // entries were within bound; about to load the bytes
    | Claim                                         // about to swap shedding
    | Flag                                          // the swap failed; about to set shedRetry
    | Reclaim                                       // about to swap shedding again
    | Clearing                                      // shedder, about to clear shedRetry
    | Sweep(done: set<nat>, count: nat)             // shedder, between shards, about to load the entry count
    | SweepBytes(done: set<nat>, count: nat)
    | Want(done: set<nat>, at: nat, count: nat)     // about to lock a shard
    | Visit(done: set<nat>, at: nat, count: nat)    // holds its lock, about to load the entry count
    | VisitBytes(done: set<nat>, at: nat, count: nat)
    | Take(done: set<nat>, at: nat, count: nat)     // about to evict from it
    | Releasing(count: nat)                         // about to clear shedding
    | Recheck(count: nat)                           // about to load shedRetry

  datatype State = State(threads: seq<Pc>, g: Shared)

  function Sum(s: seq<nat>): nat {
    if s == [] then 0 else s[|s| - 1] + Sum(s[..|s| - 1])
  }

  predicate Over(g: Shared, b: Bound) {
    match b
    case Entries => g.maxEntries > 0 && Sum(g.held) > g.maxEntries
    case Bytes => g.maxBytes > 0 && Sum(g.weight) > g.maxBytes
  }

  predicate OverBudget(g: Shared) {
    Over(g, Entries) || Over(g, Bytes)
  }

  // -- Steps --------------------------------------------------------------------------------------

  predicate Locks(p: Pc, shard: nat) {
    match p
    case Busy(lock) => lock == Some(shard)
    case Visit(_, at, _) => at == shard
    case VisitBytes(_, at, _) => at == shard
    case Take(_, at, _) => at == shard
    case _ => false
  }

  ghost predicate Free(s: State, shard: nat) {
    shard < |s.g.held| && forall c :: 0 <= c < |s.threads| ==> !Locks(s.threads[c], shard)
  }

  // A locked section may leave its shard holding anything.
  predicate Work(g: Shared, h: Shared, shard: nat) {
    && shard < |g.held| == |g.weight| == |h.held| == |h.weight| && (h.held[shard] == 0 ==> h.weight[shard] == 0)
    && h == g.(held := g.held[shard := h.held[shard]], weight := g.weight[shard := h.weight[shard]])
  }

  predicate Evict(g: Shared, h: Shared, shard: nat) {
    && Work(g, h, shard) && g.held[shard] > 0 && h.held[shard] == g.held[shard] - 1
    && h.weight[shard] <= g.weight[shard]
  }

  predicate AllDone(g: Shared, done: set<nat>) {
    forall i: nat :: i < |g.held| ==> i in done
  }

  // One step of a thread at p, which alone changes the shared state from g to h.
  ghost predicate Moves(s: State, p: Pc, q: Pc, h: Shared) {
    var g := s.g;
    match p
    case Idle => q == Busy(None) && h == g
    case Busy(None) =>
      || (q == Guard && h == g)
      || (q.Busy? && q.lock.Some? && Free(s, q.lock.value) && h == g)
      || (q == p && h == g.(maxEntries := h.maxEntries, maxBytes := h.maxBytes)) // Resize
    case Busy(Some(at)) => (q == p && Work(g, h, at)) || (q == Busy(None) && h == g)
    case Guard => h == g && q == (if Over(g, Entries) then Claim else GuardBytes)
    case GuardBytes => h == g && q == (if Over(g, Bytes) then Claim else Idle)
    case Claim => if g.shedding then q == Flag && h == g else q == Clearing && h == g.(shedding := true)
    case Flag => q == Reclaim && h == g.(retry := true)
    case Reclaim => if g.shedding then q == Idle && h == g else q == Clearing && h == g.(shedding := true)
    case Clearing => q == Sweep({}, 0) && h == g.(retry := false)
    case Sweep(done, n) =>
      && h == g
      && if AllDone(g, done) then q == Releasing(n)
         else if Over(g, Entries) then q.Want? && q.at !in done && q.at < |g.held| && q == Want(done, q.at, n)
         else q == SweepBytes(done, n)
    case SweepBytes(done, n) =>
      && h == g
      && if Over(g, Bytes) then q.Want? && q.at !in done && q.at < |g.held| && q == Want(done, q.at, n)
         else q == Releasing(n)
    case Want(done, at, n) => h == g && Free(s, at) && q == Visit(done, at, n)
    case Visit(done, at, n) =>
      && h == g && at < |g.held|
      && if g.held[at] == 0 then q == Sweep(done + {at}, n)
         else if Over(g, Entries) then q == Take(done, at, n)
         else q == VisitBytes(done, at, n) || q == Take(done, at, n) // the shard may exceed its own budget
    case VisitBytes(done, at, n) => h == g && q == (if Over(g, Bytes) then Take(done, at, n) else Sweep(done + {at}, n))
    case Take(done, at, n) => q == Visit(done, at, n + 1) && Evict(g, h, at)
    case Releasing(n) => q == Recheck(n) && h == g.(shedding := false)
    case Recheck(n) => h == g && q == (if n == 0 && !g.retry then Idle else Guard)
  }

  ghost predicate Steps(s: State, t: State, c: nat) {
    && c < |s.threads| == |t.threads| && t.threads == s.threads[c := t.threads[c]]
    && Moves(s, s.threads[c], t.threads[c], t.g)
  }

  ghost predicate Next(s: State, t: State) {
    exists c :: Steps(s, t, c)
  }

  ghost predicate Initial(s: State) {
    && (forall c :: 0 <= c < |s.threads| ==> s.threads[c].Idle?)
    && Shaped(s.g) && !s.g.shedding && !OverBudget(s.g)
  }

  ghost predicate Run(states: seq<State>) {
    states != [] && Initial(states[0]) && forall i :: 0 <= i < |states| - 1 ==> Next(states[i], states[i + 1])
  }

  // -- The invariant ------------------------------------------------------------------------------

  predicate Shedder(p: Pc) {
    p.Clearing? || p.Sweep? || p.SweepBytes? || p.Want? || p.Visit? || p.VisitBytes? || p.Take? || p.Releasing?
  }

  // Every shard the sweep has finished with is empty.
  ghost predicate Swept(g: Shared, done: set<nat>) {
    forall i: nat :: i < |g.held| && i in done ==> g.held[i] == 0
  }

  // A thread at p will still bring the cache within bound b, or hand that duty on, before it goes idle.
  ghost predicate Obliged(p: Pc, g: Shared, b: Bound) {
    match p
    case Idle => false
    case Busy(_) => true
    case Guard => true
    case GuardBytes => b.Bytes?
    case Claim => true
    case Flag => true
    case Reclaim => !g.shedding
    case Clearing => true
    case Sweep(done, n) => n > 0 || g.retry || Swept(g, done)
    case SweepBytes(done, n) => n > 0 || g.retry || (b.Bytes? && Swept(g, done))
    case Want(done, _, n) => n > 0 || g.retry || Swept(g, done)
    case Visit(done, _, n) => n > 0 || g.retry || Swept(g, done)
    case VisitBytes(done, _, n) => n > 0 || g.retry || (b.Bytes? && Swept(g, done))
    case Take(_, _, _) => true
    case Releasing(n) => n > 0 || g.retry
    case Recheck(n) => n > 0 || g.retry
  }

  ghost predicate Covered(s: State, b: Bound) {
    Over(s.g, b) ==> exists c :: 0 <= c < |s.threads| && Obliged(s.threads[c], s.g, b)
  }

  ghost predicate Shaped(g: Shared) {
    && |g.held| == |g.weight|
    && forall i :: 0 <= i < |g.held| && g.held[i] == 0 ==> g.weight[i] == 0
  }

  // At most one thread holds a shard's lock, and a shard about to lose an entry has one.
  ghost predicate Locked(s: State) {
    && (forall c, d, i: nat :: 0 <= c < d < |s.threads| && Locks(s.threads[c], i) ==> !Locks(s.threads[d], i))
    && (forall c :: 0 <= c < |s.threads| && (s.threads[c].Take? || s.threads[c].VisitBytes?) ==>
          Occupied(s.g, s.threads[c].at))
  }

  // shedding is set exactly while one thread sheds.
  ghost predicate OneShedder(s: State) {
    && (s.g.shedding <==> exists c :: 0 <= c < |s.threads| && Shedder(s.threads[c]))
    && (forall c, d :: 0 <= c < d < |s.threads| && Shedder(s.threads[c]) ==> !Shedder(s.threads[d]))
  }

  ghost predicate Inv(s: State) {
    Shaped(s.g) && Locked(s) && OneShedder(s) && forall b :: Covered(s, b)
  }

  predicate Occupied(g: Shared, at: nat) {
    at < |g.held| && g.held[at] > 0
  }

  // -- Preservation -------------------------------------------------------------------------------

  lemma {:induction false} SumOfZeros(s: seq<nat>)
    requires forall i :: 0 <= i < |s| ==> s[i] == 0
    ensures Sum(s) == 0
  {
    if s != [] { SumOfZeros(s[..|s| - 1]); }
  }

  // A sweep that has emptied every shard leaves the cache within both bounds.
  lemma EmptyWithin(g: Shared, done: set<nat>, b: Bound)
    requires AllDone(g, done) && Swept(g, done)
    requires Shaped(g)
    ensures !Over(g, b)
  {
    SumOfZeros(g.held);
    SumOfZeros(g.weight);
  }

  // A step keeps its own thread obliged unless the bound holds; setting shedRetry is the exception.
  lemma OwnStep(s: State, t: State, c: nat, b: Bound)
    requires Steps(s, t, c) && !s.threads[c].Flag? && Obliged(s.threads[c], s.g, b) && Over(t.g, b) && Shaped(s.g)
    ensures Obliged(t.threads[c], t.g, b)
  {
    hide Over, Free, Sum;
    var p := s.threads[c];
    if p.Sweep? && AllDone(s.g, p.done) && Swept(s.g, p.done) { EmptyWithin(s.g, p.done, b); }
  }

  lemma ShapedStep(s: State, t: State, c: nat)
    requires Shaped(s.g) && Steps(s, t, c)
    ensures Shaped(t.g)
  {
    hide Over, Free;
  }

  lemma LockedStep(s: State, t: State, c: nat)
    requires Locked(s) && Steps(s, t, c)
    ensures Locked(t)
  {
    hide Over;
    var p, q := s.threads[c], t.threads[c];
    assert forall i: nat :: Locks(q, i) ==> Locks(p, i) || Free(s, i);
    forall d | 0 <= d < |t.threads| && d != c && (t.threads[d].Take? || t.threads[d].VisitBytes?)
      ensures Occupied(t.g, t.threads[d].at)
    {
      assert Locks(s.threads[d], s.threads[d].at) && !Locks(p, s.threads[d].at);
    }
  }

  lemma OneShedderStep(s: State, t: State, c: nat)
    requires OneShedder(s) && Steps(s, t, c)
    ensures OneShedder(t)
  {
    hide Over, Free;
    var p, q := s.threads[c], t.threads[c];
    assert forall d :: 0 <= d < |s.threads| && d != c ==> t.threads[d] == s.threads[d];
  }

  // A thread that goes on unobliged neither lifts the cache over a bound nor takes another's duty away.
  lemma OtherStep(s: State, t: State, c: nat, p: Pc, b: Bound)
    requires Steps(s, t, c) && !Obliged(t.threads[c], t.g, b)
    ensures Obliged(p, s.g, b) ==> Obliged(p, t.g, b)
    ensures Over(t.g, b) ==> Over(s.g, b)
    ensures s.threads[c].Flag? ==> s.g.shedding && t.g.retry
  {
    hide Free;
  }

  lemma CoveredStep(s: State, t: State, c: nat, b: Bound)
    requires Shaped(s.g) && OneShedder(s) && Covered(s, b) && Steps(s, t, c)
    ensures Covered(t, b)
  {
    hide Over, Free, Swept, Moves;
    if Over(t.g, b) && !Obliged(t.threads[c], t.g, b) {
      OtherStep(s, t, c, s.threads[c], b);
      if s.threads[c].Flag? {
        var d :| 0 <= d < |s.threads| && Shedder(s.threads[d]);
        assert Obliged(t.threads[d], t.g, b);
      } else {
        var d :| 0 <= d < |s.threads| && Obliged(s.threads[d], s.g, b);
        if d == c { OwnStep(s, t, c, b); } else { OtherStep(s, t, c, s.threads[d], b); }
        assert Obliged(t.threads[d], t.g, b);
      }
    }
  }

  lemma InvStep(s: State, t: State)
    requires Inv(s) && Next(s, t)
    ensures Inv(t)
  {
    hide Shaped, Locked, OneShedder, Covered, Steps;
    var c :| Steps(s, t, c);
    ShapedStep(s, t, c);
    LockedStep(s, t, c);
    OneShedderStep(s, t, c);
    forall b ensures Covered(t, b) { CoveredStep(s, t, c, b); }
  }

  lemma {:induction false} RunInv(states: seq<State>, i: nat)
    requires Run(states) && i < |states|
    ensures Inv(states[i])
  {
    hide Next;
    if i > 0 {
      hide Inv;
      RunInv(states, i - 1);
      InvStep(states[i - 1], states[i]);
    }
  }

  // Whenever no call is in progress the cache is within its bounds.
  lemma QuiescentWithinBudget(states: seq<State>, i: nat)
    requires Run(states) && i < |states|
    requires forall c :: 0 <= c < |states[i].threads| ==> states[i].threads[c].Idle?
    ensures var g := states[i].g;
      (g.maxEntries > 0 ==> Sum(g.held) <= g.maxEntries) && (g.maxBytes > 0 ==> Sum(g.weight) <= g.maxBytes)
  {
    RunInv(states, i);
    assert Covered(states[i], Entries) && Covered(states[i], Bytes);
  }

  // In between, an overage always leaves some call still due to sweep or to hand the sweep on.
  lemma OverageIsSomeonesDuty(states: seq<State>, i: nat, b: Bound)
    requires Run(states) && i < |states| && Over(states[i].g, b)
    ensures exists c :: 0 <= c < |states[i].threads| && !states[i].threads[c].Idle?
                        && Obliged(states[i].threads[c], states[i].g, b)
  {
    RunInv(states, i);
    assert Covered(states[i], b);
    var c :| 0 <= c < |states[i].threads| && Obliged(states[i].threads[c], states[i].g, b);
    assert !states[i].threads[c].Idle?;
  }
}
