/**
 * A call left alone gets through the shed protocol: it always has a step to take, every step but the
 * last brings it nearer the end, and when it is done the cache is within its bounds.
 */
module ShedEnds {
  import opened Prelude
  import opened Shed

  // Every thread but c is idle.
  ghost predicate Lone(s: State, c: nat) {
    c < |s.threads| && forall d :: 0 <= d < |s.threads| && d != c ==> s.threads[d].Idle?
  }

  predicate Aims(p: Pc) {
    p.Want? || p.Visit? || p.VisitBytes? || p.Take?
  }

  // A sweep makes only for shards it has not finished with, and loads the bytes only while there is one.
  predicate OnTarget(g: Shared, p: Pc) {
    && (Aims(p) ==> p.at !in p.done && p.at < |g.held|)
    && (p.SweepBytes? ==> !AllDone(g, p.done))
  }

  ghost predicate Aimed(s: State) {
    forall c :: 0 <= c < |s.threads| ==> OnTarget(s.g, s.threads[c])
  }

  lemma AimedStep(s: State, t: State, c: nat)
    requires Aimed(s) && Steps(s, t, c)
    ensures Aimed(t)
  {
    hide Over, Free;
    assert |t.g.held| == |s.g.held|;
    forall d | 0 <= d < |t.threads|
      ensures OnTarget(t.g, t.threads[d])
    {
      if d != c { assert t.threads[d] == s.threads[d]; }
    }
  }

  lemma {:induction false} RunAimed(states: seq<State>, i: nat)
    requires Run(states) && i < |states|
    ensures Aimed(states[i])
  {
    hide Steps;
    if i == 0 {
      assert forall c :: 0 <= c < |states[0].threads| ==> states[0].threads[c].Idle?;
    } else {
      hide Aimed, Initial;
      RunAimed(states, i - 1);
      assert Next(states[i - 1], states[i]);
      var c :| Steps(states[i - 1], states[i], c);
      AimedStep(states[i - 1], states[i], c);
    }
  }

  lemma LoneStep(s: State, t: State, c: nat)
    requires Lone(s, c) && Steps(s, t, c)
    ensures Lone(t, c)
  {
    hide Moves;
    assert forall d :: 0 <= d < |s.threads| && d != c ==> t.threads[d] == s.threads[d];
  }

  // shedding is clear unless the one call in progress has set it.
  lemma LoneShedding(s: State, c: nat)
    requires OneShedder(s) && Lone(s, c) && !Shedder(s.threads[c])
    ensures !s.g.shedding
  {
  }

  // -- The measure --------------------------------------------------------------------------------

  function CountOf(p: Pc): nat {
    match p
    case Sweep(_, n) => n
    case SweepBytes(_, n) => n
    case Want(_, _, n) => n
    case Visit(_, _, n) => n
    case VisitBytes(_, _, n) => n
    case Take(_, _, n) => n
    case Releasing(n) => n
    case Recheck(n) => n
    case _ => 0
  }

  predicate Scans(p: Pc) {
    p.Sweep? || p.SweepBytes? || Aims(p)
  }

  predicate Sweeping(p: Pc) {
    Scans(p) || p.Releasing? || p.Recheck?
  }

  function Left(g: Shared, p: Pc): set<nat> {
    if Scans(p) then set i: nat | i < |g.held| && i !in p.done else {}
  }

  // Ahead of the loop guard, or about to set shedRetry.
  function Preface(p: Pc): nat {
    match p
    case Busy(Some(_)) => 3
    case Busy(None) => 2
    case Flag => 1
    case _ => 0
  }

  // What can still be evicted, and what can still call for another sweep.
  function Owed(g: Shared, p: Pc): nat {
    2 * Sum(g.held) + (if CountOf(p) > 0 then 1 else 0) + (if g.retry then 1 else 0)
  }

  function Phase(g: Shared, p: Pc): nat {
    if !Sweeping(p) then 1 else if g.retry then 2 else 0
  }

  function Place(p: Pc): nat {
    match p
    case Sweep(_, _) => 7
    case SweepBytes(_, _) => 6
    case Want(_, _, _) => 5
    case Visit(_, _, _) => 4
    case VisitBytes(_, _, _) => 3
    case Take(_, _, _) => 2
    case Releasing(_) => 1
    case Guard => 5
    case GuardBytes => 4
    case Claim => 3
    case Flag => 2
    case Reclaim => 1
    case _ => 0
  }

  predicate Nearer(h: Shared, q: Pc, g: Shared, p: Pc) {
    || Preface(q) < Preface(p)
    || (Preface(q) == Preface(p)
        && (|| Owed(h, q) < Owed(g, p)
            || (Owed(h, q) == Owed(g, p)
                && (|| Phase(h, q) < Phase(g, p)
                    || (Phase(h, q) == Phase(g, p)
                        && (|| |Left(h, q)| < |Left(g, p)|
                            || (|Left(h, q)| == |Left(g, p)| && Place(q) < Place(p))))))))
  }

  lemma {:induction false} SumUpdate(s: seq<nat>, i: nat, v: nat)
    requires i < |s|
    ensures Sum(s[i := v]) == Sum(s) - s[i] + v
  {
    var n := |s| - 1;
    if i == n {
      assert s[i := v][..n] == s[..n];
    } else {
      assert s[i := v][..n] == s[..n][i := v];
      SumUpdate(s[..n], i, v);
    }
  }

  lemma LeftShrinks(g: Shared, p: Pc)
    requires (p.Visit? || p.VisitBytes?) && p.at < |g.held| && p.at !in p.done
    ensures |Left(g, Sweep(p.done + {p.at}, p.count))| < |Left(g, p)|
  {
    assert Left(g, Sweep(p.done + {p.at}, p.count)) == Left(g, p) - {p.at};
  }

  // Once past its first load, a lone call comes nearer the end with every step, whichever it takes.
  lemma EveryStepIsNearer(s: State, t: State, c: nat)
    requires Lone(s, c) && OneShedder(s) && Aimed(s) && Steps(s, t, c)
    requires !s.threads[c].Idle? && !s.threads[c].Busy? && !t.threads[c].Idle?
    ensures Nearer(t.g, t.threads[c], s.g, s.threads[c])
  {
    hide Over, Free, Sum, Left, OneShedder;
    var p, q := s.threads[c], t.threads[c];
    if !Shedder(p) { LoneShedding(s, c); }
    if p.Take? { SumUpdate(s.g.held, p.at, t.g.held[p.at]); }
    if p.Visit? || p.VisitBytes? { LeftShrinks(s.g, p); }
    SameLeft(s.g, t.g, p, q);
  }

  lemma SameLeft(g: Shared, h: Shared, p: Pc, q: Pc)
    requires |g.held| == |h.held|
    ensures Scans(p) && Scans(q) && p.done == q.done ==> Left(g, p) == Left(h, q)
    ensures !Scans(q) ==> |Left(h, q)| == 0
  {
  }

  // -- Progress -----------------------------------------------------------------------------------

  ghost function Moved(s: State, c: nat, q: Pc, h: Shared): State
    requires c < |s.threads|
  {
    State(s.threads[c := q], h)
  }

  // The state after an eviction, which takes the weight of the last entry with it.
  function Lighter(g: Shared, at: nat): Shared
    requires at < |g.held| == |g.weight| && g.held[at] > 0
  {
    g.(held := g.held[at := g.held[at] - 1], weight := g.weight[at := if g.held[at] == 1 then 0 else g.weight[at]])
  }

  lemma SweepMoves(s: State, c: nat) returns (q: Pc, h: Shared)
    requires Inv(s) && Aimed(s) && Lone(s, c) && Sweeping(s.threads[c])
    ensures Moves(s, s.threads[c], q, h)
  {
    hide Over, OneShedder, Covered, Sum;
    var g := s.g;
    h := g;
    assert OnTarget(g, s.threads[c]);
    match s.threads[c]
    case Sweep(done, n) =>
      if AllDone(g, done) {
        q := Releasing(n);
      } else {
        var at: nat :| at < |g.held| && at !in done;
        q := if Over(g, Entries) then Want(done, at, n) else SweepBytes(done, n);
      }
    case SweepBytes(done, n) =>
      var at: nat :| at < |g.held| && at !in done;
      q := if Over(g, Bytes) then Want(done, at, n) else Releasing(n);
    case Want(done, at, n) => q := Visit(done, at, n);
    case Visit(done, at, n) =>
      q := if g.held[at] == 0 then Sweep(done + {at}, n)
           else if Over(g, Entries) then Take(done, at, n) else VisitBytes(done, at, n);
    case VisitBytes(done, at, n) => q := if Over(g, Bytes) then Take(done, at, n) else Sweep(done + {at}, n);
    case Take(done, at, n) =>
      assert Occupied(g, at);
      q, h := Visit(done, at, n + 1), Lighter(g, at);
    case Releasing(n) => q, h := Recheck(n), g.(shedding := false);
    case Recheck(n) => q := if n == 0 && !g.retry then Idle else Guard;
  }

  // A lone call that is not done always has a step to take, and one past its first load comes nearer the
  // end by it.
  lemma CanStep(s: State, c: nat) returns (t: State)
    requires Inv(s) && Aimed(s) && Lone(s, c) && !s.threads[c].Idle?
    ensures Steps(s, t, c) && (t.threads[c].Idle? || Nearer(t.g, t.threads[c], s.g, s.threads[c]))
  {
    hide Over, Covered, Sum, Locked, Shaped, OneShedder, Free, Aimed, Left;
    var g, p := s.g, s.threads[c];
    var q, h := Idle, g;
    match p {
      case Busy(None) => q := Guard;
      case Busy(Some(_)) => q := Busy(None);
      case Guard => q := if Over(g, Entries) then Claim else GuardBytes;
      case GuardBytes => q := if Over(g, Bytes) then Claim else Idle;
      case Claim => LoneShedding(s, c); q, h := Clearing, g.(shedding := true);
      case Flag => q, h := Reclaim, g.(retry := true);
      case Reclaim => LoneShedding(s, c); q, h := Clearing, g.(shedding := true);
      case Clearing => q, h := Sweep({}, 0), g.(retry := false);
      case _ => q, h := SweepMoves(s, c);
    }
    t := Moved(s, c, q, h);
    assert Steps(s, t, c);
    if !p.Busy? && !q.Idle? { EveryStepIsNearer(s, t, c); }
  }

  // -- Termination --------------------------------------------------------------------------------

  ghost predicate AllIdle(s: State) {
    forall c :: 0 <= c < |s.threads| ==> s.threads[c].Idle?
  }

  function Last(states: seq<State>): State
    requires states != []
  {
    states[|states| - 1]
  }

  lemma Extend(states: seq<State>, t: State, c: nat)
    requires Run(states) && Steps(Last(states), t, c)
    ensures Run(states + [t])
  {
    hide Steps, Initial;
    var more := states + [t];
    assert Next(Last(states), t);
    assert forall i :: 0 <= i < |states| - 1 ==> Next(more[i], more[i + 1]) by { hide Next; }
  }

  lemma AtRest(states: seq<State>, c: nat)
    requires Run(states) && Lone(Last(states), c) && Last(states).threads[c].Idle?
    ensures AllIdle(Last(states)) && !OverBudget(Last(states).g)
  {
    hide Sum;
    QuiescentWithinBudget(states, |states| - 1);
  }

  // From every reachable state with one call in progress, that call alone brings the cache to rest within
  // its bounds.
  lemma {:induction false} LoneCallSettles(states: seq<State>, c: nat) returns (more: seq<State>)
    requires Run(states) && Lone(Last(states), c)
    ensures states <= more && Run(more) && AllIdle(Last(more)) && !OverBudget(Last(more).g)
    ensures forall i :: |states| <= i < |more| ==> Steps(more[i - 1], more[i], c)
    decreases Preface(Last(states).threads[c]), Owed(Last(states).g, Last(states).threads[c]),
              Phase(Last(states).g, Last(states).threads[c]), |Left(Last(states).g, Last(states).threads[c])|,
              Place(Last(states).threads[c])
  {
    hide Next, Steps, Initial, Preface, Owed, Phase, Left, Place, Inv, OverBudget;
    var s := Last(states);
    if s.threads[c].Idle? {
      more := states;
      AtRest(states, c);
    } else {
      RunInv(states, |states| - 1);
      RunAimed(states, |states| - 1);
      var t := CanStep(s, c);
      Extend(states, t, c);
      LoneStep(s, t, c);
      more := states + [t];
      assert Last(more) == t;
      if t.threads[c].Idle? { AtRest(more, c); } else { more := LoneCallSettles(more, c); }
    }
  }
}
