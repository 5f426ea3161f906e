/**
 * Loads in flight on one shard (loader.go, and the loader paths of cache.go). Every locked section is
 * one step; a run is any sequence of enabled steps.
 */
module Loader {

  type Key(==, !new)
  type Val(==, !new)

  datatype Cell = Value(v: Val) | Tombstone

  // A flightCall's waiters: the callers that have not given up, or the phantom leader of a background
  // refresh; cancelled is whether the load's context has been canceled for want of any.
  datatype Waiters = Waiters(waiting: set<nat>, background: bool, refs: int, cancelled: bool)

  // Every flight ever started: its key, the number of steps taken before it, the superseded flag and
  // whether it has finished. inflight and orphans register flights by key.
  datatype Loads = Loads(
    keyOf: map<nat, Key>, started: map<nat, nat>, superseded: set<nat>, finished: set<nat>,
    inflight: map<Key, nat>, orphans: map<Key, nat>)

  datatype Shard = Shard(
    loads: Loads, waiters: map<nat, Waiters>, cells: map<Key, Cell>, errors: set<Key>, closed: bool)

  // errorLimit is how many errors the shard keeps.
  datatype Config = Config(negativeCache: bool, errorTtl: bool, errorLimit: nat)

  datatype Outcome =
    | Loaded(v: Val, kept: bool) // kept is false when the value is refused before or by the insert
    | NotFound(open: bool)       // open is false on a sealed cache
    | Failed(dropped: set<Key>)  // dropped is what a full error table gives up for the new error
    | ContextError               // canceled, timed out, or no load slot

  datatype EvictionReason =
    | Capacity | Expired | ExpireFunc | Replaced | Deleted | DeletedPrefix | DeletedWhere | Tag | Remote
    | Resize | Computed | Cleared | StoreRollback

  predicate SupersedesFlight(reason: EvictionReason) {
    !(reason.Capacity? || reason.Expired? || reason.ExpireFunc? || reason.Resize?)
  }

  datatype Step =
    | Lead(f: nat, k: Key, w: nat)
    | Refresh(f: nat, k: Key)
    | Join(k: Key, w: nat)
    | Leave(f: nat, w: nat)
    | Write(k: Key, v: Val, kept: bool)
    | Delete(k: Key)
    | Remove(k: Key, reason: EvictionReason)
    | DeletePrefix(matches: Key -> bool)
    | Clear
    | Finish(f: nat, outcome: Outcome)
    | Close

  // -- The registration primitives of loader.go ---------------------------------------------------

  predicate Holds(reg: map<Key, nat>, k: Key, f: nat) {
    k in reg && reg[k] == f
  }

  predicate Registered(l: Loads, k: Key, f: nat) {
    Holds(l.inflight, k, f) || Holds(l.orphans, k, f)
  }

  function At(reg: map<Key, nat>, k: Key): set<nat> {
    if k in reg then {reg[k]} else {}
  }

  // supersedeFlight
  function Superseded(l: Loads, k: Key): Loads {
    l.(superseded := l.superseded + At(l.inflight, k) + At(l.orphans, k), orphans := l.orphans - {k})
  }

  // The registered loads for a matching key.
  function Matching(l: Loads, matches: Key -> bool): set<nat> {
    set f | f in l.keyOf && matches(l.keyOf[f]) && Registered(l, l.keyOf[f], f)
  }

  // supersedeAllFlights
  function AllSuperseded(l: Loads): Loads {
    l.(superseded := l.superseded + Matching(l, _ => true), orphans := map[])
  }

  // orphanFlight
  function Orphaned(l: Loads, k: Key, f: nat): Loads {
    if Holds(l.inflight, k, f) then
      l.(inflight := l.inflight - {k}, superseded := l.superseded + At(l.orphans, k), orphans := l.orphans[k := f])
    else l
  }

  // startFlight
  function Started(l: Loads, k: Key, f: nat, n: nat): Loads {
    l.(keyOf := l.keyOf[f := k], started := l.started[f := n],
       superseded := l.superseded + At(l.orphans, k), orphans := l.orphans - {k}, inflight := l.inflight[k := f])
  }

  // leaveInflight
  function Left(l: Loads, k: Key, f: nat): Loads {
    l.(inflight := if Holds(l.inflight, k, f) then l.inflight - {k} else l.inflight,
       orphans := if Holds(l.orphans, k, f) then l.orphans - {k} else l.orphans,
       finished := l.finished + {f})
  }

  function Joined(x: Waiters, w: nat): Waiters {
    x.(waiting := x.waiting + {w}, refs := x.refs + 1)
  }

  // The caller gives up; the last one to do so cancels the load.
  function GaveUp(x: Waiters, w: nat): Waiters {
    x.(waiting := x.waiting - {w}, refs := x.refs - 1, cancelled := x.refs == 1)
  }

  // -- Steps --------------------------------------------------------------------------------------

  ghost predicate Enabled(c: Config, s: Shard, a: Step) {
    match a
    case Lead(f, k, w) => k !in s.loads.inflight && f !in s.loads.keyOf
    case Refresh(f, k) => k !in s.loads.inflight && f !in s.loads.keyOf
    case Join(k, w) =>
      && k in s.loads.inflight && s.loads.inflight[k] in s.waiters
      && w !in s.waiters[s.loads.inflight[k]].waiting
    case Leave(f, w) => f in s.loads.keyOf && f in s.waiters && w in s.waiters[f].waiting
    case Remove(k, _) => k in s.cells
    case Finish(f, outcome) =>
      && f in s.loads.keyOf && f !in s.loads.finished
      && (outcome.Failed? ==> MakesRoom(c, s.errors, s.loads.keyOf[f], outcome.dropped))
    case _ => true
  }

  // cacheErrorLocked drops errors only to admit a new key to a full table, and then until there is room.
  predicate MakesRoom(c: Config, errors: set<Key>, k: Key, dropped: set<Key>) {
    if k in errors || |errors| < c.errorLimit then dropped == {}
    else dropped <= errors && |errors - dropped| < c.errorLimit
  }

  // applyLoadResultLocked after leaveInflight: a load that was overtaken stores nothing.
  function Finished(c: Config, s: Shard, k: Key, f: nat, outcome: Outcome): Shard {
    var t := s.(loads := Left(s.loads, k, f));
    if f in s.loads.superseded || s.closed then t
    else match outcome
      case Loaded(v, kept) =>
        t.(loads := Superseded(t.loads, k), cells := if kept then t.cells[k := Value(v)] else t.cells)
      case NotFound(open) => if c.negativeCache && open then t.(cells := t.cells[k := Tombstone]) else t
      case Failed(dropped) => if c.errorTtl then t.(errors := t.errors - dropped + {k}) else t
      case ContextError => t
  }

  ghost function Apply(c: Config, s: Shard, n: nat, a: Step): Shard
    requires Enabled(c, s, a)
  {
    match a
    case Lead(f, k, w) =>
      s.(loads := Started(s.loads, k, f, n), waiters := s.waiters[f := Waiters({w}, false, 1, false)])
    case Refresh(f, k) =>
      s.(loads := Started(s.loads, k, f, n), waiters := s.waiters[f := Waiters({}, true, 1, false)])
    case Join(k, w) =>
      var f := s.loads.inflight[k];
      s.(waiters := s.waiters[f := Joined(s.waiters[f], w)])
    case Leave(f, w) =>
      var x := GaveUp(s.waiters[f], w);
      s.(waiters := s.waiters[f := x], loads := if x.cancelled then Orphaned(s.loads, s.loads.keyOf[f], f) else s.loads)
    case Write(k, v, kept) =>
      s.(loads := Superseded(s.loads, k), cells := if kept then s.cells[k := Value(v)] else s.cells)
    case Delete(k) => s.(loads := Superseded(s.loads, k), cells := s.cells - {k})
    case Remove(k, reason) =>
      s.(loads := if SupersedesFlight(reason) then Superseded(s.loads, k) else s.loads, cells := s.cells - {k})
    case DeletePrefix(m) =>
      s.(loads := s.loads.(
           superseded := s.loads.superseded + Matching(s.loads, m),
           orphans := map k | k in s.loads.orphans && !(m(k) && k in s.cells) :: s.loads.orphans[k]),
         cells := map k | k in s.cells && !m(k) :: s.cells[k])
    case Clear => s.(loads := AllSuperseded(s.loads), cells := map[])
    case Finish(f, outcome) => Finished(c, s, s.loads.keyOf[f], f, outcome)
    case Close => s.(closed := true)
  }

  const Start := Shard(Loads(map[], map[], {}, {}, map[], map[]), map[], map[], {}, false)

  // A run: states[i] is the shard after the first i steps.
  ghost predicate Run(c: Config, trace: seq<Step>, states: seq<Shard>) {
    && |states| == |trace| + 1 && states[0] == Start
    && forall i :: 0 <= i < |trace| ==>
         Enabled(c, states[i], trace[i]) && states[i + 1] == Apply(c, states[i], i, trace[i])
  }

  // -- The invariant ------------------------------------------------------------------------------

  // Both registers hold unfinished loads of their keys, no key is in both, and every unfinished load
  // that was not superseded is registered.
  ghost predicate Inv(l: Loads) {
    && (forall k :: k in l.inflight ==> RunsFor(l, l.inflight[k], k))
    && (forall k :: k in l.orphans ==> RunsFor(l, l.orphans[k], k))
    && l.inflight.Keys !! l.orphans.Keys && l.started.Keys == l.keyOf.Keys
    && l.superseded <= l.keyOf.Keys && l.finished <= l.keyOf.Keys
    && (forall f :: f in l.keyOf && f !in l.finished && f !in l.superseded ==> Registered(l, l.keyOf[f], f))
  }

  predicate RunsFor(l: Loads, f: nat, k: Key) {
    f in l.keyOf && l.keyOf[f] == k && f !in l.finished
  }

  // A load that can be joined is not canceled; one whose callers have all left is.
  ghost predicate Attended(l: Loads, waiters: map<nat, Waiters>) {
    && waiters.Keys == l.keyOf.Keys
    && (forall f :: f in waiters ==> Counted(waiters[f]))
    && (forall k :: k in l.inflight ==> l.inflight[k] in waiters && !waiters[l.inflight[k]].cancelled)
    && (forall k :: k in l.orphans ==> l.orphans[k] in waiters && waiters[l.orphans[k]].cancelled)
  }

  // refs counts the callers still waiting, and the context is canceled exactly when it reaches zero.
  predicate Counted(x: Waiters) {
    x.refs == |x.waiting| + (if x.background then 1 else 0) && (x.cancelled <==> x.refs == 0)
  }

  // The steps that replace or may replace a key's data, or start a newer load for it.
  predicate Overtakes(a: Step, k: Key) {
    match a
    case Lead(_, k', _) => k' == k
    case Refresh(_, k') => k' == k
    case Write(k', _, _) => k' == k
    case Delete(k') => k' == k
    case Remove(k', reason) => k' == k && reason !in {Capacity, Expired, ExpireFunc, Resize}
    case DeletePrefix(m) => m(k)
    case Clear => true
    case _ => false
  }

  // A step overtaking the keys of hit supersedes exactly the running loads of those keys.
  ghost predicate Follows(l: Loads, m: Loads, hit: Key -> bool) {
    && l.finished <= m.finished
    && forall f :: f in l.keyOf ==>
         && f in m.keyOf && m.keyOf[f] == l.keyOf[f] && f in l.started && f in m.started && m.started[f] == l.started[f]
         && (f !in m.finished ==> (f in m.superseded <==> f in l.superseded || hit(l.keyOf[f])))
  }

  lemma StartedStep(l: Loads, k: Key, f: nat, n: nat)
    requires Inv(l) && k !in l.inflight && f !in l.keyOf
    ensures Inv(Started(l, k, f, n)) && Follows(l, Started(l, k, f, n), x => x == k)
  {
  }

  lemma OrphanStep(l: Loads, f: nat)
    requires Inv(l) && f in l.keyOf
    ensures Inv(Orphaned(l, l.keyOf[f], f)) && Follows(l, Orphaned(l, l.keyOf[f], f), _ => false)
  {
  }

  lemma SupersedeStep(l: Loads, k: Key)
    requires Inv(l)
    ensures Inv(Superseded(l, k)) && Follows(l, Superseded(l, k), x => x == k)
  {
  }

  lemma MatchStep(l: Loads, m: Key -> bool, orphans: map<Key, nat>)
    requires Inv(l) && orphans.Keys <= l.orphans.Keys
    requires forall k :: k in l.orphans ==> if k in orphans then orphans[k] == l.orphans[k] else m(k)
    ensures var t := l.(superseded := l.superseded + Matching(l, m), orphans := orphans); Inv(t) && Follows(l, t, m)
  {
  }

  lemma LeftStep(l: Loads, f: nat)
    requires Inv(l) && f in l.keyOf && f !in l.finished
    ensures Inv(Left(l, l.keyOf[f], f)) && Follows(l, Left(l, l.keyOf[f], f), _ => false)
    ensures f !in l.superseded ==> Superseded(Left(l, l.keyOf[f], f), l.keyOf[f]) == Left(l, l.keyOf[f], f)
  {
  }

  lemma FollowsStep(l: Loads, m: Loads, hit: Key -> bool, a: Step)
    requires Follows(l, m, hit) && forall k :: hit(k) <==> Overtakes(a, k)
    ensures Follows(l, m, k => Overtakes(a, k))
  {
    hide Overtakes;
  }

  lemma LoadsStep(c: Config, s: Shard, n: nat, a: Step)
    requires Inv(s.loads) && Enabled(c, s, a)
    ensures Inv(Apply(c, s, n, a).loads) && Follows(s.loads, Apply(c, s, n, a).loads, k => Overtakes(a, k))
  {
    hide Inv, Follows, Started, Superseded, Orphaned, Left, Matching;
    var l := s.loads;
    var m := Apply(c, s, n, a).loads;
    Unchanged(l);
    match a {
      case Lead(f, k, _) => StartedStep(l, k, f, n); FollowsStep(l, m, x => x == k, a);
      case Refresh(f, k) => StartedStep(l, k, f, n); FollowsStep(l, m, x => x == k, a);
      case Write(k, _, _) => SupersedeStep(l, k); FollowsStep(l, m, x => x == k, a);
      case Delete(k) => SupersedeStep(l, k); FollowsStep(l, m, x => x == k, a);
      case Remove(k, reason) =>
        SupersedeStep(l, k);
        if SupersedesFlight(reason) { FollowsStep(l, m, x => x == k, a); } else { FollowsStep(l, m, _ => false, a); }
      case Leave(f, _) => OrphanStep(l, f); FollowsStep(l, m, _ => false, a);
      case DeletePrefix(p) => MatchStep(l, p, m.orphans); FollowsStep(l, m, p, a);
      case Clear => MatchStep(l, _ => true, map[]); FollowsStep(l, m, _ => true, a);
      case Finish(f, _) => LeftStep(l, f); FollowsStep(l, m, _ => false, a);
      case _ => FollowsStep(l, m, _ => false, a);
    }
  }

  ghost predicate Within(m: map<Key, nat>, l: map<Key, nat>) {
    forall k :: k in m ==> k in l && m[k] == l[k]
  }

  lemma AttendedStill(l: Loads, m: Loads, waiters: map<nat, Waiters>)
    requires Attended(l, waiters) && m.keyOf == l.keyOf
    requires Within(m.inflight, l.inflight) && Within(m.orphans, l.orphans)
    ensures Attended(m, waiters)
  {
  }

  lemma CountedOne(w: nat)
    ensures Counted(Waiters({w}, false, 1, false)) && Counted(Waiters({}, true, 1, false))
  {
  }

  lemma AttendedStart(l: Loads, waiters: map<nat, Waiters>, k: Key, f: nat, n: nat, x: Waiters)
    requires Inv(l) && Attended(l, waiters) && f !in l.keyOf && Counted(x) && !x.cancelled
    ensures Attended(Started(l, k, f, n), waiters[f := x])
  {
    hide Counted;
  }

  lemma AttendedJoin(l: Loads, waiters: map<nat, Waiters>, k: Key, w: nat)
    requires Inv(l) && Attended(l, waiters) && k in l.inflight && w !in waiters[l.inflight[k]].waiting
    ensures var f := l.inflight[k]; Attended(l, waiters[f := Joined(waiters[f], w)])
  {
    assert Counted(waiters[l.inflight[k]]);
  }

  lemma AttendedLeft(l: Loads, waiters: map<nat, Waiters>, f: nat, x: Waiters)
    requires Inv(l) && Attended(l, waiters) && f in l.keyOf && !waiters[f].cancelled && Counted(x) && !x.cancelled
    ensures Attended(l, waiters[f := x])
  {
    hide Counted;
  }

  lemma AttendedOrphan(l: Loads, waiters: map<nat, Waiters>, f: nat, x: Waiters)
    requires Inv(l) && Attended(l, waiters) && f in l.keyOf && !waiters[f].cancelled && Counted(x) && x.cancelled
    ensures Attended(Orphaned(l, l.keyOf[f], f), waiters[f := x])
  {
    hide Counted;
  }

  lemma AttendedLeave(l: Loads, waiters: map<nat, Waiters>, f: nat, w: nat)
    requires Inv(l) && Attended(l, waiters) && f in l.keyOf && w in waiters[f].waiting
    ensures var x := GaveUp(waiters[f], w);
      Attended(if x.cancelled then Orphaned(l, l.keyOf[f], f) else l, waiters[f := x])
  {
    hide Inv, Orphaned;
    assert Counted(waiters[f]);
    var x := GaveUp(waiters[f], w);
    if x.cancelled { AttendedOrphan(l, waiters, f, x); } else { AttendedLeft(l, waiters, f, x); }
  }

  // Steps that start, join or leave no load only take registrations away.
  lemma OnlyTakesAway(c: Config, s: Shard, n: nat, a: Step)
    requires Inv(s.loads) && Enabled(c, s, a) && !a.Lead? && !a.Refresh? && !a.Join? && !a.Leave?
    ensures var t := Apply(c, s, n, a);
      t.waiters == s.waiters && t.loads.keyOf == s.loads.keyOf &&
      Within(t.loads.inflight, s.loads.inflight) && Within(t.loads.orphans, s.loads.orphans)
  {
    hide Matching, SupersedesFlight, Superseded, Left, Inv, MakesRoom;
    match a {
      case Write(k, _, _) => SupersededAway(s.loads, k);
      case Delete(k) => SupersededAway(s.loads, k);
      case Remove(k, _) => SupersededAway(s.loads, k);
      case Finish(f, _) => LeftStep(s.loads, f); LeftAway(s.loads, s.loads.keyOf[f], f);
      case _ =>
    }
  }

  lemma SupersededAway(l: Loads, k: Key)
    ensures var m := Superseded(l, k); m.keyOf == l.keyOf && m.inflight == l.inflight && Within(m.orphans, l.orphans)
  {
  }

  lemma LeftAway(l: Loads, k: Key, f: nat)
    ensures var m := Left(l, k, f); m.keyOf == l.keyOf && Within(m.inflight, l.inflight) && Within(m.orphans, l.orphans)
  {
  }

  lemma WaitersStep(c: Config, s: Shard, n: nat, a: Step)
    requires Inv(s.loads) && Attended(s.loads, s.waiters) && Enabled(c, s, a)
    ensures Attended(Apply(c, s, n, a).loads, Apply(c, s, n, a).waiters)
  {
    hide Attended, Inv, Counted, Matching, SupersedesFlight, Within, Started, Orphaned, Superseded, Left, Finished;
    match a {
      case Lead(f, k, w) => CountedOne(w); AttendedStart(s.loads, s.waiters, k, f, n, Waiters({w}, false, 1, false));
      case Refresh(f, k) => CountedOne(0); AttendedStart(s.loads, s.waiters, k, f, n, Waiters({}, true, 1, false));
      case Join(k, w) => AttendedJoin(s.loads, s.waiters, k, w);
      case Leave(f, w) => AttendedLeave(s.loads, s.waiters, f, w);
      case _ =>
        OnlyTakesAway(c, s, n, a);
        AttendedStill(s.loads, Apply(c, s, n, a).loads, s.waiters);
    }
  }

  lemma Unchanged(l: Loads)
    requires Inv(l)
    ensures Follows(l, l, _ => false)
  {
  }

  lemma NewLoad(c: Config, s: Shard, n: nat, a: Step, f: nat)
    requires Inv(s.loads) && Enabled(c, s, a) && f !in s.loads.keyOf && f in Apply(c, s, n, a).loads.keyOf
    ensures (a.Lead? || a.Refresh?) && a.f == f
    ensures var l := Apply(c, s, n, a).loads;
      f !in l.superseded && f in l.started && l.started[f] == n && l.keyOf[f] == a.k
  {
  }

  // -- Whole runs ---------------------------------------------------------------------------------

  lemma {:induction false} RunInv(c: Config, trace: seq<Step>, states: seq<Shard>, i: nat)
    requires Run(c, trace, states) && i <= |trace|
    ensures Inv(states[i].loads) && Attended(states[i].loads, states[i].waiters)
  {
    hide Inv, Attended, Apply;
    if i == 0 {
      Fresh();
    } else {
      RunInv(c, trace, states, i - 1);
      LoadsStep(c, states[i - 1], i - 1, trace[i - 1]);
      WaitersStep(c, states[i - 1], i - 1, trace[i - 1]);
    }
  }

  lemma Fresh()
    ensures Inv(Start.loads) && Attended(Start.loads, Start.waiters)
  {
  }

  // Some step after the first from+1, among the first to, overtakes k.
  ghost predicate Overtaken(trace: seq<Step>, from: nat, to: nat, k: Key) {
    exists m :: from < m < to <= |trace| && Overtakes(trace[m], k)
  }

  // A running load is marked superseded exactly when something has overtaken it since it started.
  lemma {:induction false} SupersededIffOvertaken(c: Config, trace: seq<Step>, states: seq<Shard>, i: nat, f: nat)
    requires Run(c, trace, states) && i <= |trace|
    requires var l := states[i].loads; f in l.keyOf && f !in l.finished
    ensures var l := states[i].loads;
      f in l.started && l.started[f] < i && (f in l.superseded <==> Overtaken(trace, l.started[f], i, l.keyOf[f]))
  {
    hide Inv, Attended, Apply, Overtakes;
    if i > 0 {
      var s, a := states[i - 1], trace[i - 1];
      RunInv(c, trace, states, i - 1);
      LoadsStep(c, s, i - 1, a);
      if f in s.loads.keyOf {
        SupersededIffOvertaken(c, trace, states, i - 1, f);
        var from, k := s.loads.started[f], s.loads.keyOf[f];
        assert Overtaken(trace, from, i, k) <==> Overtaken(trace, from, i - 1, k) || Overtakes(a, k);
      } else {
        NewLoad(c, s, i - 1, a, f);
      }
    }
  }

  // What a finished load would record.
  function Recorded(c: Config, s: Shard, k: Key, outcome: Outcome): (map<Key, Cell>, set<Key>) {
    match outcome
    case Loaded(v, kept) => (if kept then s.cells[k := Value(v)] else s.cells, s.errors)
    case NotFound(open) => (if c.negativeCache && open then s.cells[k := Tombstone] else s.cells, s.errors)
    case Failed(dropped) => (s.cells, if c.errorTtl then s.errors - dropped + {k} else s.errors)
    case ContextError => (s.cells, s.errors)
  }

  // A load's result is recorded if and only if nothing overtook it since it started and the cache is open.
  lemma StoresIffCurrent(c: Config, trace: seq<Step>, states: seq<Shard>, i: nat, f: nat, outcome: Outcome)
    requires Run(c, trace, states) && i < |trace| && trace[i] == Finish(f, outcome)
    ensures var s, t := states[i], states[i + 1];
      && f in s.loads.keyOf && f in s.loads.started
      && var k := s.loads.keyOf[f];
         (t.cells, t.errors) ==
           if Overtaken(trace, s.loads.started[f], i, k) || s.closed then (s.cells, s.errors)
           else Recorded(c, s, k, outcome)
  {
    hide Overtaken, Inv;
    SupersededIffOvertaken(c, trace, states, i, f);
  }

  lemma OneLiveLoad(l: Loads, f: nat, g: nat)
    requires Inv(l) && f in l.keyOf && g in l.keyOf && l.keyOf[f] == l.keyOf[g]
    requires f !in l.finished + l.superseded && g !in l.finished + l.superseded
    ensures f == g
  {
  }

  // With room for at least one error, a shard never keeps more than its limit.
  lemma {:induction false} ErrorsBounded(c: Config, trace: seq<Step>, states: seq<Shard>, i: nat)
    requires Run(c, trace, states) && i <= |trace| && c.errorLimit >= 1
    ensures |states[i].errors| <= c.errorLimit
  {
    hide Apply, Enabled;
    if i > 0 {
      ErrorsBounded(c, trace, states, i - 1);
      ErrorsStep(c, states[i - 1], i - 1, trace[i - 1]);
    }
  }

  lemma RoomIsEnough(c: Config, errors: set<Key>, k: Key, dropped: set<Key>)
    requires MakesRoom(c, errors, k, dropped) && c.errorLimit >= 1 && |errors| <= c.errorLimit
    ensures |errors - dropped + {k}| <= c.errorLimit
  {
    assert k in errors ==> errors - {} + {k} == errors;
    assert |errors - dropped + {k}| <= |errors - dropped| + 1;
    assert dropped == {} ==> errors - dropped == errors;
  }

  lemma ErrorsStep(c: Config, s: Shard, n: nat, a: Step)
    requires Enabled(c, s, a) && c.errorLimit >= 1 && |s.errors| <= c.errorLimit
    ensures |Apply(c, s, n, a).errors| <= c.errorLimit
  {
    hide MakesRoom, Finished, Superseded, Matching, Started, Orphaned, AllSuperseded, Joined, GaveUp;
    if a.Finish? {
      FinishedErrors(c, s, s.loads.keyOf[a.f], a.f, a.outcome);
      if a.outcome.Failed? { RoomIsEnough(c, s.errors, s.loads.keyOf[a.f], a.outcome.dropped); }
    }
  }

  lemma FinishedErrors(c: Config, s: Shard, k: Key, f: nat, outcome: Outcome)
    ensures var t := Finished(c, s, k, f, outcome);
      t.errors == s.errors || (outcome.Failed? && t.errors == s.errors - outcome.dropped + {k})
  {
  }

  // A step that does not overtake k leaves its cell alone, drops it, or is a load of k being stored.
  lemma CellStep(c: Config, s: Shard, n: nat, a: Step, k: Key)
    requires Inv(s.loads) && Enabled(c, s, a) && !Overtakes(a, k)
    ensures var t := Apply(c, s, n, a);
      || (if k in t.cells then k in s.cells && t.cells[k] == s.cells[k]
          else k in s.cells ==> a.Remove? && a.k == k && a.reason in {Capacity, Expired, ExpireFunc, Resize})
      || (a.Finish? && s.loads.keyOf[a.f] == k && a.f !in s.loads.superseded)
  {
  }

  // From its start to the moment its result is stored, a load's key was neither written nor replaced:
  // its cell only ever stayed or was dropped for capacity, expiry or resize.
  lemma {:induction false} StoredLoadSawNoChange(
    c: Config, trace: seq<Step>, states: seq<Shard>, i: nat, f: nat, outcome: Outcome, m: nat)
    requires Run(c, trace, states) && i < |trace| && trace[i] == Finish(f, outcome)
    requires f !in states[i].loads.superseded
    requires f in states[i].loads.started && states[i].loads.started[f] < m < i
    ensures var k := states[i].loads.keyOf[f];
      if k in states[m + 1].cells then k in states[m].cells && states[m + 1].cells[k] == states[m].cells[k]
      else k in states[m].cells ==>
        trace[m].Remove? && trace[m].k == k && trace[m].reason in {Capacity, Expired, ExpireFunc, Resize}
  {
    hide Inv, Attended, Apply;
    SupersededIffOvertaken(c, trace, states, i, f);
    Backwards(c, trace, states, m, i, f);
    RunInv(c, trace, states, m);
    SupersededIffOvertaken(c, trace, states, m, f);
    var k := states[i].loads.keyOf[f];
    CellStep(c, states[m], m, trace[m], k);
    if trace[m].Finish? && states[m].loads.keyOf[trace[m].f] == k && trace[m].f !in states[m].loads.superseded {
      OneLiveLoad(states[m].loads, f, trace[m].f);
      Backwards(c, trace, states, m + 1, i, f);
      FinishedNow(c, states[m], m, f, trace[m]);
      assert false;
    }
  }

  // Conversely, a load during which its key was written, deleted, removed for any other reason, matched by a
  // prefix deletion, cleared, or loaded anew records nothing.
  lemma OvertakenLoadIsDiscarded(
    c: Config, trace: seq<Step>, states: seq<Shard>, i: nat, f: nat, outcome: Outcome, m: nat)
    requires Run(c, trace, states) && i < |trace| && trace[i] == Finish(f, outcome)
    requires f in states[i].loads.keyOf && f in states[i].loads.started && states[i].loads.started[f] < m < i
    requires var k := states[i].loads.keyOf[f];
      match trace[m]
      case Write(x, _, _) => x == k
      case Delete(x) => x == k
      case Remove(x, reason) => x == k && reason !in {Capacity, Expired, ExpireFunc, Resize}
      case DeletePrefix(matches) => matches(k)
      case Clear => true
      case Lead(_, x, _) => x == k
      case Refresh(_, x) => x == k
      case _ => false
    ensures states[i + 1].cells == states[i].cells && states[i + 1].errors == states[i].errors
  {
    hide Inv, Apply, Enabled;
    StoresIffCurrent(c, trace, states, i, f, outcome);
    assert Overtakes(trace[m], states[i].loads.keyOf[f]);
  }

  lemma FinishedNow(c: Config, s: Shard, n: nat, f: nat, a: Step)
    requires Enabled(c, s, a) && a.Finish? && a.f == f
    ensures f in Apply(c, s, n, a).loads.finished
  {
  }

  // A load still running at i was running, with the same key and start, at every step since it began.
  lemma {:induction false} Backwards(c: Config, trace: seq<Step>, states: seq<Shard>, m: nat, i: nat, f: nat)
    requires Run(c, trace, states) && m <= i <= |trace|
    requires var l := states[i].loads; f in l.keyOf && f !in l.finished && f in l.started && l.started[f] < m
    ensures var l, r := states[i].loads, states[m].loads;
      && f in r.keyOf && r.keyOf[f] == l.keyOf[f] && f !in r.finished && f in r.started && r.started[f] == l.started[f]
    decreases i
  {
    hide Inv, Attended, Apply, Overtakes;
    if m < i {
      RunInv(c, trace, states, i - 1);
      LoadsStep(c, states[i - 1], i - 1, trace[i - 1]);
      if f !in states[i - 1].loads.keyOf { NewLoad(c, states[i - 1], i - 1, trace[i - 1], f); }
      Backwards(c, trace, states, m, i - 1, f);
    }
  }

  lemma CancelledStep(c: Config, s: Shard, n: nat, a: Step, f: nat)
    requires Inv(s.loads) && Attended(s.loads, s.waiters) && Enabled(c, s, a)
    requires f in s.waiters && s.waiters[f].cancelled
    ensures var t := Apply(c, s, n, a); f in t.waiters && t.waiters[f].cancelled
  {
    hide MakesRoom, Matching;
    assert Counted(s.waiters[f]);
  }

  // A load canceled because every caller gave up is never again the one a caller would join.
  lemma {:induction false} CancelledNeverJoined(c: Config, trace: seq<Step>, states: seq<Shard>, i: nat, j: nat, f: nat)
    requires Run(c, trace, states) && i <= j <= |trace| && f in states[i].waiters && states[i].waiters[f].cancelled
    ensures f in states[j].waiters && states[j].waiters[f].cancelled
    ensures forall k :: k in states[j].loads.inflight ==> states[j].loads.inflight[k] != f
    decreases j
  {
    hide Inv, Apply;
    RunInv(c, trace, states, j);
    if i < j {
      CancelledNeverJoined(c, trace, states, i, j - 1, f);
      RunInv(c, trace, states, j - 1);
      CancelledStep(c, states[j - 1], j - 1, trace[j - 1], f);
    }
  }

  // -- What the cells hold ------------------------------------------------------------------------

  // Step a at s stores cell for k: a write that is kept, or a load that is not superseded on an open cache.
  predicate Stores(c: Config, s: Shard, a: Step, k: Key, cell: Cell) {
    match a
    case Write(x, v, kept) => x == k && kept && cell == Value(v)
    case Finish(f, outcome) =>
      && f in s.loads.keyOf && s.loads.keyOf[f] == k && f !in s.loads.superseded && !s.closed
      && (match outcome
          case Loaded(v, kept) => kept && cell == Value(v)
          case NotFound(open) => c.negativeCache && open && cell == Tombstone
          case _ => false)
    case _ => false
  }

  ghost predicate Passes(c: Config, s: Shard, a: Step, k: Key) {
    forall cell :: !Stores(c, s, a, k, cell)
  }

  predicate Drops(a: Step, k: Key) {
    match a
    case Delete(x) => x == k
    case Remove(x, _) => x == k
    case DeletePrefix(matches) => matches(k)
    case Clear => true
    case _ => false
  }

  lemma CellEffect(c: Config, s: Shard, n: nat, a: Step, k: Key)
    requires Enabled(c, s, a)
    ensures var t := Apply(c, s, n, a);
      && (Drops(a, k) ==> k !in t.cells)
      && (forall cell :: Stores(c, s, a, k, cell) ==> k in t.cells && t.cells[k] == cell)
      && (!Drops(a, k) && Passes(c, s, a, k) ==>
            (k in t.cells <==> k in s.cells) && (k in s.cells ==> t.cells[k] == s.cells[k]))
  {
    hide Left, Superseded, Matching, Started, Orphaned, AllSuperseded, Joined, GaveUp, MakesRoom;
    if a.Write? { assert a.k == k && a.kept ==> Stores(c, s, a, k, Value(a.v)); }
    if a.Finish? && a.outcome.Loaded? {
      assert s.loads.keyOf[a.f] == k && a.f !in s.loads.superseded && !s.closed && a.outcome.kept ==>
             Stores(c, s, a, k, Value(a.outcome.v));
    }
    if a.Finish? && a.outcome.NotFound? {
      assert s.loads.keyOf[a.f] == k && a.f !in s.loads.superseded && !s.closed && a.outcome.open && c.negativeCache ==>
             Stores(c, s, a, k, Tombstone);
    }
  }

  // In every run a key's cell is what the latest write or recorded load of it stored, with no removal since.
  lemma {:induction false} CellIsLatest(c: Config, trace: seq<Step>, states: seq<Shard>, j: nat, k: Key)
    returns (i: nat)
    requires Run(c, trace, states) && j <= |trace| && k in states[j].cells
    ensures i < j && Stores(c, states[i], trace[i], k, states[j].cells[k])
    ensures forall m :: i < m < j ==> !Drops(trace[m], k) && Passes(c, states[m], trace[m], k)
  {
    hide Apply, Enabled, Stores, Drops;
    i := j - 1;
    CellEffect(c, states[i], i, trace[i], k);
    if !Stores(c, states[i], trace[i], k, states[j].cells[k]) {
      assert Passes(c, states[i], trace[i], k);
      i := CellIsLatest(c, trace, states, j - 1, k);
    }
  }

  // And once stored it stays until a removal.
  lemma {:induction false} StoredUntilDropped(
    c: Config, trace: seq<Step>, states: seq<Shard>, i: nat, j: nat, k: Key, cell: Cell)
    requires Run(c, trace, states) && i < j <= |trace| && Stores(c, states[i], trace[i], k, cell)
    requires forall m :: i < m < j ==> !Drops(trace[m], k)
    ensures k in states[j].cells
    decreases j
  {
    hide Apply, Enabled, Stores, Drops;
    CellEffect(c, states[j - 1], j - 1, trace[j - 1], k);
    NotBoth(c, states[i], trace[i], k, cell);
    if i < j - 1 { StoredUntilDropped(c, trace, states, i, j - 1, k, cell); }
  }

  lemma NotBoth(c: Config, s: Shard, a: Step, k: Key, cell: Cell)
    requires Stores(c, s, a, k, cell)
    ensures !Drops(a, k)
  {
  }

  // A closed cache records nothing.
  lemma {:induction false} ClosedRecordsNothing(c: Config, trace: seq<Step>, states: seq<Shard>, i: nat, j: nat)
    requires Run(c, trace, states) && i < j < |trace| && trace[i].Close?
    ensures states[j].closed
    ensures trace[j].Finish? ==> states[j + 1].cells == states[j].cells && states[j + 1].errors == states[j].errors
    decreases j
  {
    if i < j - 1 { ClosedRecordsNothing(c, trace, states, i, j - 1); }
    StaysClosed(c, states[j - 1], j - 1, trace[j - 1]);
  }

  lemma StaysClosed(c: Config, s: Shard, n: nat, a: Step)
    requires Enabled(c, s, a)
    ensures s.closed || a.Close? ==> Apply(c, s, n, a).closed
  {
  }

  // An error takes the place of others only in a full table, and then leaves all it has room for.
  lemma ErrorsKeptWhileRoom(c: Config, s: Shard, n: nat, f: nat, dropped: set<Key>)
    requires Enabled(c, s, Finish(f, Failed(dropped))) && c.errorTtl && f !in s.loads.superseded && !s.closed
    ensures var k, t := s.loads.keyOf[f], Apply(c, s, n, Finish(f, Failed(dropped)));
      k in t.errors && (k in s.errors || |s.errors| < c.errorLimit ==> t.errors == s.errors + {k})
  {
  }

  // -- Runs ---------------------------------------------------------------------------------------

  // A removal during a load: the load's value is stored after it iff the removal was for capacity, expiry or
  // a resize.
  lemma RemovalDuringLoad(c: Config, k: Key, v: Val, x: Val, reason: EvictionReason) returns (states: seq<Shard>)
    ensures var trace := [Write(k, v, true), Refresh(0, k), Remove(k, reason), Finish(0, Loaded(x, true))];
      && Run(c, trace, states)
      && states[4].cells == if reason in {Capacity, Expired, ExpireFunc, Resize} then map[k := Value(x)] else map[]
  {
    var lost := reason !in {Capacity, Expired, ExpireFunc, Resize};
    var waiters := map[0 := Waiters({}, true, 1, false)];
    var running := Loads(map[0 := k], map[0 := 1], {}, {}, map[k := 0], map[]);
    var passed := running.(superseded := if lost then {0} else {});
    var ended := passed.(finished := {0}, inflight := map[]);
    var s1 := Start.(cells := map[k := Value(v)]);
    var s2 := s1.(loads := running, waiters := waiters);
    var s3 := s2.(loads := passed, cells := map[]);
    var s4 := s3.(loads := ended, cells := if lost then map[] else map[k := Value(x)]);
    RemovalBegins(c, k, v, s1, s2);
    RemovalEnds(c, k, v, x, reason, s2, s3, s4);
    states := [Start, s1, s2, s3, s4];
    hide Apply, Enabled;
  }

  lemma RemovalBegins(c: Config, k: Key, v: Val, s1: Shard, s2: Shard)
    requires s1 == Start.(cells := map[k := Value(v)])
    requires s2 == s1.(loads := Loads(map[0 := k], map[0 := 1], {}, {}, map[k := 0], map[]),
                       waiters := map[0 := Waiters({}, true, 1, false)])
    ensures Enabled(c, Start, Write(k, v, true)) && Apply(c, Start, 0, Write(k, v, true)) == s1
    ensures Enabled(c, s1, Refresh(0, k)) && Apply(c, s1, 1, Refresh(0, k)) == s2
  {
  }

  lemma RemovalEnds(c: Config, k: Key, v: Val, x: Val, reason: EvictionReason, s2: Shard, s3: Shard, s4: Shard)
    requires s2.loads == Loads(map[0 := k], map[0 := 1], {}, {}, map[k := 0], map[])
    requires s2.cells == map[k := Value(v)] && !s2.closed
    requires var lost := reason !in {Capacity, Expired, ExpireFunc, Resize};
      && s3 == s2.(loads := s2.loads.(superseded := if lost then {0} else {}), cells := map[])
      && s4 == s3.(loads := s3.loads.(finished := {0}, inflight := map[]),
                   cells := if lost then map[] else map[k := Value(x)])
    ensures Enabled(c, s2, Remove(k, reason)) && Apply(c, s2, 2, Remove(k, reason)) == s3
    ensures Enabled(c, s3, Finish(0, Loaded(x, true))) && Apply(c, s3, 3, Finish(0, Loaded(x, true))) == s4
  {
    hide Matching, MakesRoom;
    assert {} + {0} == {0};
  }

  // -- The shard's flight tables, updated in place ------------------------------------------------

  ghost function Flights(reg: map<Key, nat>, keys: set<Key>): set<nat> {
    set k | k in keys && k in reg :: reg[k]
  }

  lemma FlightsAdd(reg: map<Key, nat>, keys: set<Key>, k: Key)
    requires k in reg
    ensures Flights(reg, keys + {k}) == Flights(reg, keys) + {reg[k]}
  {
  }

  lemma FlightsAll(reg: map<Key, nat>)
    ensures Flights(reg, reg.Keys) == reg.Values
  {
  }

  class FlightTables {
    var keyOf: map<nat, Key>
    var superseded: set<nat>
    var inflight: map<Key, nat>
    var orphans: map<Key, nat>
    ghost var started: map<nat, nat>
    ghost var finished: set<nat>

    ghost function View(): Loads
      reads this
    {
      Loads(keyOf, started, superseded, finished, inflight, orphans)
    }

    constructor ()
      ensures View() == Start.loads
    {
      keyOf, superseded, inflight, orphans, started, finished := map[], {}, map[], map[], map[], {};
    }

    method SupersedeFlight(k: Key)
      modifies this
      ensures View() == Superseded(old(View()), k)
    {
      if k in inflight {
        superseded := superseded + {inflight[k]};
      }
      if k in orphans {
        superseded := superseded + {orphans[k]};
        orphans := orphans - {k};
      }
      assert k !in old(orphans) ==> old(orphans) - {k} == old(orphans);
    }

    // Marks every flight registered in reg.
    method MarkAll(reg: map<Key, nat>)
      modifies this`superseded
      ensures superseded == old(superseded) + reg.Values
    {
      var todo := reg.Keys;
      ghost var done: set<Key> := {};
      while todo != {}
        invariant done + todo == reg.Keys && done !! todo
        invariant superseded == old(superseded) + Flights(reg, done)
        decreases |todo|
      {
        var k :| k in todo;
        superseded := superseded + {reg[k]};
        todo := todo - {k};
        FlightsAdd(reg, done, k);
        done := done + {k};
      }
      FlightsAll(reg);
    }

    method SupersedeAllFlights()
      requires Inv(View())
      modifies this
      ensures View() == AllSuperseded(old(View()))
    {
      MarkAll(inflight);
      MarkAll(orphans);
      Everything(old(View()));
      orphans := map[];
    }

    method OrphanFlight(k: Key, f: nat)
      modifies this
      ensures View() == Orphaned(old(View()), k, f)
    {
      if k !in inflight || inflight[k] != f { return; }
      inflight := inflight - {k};
      if k in orphans {
        superseded := superseded + {orphans[k]};
      }
      orphans := orphans[k := f];
    }

    method StartFlight(k: Key, f: nat, ghost n: nat)
      modifies this
      ensures View() == Started(old(View()), k, f, n)
    {
      if k in orphans {
        superseded := superseded + {orphans[k]};
        orphans := orphans - {k};
      }
      assert k !in old(orphans) ==> old(orphans) - {k} == old(orphans);
      inflight := inflight[k := f];
      keyOf, started := keyOf[f := k], started[f := n];
    }

    method LeaveInflight(k: Key, f: nat)
      modifies this
      ensures View() == Left(old(View()), k, f)
    {
      if k in inflight && inflight[k] == f { inflight := inflight - {k}; }
      if k in orphans && orphans[k] == f { orphans := orphans - {k}; }
      finished := finished + {f};
    }
  }

  lemma Everything(l: Loads)
    requires Inv(l)
    ensures Matching(l, _ => true) == l.inflight.Values + l.orphans.Values
  {
    forall f | f in l.keyOf && Registered(l, l.keyOf[f], f) ensures f in l.inflight.Values + l.orphans.Values {
      assert l.keyOf[f] in l.inflight || l.keyOf[f] in l.orphans;
    }
  }
}
