/**
 * Async writes and Close (asyncwrites.go) as a step system: Sets and Deletes queue one op per key, drains
 * and per-key applies move ops into storage, and Close runs a final drain of every shard.
 */
module AsyncWrites {

  type Key(==, !new)

  datatype Config = Config(store: bool, shardOf: Key -> nat)

  // Ops are numbered as they are accepted. pending is s.pending over all shards. windows holds the keys
  // whose queued Delete is at the Store, with the shard unlocked but the key locked. uncounted holds the
  // applied ops not yet counted off the backlog. final has, for each shard Close's drain is at work on,
  // the keys it has yet to apply, and finished the shards it is done with.
  datatype State = State(
    keyOf: map<nat, Key>, deletes: set<nat>, pending: map<Key, nat>, applied: set<nat>, replacedBy: map<nat, nat>,
    windows: set<Key>, uncounted: set<nat>, backlog: int, closed: bool, final: map<nat, set<Key>>, finished: set<nat>,
    next: nat)

  datatype Step =
    | Enqueue(k: Key, delete: bool)
    | DrainShard(shard: nat)
    | ApplyKey(k: Key)
    | OpenWindow(k: Key)
    | CloseWindow(k: Key)
    | Complete(ops: set<nat>)
    | Close
    | FinalShard(shard: nat)             // without a Store: the whole shard at once
    | FinalKeys(shard: nat)              // with one: its keys are listed, then applied one by one
    | FinalKey(shard: nat, k: Key)
    | FinalDone(shard: nat)

  function Queued(c: Config, s: State, shard: nat): set<Key> {
    set k | k in s.pending && c.shardOf(k) == shard
  }

  ghost predicate Enabled(c: Config, s: State, a: Step) {
    match a
    case Enqueue(_, _) => !s.closed
    case DrainShard(_) => !c.store
    case ApplyKey(k) => k !in s.windows
    case OpenWindow(k) => c.store && k in s.pending && s.pending[k] in s.deletes && k !in s.windows
    case CloseWindow(k) => k in s.windows
    case Complete(ops) => ops <= s.uncounted
    case Close => !s.closed
    case FinalShard(shard) => !c.store && s.closed && shard !in s.finished
    case FinalKeys(shard) => c.store && s.closed && shard !in s.final && shard !in s.finished
    case FinalKey(shard, k) => shard in s.final && k in s.final[shard] && k !in s.windows
    case FinalDone(shard) => shard in s.final && s.final[shard] == {}
  }

  // Storage takes the queued ops of the given keys.
  function Taken(s: State, keys: set<Key>): State {
    var ops := OpsOf(s, keys);
    s.(pending := s.pending - keys, applied := s.applied + ops, uncounted := s.uncounted + ops)
  }

  ghost function Apply(c: Config, s: State, a: Step): State
    requires Enabled(c, s, a)
  {
    match a
    case Enqueue(k, delete) =>
      s.(keyOf := s.keyOf[s.next := k], deletes := if delete then s.deletes + {s.next} else s.deletes,
         replacedBy := if k in s.pending then s.replacedBy[s.pending[k] := s.next] else s.replacedBy,
         backlog := if k in s.pending then s.backlog else s.backlog + 1,
         pending := s.pending[k := s.next], next := s.next + 1)
    case DrainShard(shard) => Taken(s, Queued(c, s, shard))
    case ApplyKey(k) => Taken(s, {k})
    case OpenWindow(k) => s.(windows := s.windows + {k})
    case CloseWindow(k) => Taken(s, {k}).(windows := s.windows - {k})
    case Complete(ops) => s.(uncounted := s.uncounted - ops, backlog := s.backlog - |ops|)
    case Close => s.(closed := true)
    case FinalShard(shard) => Taken(s, Queued(c, s, shard)).(finished := s.finished + {shard})
    case FinalKeys(shard) => s.(final := s.final[shard := Queued(c, s, shard)])
    case FinalKey(shard, k) => Taken(s, {k}).(final := s.final[shard := s.final[shard] - {k}])
    case FinalDone(shard) => s.(final := s.final - {shard}, finished := s.finished + {shard})
  }

  const Empty := State(map[], {}, map[], {}, map[], {}, {}, 0, false, map[], {}, 0)

  ghost predicate Run(c: Config, steps: seq<Step>, states: seq<State>) {
    && |states| == |steps| + 1 && states[0] == Empty
    && forall i :: 0 <= i < |steps| ==>
         Enabled(c, states[i], steps[i]) && states[i + 1] == Apply(c, states[i], steps[i])
  }

  // -- The invariant ------------------------------------------------------------------------------

  // Every accepted op is queued, applied or replaced, and only one of these; a replaced op gave way to a
  // later one of its key.
  ghost predicate Accounted(s: State) {
    && (forall id :: id in s.keyOf ==> id < s.next && (id in s.applied || id in s.replacedBy || Waits(s, id)))
    && (forall k :: k in s.pending ==> s.pending[k] in s.keyOf && s.keyOf[s.pending[k]] == k
                                       && s.pending[k] !in s.applied && s.pending[k] !in s.replacedBy)
    && s.applied <= s.keyOf.Keys && s.applied !! s.replacedBy.Keys
    && (forall id :: id in s.replacedBy ==> id in s.keyOf && Overrides(s, s.replacedBy[id], id))
  }

  predicate Waits(s: State, id: nat)
    requires id in s.keyOf
  {
    s.keyOf[id] in s.pending && s.pending[s.keyOf[id]] == id
  }

  predicate Overrides(s: State, newer: nat, id: nat)
    requires id in s.keyOf
  {
    id < newer && newer in s.keyOf && s.keyOf[newer] == s.keyOf[id]
  }

  // The backlog counts the queued ops and the applied ones not yet counted off.
  ghost predicate Counted(s: State) {
    s.uncounted <= s.applied && s.backlog == |s.pending.Keys| + |s.uncounted|
  }

  // An op at the Store stays queued; after closing, the final drain of a shard knows every key still
  // queued there, and a shard it is done with has none.
  ghost predicate Closing(c: Config, s: State) {
    && s.windows <= s.pending.Keys && (s.windows != {} ==> c.store)
    && (s.final != map[] || s.finished != {} ==> s.closed)
    && (s.final != map[] ==> c.store) && s.final.Keys !! s.finished && s.deletes <= s.keyOf.Keys
    && (forall shard, k :: shard in s.final && k in s.pending && c.shardOf(k) == shard ==> k in s.final[shard])
    && (forall k :: k in s.pending ==> c.shardOf(k) !in s.finished)
  }

  lemma TakenAccounted(s: State, keys: set<Key>)
    requires Accounted(s)
    ensures Accounted(Taken(s, keys))
  {
  }

  lemma EnqueueAccounted(c: Config, s: State, k: Key, delete: bool)
    requires Accounted(s) && !s.closed
    ensures Accounted(Apply(c, s, Enqueue(k, delete)))
  {
  }

  function OpsOf(s: State, keys: set<Key>): set<nat> {
    set k | k in keys && k in s.pending :: s.pending[k]
  }

  lemma OpsAreNew(s: State, keys: set<Key>)
    requires Accounted(s)
    ensures OpsOf(s, keys) !! s.applied && |OpsOf(s, keys)| == |s.pending.Keys * keys|
  {
    var taken := s.pending.Keys * keys;
    assert OpsOf(s, keys) == set k | k in taken :: s.pending[k];
    SameSize(s, taken, OpsOf(s, keys));
  }

  lemma Minus<T>(a: set<T>, b: set<T>)
    ensures |a - b| == |a| - |a * b|
  {
    assert a == (a - b) + (a * b);
  }

  lemma TakenCounted(s: State, keys: set<Key>)
    requires Accounted(s) && Counted(s)
    ensures Counted(Taken(s, keys))
  {
    hide Accounted;
    OpsAreNew(s, keys);
    Minus(s.pending.Keys, keys);
    var ops := OpsOf(s, keys);
    assert (s.pending - keys).Keys == s.pending.Keys - keys;
    assert |s.uncounted + ops| == |s.uncounted| + |ops|;
  }

  // Distinct keys have distinct ops.
  lemma {:induction false} SameSize(s: State, keys: set<Key>, ops: set<nat>)
    requires Accounted(s) && keys <= s.pending.Keys && ops == set k | k in keys :: s.pending[k]
    ensures |ops| == |keys|
  {
    if keys != {} {
      var k :| k in keys;
      SameSize(s, keys - {k}, ops - {s.pending[k]});
    }
  }

  lemma StillAccounted(s: State, t: State)
    ensures
      (t.keyOf == s.keyOf && t.pending == s.pending && t.applied == s.applied && t.replacedBy == s.replacedBy
       && t.next == s.next && Accounted(s)) ==> Accounted(t)
  {
  }

  // The keys whose ops a step takes.
  function TakenBy(c: Config, s: State, a: Step): set<Key> {
    match a
    case DrainShard(shard) => Queued(c, s, shard)
    case FinalShard(shard) => Queued(c, s, shard)
    case ApplyKey(k) => {k}
    case CloseWindow(k) => {k}
    case FinalKey(_, k) => {k}
    case _ => {}
  }

  lemma OnlyTakes(c: Config, s: State, a: Step)
    requires Enabled(c, s, a) && !a.Enqueue? && !a.Complete?
    ensures var t, u := Apply(c, s, a), Taken(s, TakenBy(c, s, a));
      && t.keyOf == u.keyOf && t.pending == u.pending && t.applied == u.applied && t.replacedBy == u.replacedBy
      && t.next == u.next && t.uncounted == u.uncounted && t.backlog == u.backlog
  {
    if TakenBy(c, s, a) == {} { assert Taken(s, {}) == s; }
  }

  lemma AccountedStep(c: Config, s: State, a: Step)
    requires Accounted(s) && Enabled(c, s, a)
    ensures Accounted(Apply(c, s, a))
  {
    hide Taken, Accounted;
    if a.Enqueue? {
      EnqueueAccounted(c, s, a.k, a.delete);
    } else {
      TakenAccounted(s, TakenBy(c, s, a));
      StillAccounted(Taken(s, TakenBy(c, s, a)), Apply(c, s, a));
      StillAccounted(s, Apply(c, s, a));
    }
  }

  lemma StillCounted(s: State, t: State)
    ensures
      (t.pending == s.pending && t.applied == s.applied && t.uncounted == s.uncounted && t.backlog == s.backlog
       && Counted(s)) ==> Counted(t)
  {
  }

  lemma QueueCounted(c: Config, s: State, a: Step)
    requires Counted(s) && Enabled(c, s, a) && (a.Enqueue? || a.Complete?)
    ensures Counted(Apply(c, s, a))
  {
    if a.Enqueue? {
      assert s.pending[a.k := s.next].Keys == s.pending.Keys + {a.k};
      assert a.k in s.pending ==> s.pending.Keys + {a.k} == s.pending.Keys;
    } else {
      Minus(s.uncounted, a.ops);
      assert s.uncounted * a.ops == a.ops;
    }
  }

  lemma CountedStep(c: Config, s: State, a: Step)
    requires Accounted(s) && Counted(s) && Enabled(c, s, a)
    ensures Counted(Apply(c, s, a))
  {
    hide Taken, Accounted, Counted, Apply;
    if a.Enqueue? || a.Complete? {
      QueueCounted(c, s, a);
    } else {
      TakenCounted(s, TakenBy(c, s, a));
      OnlyTakes(c, s, a);
      StillCounted(Taken(s, TakenBy(c, s, a)), Apply(c, s, a));
    }
  }

  lemma ClosingStep(c: Config, s: State, a: Step)
    requires Closing(c, s) && Enabled(c, s, a)
    ensures Closing(c, Apply(c, s, a))
  {
  }

  // -- Whole runs ---------------------------------------------------------------------------------

  lemma {:induction false} RunInv(c: Config, steps: seq<Step>, states: seq<State>, i: nat)
    requires Run(c, steps, states) && i < |states|
    ensures Accounted(states[i]) && Counted(states[i]) && Closing(c, states[i])
  {
    if i > 0 {
      hide Accounted, Counted, Closing, Apply;
      RunInv(c, steps, states, i - 1);
      AccountedStep(c, states[i - 1], steps[i - 1]);
      CountedStep(c, states[i - 1], steps[i - 1]);
      ClosingStep(c, states[i - 1], steps[i - 1]);
    }
  }

  // At every moment the backlog is the queued ops plus the applied ones not yet counted off.
  lemma BacklogIsExact(c: Config, steps: seq<Step>, states: seq<State>, i: nat)
    requires Run(c, steps, states) && i < |states|
    ensures states[i].backlog == |states[i].pending| + |states[i].uncounted|
  {
    RunInv(c, steps, states, i);
    assert |states[i].pending| == |states[i].pending.Keys|;
  }

  // A step applies only ops that were queued, so none is applied twice or after it was replaced.
  lemma AppliedOnce(c: Config, steps: seq<Step>, states: seq<State>, i: nat, id: nat)
    requires Run(c, steps, states) && i < |steps| && id in states[i + 1].applied && id !in states[i].applied
    ensures id in states[i].keyOf && Waits(states[i], id) && id !in states[i].replacedBy
    ensures id in states[i + 1].keyOf && !Waits(states[i + 1], id)
  {
    hide Counted, Closing, Apply;
    RunInv(c, steps, states, i);
    RunInv(c, steps, states, i + 1);
    AppliedStep(c, states[i], steps[i], id);
  }

  lemma AppliedStep(c: Config, s: State, a: Step, id: nat)
    requires Accounted(s) && Enabled(c, s, a) && id in Apply(c, s, a).applied && id !in s.applied
    ensures id in s.keyOf && Waits(s, id)
  {
  }

  lemma ClosedStep(c: Config, s: State, a: Step)
    requires Enabled(c, s, a)
    ensures var t := Apply(c, s, a);
      s.finished <= t.finished && (s.closed ==> t.closed && t.pending.Keys <= s.pending.Keys && t.keyOf == s.keyOf)
  {
  }

  lemma {:induction false} ClosedForGood(c: Config, steps: seq<Step>, states: seq<State>, i: nat, j: nat)
    requires Run(c, steps, states) && i <= j < |states|
    ensures states[i].finished <= states[j].finished
    ensures states[i].closed ==>
      states[j].closed && states[j].pending.Keys <= states[i].pending.Keys && states[j].keyOf == states[i].keyOf
    decreases j
  {
    hide Apply;
    if i < j {
      ClosedForGood(c, steps, states, i, j - 1);
      ClosedStep(c, states[j - 1], steps[j - 1]);
    }
  }

  // Once Close's final drain is done with a key's shard, every op ever accepted for the key has been
  // applied or was replaced by a later one of the key, and at no later moment is anything queued for it.
  lemma FinalDrainSettles(c: Config, steps: seq<Step>, states: seq<State>, i: nat, j: nat, id: nat)
    requires Run(c, steps, states) && i <= j < |states|
    requires id in states[j].keyOf && c.shardOf(states[j].keyOf[id]) in states[i].finished
    ensures states[j].keyOf[id] !in states[j].pending
    ensures id in states[j].applied ||
            (id in states[j].replacedBy && Overrides(states[j], states[j].replacedBy[id], id))
  {
    ClosedForGood(c, steps, states, i, j);
    RunInv(c, steps, states, j);
  }

  // Every op is one accepted call: its key, and whether it deletes, are that call's.
  lemma {:induction false} OpIsAsCalled(c: Config, steps: seq<Step>, states: seq<State>, j: nat, id: nat)
    returns (i: nat)
    requires Run(c, steps, states) && j < |states| && id in states[j].keyOf
    ensures i < j && states[i].next == id && steps[i] == Enqueue(states[j].keyOf[id], id in states[j].deletes)
  {
    hide Accounted, Counted, Closing;
    RunInv(c, steps, states, j - 1);
    OpStep(c, states[j - 1], steps[j - 1], id);
    if id in states[j - 1].keyOf { i := OpIsAsCalled(c, steps, states, j - 1, id); } else { i := j - 1; }
  }

  lemma OpStep(c: Config, s: State, a: Step, id: nat)
    requires Accounted(s) && Closing(c, s) && Enabled(c, s, a) && id in Apply(c, s, a).keyOf
    ensures var t := Apply(c, s, a);
      if id in s.keyOf then t.keyOf[id] == s.keyOf[id] && (id in t.deletes <==> id in s.deletes)
      else id == s.next && a.Enqueue? && a.k == t.keyOf[id] && (id in t.deletes <==> a.delete)
  {
  }

  // Close is done with a shard exactly when its final drain of it has ended.
  lemma {:induction false} FinishedIff(c: Config, steps: seq<Step>, states: seq<State>, j: nat, shard: nat)
    requires Run(c, steps, states) && j < |states|
    ensures shard in states[j].finished <==>
      exists i :: 0 <= i < j && (steps[i] == FinalShard(shard) || steps[i] == FinalDone(shard))
  {
    if j > 0 {
      hide Enabled;
      FinishedIff(c, steps, states, j - 1, shard);
      assert states[j] == Apply(c, states[j - 1], steps[j - 1]);
    }
  }

  // A key whose Delete is at the Store is still queued when the call returns to the shard, so the check
  // for a vanished op is never taken.
  lemma WindowStaysQueued(c: Config, steps: seq<Step>, states: seq<State>, i: nat)
    requires Run(c, steps, states) && i < |steps| && steps[i].CloseWindow?
    ensures steps[i].k in states[i].pending && states[i].pending[steps[i].k] in states[i + 1].applied
  {
    RunInv(c, steps, states, i);
    assert states[i + 1] == Apply(c, states[i], steps[i]);
  }
}
