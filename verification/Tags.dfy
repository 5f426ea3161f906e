/**
 * The inverted tag index and its lagging cleanup queue (tags.go, tagcleanup.go) as a step system over
 * whole runs, and the index structure itself.
 */
module Tags {
  import opened Prelude

  type Key(==, !new)
  type Tag(==, !new)

  // A stored entry; an update in place keeps its id.
  datatype Entry = Entry(id: nat, tags: set<Tag>)

  datatype Op = Op(key: Key, tags: set<Tag>)

  // An InvalidateTag call: the snapshot keys it has yet to visit, and the entries stored under them, by
  // key, when the snapshot was taken.
  datatype Call = Call(todo: set<Key>, doomed: map<Key, nat>)

  // index gives the tags the index names each key under (the transpose of keysByTag). busy holds the keys
  // whose Set has changed the entry and untagged it but not yet tagged it. batch is what the drainer has
  // taken off the queue, of which it has applied the first done.
  datatype State = State(
    storage: map<Key, Entry>, index: map<Key, set<Tag>>, busy: set<Key>, queue: seq<Op>, batch: seq<Op>, done: nat,
    backlog: int, calls: map<nat, Call>, next: nat)

  const QUEUE_CAP := 4096
  const BATCH_CAP := 64

  datatype Step =
    | Insert(k: Key, tags: set<Tag>)
    | Update(k: Key, tags: set<Tag>)
    | TagBusy(k: Key)
    | Remove(k: Key)
    | Tombstone(k: Key)
    | Clear(keys: set<Key>)
    | Dequeue
    | ApplyOne
    | EndBatch
    | Snapshot(c: nat, tag: Tag)
    | Visit(c: nat, k: Key)
    | Return(c: nat)

  function Named(index: map<Key, set<Tag>>, k: Key): set<Tag> {
    if k in index then index[k] else {}
  }

  function Carried(storage: map<Key, Entry>, k: Key): set<Tag> {
    if k in storage then storage[k].tags else {}
  }

  // tagIndex.untag and tagIndex.tag
  function Untagged(index: map<Key, set<Tag>>, k: Key, tags: set<Tag>): map<Key, set<Tag>> {
    index[k := Named(index, k) - tags]
  }

  function Tagged(index: map<Key, set<Tag>>, k: Key, tags: set<Tag>): map<Key, set<Tag>> {
    index[k := Named(index, k) + tags]
  }

  // enqueueUntag: applied at once when the queue is full.
  function Enqueued(s: State, k: Key, tags: set<Tag>): State {
    if tags == {} then s
    else if |s.queue| < QUEUE_CAP then s.(queue := s.queue + [Op(k, tags)], backlog := s.backlog + 1)
    else s.(index := Untagged(s.index, k, tags))
  }

  // removeLocked
  function Removed(s: State, k: Key): State {
    Enqueued(s.(storage := s.storage - {k}), k, Carried(s.storage, k))
  }

  predicate Enabled(s: State, a: Step) {
    match a
    case Insert(k, _) => k !in s.storage && k !in s.busy
    case Update(k, _) => k in s.storage && k !in s.busy
    case TagBusy(k) => k in s.busy
    case Remove(k) => k in s.storage && k !in s.busy
    case Tombstone(k) => k in s.storage && k !in s.busy
    case Clear(keys) => keys <= s.storage.Keys && keys !! s.busy
    case Dequeue => s.queue != [] && |s.batch| < BATCH_CAP && s.done == 0
    case ApplyOne => s.done < |s.batch| && s.batch[s.done].key !in s.busy
    case EndBatch => s.done == |s.batch| > 0
    case Snapshot(c, _) => c !in s.calls
    case Visit(c, k) => c in s.calls && k in s.calls[c].todo && k !in s.busy
    case Return(c) => c in s.calls && s.calls[c].todo == {}
  }

  function Apply(s: State, a: Step): State
    requires Enabled(s, a)
  {
    match a
    case Insert(k, tags) => s.(storage := s.storage[k := Entry(s.next, tags)], busy := s.busy + {k}, next := s.next + 1)
    case Update(k, tags) =>
      s.(storage := s.storage[k := s.storage[k].(tags := tags)], index := Untagged(s.index, k, s.storage[k].tags),
         busy := s.busy + {k})
    case TagBusy(k) => s.(index := Tagged(s.index, k, Carried(s.storage, k)), busy := s.busy - {k})
    case Remove(k) => Removed(s, k)
    case Tombstone(k) => Enqueued(s.(storage := s.storage[k := s.storage[k].(tags := {})]), k, s.storage[k].tags)
    case Clear(keys) =>
      s.(storage := s.storage - keys,
         index := map k | k in s.index :: if k in keys then s.index[k] - Carried(s.storage, k) else s.index[k])
    case Dequeue => s.(queue := s.queue[1..], batch := s.batch + [s.queue[0]])
    case ApplyOne =>
      var op := s.batch[s.done];
      s.(index := Untagged(s.index, op.key, op.tags - Carried(s.storage, op.key)), done := s.done + 1)
    case EndBatch => s.(backlog := s.backlog - |s.batch|, batch := [], done := 0)
    case Snapshot(c, tag) =>
      s.(calls := s.calls[c := Call(set k | k in s.index && tag in s.index[k],
                                    map k | k in s.storage && tag in Named(s.index, k) :: s.storage[k].id)])
    case Visit(c, k) =>
      (if k in s.storage then Removed(s, k) else s).(calls := s.calls[c := s.calls[c].(todo := s.calls[c].todo - {k})])
    case Return(c) => s.(calls := s.calls - {c})
  }

  ghost predicate Run(steps: seq<Step>, states: seq<State>) {
    && |states| == |steps| + 1
    && states[0] == State(map[], map[], {}, [], [], 0, 0, map[], 0)
    && forall i :: 0 <= i < |steps| ==> Enabled(states[i], steps[i]) && states[i + 1] == Apply(states[i], steps[i])
  }

  // -- The invariant ------------------------------------------------------------------------------

  // The tags some op in ops is to remove from k.
  function Pending(ops: seq<Op>, k: Key): set<Tag> {
    if ops == [] then {} else if ops[0].key == k then ops[0].tags + Pending(ops[1..], k) else Pending(ops[1..], k)
  }

  function Ops(s: State): seq<Op>
    requires s.done <= |s.batch|
  {
    s.batch[s.done..] + s.queue
  }

  lemma {:induction false} PendingSnoc(ops: seq<Op>, op: Op, k: Key)
    ensures Pending(ops + [op], k) == Pending(ops, k) + if op.key == k then op.tags else {}
  {
    if ops == [] {
      assert (ops + [op])[1..] == [];
    } else {
      assert (ops + [op])[1..] == ops[1..] + [op];
      PendingSnoc(ops[1..], op, k);
    }
  }

  // The index names every key under the tags its entry carries, any other name has an op queued to
  // remove it, and the backlog counts the ops not yet applied or not yet counted off.
  ghost predicate Inv(s: State) {
    && s.done <= |s.batch| <= BATCH_CAP && |s.queue| <= QUEUE_CAP
    && s.backlog == |s.queue| + |s.batch| && s.busy <= s.storage.Keys
    && (forall k :: k in s.storage && k !in s.busy ==> s.storage[k].tags <= Named(s.index, k))
    && (forall k :: Named(s.index, k) <= Carried(s.storage, k) + Pending(Ops(s), k))
  }

  // An entry an InvalidateTag call must remove is still to be visited or already gone.
  ghost predicate Doomed(s: State) {
    && (forall k :: k in s.storage ==> s.storage[k].id < s.next)
    && (forall c, k :: c in s.calls && k in s.calls[c].doomed ==>
          s.calls[c].doomed[k] < s.next && (k in s.calls[c].todo || Gone(s, k, s.calls[c].doomed[k])))
  }

  predicate Gone(s: State, k: Key, id: nat) {
    k in s.storage ==> s.storage[k].id != id
  }

  // Changes to storage that keep the invariant when what k no longer carries is enqueued.
  lemma EnqueuedInv(s: State, t: State, k: Key, tags: set<Tag>)
    requires Inv(s) && k !in s.busy && t == s.(storage := t.storage)
    requires Carried(s.storage, k) == tags && Carried(t.storage, k) == {}
    requires forall x :: x != k ==>
      (x in t.storage <==> x in s.storage) && (x in s.storage ==> t.storage[x] == s.storage[x])
    ensures Inv(Enqueued(t, k, tags))
  {
    assert s.batch[s.done..] + (s.queue + [Op(k, tags)]) == Ops(s) + [Op(k, tags)];
    forall x ensures Pending(Ops(s) + [Op(k, tags)], x) == Pending(Ops(s), x) + if x == k then tags else {} {
      PendingSnoc(Ops(s), Op(k, tags), x);
    }
  }

  lemma DrainInv(s: State, a: Step)
    requires Inv(s) && Enabled(s, a) && (a.Dequeue? || a.ApplyOne? || a.EndBatch?)
    ensures Inv(Apply(s, a))
  {
    var t := Apply(s, a);
    match a {
      case Dequeue => assert Ops(t) == Ops(s);
      case ApplyOne =>
        assert s.batch[s.done..] == [s.batch[s.done]] + s.batch[s.done + 1..];
        assert Ops(s)[1..] == Ops(t);
      case EndBatch => assert Ops(t) == Ops(s);
    }
  }

  lemma InvStep(s: State, a: Step)
    requires Inv(s) && Enabled(s, a)
    ensures Inv(Apply(s, a))
  {
    match a {
      case Remove(k) => EnqueuedInv(s, s.(storage := s.storage - {k}), k, Carried(s.storage, k));
      case Visit(_, k) =>
        if k in s.storage { EnqueuedInv(s, s.(storage := s.storage - {k}), k, Carried(s.storage, k)); }
      case Tombstone(k) =>
        EnqueuedInv(s, s.(storage := s.storage[k := s.storage[k].(tags := {})]), k, s.storage[k].tags);
      case Dequeue => DrainInv(s, a);
      case ApplyOne => DrainInv(s, a);
      case EndBatch => DrainInv(s, a);
      case Update(k, tags) => UpdateInv(s, k, tags);
      case Clear(keys) => ClearInv(s, keys);
      case _ => assert Ops(Apply(s, a)) == Ops(s);
    }
  }

  lemma UpdateInv(s: State, k: Key, tags: set<Tag>)
    requires Inv(s) && Enabled(s, Update(k, tags))
    ensures Inv(Apply(s, Update(k, tags)))
  {
    hide Pending;
    var t := Apply(s, Update(k, tags));
    assert Ops(t) == Ops(s);
    forall x ensures Named(t.index, x) <= Carried(t.storage, x) + Pending(Ops(t), x) {
      assert Named(s.index, x) <= Carried(s.storage, x) + Pending(Ops(s), x);
    }
  }

  lemma ClearInv(s: State, keys: set<Key>)
    requires Inv(s) && Enabled(s, Clear(keys))
    ensures Inv(Apply(s, Clear(keys)))
  {
    hide Pending;
    var t := Apply(s, Clear(keys));
    assert Ops(t) == Ops(s);
    forall x ensures Named(t.index, x) <= Carried(t.storage, x) + Pending(Ops(t), x) {
      assert Named(s.index, x) <= Carried(s.storage, x) + Pending(Ops(s), x);
    }
  }

  // Entries leave, or stay under their keys with their ids.
  ghost predicate Shrinks(m: map<Key, Entry>, n: map<Key, Entry>) {
    forall k :: k in n ==> k in m && n[k].id == m[k].id
  }

  lemma ShrinksDoomed(s: State, t: State)
    requires Doomed(s) && Shrinks(s.storage, t.storage) && t.calls == s.calls && t.next == s.next
    ensures Doomed(t)
  {
  }

  lemma RemovedShrinks(s: State, k: Key)
    ensures var t := Removed(s, k);
      Shrinks(s.storage, t.storage) && k !in t.storage && t.calls == s.calls && t.next == s.next
  {
  }

  lemma VisitDoomed(s: State, c: nat, k: Key)
    requires Doomed(s) && Enabled(s, Visit(c, k))
    ensures Doomed(Apply(s, Visit(c, k)))
  {
    hide Removed;
    RemovedShrinks(s, k);
  }

  lemma DoomedStep(s: State, a: Step)
    requires Inv(s) && Doomed(s) && Enabled(s, a)
    ensures Doomed(Apply(s, a))
  {
    hide Enqueued, Doomed, Inv, Pending;
    match a {
      case Insert(_, _) => CallDoomed(s, a);
      case Snapshot(_, _) => CallDoomed(s, a);
      case Return(_) => CallDoomed(s, a);
      case Visit(c, k) => VisitDoomed(s, c, k);
      case Remove(k) => RemovedShrinks(s, k); ShrinksDoomed(s, Apply(s, a));
      case Tombstone(k) => TombstoneShrinks(s, k); ShrinksDoomed(s, Apply(s, a));
      case _ => ShrinksDoomed(s, Apply(s, a));
    }
  }

  lemma TombstoneShrinks(s: State, k: Key)
    requires Enabled(s, Tombstone(k))
    ensures var t := Apply(s, Tombstone(k)); Shrinks(s.storage, t.storage) && t.calls == s.calls && t.next == s.next
  {
  }

  lemma CallDoomed(s: State, a: Step)
    requires Inv(s) && Doomed(s) && Enabled(s, a) && (a.Insert? || a.Snapshot? || a.Return?)
    ensures Doomed(Apply(s, a))
  {
    hide Pending;
  }

  // -- Whole runs ---------------------------------------------------------------------------------

  lemma {:induction false} RunInv(steps: seq<Step>, states: seq<State>, i: nat)
    requires Run(steps, states) && i < |states|
    ensures Inv(states[i]) && Doomed(states[i])
  {
    if i > 0 {
      hide Inv, Doomed, Apply;
      RunInv(steps, states, i - 1);
      InvStep(states[i - 1], steps[i - 1]);
      DoomedStep(states[i - 1], steps[i - 1]);
    }
  }

  // The index names every key under every tag its entry carries, unless its own Set is under way, and
  // every name beyond that is about to be removed by a queued op.
  lemma IndexCoversStorage(steps: seq<Step>, states: seq<State>, i: nat, k: Key, t: Tag)
    requires Run(steps, states) && i < |states|
    ensures var s := states[i]; k in s.storage && k !in s.busy && t in s.storage[k].tags ==> t in Named(s.index, k)
    ensures var s := states[i];
      && s.done <= |s.batch|
      && (t in Named(s.index, k) && t !in Carried(s.storage, k) ==>
            exists i :: 0 <= i < |Ops(s)| && Ops(s)[i].key == k && t in Ops(s)[i].tags)
  {
    RunInv(steps, states, i);
    var s := states[i];
    if t in Named(s.index, k) && t !in Carried(s.storage, k) { SomeOp(Ops(s), k, t); }
  }

  lemma {:induction false} SomeOp(ops: seq<Op>, k: Key, t: Tag)
    requires t in Pending(ops, k)
    ensures exists i :: 0 <= i < |ops| && ops[i].key == k && t in ops[i].tags
  {
    if ops[0].key != k || t !in ops[0].tags {
      SomeOp(ops[1..], k, t);
      var i :| 0 <= i < |ops[1..]| && ops[1..][i].key == k && t in ops[1..][i].tags;
      assert ops[i + 1] == ops[1..][i];
    }
  }

  // With no backlog and no Set under way the index is exactly the inverse of the stored tags.
  lemma ExactWhenDrained(steps: seq<Step>, states: seq<State>, i: nat, k: Key)
    requires Run(steps, states) && i < |states| && states[i].backlog == 0 && states[i].busy == {}
    ensures Named(states[i].index, k) == Carried(states[i].storage, k)
  {
    RunInv(steps, states, i);
    assert Ops(states[i]) == [];
  }

  lemma {:induction false} CallStands(steps: seq<Step>, states: seq<State>, i: nat, j: nat, c: nat)
    requires Run(steps, states) && i <= j < |states| && c in states[i].calls
    requires forall m :: i <= m < j ==> steps[m] != Return(c)
    ensures c in states[j].calls && states[j].calls[c].doomed == states[i].calls[c].doomed
    decreases j
  {
    if i < j {
      CallStands(steps, states, i, j - 1, c);
      assert states[j] == Apply(states[j - 1], steps[j - 1]) && steps[j - 1] != Return(c);
    }
  }

  // When InvalidateTag returns, no entry is stored any more that the index named under the tag at its
  // snapshot: by IndexCoversStorage every entry that carried it, save one whose own Set was under way.
  lemma InvalidateTagIsComplete(steps: seq<Step>, states: seq<State>, i: nat, j: nat, c: nat, tag: Tag, k: Key)
    requires Run(steps, states) && i < j < |steps| && steps[i] == Snapshot(c, tag) && steps[j] == Return(c)
    requires forall m :: i < m < j ==> steps[m] != Return(c)
    requires k in states[i].storage && tag in Named(states[i].index, k)
    ensures k in states[j].storage ==> states[j].storage[k].id != states[i].storage[k].id
  {
    hide Inv;
    assert states[i + 1] == Apply(states[i], steps[i]);
    CallStands(steps, states, i + 1, j, c);
    RunInv(steps, states, j);
    assert Enabled(states[j], steps[j]);
    assert k in states[j].calls[c].doomed;
  }

  ghost predicate Visited(steps: seq<Step>, i: nat, j: nat, c: nat, k: Key)
    requires i <= j <= |steps|
  {
    exists m :: i <= m < j && steps[m] == Visit(c, k)
  }

  lemma {:induction false} TodoIsUnvisited(steps: seq<Step>, states: seq<State>, i: nat, j: nat, c: nat, k: Key)
    requires Run(steps, states) && i <= j < |states| && c in states[i].calls
    requires forall m :: i <= m < j ==> steps[m] != Return(c)
    ensures c in states[j].calls
    ensures k in states[j].calls[c].todo <==> k in states[i].calls[c].todo && !Visited(steps, i, j, c, k)
    ensures Visited(steps, i, j, c, k) ==> k in states[i].calls[c].todo
    decreases j
  {
    if i < j {
      TodoIsUnvisited(steps, states, i, j - 1, c, k);
      VisitTodo(states[j - 1], steps[j - 1], c, k);
      assert Visited(steps, i, j, c, k) <==> Visited(steps, i, j - 1, c, k) || steps[j - 1] == Visit(c, k);
    }
  }

  lemma VisitTodo(s: State, a: Step, c: nat, k: Key)
    requires Enabled(s, a) && c in s.calls && a != Return(c)
    ensures var t := Apply(s, a);
      c in t.calls && (k in t.calls[c].todo <==> k in s.calls[c].todo && a != Visit(c, k))
  {
  }

  // The condition is exact: between snapshot and return the call visits precisely the keys the index
  // named, so any other entry outlives the call unless something else removes it.
  lemma VisitsIffNamed(steps: seq<Step>, states: seq<State>, i: nat, j: nat, c: nat, tag: Tag, k: Key)
    requires Run(steps, states) && i < j < |steps| && steps[i] == Snapshot(c, tag) && steps[j] == Return(c)
    requires forall m :: i < m < j ==> steps[m] != Return(c)
    ensures Visited(steps, i, j, c, k) <==> tag in Named(states[i].index, k)
  {
    assert states[i + 1] == Apply(states[i], steps[i]);
    TodoIsUnvisited(steps, states, i + 1, j, c, k);
    assert Enabled(states[j], steps[j]);
    assert Visited(steps, i, j, c, k) <==> Visited(steps, i + 1, j, c, k);
  }

  // The exception is real: an update in place untags the key before it tags it again, so an InvalidateTag
  // in between leaves the entry stored, carrying the tag before and after.
  lemma UpdateEscapesInvalidateTag(k: Key, tag: Tag, c: nat) returns (steps: seq<Step>, states: seq<State>)
    ensures Run(steps, states)
    ensures steps == [Insert(k, {tag}), TagBusy(k), Update(k, {tag}), Snapshot(c, tag), Return(c), TagBusy(k)]
    ensures forall i :: 2 <= i <= 6 ==> k in states[i].storage && states[i].storage[k] == Entry(0, {tag})
    ensures tag in Named(states[6].index, k)
  {
    hide Enqueued, Removed;
    steps := [Insert(k, {tag}), TagBusy(k), Update(k, {tag}), Snapshot(c, tag), Return(c), TagBusy(k)];
    var s0 := State(map[], map[], {}, [], [], 0, 0, map[], 0);
    var s1 := Apply(s0, steps[0]);
    var s2 := Apply(s1, steps[1]);
    var s3 := Apply(s2, steps[2]);
    var s4 := Apply(s3, steps[3]);
    assert s4.calls[c].todo == {};
    var s5 := Apply(s4, steps[4]);
    states := [s0, s1, s2, s3, s4, s5, Apply(s5, steps[5])];
  }

  // A removal with room in the queue leaves the index as it is, to be untagged by the drain.
  lemma RemovalIsDeferred(s: State, k: Key)
    requires Enabled(s, Remove(k)) && |s.queue| < 4096 && s.storage[k].tags != {}
    ensures var t := Apply(s, Remove(k));
      && k !in t.storage && t.index == s.index && t.queue == s.queue + [Op(k, s.storage[k].tags)]
      && t.backlog == s.backlog + 1
  {
  }

  // A run in which an update replaces a key's tags: the index names it under the new ones alone.
  lemma Retagged(k: Key, a: Tag, b: Tag) returns (steps: seq<Step>, states: seq<State>)
    requires a != b
    ensures steps == [Insert(k, {a}), TagBusy(k), Update(k, {b}), TagBusy(k)] && Run(steps, states)
    ensures Named(states[2].index, k) == {a} && Named(states[4].index, k) == {b} == Carried(states[4].storage, k)
  {
    hide Enqueued, Removed;
    steps := [Insert(k, {a}), TagBusy(k), Update(k, {b}), TagBusy(k)];
    var s0 := State(map[], map[], {}, [], [], 0, 0, map[], 0);
    var s1 := Apply(s0, steps[0]);
    var s2 := Apply(s1, steps[1]);
    var s3 := Apply(s2, steps[2]);
    states := [s0, s1, s2, s3, Apply(s3, steps[3])];
  }

  // A batch of one, from any state: the index loses the op's tags for its key, save those the key's entry
  // carries again, and the backlog counts one op less.
  lemma Drained(s: State)
    requires Enabled(s, Dequeue) && s.batch == [] && s.queue[0].key !in s.busy
    ensures Enabled(Apply(s, Dequeue), ApplyOne)
    ensures Enabled(Apply(Apply(s, Dequeue), ApplyOne), EndBatch)
    ensures
      var op, t := s.queue[0], Apply(Apply(Apply(s, Dequeue), ApplyOne), EndBatch);
      && t.queue == s.queue[1..] && t.batch == [] && t.backlog == s.backlog - 1 && t.storage == s.storage
      && Named(t.index, op.key) == Named(s.index, op.key) - (op.tags - Carried(s.storage, op.key))
      && forall k :: k != op.key ==> Named(t.index, k) == Named(s.index, k)
  {
    assert Apply(s, Dequeue).batch == [s.queue[0]];
  }

  // -- The index structure ------------------------------------------------------------------------

  predicate Names(m: map<Tag, set<Key>>, t: Tag, k: Key) {
    t in m && k in m[t]
  }

  class TagIndex {
    var keysByTag: map<Tag, set<Key>>

    // No tag is kept without keys.
    ghost predicate Valid()
      reads this
    {
      forall t :: t in keysByTag ==> keysByTag[t] != {}
    }

    constructor ()
      ensures Valid() && keysByTag == map[]
    {
      keysByTag := map[];
    }

    method AddTags(key: Key, tags: seq<Tag>)
      requires Valid()
      modifies this
      ensures Valid()
      ensures forall t, k :: Names(keysByTag, t, k) <==> Names(old(keysByTag), t, k) || (k == key && t in tags)
    {
      for i := 0 to |tags|
        invariant Valid()
        invariant forall t, k :: Names(keysByTag, t, k) <==> Names(old(keysByTag), t, k) || (k == key && t in tags[..i])
      {
        var t := tags[i];
        assert tags[..i + 1] == tags[..i] + [t];
        ghost var before := keysByTag;
        var keys := if t in keysByTag then keysByTag[t] else {};
        keysByTag := keysByTag[t := keys + {key}];
        assert forall u, k :: Names(keysByTag, u, k) <==> Names(before, u, k) || (k == key && u == t);
      }
      assert tags[..|tags|] == tags;
    }

    method RemoveTags(key: Key, tags: seq<Tag>)
      requires Valid()
      modifies this
      ensures Valid()
      ensures forall t, k :: Names(keysByTag, t, k) <==> Names(old(keysByTag), t, k) && !(k == key && t in tags)
    {
      for i := 0 to |tags|
        invariant Valid()
        invariant forall t, k ::
          Names(keysByTag, t, k) <==> Names(old(keysByTag), t, k) && !(k == key && t in tags[..i])
      {
        var t := tags[i];
        assert tags[..i + 1] == tags[..i] + [t];
        if t in keysByTag {
          var keys := keysByTag[t] - {key};
          assert forall k :: k in keysByTag[t] && k != key ==> k in keys;
          keysByTag := if keys == {} then keysByTag - {t} else keysByTag[t := keys];
        }
      }
      assert tags[..|tags|] == tags;
    }

    method SnapshotOf(tag: Tag) returns (keys: set<Key>)
      ensures forall k :: k in keys <==> Names(keysByTag, tag, k)
    {
      keys := if tag in keysByTag then keysByTag[tag] else {};
    }
  }
}
