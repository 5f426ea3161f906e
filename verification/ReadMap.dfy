/**
 * The lock-free read snapshot of readmap.go on one shard, without a Store, expire function or negative
 * cache. A locked section takes one step per store a lock-free reader can see, with the lock held
 * throughout; a lock-free reader takes one step per atomic load.
 */
module ReadMap {
  import opened Prelude

  type Key(==, !new)
  type Val(==, !new)

  // An entry's atomic fields; expireAt 0 means no expiry. Entries are never reused.
  datatype Entry = Entry(key: Key, value: Val, expireAt: int)

  // What the shard lock guards.
  datatype Live = Live(entries: map<nat, Entry>, storage: map<Key, nat>)

  datatype Shard = Shard(live: Live, invalidated: set<nat>, snapshot: map<Key, nat>, amended: bool, misses: nat)

  datatype Answer = Miss | Hit(v: Val)

  predicate Expired(e: Entry, now: int) {
    e.expireAt != 0 && now >= e.expireAt
  }

  // What Get returns under the shard lock.
  function LockedRead(m: Live, k: Key, now: int): Answer {
    if k in m.storage && m.storage[k] in m.entries && !Expired(m.entries[m.storage[k]], now)
    then Hit(m.entries[m.storage[k]].value) else Miss
  }

  predicate Stored(m: Live, k: Key, id: nat) {
    k in m.storage && m.storage[k] == id
  }

  // -- Locked sections ----------------------------------------------------------------------------

  datatype Op =
    | Put(id: nat, e: Entry)            // storage.set and markAmended
    | Out(k: Key)                       // removeLocked, if the key is stored
    | SetValue(k: Key, v: Val)          // the halves of an in-place update
    | SetExpiry(k: Key, expireAt: int)
    | Retime(k: Key, expireAt: int)
    | Bump                              // maybePromoteOnSlowHit
    | Publish                           // promoteReadMapLocked
    | Empty

  function Changed(m: Live, k: Key, e: Entry): Live
    requires k in m.storage
  {
    m.(entries := m.entries[m.storage[k] := e])
  }

  predicate Holds(m: Live, k: Key) {
    k in m.storage && m.storage[k] in m.entries
  }

  function Acted(m: Live, op: Op): Live {
    match op
    case Put(id, e) => Live(m.entries[id := e], m.storage[e.key := id])
    case Out(k) => m.(storage := m.storage - {k})
    case SetValue(k, v) => if Holds(m, k) then Changed(m, k, m.entries[m.storage[k]].(value := v)) else m
    case SetExpiry(k, at) => if Holds(m, k) then Changed(m, k, m.entries[m.storage[k]].(expireAt := at)) else m
    case Retime(k, at) => if Holds(m, k) then Changed(m, k, m.entries[m.storage[k]].(expireAt := at)) else m
    case Bump => m
    case Publish => m
    case Empty => m.(storage := map[])
  }

  function Exec(m: Live, ops: seq<Op>): Live
    decreases |ops|
  {
    if ops == [] then m else Exec(Acted(m, ops[0]), ops[1..])
  }

  function Threshold(s: Shard): nat {
    if |s.snapshot| < 8 then 8 else |s.snapshot|
  }

  function Promoted(s: Shard): Shard {
    if !s.amended && s.misses == 0 then s else s.(snapshot := s.live.storage, amended := false, misses := 0)
  }

  function Bumped(s: Shard): Shard {
    var t := s.(misses := s.misses + 1);
    if t.misses >= Threshold(t) then Promoted(t) else t
  }

  function Performed(s: Shard, op: Op): Shard {
    var t := s.(live := Acted(s.live, op));
    match op
    case Put(_, _) => t.(amended := true)
    case Out(k) => if k in s.live.storage then Bumped(t.(invalidated := s.invalidated + {s.live.storage[k]})) else s
    case Bump => Bumped(t)
    case Publish => Promoted(t)
    case Empty => Shard(t.live, s.invalidated + s.live.storage.Values, map[], false, 0)
    case _ => t
  }

  datatype Section =
    | Insert(id: nat, e: Entry, victims: seq<Key>)  // a new key, then the evictions it causes
    | Replace(id: nat, e: Entry, victims: seq<Key>) // a loaded snapshot's record over any existing entry
    | Update(k: Key, v: Val, expireAt: int)
    | Refresh(k: Key, expireAt: int)                // Touch, Expire and sliding accesses
    | Remove(keys: seq<Key>)                        // deletes, evictions, expiry sweeps
    | SlowHit                                       // a locked lookup the snapshot could not answer
    | Promote
    | Clear

  function Outs(keys: seq<Key>): seq<Op> {
    seq(|keys|, i requires 0 <= i < |keys| => Out(keys[i]))
  }

  function Ops(a: Section): seq<Op> {
    match a
    case Insert(id, e, victims) => [Put(id, e)] + Outs(victims)
    case Replace(id, e, victims) => [Out(e.key), Put(id, e)] + Outs(victims)
    case Update(k, v, at) => [SetValue(k, v), SetExpiry(k, at)]
    case Refresh(k, at) => [Retime(k, at)]
    case Remove(keys) => Outs(keys)
    case SlowHit => [Bump]
    case Promote => [Publish]
    case Clear => [Empty]
  }

  // After an insert S3-FIFO, the one policy with lock-free reads, spares the new entry; after a load it
  // may shed it.
  predicate Allowed(m: Live, a: Section) {
    match a
    case Insert(id, e, victims) => id !in m.entries && e.key !in m.storage && e.key !in victims
    case Replace(id, _, _) => id !in m.entries
    case Update(k, _, _) => k in m.storage
    case _ => true
  }

  // -- A lock-free reader -------------------------------------------------------------------------

  datatype Pc =
    | NotStarted
    | LoadSnapshot
    | LoadInvalidated(id: nat)
    | LoadExpiry(id: nat)
    | LoadValue(id: nat)
    | Answered(a: Answer)
    | FallThrough // to the locked path

  // seen holds what a locked read of key at now would have returned so far during the call.
  datatype Reader = Reader(key: Key, now: int, pc: Pc, seen: set<Answer>)

  // One atomic load. A reader may also fall through after the expiry check, for a sliding entry, a due
  // refresh or a due promotion by the policy.
  ghost predicate Loads(s: Shard, r: Reader, q: Pc) {
    match r.pc
    case LoadSnapshot =>
      if r.key in s.snapshot then q == LoadInvalidated(s.snapshot[r.key])
      else if s.amended then q == FallThrough else q == Answered(Miss)
    case LoadInvalidated(id) => q == if id in s.invalidated then FallThrough else LoadExpiry(id)
    case LoadExpiry(id) =>
      id in s.live.entries && q == if Expired(s.live.entries[id], r.now) then FallThrough else LoadValue(id)
    case LoadValue(id) => q == FallThrough || (id in s.live.entries && q == Answered(Hit(s.live.entries[id].value)))
    case _ => false
  }

  // a is the latest section and todo what it has yet to do; the lock is held while todo is not empty. lo
  // is what the lock guarded before that section, and hi what it guards after.
  datatype State = State(s: Shard, lo: Live, hi: Live, a: Section, todo: seq<Op>, clock: int, r: Reader)

  datatype Step =
    | Start(a: Section)
    | Micro          // the next store of the section under way
    | Count          // a miss recorded outside the lock
    | Tick(d: nat)
    | Begin(k: Key)
    | Load

  function Started(x: State, a: Section): State {
    var hi := Exec(x.s.live, Ops(a));
    x.(hi := hi, a := a, todo := Ops(a), lo := if Ops(a) == [] then hi else x.lo, r := Watched(hi, x.r))
  }

  function MicroOf(x: State): State
    requires x.todo != []
  {
    x.(s := Performed(x.s, x.todo[0]), todo := x.todo[1..], lo := if |x.todo| == 1 then x.hi else x.lo)
  }

  function Watched(hi: Live, r: Reader): Reader {
    if r.pc.NotStarted? then r else r.(seen := r.seen + {LockedRead(hi, r.key, r.now)})
  }

  ghost predicate Next(x: State, a: Step, y: State) {
    match a
    case Start(section) => x.todo == [] && Allowed(x.s.live, section) && y == Started(x, section)
    case Micro => x.todo != [] && y == MicroOf(x)
    case Count => y == x.(s := x.s.(misses := x.s.misses + 1))
    case Tick(d) => y == x.(clock := x.clock + d)
    case Begin(k) =>
      && x.r.pc.NotStarted?
      && y == x.(r := Reader(k, x.clock, LoadSnapshot, {LockedRead(x.lo, k, x.clock), LockedRead(x.hi, k, x.clock)}))
    case Load => y == x.(r := x.r.(pc := y.r.pc)) && Loads(x.s, x.r, y.r.pc)
  }

  const NOTHING := Live(map[], map[])

  ghost predicate Behaviour(steps: seq<Step>, states: seq<State>) {
    && |states| == |steps| + 1 && states[0].r.pc.NotStarted?
    && states[0].s == Shard(NOTHING, {}, map[], false, 0) && states[0].todo == []
    && states[0].lo == states[0].hi == NOTHING
    && forall i :: 0 <= i < |steps| ==> Next(states[i], steps[i], states[i + 1])
  }

  // -- The shard ----------------------------------------------------------------------------------

  // An entry is stored exactly until it is invalidated, the snapshot holds entries of their keys, and
  // an unamended snapshot covers all of storage.
  ghost predicate Inv(s: Shard) {
    && (forall k :: k in s.live.storage ==> Of(s.live, s.live.storage[k], k) && s.live.storage[k] !in s.invalidated)
    && (forall k :: k in s.snapshot ==> Of(s.live, s.snapshot[k], k))
    && (forall id :: id in s.live.entries && id !in s.invalidated ==> Stored(s.live, s.live.entries[id].key, id))
    && s.invalidated <= s.live.entries.Keys
    && (!s.amended ==> forall k :: k in s.live.storage ==> k in s.snapshot && s.snapshot[k] == s.live.storage[k])
  }

  predicate Of(m: Live, id: nat, k: Key) {
    id in m.entries && m.entries[id].key == k
  }

  predicate Fresh(m: Live, op: Op) {
    op.Put? ==> op.id !in m.entries && op.e.key !in m.storage
  }

  lemma PromotedInv(s: Shard)
    requires Inv(s)
    ensures Inv(Promoted(s)) && Inv(Bumped(s))
  {
  }

  // A miss publishes the storage as the new snapshot exactly when it is at least the eighth since the last one
  // and there have been as many as the snapshot has keys.
  lemma BumpPublishesIff(s: Shard)
    ensures var t := Bumped(s);
      if s.misses + 1 >= 8 && s.misses + 1 >= |s.snapshot|
      then t == s.(snapshot := s.live.storage, amended := false, misses := 0)
      else t == s.(misses := s.misses + 1)
  {
  }

  lemma OutInv(s: Shard, k: Key)
    requires Inv(s) && k in s.live.storage
    ensures Inv(s.(live := Acted(s.live, Out(k)), invalidated := s.invalidated + {s.live.storage[k]}))
  {
  }

  lemma EmptyInv(s: Shard)
    requires Inv(s)
    ensures Inv(Performed(s, Empty))
    ensures var t := Performed(s, Empty); t.live.storage == t.snapshot == map[] && !t.amended && t.misses == 0
  {
    forall id | id in s.live.entries && id !in s.invalidated ensures id in s.live.storage.Values {
      assert s.live.storage[s.live.entries[id].key] == id;
    }
  }

  lemma PerformedInv(s: Shard, op: Op)
    requires Inv(s) && Fresh(s.live, op)
    ensures Inv(Performed(s, op))
  {
    hide Bumped, Promoted;
    match op {
      case Out(k) =>
        if k in s.live.storage {
          OutInv(s, k);
          PromotedInv(s.(live := Acted(s.live, op), invalidated := s.invalidated + {s.live.storage[k]}));
        }
      case Empty => EmptyInv(s);
      case Bump => PromotedInv(s);
      case Publish => PromotedInv(s);
      case _ =>
    }
  }

  lemma PerformedLive(s: Shard, op: Op)
    ensures Performed(s, op).live == Acted(s.live, op)
  {
    assert op.Out? && op.k !in s.live.storage ==> s.live.storage - {op.k} == s.live.storage;
  }

  // -- The section under way ----------------------------------------------------------------------

  predicate AllOuts(ops: seq<Op>) {
    forall i :: 0 <= i < |ops| ==> ops[i].Out?
  }

  lemma OutsAre(keys: seq<Key>, k: Key)
    ensures AllOuts(Outs(keys)) && (Out(k) in Outs(keys) <==> k in keys)
  {
    if k in keys {
      var i :| 0 <= i < |keys| && keys[i] == k;
      assert Outs(keys)[i] == Out(k);
    }
  }

  lemma {:induction false} ExecOuts(m: Live, ops: seq<Op>)
    requires AllOuts(ops)
    ensures Exec(m, ops).entries == m.entries
    ensures forall k :: k in Exec(m, ops).storage <==> k in m.storage && Out(k) !in ops
    ensures forall k :: k in Exec(m, ops).storage ==> Exec(m, ops).storage[k] == m.storage[k]
    decreases |ops|
  {
    if ops != [] {
      ExecOuts(Acted(m, ops[0]), ops[1..]);
      assert forall k :: Out(k) in ops <==> Out(k) in ops[1..] || ops[0] == Out(k);
    }
  }

  ghost predicate Unused(m: Live, id: nat) {
    id !in m.entries && forall k :: k in m.storage ==> m.storage[k] != id
  }

  // m is lo with the entry of e put and perhaps other keys gone.
  ghost predicate HasPut(m: Live, lo: Live, id: nat, e: Entry) {
    && Unused(lo, id) && m.entries == lo.entries[id := e]
    && (forall k :: k in m.storage && k != e.key ==> Stored(lo, k, m.storage[k]))
    && (e.key in m.storage ==> m.storage[e.key] == id)
  }

  // Where section a stands, with m guarded now and lo before it.
  ghost predicate Shape(m: Live, lo: Live, a: Section, todo: seq<Op>) {
    if todo == [] then lo == m
    else match a
      case Insert(id, e, _) =>
        && Out(e.key) !in todo
        && e.key !in lo.storage
        && if todo[0].Put? then todo[0] == Put(id, e) && AllOuts(todo[1..]) && lo == m && Unused(lo, id)
           else AllOuts(todo) && HasPut(m, lo, id, e)
      case Replace(id, e, _) =>
        if todo[0].Put? then
          todo[0] == Put(id, e) && AllOuts(todo[1..]) && m == Acted(lo, Out(e.key)) && Unused(lo, id)
        else if |todo| > 1 && todo[1].Put? then
          todo[0] == Out(e.key) && todo[1] == Put(id, e) && AllOuts(todo[2..]) && m == lo && Unused(lo, id)
        else AllOuts(todo) && HasPut(m, lo, id, e)
      case Remove(_) => AllOuts(todo) && m.entries == lo.entries && m.storage.Items <= lo.storage.Items
      case Update(k, v, at) =>
        || (todo == Ops(a) && m == lo && k in m.storage)
        || (todo == [SetExpiry(k, at)] && m == Acted(lo, SetValue(k, v)) && k in m.storage)
      case _ => todo == Ops(a) && m == lo
  }

  ghost predicate Frame(x: State) {
    Shape(x.s.live, x.lo, x.a, x.todo) && x.hi == Exec(x.s.live, x.todo)
  }

  lemma StartFrame(x: State, a: Section)
    requires Inv(x.s) && Frame(x) && x.todo == [] && Allowed(x.s.live, a)
    ensures Frame(Started(x, a))
  {
    hide Exec;
    match a {
      case Insert(_, e, victims) => OutsAre(victims, e.key);
      case Replace(_, e, victims) => OutsAre(victims, e.key);
      case Remove(keys) => assert AllOuts(Outs(keys)); ExecNone(x.s.live);
      case _ =>
    }
  }

  lemma ExecNone(m: Live)
    ensures Exec(m, []) == m
  {
  }

  lemma MicroFrame(x: State)
    requires Inv(x.s) && Frame(x) && x.todo != []
    ensures Frame(MicroOf(x)) && Fresh(x.s.live, x.todo[0])
  {
    hide Performed, Inv;
    PerformedLive(x.s, x.todo[0]);
    if |x.todo| == 1 { ExecNone(Acted(x.s.live, x.todo[0])); }
  }

  // The key is the same to m as to n.
  predicate Same(m: Live, n: Live, k: Key) {
    (k in m.storage <==> k in n.storage) && (k in m.storage ==> m.storage[k] == n.storage[k])
  }

  // Every key is as before the section or as after it.
  ghost predicate Whole(m: Live, lo: Live, hi: Live) {
    forall k :: Same(m, lo, k) || Same(m, hi, k)
  }

  // The next store of a Replace removes an entry and publishes a snapshot in which the section's own key is
  // neither as before nor as after: its old entry is out and the new one not yet put, or the new one is
  // put and due to be shed.
  predicate Gap(x: State) {
    && x.a.Replace? && x.todo != [] && x.todo[0].Out? && x.todo[0].k in x.s.live.storage
    && x.s.misses + 1 >= Threshold(x.s)
    && var k := x.a.e.key;
       if x.todo[0].k == k then |x.todo| >= 2 && x.todo[1].Put? && Out(k) !in x.todo[2..]
       else k in x.s.live.storage && Out(k) in x.todo[1..]
  }

  // No key is missing from an authoritative snapshot that the section finds and leaves stored, and every
  // entry of the snapshot still valid is the one stored before the section or after it.
  ghost predicate Honest(s: Shard, lo: Live, hi: Live) {
    && (!s.amended ==> forall k :: k in lo.storage && k in hi.storage ==> k in s.snapshot)
    && (forall k :: k in s.snapshot && s.snapshot[k] !in s.invalidated ==>
          Stored(lo, k, s.snapshot[k]) || Stored(hi, k, s.snapshot[k]))
  }

  // What a removal leaves is whole, but for a Replace's own key between its stores.
  lemma WholeIff(x: State)
    requires Frame(x) && x.todo != [] && x.todo[0].Out? && x.todo[0].k in x.s.live.storage
    requires x.s.misses + 1 >= Threshold(x.s)
    ensures Whole(Acted(x.s.live, x.todo[0]), x.lo, x.hi) <==> !Gap(x)
  {
    hide Threshold;
    var m := Acted(x.s.live, x.todo[0]);
    if x.a.Replace? && |x.todo| > 1 && x.todo[1].Put? {
      SwapWhole(x.lo, x.a.id, x.a.e, x.todo);
    } else {
      ExecOuts(x.s.live, x.todo);
      if x.a.Replace? || x.a.Insert? {
        PutWhole(x.s.live, x.lo, x.a.id, x.a.e, x.todo);
      } else {
        forall k ensures Same(m, x.lo, k) || Same(m, x.hi, k) {
          assert k in x.s.live.storage ==> (k, x.s.live.storage[k]) in x.lo.storage.Items;
        }
      }
    }
  }

  // Between a Replace's removal and its insert.
  lemma SwapWhole(lo: Live, id: nat, e: Entry, todo: seq<Op>)
    requires |todo| > 1 && todo[0] == Out(e.key) && todo[1] == Put(id, e) && AllOuts(todo[2..])
    requires e.key in lo.storage && id !in lo.entries
    ensures Whole(Acted(lo, todo[0]), lo, Exec(lo, todo)) <==> Out(e.key) in todo[2..]
  {
    var m, n := Acted(lo, todo[0]), Acted(Acted(lo, todo[0]), todo[1]);
    assert todo[1..][1..] == todo[2..];
    assert Exec(lo, todo) == Exec(n, todo[2..]);
    ExecOuts(n, todo[2..]);
    assert Same(m, lo, e.key) || Same(m, Exec(lo, todo), e.key) <==> Out(e.key) in todo[2..];
    forall k | k != e.key ensures Same(m, lo, k) {}
  }

  // After the insert, while removals are left.
  lemma PutWhole(m: Live, lo: Live, id: nat, e: Entry, todo: seq<Op>)
    requires todo != [] && AllOuts(todo) && HasPut(m, lo, id, e)
    ensures var n := Acted(m, todo[0]);
      Whole(n, lo, Exec(m, todo)) <==> !(todo[0] != Out(e.key) && e.key in m.storage && Out(e.key) in todo[1..])
  {
    var n, hi := Acted(m, todo[0]), Exec(m, todo);
    ExecOuts(m, todo);
    assert Out(e.key) in todo <==> todo[0] == Out(e.key) || Out(e.key) in todo[1..];
    assert Same(n, lo, e.key) || Same(n, hi, e.key) <==>
           !(todo[0] != Out(e.key) && e.key in m.storage && Out(e.key) in todo[1..]);
    forall k | k != e.key ensures Same(n, lo, k) || Same(n, hi, k) {}
  }

  lemma AtRestHonest(s: Shard)
    requires Inv(s)
    ensures Honest(s, s.live, s.live)
  {
  }

  lemma PublishedHonest(s: Shard, lo: Live, hi: Live)
    requires Inv(s) && s.snapshot == s.live.storage && !s.amended
    ensures Honest(s, lo, hi) <==> Whole(s.live, lo, hi)
  {
    if Honest(s, lo, hi) {
      forall k ensures Same(s.live, lo, k) || Same(s.live, hi, k) {}
    }
    if Whole(s.live, lo, hi) {
      forall k | k in lo.storage && k in hi.storage ensures k in s.snapshot {
        assert Same(s.live, lo, k) || Same(s.live, hi, k);
      }
      forall k | k in s.snapshot ensures Stored(lo, k, s.snapshot[k]) || Stored(hi, k, s.snapshot[k]) {
        assert Same(s.live, lo, k) || Same(s.live, hi, k);
      }
    }
  }

  // The snapshot stays honest through a section's next store if and only if that is not a gap.
  lemma HonestIff(x: State)
    requires Inv(x.s) && Frame(x) && Honest(x.s, x.lo, x.hi) && x.todo != []
    ensures var y := MicroOf(x); Honest(y.s, y.lo, y.hi) <==> !Gap(x)
  {
    hide Inv, Shape, Exec, Honest;
    var op, y := x.todo[0], MicroOf(x);
    MicroFrame(x);
    PerformedInv(x.s, op);
    PerformedLive(x.s, op);
    if |x.todo| == 1 {
      RestingFrame(y);
      AtRestHonest(y.s);
    } else if op.Out? && op.k in x.s.live.storage && x.s.misses + 1 >= Threshold(x.s) {
      WholeIff(x);
      PublishedHonest(y.s, x.lo, x.hi);
    } else {
      QuietOp(x);
      QuietHonest(x.s, y.s, x.lo, x.hi);
    }
  }

  lemma RestingFrame(x: State)
    requires Frame(x) && x.todo == []
    ensures x.lo == x.hi == x.s.live
  {
  }

  lemma QuietOp(x: State)
    requires Frame(x) && |x.todo| > 1
    ensures !x.todo[0].Bump? && !x.todo[0].Publish? && !x.todo[0].Empty?
  {
  }

  lemma QuietHonest(s: Shard, t: Shard, lo: Live, hi: Live)
    requires Honest(s, lo, hi) && t.snapshot == s.snapshot && s.invalidated <= t.invalidated
    requires s.amended ==> t.amended
    ensures Honest(t, lo, hi)
  {
  }

  // -- The reader ---------------------------------------------------------------------------------

  // An in-place update under way does not give its entry an expiry that has already passed.
  predicate Timely(x: State) {
    forall i :: 0 <= i < |x.todo| && x.todo[i].SetExpiry? ==> x.todo[i].expireAt == 0 || x.todo[i].expireAt > x.clock
  }

  // Up to the invalidated check a valid entry is the one stored before the section under way or after it.
  // Past that check the entry's value, if unexpired, is one a locked read would have returned during the
  // call; past the expiry check it is one whether or not it has expired since.
  ghost predicate ReaderInv(x: State) {
    var m, r := x.s.live, x.r;
    r.pc.NotStarted? ||
    (&& r.now <= x.clock && LockedRead(x.lo, r.key, r.now) in r.seen && LockedRead(x.hi, r.key, r.now) in r.seen
     && match r.pc
        case LoadInvalidated(id) =>
          Of(m, id, r.key) && (id !in x.s.invalidated ==> Stored(x.lo, r.key, id) || Stored(x.hi, r.key, id))
        case LoadExpiry(id) =>
          Of(m, id, r.key) && (!Expired(m.entries[id], r.now) ==> Hit(m.entries[id].value) in r.seen)
        case LoadValue(id) => Of(m, id, r.key) && Hit(m.entries[id].value) in r.seen
        case Answered(a) => a in r.seen
        case _ => true)
  }

  predicate Edits(op: Op) {
    op.SetValue? || op.SetExpiry? || op.Retime?
  }

  lemma {:induction false} ExecKeeps(m: Live, ops: seq<Op>, id: nat)
    requires id in m.entries && forall i :: 0 <= i < |ops| ==> !Edits(ops[i]) && (ops[i].Put? ==> ops[i].id != id)
    ensures id in Exec(m, ops).entries && Exec(m, ops).entries[id] == m.entries[id]
    decreases |ops|
  {
    if ops != [] { ExecKeeps(Acted(m, ops[0]), ops[1..], id); }
  }

  // Outside an edit, a stored entry is the same before the section, now and after it.
  lemma UneditedEntry(x: State, id: nat)
    requires Inv(x.s) && Frame(x) && id in x.s.live.entries && !x.a.Update? && !x.a.Refresh?
    ensures id in x.hi.entries && x.hi.entries[id] == x.s.live.entries[id]
    ensures forall k :: Stored(x.lo, k, id) ==> id in x.lo.entries && x.lo.entries[id] == x.s.live.entries[id]
  {
    hide Exec;
    ExecKeeps(x.s.live, x.todo, id);
  }

  lemma EditedEntry(x: State, k: Key, id: nat, now: int)
    requires Inv(x.s) && Frame(x) && (x.a.Update? || x.a.Refresh?) && (Stored(x.lo, k, id) || Stored(x.hi, k, id))
    ensures Stored(x.lo, k, id) && Stored(x.hi, k, id) && id in x.lo.entries && id in x.hi.entries
    ensures Timely(x) && now <= x.clock && !Expired(x.s.live.entries[id], now) ==>
      Hit(x.s.live.entries[id].value) in {LockedRead(x.lo, k, now), LockedRead(x.hi, k, now)}
  {
    EditedHi(x);
  }

  lemma ExecFew(m: Live, ops: seq<Op>)
    ensures |ops| == 1 ==> Exec(m, ops) == Acted(m, ops[0])
    ensures |ops| == 2 ==> Exec(m, ops) == Acted(Acted(m, ops[0]), ops[1])
  {
    if |ops| == 2 {
      var n := Acted(m, ops[0]);
      assert Exec(n, ops[1..]) == Exec(Acted(n, ops[1]), ops[1..][1..]);
      assert ops[1..][1..] == [];
    }
  }

  lemma EditedHi(x: State)
    requires Frame(x) && (x.a.Update? || x.a.Refresh?)
    ensures x.todo == [] ==> x.hi == x.s.live
    ensures |x.todo| == 1 ==> x.hi == Acted(x.s.live, x.todo[0])
    ensures |x.todo| == 2 ==> x.hi == Acted(Acted(x.s.live, x.todo[0]), x.todo[1])
    ensures |x.todo| <= 2
  {
    if x.todo != [] { ExecFew(x.s.live, x.todo); }
  }

  // An unexpired entry that is stored before the section or after it is what a locked read returns.
  lemma ValidEntry(x: State, k: Key, id: nat, now: int)
    requires Inv(x.s) && Frame(x) && Timely(x) && now <= x.clock
    requires Of(x.s.live, id, k) && (Stored(x.lo, k, id) || Stored(x.hi, k, id))
    requires !Expired(x.s.live.entries[id], now)
    ensures Hit(x.s.live.entries[id].value) in {LockedRead(x.lo, k, now), LockedRead(x.hi, k, now)}
  {
    hide Inv, Frame, Timely;
    if x.a.Update? || x.a.Refresh? { EditedEntry(x, k, id, now); } else { UneditedEntry(x, id); }
  }

  lemma LoadStep(x: State, y: State)
    requires Inv(x.s) && Frame(x) && Timely(x) && Honest(x.s, x.lo, x.hi) && ReaderInv(x) && Next(x, Load, y)
    ensures ReaderInv(y)
  {
    hide Shape, Exec;
    match x.r.pc {
      case LoadInvalidated(id) =>
        if id !in x.s.invalidated && !Expired(x.s.live.entries[id], x.r.now) { ValidEntry(x, x.r.key, id, x.r.now); }
      case _ =>
    }
  }

  lemma StartStep(x: State, a: Section, y: State)
    requires Inv(x.s) && Frame(x) && ReaderInv(x) && Next(x, Start(a), y)
    ensures ReaderInv(y)
  {
    hide Exec;
    RestingFrame(x);
    ExecNone(x.s.live);
  }

  lemma EntryKept(m: Live, op: Op, id: nat)
    requires Fresh(m, op) && id in m.entries
    ensures var n := Acted(m, op); id in n.entries && n.entries[id].key == m.entries[id].key
    ensures var n := Acted(m, op); !Edits(op) ==> n.entries[id] == m.entries[id]
    ensures var n := Acted(m, op); op.SetExpiry? || op.Retime? ==> n.entries[id].value == m.entries[id].value
    ensures var n := Acted(m, op);
      n.entries[id] != m.entries[id] ==> Edits(op) && Stored(m, op.k, id) && n.storage == m.storage
  {
  }

  // The value an edit leaves is what a locked read returns after the section, once it has not expired.
  lemma EditSeen(x: State, id: nat, now: int)
    requires Inv(x.s) && Frame(x) && x.todo != [] && id in x.s.live.entries
    requires Acted(x.s.live, x.todo[0]).entries[id] != x.s.live.entries[id]
    ensures var e, k := Acted(x.s.live, x.todo[0]).entries[id], x.s.live.entries[id].key;
      && (x.todo[0].SetValue? && Timely(x) && now <= x.clock ==> LockedRead(x.hi, k, now) == Hit(e.value))
      && (!x.todo[0].SetValue? && !Expired(e, now) ==> LockedRead(x.hi, k, now) == Hit(e.value))
  {
    EditedHi(x);
  }

  lemma StoredNow(s: Shard, id: nat)
    requires Inv(s) && id in s.live.entries && id !in s.invalidated
    ensures Stored(s.live, s.live.entries[id].key, id)
  {
  }

  lemma Invalidates(s: Shard, op: Op)
    ensures s.invalidated <= Performed(s, op).invalidated
  {
  }

  lemma MicroStep(x: State)
    requires Inv(x.s) && Frame(x) && Timely(x) && ReaderInv(x) && x.todo != []
    ensures ReaderInv(MicroOf(x))
  {
    hide Inv, Frame, Timely, Performed, Acted, LockedRead, Fresh;
    var op, y := x.todo[0], MicroOf(x);
    MicroFrame(x);
    PerformedInv(x.s, op);
    PerformedLive(x.s, op);
    Invalidates(x.s, op);
    match x.r.pc {
      case LoadInvalidated(id) =>
        EntryKept(x.s.live, op, id);
        if |x.todo| == 1 && id !in y.s.invalidated {
          StoredNow(y.s, id);
          RestingFrame(y);
        }
      case LoadExpiry(id) => EntryKept(x.s.live, op, id); EditStep(x, id);
      case LoadValue(id) => EntryKept(x.s.live, op, id); EditStep(x, id);
      case _ =>
    }
  }

  lemma EditStep(x: State, id: nat)
    requires Inv(x.s) && Frame(x) && Timely(x) && x.todo != [] && id in x.s.live.entries && x.r.now <= x.clock
    requires id in Acted(x.s.live, x.todo[0]).entries
    ensures var n := Acted(x.s.live, x.todo[0]);
      n.entries[id] != x.s.live.entries[id] && (x.todo[0].SetValue? || !Expired(n.entries[id], x.r.now)) ==>
        LockedRead(x.hi, x.s.live.entries[id].key, x.r.now) == Hit(n.entries[id].value)
  {
    if Acted(x.s.live, x.todo[0]).entries[id] != x.s.live.entries[id] { EditSeen(x, id, x.r.now); }
  }

  // -- Whole runs ---------------------------------------------------------------------------------

  // a is what a locked read would have returned at some instant since the call began; a section under way
  // at that instant counts as not yet begun or as done.
  ghost predicate During(states: seq<State>, i: nat, a: Answer)
    requires i < |states|
  {
    exists m :: 0 <= m <= i && Returns(states[m], states[i].r.key, states[i].r.now, a)
  }

  predicate Returns(x: State, k: Key, now: int, a: Answer) {
    !x.r.pc.NotStarted? && (LockedRead(x.lo, k, now) == a || LockedRead(x.hi, k, now) == a)
  }

  ghost predicate NoGaps(steps: seq<Step>, states: seq<State>)
    requires |states| == |steps| + 1
  {
    forall i :: 0 <= i < |steps| && steps[i].Micro? ==> !Gap(states[i])
  }

  lemma {:induction false} SeenDuring(steps: seq<Step>, states: seq<State>, i: nat, a: Answer)
    requires Behaviour(steps, states) && i < |states| && !states[i].r.pc.NotStarted? && a in states[i].r.seen
    ensures During(states, i, a)
  {
    hide Exec, Performed, Allowed, LockedRead;
    if i > 0 {
      var x, y := states[i - 1], states[i];
      assert Next(x, steps[i - 1], y);
      if Returns(y, y.r.key, y.r.now, a) {
      } else {
        SeenDuring(steps, states, i - 1, a);
        var m :| 0 <= m <= i - 1 && Returns(states[m], x.r.key, x.r.now, a);
        assert Returns(states[m], y.r.key, y.r.now, a);
      }
    }
  }

  lemma {:induction false} ShardInv(steps: seq<Step>, states: seq<State>, i: nat)
    requires Behaviour(steps, states) && i < |states|
    ensures Inv(states[i].s) && Frame(states[i])
  {
    if i > 0 {
      hide Performed, Inv, Shape, Exec, Allowed;
      ShardInv(steps, states, i - 1);
      var x, a := states[i - 1], steps[i - 1];
      assert Next(x, a, states[i]);
      match a {
        case Start(section) => StartFrame(x, section);
        case Micro => MicroFrame(x); PerformedInv(x.s, x.todo[0]);
        case Count => CountInv(x.s);
        case _ =>
      }
    }
  }

  lemma CountInv(s: Shard)
    requires Inv(s)
    ensures Inv(s.(misses := s.misses + 1))
  {
  }

  lemma HonestStep(x: State, a: Step, y: State)
    requires Inv(x.s) && Frame(x) && Honest(x.s, x.lo, x.hi) && Next(x, a, y) && (a.Micro? ==> !Gap(x))
    ensures Honest(y.s, y.lo, y.hi)
  {
    hide Inv, Shape, Exec, Performed, Gap, Allowed, Ops, Honest, Loads;
    match a {
      case Start(section) => RestingFrame(x); AtRestHonest(x.s); BeginHonest(x.s, y.lo, y.hi);
      case Micro => HonestIff(x);
      case _ => QuietHonest(x.s, y.s, x.lo, x.hi);
    }
  }

  lemma {:induction false} HonestInv(steps: seq<Step>, states: seq<State>, i: nat)
    requires Behaviour(steps, states) && i < |states| && NoGaps(steps, states)
    ensures Honest(states[i].s, states[i].lo, states[i].hi)
  {
    if i > 0 {
      hide Inv, Frame, Next, Gap, Honest;
      HonestInv(steps, states, i - 1);
      ShardInv(steps, states, i - 1);
      HonestStep(states[i - 1], steps[i - 1], states[i]);
    }
  }

  lemma BeginHonest(s: Shard, lo: Live, hi: Live)
    requires Honest(s, s.live, s.live) && (lo == s.live || hi == s.live)
    ensures Honest(s, lo, hi)
  {
  }

  lemma {:induction false} TimelyInv(steps: seq<Step>, states: seq<State>, i: nat)
    requires Behaviour(steps, states) && i < |states| && NoGaps(steps, states)
    requires forall m :: 0 <= m < |states| ==> Timely(states[m])
    ensures ReaderInv(states[i])
  {
    hide Inv, Frame, Honest, Timely, NoGaps, Performed, Exec;
    if i > 0 {
      TimelyInv(steps, states, i - 1);
      ShardInv(steps, states, i - 1);
      HonestInv(steps, states, i - 1);
      var x, a, y := states[i - 1], steps[i - 1], states[i];
      assert Next(x, a, y) && Timely(x);
      match a {
        case Start(section) => StartStep(x, section, y);
        case Micro => MicroStep(x);
        case Load => LoadStep(x, y);
        case _ =>
      }
    }
  }

  // Without gaps and with timely updates, every lock-free answer is what a locked read would have returned
  // at some instant during the call.
  lemma LockFreeReadsLinearize(steps: seq<Step>, states: seq<State>, i: nat)
    requires Behaviour(steps, states) && i < |states| && states[i].r.pc.Answered?
    requires NoGaps(steps, states) && forall m :: 0 <= m < |states| ==> Timely(states[m])
    ensures During(states, i, states[i].r.pc.a)
  {
    hide Timely, NoGaps;
    TimelyInv(steps, states, i);
    SeenDuring(steps, states, i, states[i].r.pc.a);
  }

  // Without gaps a miss is right whatever the updates: it is what a locked read returns at that very
  // instant, before the section under way or after it.
  lemma MissesAreAuthoritative(steps: seq<Step>, states: seq<State>, i: nat)
    requires Behaviour(steps, states) && i < |steps| && steps[i].Load? && states[i + 1].r.pc == Answered(Miss)
    requires NoGaps(steps, states)
    ensures var x := states[i]; Miss in {LockedRead(x.lo, x.r.key, x.r.now), LockedRead(x.hi, x.r.key, x.r.now)}
  {
    hide NoGaps;
    HonestInv(steps, states, i);
    assert Next(states[i], steps[i], states[i + 1]);
  }

  // The exact condition on updates: when a reader past its expiry check is overtaken by the first half of
  // an update to a new value, that value, which it may answer, is one a locked read returns iff the
  // update's expiry is unset or later than the reader's clock.
  lemma OvertakenReaderIff(x: State, id: nat, v: Val, expireAt: int)
    requires Inv(x.s) && Frame(x) && ReaderInv(x) && x.todo == [] && x.r.pc == LoadValue(id)
    requires Stored(x.s.live, x.r.key, id) && Hit(v) !in x.r.seen
    ensures var a := Update(x.r.key, v, expireAt);
      && Allowed(x.s.live, a)
      && var y := MicroOf(Started(x, a));
         Loads(y.s, y.r, Answered(Hit(v))) && (Hit(v) in y.r.seen <==> expireAt == 0 || expireAt > x.r.now)
  {
    ExecFew(x.s.live, Ops(Update(x.r.key, v, expireAt)));
  }

  // -- Runs that show the two conditions are needed -----------------------------------------------

  // An entry for k is put, and seven misses are counted: the next one publishes.
  function WarmStep(k: Key, a: Val, i: int): Step {
    if i <= 0 then Start(Insert(0, Entry(k, a, 0), [])) else if i == 1 then Micro else Count
  }

  function One(k: Key, a: Val): Live {
    Live(map[0 := Entry(k, a, 0)], map[k := 0])
  }

  function WarmState(k: Key, a: Val, now: int, key: Key, i: int): State {
    var insert := Insert(0, Entry(k, a, 0), []);
    State(
      if i <= 1 then Shard(NOTHING, {}, map[], false, 0) else Shard(One(k, a), {}, map[], true, i - 2),
      if i <= 1 then NOTHING else One(k, a), if i <= 0 then NOTHING else One(k, a), insert,
      if i == 1 then Ops(insert) else [], now, Reader(key, now, NotStarted, {}))
  }

  lemma WarmNext(k: Key, a: Val, now: int, key: Key, i: int)
    requires 0 <= i < 9
    ensures Next(WarmState(k, a, now, key, i), WarmStep(k, a, i), WarmState(k, a, now, key, i + 1))
  {
    ExecFew(NOTHING, Ops(Insert(0, Entry(k, a, 0), [])));
  }

  // An update overwrites the entry with b and an expiry at the present instant, while a reader is between
  // its expiry check and its value load.
  function BackdatedStep(k: Key, a: Val, b: Val, now: int, i: int): Step {
    if i <= 8 then WarmStep(k, a, i) else if i == 9 then Start(SlowHit) else if i == 10 || i == 16 then Micro
    else if i == 11 then Begin(k) else if i == 15 then Start(Update(k, b, now)) else Load
  }

  function BackdatedState(k: Key, a: Val, b: Val, now: int, i: int): State {
    if i <= 9 then WarmState(k, a, now, k, i)
    else
      var live := if i <= 16 then One(k, a) else One(k, b);
      var pc :=
        if i <= 11 then NotStarted else if i == 12 then LoadSnapshot else if i == 13 then LoadInvalidated(0)
        else if i == 14 then LoadExpiry(0) else if i <= 17 then LoadValue(0) else Answered(Hit(b));
      State(
        if i == 10 then Shard(live, {}, map[], true, 7) else Shard(live, {}, map[k := 0], false, 0),
        One(k, a), if i <= 15 then One(k, a) else Live(map[0 := Entry(k, b, now)], map[k := 0]),
        if i <= 15 then SlowHit else Update(k, b, now),
        if i == 10 then [Bump] else if i == 16 then [SetValue(k, b), SetExpiry(k, now)]
        else if i >= 17 then [SetExpiry(k, now)] else [],
        now, Reader(k, now, pc, if i <= 11 then {} else if i <= 15 then {Hit(a)} else {Hit(a), Miss}))
  }

  lemma BackdatedNext(k: Key, a: Val, b: Val, now: int, i: int)
    requires 0 <= i < 18 && now > 0
    ensures Next(BackdatedState(k, a, b, now, i), BackdatedStep(k, a, b, now, i), BackdatedState(k, a, b, now, i + 1))
  {
    if i < 9 {
      WarmNext(k, a, now, k, i);
    } else {
      hide Exec;
      ExecFew(One(k, a), Ops(SlowHit));
      ExecFew(One(k, a), Ops(Update(k, b, now)));
      assert [SetValue(k, b), SetExpiry(k, now)][1..] == [SetExpiry(k, now)];
    }
  }

  lemma BackdatedUpdate(k: Key, a: Val, b: Val, now: int)
    requires a != b && now > 0
    ensures var steps := seq(18, i => BackdatedStep(k, a, b, now, i));
      var states := seq(19, i => BackdatedState(k, a, b, now, i));
      Behaviour(steps, states) && states[18].r.pc == Answered(Hit(b)) && !During(states, 18, Hit(b))
  {
    forall i | 0 <= i < 18
      ensures Next(BackdatedState(k, a, b, now, i), BackdatedStep(k, a, b, now, i), BackdatedState(k, a, b, now, i + 1))
    {
      BackdatedNext(k, a, b, now, i);
    }
  }

  // A loaded record replaces the entry: its removal publishes a snapshot without the key, and a reader
  // misses a key that is stored before, during and after its call.
  function GapStep(k: Key, a: Val, b: Val, i: int): Step {
    if i <= 8 then WarmStep(k, a, i) else if i == 9 then Begin(k)
    else if i == 10 then Start(Replace(1, Entry(k, b, 0), [])) else if i == 11 then Micro else Load
  }

  function GapState(k: Key, a: Val, b: Val, now: int, i: int): State {
    if i <= 9 then WarmState(k, a, now, k, i)
    else
      var e := Entry(k, b, 0);
      var x := WarmState(k, a, now, k, 9);
      State(
        if i <= 11 then x.s else Shard(Live(x.lo.entries, map[]), {0}, map[], false, 0),
        x.lo, if i <= 10 then x.hi else Live(x.lo.entries[1 := e], map[k := 1]),
        if i <= 10 then x.a else Replace(1, e, []),
        if i == 11 then [Out(k), Put(1, e)] else if i >= 12 then [Put(1, e)] else [],
        now, Reader(k, now, if i <= 12 then LoadSnapshot else Answered(Miss),
                    if i <= 10 then {Hit(a)} else {Hit(a), Hit(b)}))
  }

  lemma GapStart(k: Key, a: Val, b: Val, now: int)
    ensures Next(GapState(k, a, b, now, 10), GapStep(k, a, b, 10), GapState(k, a, b, now, 11))
  {
    hide Exec;
    var ops := [Out(k), Put(1, Entry(k, b, 0))];
    assert Ops(Replace(1, Entry(k, b, 0), [])) == ops;
    ExecFew(One(k, a), ops);
  }

  lemma GapMicro(k: Key, a: Val, b: Val, now: int)
    ensures Next(GapState(k, a, b, now, 11), GapStep(k, a, b, 11), GapState(k, a, b, now, 12))
  {
    hide Exec, Outs, Ops;
    assert [Out(k), Put(1, Entry(k, b, 0))][1..] == [Put(1, Entry(k, b, 0))];
  }

  lemma GapNext(k: Key, a: Val, b: Val, now: int, i: int)
    requires 0 <= i < 13
    ensures Next(GapState(k, a, b, now, i), GapStep(k, a, b, i), GapState(k, a, b, now, i + 1))
  {
    hide Exec, Outs, Ops, Performed;
    if i < 9 {
      WarmNext(k, a, now, k, i);
    } else if i == 10 {
      GapStart(k, a, b, now);
    } else if i == 11 {
      GapMicro(k, a, b, now);
    }
  }

  lemma ReplaceGap(k: Key, a: Val, b: Val, now: int)
    ensures var steps := seq(13, i => GapStep(k, a, b, i));
      var states := seq(14, i => GapState(k, a, b, now, i));
      && Behaviour(steps, states) && (forall i :: 0 <= i < 14 ==> Timely(states[i]))
      && states[13].r.pc == Answered(Miss) && !During(states, 13, Miss)
  {
    forall i | 0 <= i < 13 ensures Next(GapState(k, a, b, now, i), GapStep(k, a, b, i), GapState(k, a, b, now, i + 1)) {
      GapNext(k, a, b, now, i);
    }
  }

  // A record is loaded and shed again with the shard's other entry v: the removal of v publishes the new
  // entry, and a reader answers a value that is stored neither before nor after the section.
  function ShedStep(v: Key, k: Key, a: Val, b: Val, i: int): Step {
    if i <= 8 then WarmStep(v, a, i) else if i == 9 then Begin(k)
    else if i == 10 then Start(Replace(1, Entry(k, b, 0), [v, k])) else if i <= 13 then Micro else Load
  }

  function ShedState(v: Key, k: Key, a: Val, b: Val, now: int, i: int): State {
    if i <= 9 then WarmState(v, a, now, k, i)
    else
      var e := Entry(k, b, 0);
      var x := WarmState(v, a, now, k, 9);
      var both := x.lo.entries[1 := e];
      var ops := [Out(k), Put(1, e), Out(v), Out(k)];
      State(
        if i <= 12 then x.s else if i == 13 then x.s.(live := Live(both, map[v := 0, k := 1]))
        else Shard(Live(both, map[k := 1]), {0}, map[k := 1], false, 0),
        x.lo, if i <= 10 then x.hi else Live(both, map[]), if i <= 10 then x.a else Replace(1, e, [v, k]),
        if i <= 10 then [] else if i <= 14 then ops[i - 11..] else ops[3..], now,
        Reader(k, now, if i <= 14 then LoadSnapshot else if i == 15 then LoadInvalidated(1)
                       else if i == 16 then LoadExpiry(1) else if i == 17 then LoadValue(1) else Answered(Hit(b)),
               {Miss}))
  }

  lemma ShedStart(v: Key, k: Key, a: Val, b: Val, now: int)
    requires v != k
    ensures Next(ShedState(v, k, a, b, now, 10), ShedStep(v, k, a, b, 10), ShedState(v, k, a, b, now, 11))
  {
    var e := Entry(k, b, 0);
    var m, ops := One(v, a), [Out(k), Put(1, e), Out(v), Out(k)];
    assert Ops(Replace(1, e, [v, k])) == ops && ops[0..] == ops;
    assert ops[1..][1..] == [Out(v), Out(k)];
    assert Exec(m, ops) == Exec(Acted(Acted(m, ops[0]), ops[1]), [Out(v), Out(k)]);
    ExecFew(Acted(Acted(m, ops[0]), ops[1]), [Out(v), Out(k)]);
    assert Exec(m, ops).storage == map[];
  }

  lemma ShedOut(v: Key, k: Key, a: Val, b: Val, now: int)
    requires v != k
    ensures Next(ShedState(v, k, a, b, now, 11), ShedStep(v, k, a, b, 11), ShedState(v, k, a, b, now, 12))
  {
    hide Exec, Outs, Ops;
    var ops := [Out(k), Put(1, Entry(k, b, 0)), Out(v), Out(k)];
    assert ops[0..][1..] == ops[1..] && ops[0..][0] == ops[0];
  }

  lemma ShedPut(v: Key, k: Key, a: Val, b: Val, now: int)
    requires v != k
    ensures Next(ShedState(v, k, a, b, now, 12), ShedStep(v, k, a, b, 12), ShedState(v, k, a, b, now, 13))
  {
    hide Exec, Outs, Ops;
    var ops := [Out(k), Put(1, Entry(k, b, 0)), Out(v), Out(k)];
    assert ops[1..][1..] == ops[2..] && ops[1..][0] == ops[1];
    assert One(v, a).storage[k := 1] == map[v := 0, k := 1];
  }

  lemma ShedPublish(v: Key, k: Key, a: Val, b: Val, now: int)
    requires v != k
    ensures Next(ShedState(v, k, a, b, now, 13), ShedStep(v, k, a, b, 13), ShedState(v, k, a, b, now, 14))
  {
    hide Exec, Outs, Ops;
    var ops := [Out(k), Put(1, Entry(k, b, 0)), Out(v), Out(k)];
    assert ops[2..][1..] == ops[3..] && ops[2..][0] == ops[2];
    assert map[v := 0, k := 1] - {v} == map[k := 1] && {} + {0} == {0};
  }

  lemma ShedNext(v: Key, k: Key, a: Val, b: Val, now: int, i: int)
    requires 0 <= i < 18 && v != k
    ensures Next(ShedState(v, k, a, b, now, i), ShedStep(v, k, a, b, i), ShedState(v, k, a, b, now, i + 1))
  {
    hide Exec, Outs, Ops, Performed;
    if i < 9 {
      WarmNext(v, a, now, k, i);
    } else if i == 10 {
      ShedStart(v, k, a, b, now);
    } else if i == 11 {
      ShedOut(v, k, a, b, now);
    } else if i == 12 {
      ShedPut(v, k, a, b, now);
    } else if i == 13 {
      ShedPublish(v, k, a, b, now);
    }
  }

  lemma ShedTimely(v: Key, k: Key, a: Val, b: Val, now: int, i: int)
    requires 0 <= i < 19
    ensures Timely(ShedState(v, k, a, b, now, i))
  {
    if i == 1 {
      assert Ops(Insert(0, Entry(v, a, 0), [])) == [Put(0, Entry(v, a, 0))];
    }
  }

  lemma ShedReads(v: Key, k: Key, a: Val, b: Val, now: int, i: int)
    requires 0 <= i < 19 && v != k
    ensures !Returns(ShedState(v, k, a, b, now, i), k, now, Hit(b))
  {
    hide Exec, Outs, Ops;
  }

  lemma ShedGap(v: Key, k: Key, a: Val, b: Val, now: int)
    requires v != k
    ensures var steps := seq(18, i => ShedStep(v, k, a, b, i));
      var states := seq(19, i => ShedState(v, k, a, b, now, i));
      && Behaviour(steps, states) && (forall i :: 0 <= i < 19 ==> Timely(states[i]))
      && states[18].r.pc == Answered(Hit(b)) && !During(states, 18, Hit(b))
  {
    hide Next, Timely, Returns, ShedStep;
    forall i | 0 <= i < 18
      ensures Next(ShedState(v, k, a, b, now, i), ShedStep(v, k, a, b, i), ShedState(v, k, a, b, now, i + 1))
    {
      ShedNext(v, k, a, b, now, i);
    }
    forall i | 0 <= i < 19
      ensures Timely(ShedState(v, k, a, b, now, i)) && !Returns(ShedState(v, k, a, b, now, i), k, now, Hit(b))
    {
      ShedTimely(v, k, a, b, now, i);
      ShedReads(v, k, a, b, now, i);
    }
  }
}
