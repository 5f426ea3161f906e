/**
 * One key of a cache with a Store, without loaders or async writes (cache_store.go, tiered.go's watch
 * tokens, the Set and Delete paths of cache.go and the Compute path of compute.go). Writers of the key
 * are serialized by its lock, so their program counter is one component; read-throughs run beside them
 * and each other.
 */
module StoreReadThrough {
  import opened Prelude

  type Val(==, !new)

  // A value and the number of the Set that wrote it.
  datatype Cell = Cell(v: Val, stamp: nat)

  // Where the holder of the key's lock stands.
  datatype Writer =
    | Free
    | Setting(c: Cell)            // memory written, Store not yet
    | Undoing                     // the Store write failed, memory not yet rolled back
    | Removing(ok: bool, d: nat)  // Store deleted (or failed to), memory not yet; d is the next stamp
    | Erasing                     // Compute's delete: memory done, Store not yet

  // A read-through leader: its watch token, and once read, the Store's answer and how many Sets and
  // Compute deletes had reached the Store by then.
  datatype Reader =
    | Watching(tok: nat)
    | Got(tok: nat, got: Option<Cell>, at: nat)

  // memAt is, for a value promoted from the Store, the at of the read it came from; writes counts the Sets
  // and Compute deletes that have reached the Store. refs has every token ever made. exposed holds the
  // read-throughs that began between the memory and the Store write of a Set or a Compute delete, or that
  // a Compute delete found under way and did not supersede. barrier is the d of the latest completed
  // Delete; tainted is set once memory is without the key while a Set is half done or an exposed
  // read-through is still current.
  datatype State = State(
    mem: Option<Cell>, memAt: Option<nat>, store: Option<Cell>, writes: nat, watch: Option<nat>,
    superseded: set<nat>, refs: map<nat, int>, readers: map<nat, Reader>, exposed: set<nat>, writer: Writer,
    next: nat, barrier: nat, tainted: bool)

  datatype Step =
    | SetMemory(v: Val, admitted: bool)
    | SetStore(ok: bool, applied: bool)
    | Rollback
    | DeleteStore(ok: bool, applied: bool)
    | DeleteMemory
    | ComputePromote                 // Compute finds the key in the Store alone
    | EraseMemory                    // Compute's delete, which removes from memory only what is there
    | EraseStore(ok: bool, applied: bool)
    | Drop                           // eviction or expiry
    | Invalidate                     // a memory-only removal that supersedes: Clear, Reset, a remote one
    | Register(r: nat, tok: nat)
    | ReadStore(r: nat, failed: bool)
    | Finish(r: nat, admitted: bool)

  // -- The shard's primitives ---------------------------------------------------------------------

  function Supersede(s: State): State {
    if s.watch.Some? then s.(superseded := s.superseded + {s.watch.value}, watch := None) else s
  }

  function Unwatch(s: State, tok: nat): State
    requires tok in s.refs
  {
    s.(refs := s.refs[tok := s.refs[tok] - 1],
       watch := if s.refs[tok] == 1 && s.watch == Some(tok) then None else s.watch)
  }

  // -- Steps --------------------------------------------------------------------------------------

  predicate HalfSet(w: Writer) {
    w.Setting? || w.Undoing?
  }

  predicate Halfway(w: Writer) {
    HalfSet(w) || w.Erasing?
  }

  predicate Enabled(s: State, a: Step) {
    match a
    case SetMemory(_, admitted) => s.writer.Free? && (s.mem.Some? ==> admitted)
    case SetStore(ok, applied) => s.writer.Setting? && (ok ==> applied)
    case Rollback => s.writer.Undoing?
    case DeleteStore(ok, applied) => s.writer.Free? && (ok ==> applied)
    case DeleteMemory => s.writer.Removing?
    case ComputePromote => s.writer.Free? && s.mem.None? && s.store.Some?
    case EraseMemory => s.writer.Free? && (s.mem.Some? || s.store.Some?)
    case EraseStore(ok, applied) => s.writer.Erasing? && (ok ==> applied)
    case Register(r, tok) =>
      r !in s.readers && (if s.watch.Some? then tok == s.watch.value && tok in s.refs else tok !in s.refs)
    case ReadStore(r, _) => r in s.readers && s.readers[r].Watching?
    case Finish(r, _) => r in s.readers && s.readers[r].Got? && s.readers[r].tok in s.refs
    case _ => true
  }

  function Effect(s: State, a: Step): State
    requires Enabled(s, a)
  {
    match a
    case SetMemory(v, admitted) =>
      var c := Cell(v, s.next);
      Supersede(s).(mem := if admitted then Some(c) else s.mem, memAt := None, writer := Setting(c), next := s.next + 1)
    case SetStore(ok, applied) =>
      s.(store := if applied then Some(s.writer.c) else s.store, writes := s.writes + (if applied then 1 else 0),
         writer := if ok then Free else Undoing)
    case Rollback => (if s.mem.Some? then Supersede(s) else s).(mem := None, writer := Free)
    case DeleteStore(ok, applied) => s.(store := if applied then None else s.store, writer := Removing(ok, s.next))
    case DeleteMemory =>
      Supersede(s).(mem := None, writer := Free, barrier := if s.writer.ok then s.writer.d else s.barrier)
    case ComputePromote => s.(mem := s.store, memAt := Some(s.writes))
    case EraseMemory =>
      if s.mem.Some? then Supersede(s).(mem := None, writer := Erasing)
      else s.(writer := Erasing, exposed := s.exposed + s.readers.Keys)
    case EraseStore(_, applied) =>
      s.(store := if applied then None else s.store, writes := s.writes + (if applied then 1 else 0), writer := Free)
    case Drop => s.(mem := None)
    case Invalidate => Supersede(s).(mem := None)
    case Register(r, tok) =>
      s.(watch := Some(tok), refs := s.refs[tok := (if tok in s.refs then s.refs[tok] else 0) + 1],
         readers := s.readers[r := Watching(tok)],
         exposed := if Halfway(s.writer) then s.exposed + {r} else s.exposed - {r})
    case ReadStore(r, failed) =>
      s.(readers := s.readers[r := Got(s.readers[r].tok, if failed then None else s.store, s.writes)])
    case Finish(r, admitted) =>
      var x := s.readers[r];
      var promoted := x.got.Some? && x.tok !in s.superseded && s.mem.None? && admitted;
      Unwatch(s, x.tok).(mem := if promoted then x.got else s.mem,
                         memAt := if promoted then Some(x.at) else s.memAt, readers := s.readers - {r})
  }

  ghost predicate ExposedReader(s: State) {
    exists r :: r in s.readers && Stale(s, r)
  }

  predicate Stale(s: State, r: nat)
    requires r in s.readers
  {
    r in s.exposed && s.readers[r].tok !in s.superseded
  }

  ghost function Apply(s: State, a: Step): State
    requires Enabled(s, a)
  {
    var t := Effect(s, a);
    t.(tainted := s.tainted || (t.mem.None? && (HalfSet(t.writer) || ExposedReader(t))))
  }

  ghost predicate Run(steps: seq<Step>, states: seq<State>) {
    && |states| == |steps| + 1
    && states[0] == State(None, None, None, 0, None, {}, map[], map[], {}, Free, 0, 0, false)
    && forall i :: 0 <= i < |steps| ==> Enabled(states[i], steps[i]) && states[i + 1] == Apply(states[i], steps[i])
  }

  // -- Watch tokens -------------------------------------------------------------------------------

  function Users(readers: map<nat, Reader>, tok: nat): set<nat> {
    set r | r in readers && readers[r].tok == tok
  }

  // The token in the watch map is the one live token that is not superseded, and every token counts the
  // read-throughs holding it.
  ghost predicate Tokens(s: State) {
    && (forall tok :: tok in s.refs ==> s.refs[tok] == |Users(s.readers, tok)|)
    && (s.watch.Some? ==> s.watch.value in s.refs && s.refs[s.watch.value] > 0 && s.watch.value !in s.superseded)
    && (forall r :: r in s.readers ==> s.readers[r].tok in s.refs)
    && (forall r :: r in s.readers && s.readers[r].tok !in s.superseded ==> s.watch == Some(s.readers[r].tok))
    && s.superseded <= s.refs.Keys
  }

  lemma SupersedeTokens(s: State)
    requires Tokens(s)
    ensures Tokens(Supersede(s)) && Supersede(s).watch.None?
    ensures forall r :: r in s.readers ==> s.readers[r].tok in Supersede(s).superseded
  {
  }

  lemma RegisterCounts(readers: map<nat, Reader>, r: nat, x: Reader, tok: nat)
    requires r !in readers
    ensures |Users(readers[r := x], tok)| == |Users(readers, tok)| + if tok == x.tok then 1 else 0
  {
    if tok == x.tok {
      assert Users(readers[r := x], tok) == Users(readers, tok) + {r};
    } else {
      assert Users(readers[r := x], tok) == Users(readers, tok);
    }
  }

  lemma Unused(readers: map<nat, Reader>, refs: map<nat, int>, tok: nat)
    requires tok !in refs && forall r :: r in readers ==> readers[r].tok in refs
    ensures |Users(readers, tok)| == 0
  {
    assert Users(readers, tok) == {};
  }

  lemma RegisterTokens(s: State, r: nat, tok: nat)
    requires Tokens(s) && Enabled(s, Register(r, tok))
    ensures Tokens(Effect(s, Register(r, tok)))
  {
    hide Users;
    var x := Watching(tok);
    if tok !in s.refs { Unused(s.readers, s.refs, tok); }
    forall k | k in s.refs[tok := 0]
      ensures |Users(s.readers[r := x], k)| == |Users(s.readers, k)| + if k == tok then 1 else 0
    {
      RegisterCounts(s.readers, r, x, k);
    }
  }

  lemma ReadTokens(s: State, r: nat, failed: bool)
    requires Tokens(s) && Enabled(s, ReadStore(r, failed))
    ensures Tokens(Effect(s, ReadStore(r, failed)))
  {
    var t := Effect(s, ReadStore(r, failed));
    forall k | k in s.refs ensures Users(t.readers, k) == Users(s.readers, k) {}
  }

  lemma FinishTokens(s: State, r: nat, admitted: bool)
    requires Tokens(s) && Enabled(s, Finish(r, admitted))
    ensures Tokens(Effect(s, Finish(r, admitted)))
  {
    var t, tok := Effect(s, Finish(r, admitted)), s.readers[r].tok;
    assert Users(t.readers, tok) == Users(s.readers, tok) - {r} && r in Users(s.readers, tok);
    forall k | k in s.refs && k != tok ensures Users(t.readers, k) == Users(s.readers, k) {}
    if s.refs[tok] == 1 {
      forall q | q in t.readers ensures t.readers[q].tok != tok {
        assert q in Users(s.readers, tok) ==> {q, r} <= Users(s.readers, tok) && |{q, r}| == 2;
        Fits({q, r}, Users(s.readers, tok));
      }
    }
  }

  lemma Fits(a: set<nat>, b: set<nat>)
    ensures a <= b ==> |a| <= |b|
  {
    if a <= b { assert b == a + (b - a); }
  }

  lemma TokensStep(s: State, a: Step)
    requires Tokens(s) && Enabled(s, a)
    ensures Tokens(Apply(s, a))
  {
    hide Tokens, ExposedReader;
    match a {
      case Register(r, tok) => RegisterTokens(s, r, tok);
      case ReadStore(r, failed) => ReadTokens(s, r, failed);
      case Finish(r, admitted) => FinishTokens(s, r, admitted);
      case _ =>
        SupersedeTokens(s);
        SameTokens(Supersede(s), Effect(s, a));
        SameTokens(s, Effect(s, a));
    }
    SameTokens(Effect(s, a), Apply(s, a));
  }

  lemma SameTokens(s: State, t: State)
    ensures
      && t.watch == s.watch && t.superseded == s.superseded && t.refs == s.refs && t.readers == s.readers && Tokens(s)
      ==> Tokens(t)
  {
  }

  // -- Agreement with the Store -------------------------------------------------------------------

  // Every value still able to reach memory was written at or after the latest completed Delete.
  ghost predicate Ordered(s: State) {
    && s.barrier <= s.next
    && (s.mem.Some? ==> s.barrier <= s.mem.value.stamp < s.next)
    && (s.store.Some? ==> s.barrier <= s.store.value.stamp < s.next)
    && (s.writer.Setting? ==> s.barrier <= s.writer.c.stamp < s.next)
    && (s.writer.Removing? ==> s.writer.d == s.next && (s.writer.ok ==> s.store.None?))
    && (forall r :: r in s.readers && Promotable(s, r) ==> s.barrier <= s.readers[r].got.value.stamp < s.next)
  }

  // The read-through holds a value no write of the key has superseded.
  predicate Promotable(s: State, r: nat)
    requires r in s.readers
  {
    s.readers[r].Got? && s.readers[r].got.Some? && s.readers[r].tok !in s.superseded
  }

  // A value read by a read-through that is not exposed is the Store's, or a Delete is about to supersede it.
  ghost predicate Current(s: State) {
    && (Halfway(s.writer) ==> forall r :: r in s.readers && s.readers[r].tok !in s.superseded ==> r in s.exposed)
    && (forall r :: r in s.readers && Promotable(s, r) && r !in s.exposed ==>
          s.writer.Removing? || s.store == s.readers[r].got)
  }

  // Unless tainted, memory's value is the Store's or the writer at work is about to make it so.
  ghost predicate Agrees(s: State) {
    !s.tainted ==>
      && (s.mem.Some? ==>
            s.store == s.mem || s.writer.Undoing? || s.writer.Removing? || s.writer == Setting(s.mem.value))
      && (s.writer.Erasing? ==> s.mem.None?)
      && (HalfSet(s.writer) ==> s.mem.Some?) && (s.writer.Setting? ==> s.mem == Some(s.writer.c))
      && (s.mem.None? ==> !ExposedReader(s))
  }

  // c, read from the Store after at writes had reached it, is the Store's value iff none has since; or a
  // Delete is under way.
  predicate ReadAt(s: State, c: Cell, at: nat) {
    && at <= s.writes && (s.writer.Setting? ==> c.stamp < s.writer.c.stamp)
    && (|| s.writer.Removing?
        || if at == s.writes then s.store == Some(c) else s.store.Some? ==> c.stamp < s.store.value.stamp)
  }

  // Where memory's value, and every value still able to reach memory, came from.
  ghost predicate Sourced(s: State) {
    && (s.writer.Setting? && s.store.Some? ==> s.store.value.stamp < s.writer.c.stamp)
    && (s.mem.Some? && s.memAt.None? ==>
          && (s.writer.Free? ==> s.store == s.mem) && (s.writer.Setting? ==> s.writer.c == s.mem.value)
          && !s.writer.Erasing?)
    && (s.mem.Some? && s.memAt.Some? ==> ReadAt(s, s.mem.value, s.memAt.value))
    && (forall r :: r in s.readers && Promotable(s, r) ==> ReadAt(s, s.readers[r].got.value, s.readers[r].at))
  }

  // No read-through has seen more writes than there were.
  ghost predicate Counted(s: State) {
    forall r :: r in s.readers && s.readers[r].Got? ==> s.readers[r].at <= s.writes
  }

  lemma CountedStep(s: State, a: Step)
    requires Counted(s) && Enabled(s, a)
    ensures Counted(Apply(s, a))
  {
    hide ExposedReader;
  }

  lemma SourcedStep(s: State, a: Step)
    requires Tokens(s) && Ordered(s) && Sourced(s) && Enabled(s, a)
    ensures Sourced(Apply(s, a))
  {
    hide ExposedReader, Users;
  }

  lemma OrderedStep(s: State, a: Step)
    requires Tokens(s) && Ordered(s) && Enabled(s, a)
    ensures Ordered(Apply(s, a))
  {
    hide ExposedReader, Users;
  }

  lemma CurrentStep(s: State, a: Step)
    requires Tokens(s) && Current(s) && Enabled(s, a)
    ensures Current(Apply(s, a))
  {
    hide ExposedReader, Users;
  }

  lemma AgreesStep(s: State, a: Step)
    requires Tokens(s) && Current(s) && Agrees(s) && Enabled(s, a)
    ensures Agrees(Apply(s, a))
  {
    hide Users;
  }

  // -- Whole runs ---------------------------------------------------------------------------------

  lemma {:induction false} RunInv(steps: seq<Step>, states: seq<State>, i: nat)
    requires Run(steps, states) && i < |states|
    ensures Tokens(states[i]) && Ordered(states[i]) && Sourced(states[i]) && Current(states[i])
    ensures Agrees(states[i]) && Counted(states[i])
  {
    if i > 0 {
      hide Apply, Tokens, Ordered, Sourced, Current, Agrees, Counted;
      RunInv(steps, states, i - 1);
      TokensStep(states[i - 1], steps[i - 1]);
      OrderedStep(states[i - 1], steps[i - 1]);
      SourcedStep(states[i - 1], steps[i - 1]);
      CurrentStep(states[i - 1], steps[i - 1]);
      AgreesStep(states[i - 1], steps[i - 1]);
      CountedStep(states[i - 1], steps[i - 1]);
    }
  }

  lemma ForwardStep(s: State, a: Step)
    requires Ordered(s) && Enabled(s, a)
    ensures s.next <= Apply(s, a).next && s.barrier <= Apply(s, a).barrier
  {
    hide ExposedReader;
  }

  lemma {:induction false} Forward(steps: seq<Step>, states: seq<State>, i: nat, j: nat)
    requires Run(steps, states) && i <= j < |states|
    ensures states[i].next <= states[j].next && states[i].barrier <= states[j].barrier
  {
    hide Apply, Tokens, Ordered, Sourced, Current, Agrees;
    if i < j {
      Forward(steps, states, i, j - 1);
      RunInv(steps, states, j - 1);
      ForwardStep(states[j - 1], steps[j - 1]);
    }
  }

  // Once a Delete whose Store delete succeeded has completed, nothing that memory or the Store held at
  // any time before is ever in memory again, whatever read-throughs were under way.
  lemma DeleteIsNotUndone(steps: seq<Step>, states: seq<State>, m: nat, i: nat, j: nat)
    requires Run(steps, states) && m <= i < j < |states|
    requires steps[i].DeleteMemory? && states[i].writer.Removing? && states[i].writer.ok
    ensures states[j].mem.Some? ==> states[j].mem != states[m].mem && states[j].mem != states[m].store
  {
    hide ExposedReader, Tokens, Current, Agrees;
    RunInv(steps, states, m);
    RunInv(steps, states, i);
    RunInv(steps, states, j);
    Forward(steps, states, m, i);
    Forward(steps, states, i + 1, j);
    assert states[i + 1] == Apply(states[i], steps[i]);
  }

  // With no write of the key under way, memory agrees with the Store if and only if its value was set, or
  // was promoted from a Store read that no Set or Compute delete has reached the Store after.
  lemma AgreesIffNotOvertaken(steps: seq<Step>, states: seq<State>, i: nat)
    requires Run(steps, states) && i < |states| && states[i].writer.Free? && states[i].mem.Some?
    ensures states[i].mem == states[i].store <==> states[i].memAt.None? || states[i].memAt.value == states[i].writes
  {
    RunInv(steps, states, i);
  }

  // With no write of the key under way and no taint, memory either lacks the key or agrees with the Store.
  lemma QuiescentAgreement(steps: seq<Step>, states: seq<State>, i: nat)
    requires Run(steps, states) && i < |states| && states[i].writer.Free? && !states[i].tainted
    ensures states[i].mem.Some? ==> states[i].mem == states[i].store
  {
    RunInv(steps, states, i);
  }

  // Tainted or not, a promotion by a read-through that is not exposed installs the Store's value, or a
  // Delete is about to remove it.
  lemma UnexposedPromotionIsCurrent(steps: seq<Step>, states: seq<State>, i: nat)
    requires Run(steps, states) && i < |steps| && steps[i].Finish? && states[i + 1].mem != states[i].mem
    requires steps[i].r !in states[i].exposed
    ensures states[i + 1].mem == states[i + 1].store || states[i + 1].writer.Removing?
  {
    hide ExposedReader, Tokens, Agrees;
    RunInv(steps, states, i);
    assert states[i + 1] == Apply(states[i], steps[i]);
  }

  // The watch map holds exactly the tokens that are in use and not superseded.
  lemma WatchedIffLive(steps: seq<Step>, states: seq<State>, i: nat, tok: nat)
    requires Run(steps, states) && i < |states|
    ensures var s := states[i]; s.watch == Some(tok) <==> tok in s.refs && s.refs[tok] > 0 && tok !in s.superseded
  {
    hide ExposedReader;
    RunInv(steps, states, i);
    var s := states[i];
    if tok in s.refs && s.refs[tok] > 0 && tok !in s.superseded {
      var r :| r in Users(s.readers, tok);
    }
  }

  // The steps that change the key in memory for good: writes, deletes and invalidations, and the removals of
  // a rollback or a Compute delete when there is something to remove.
  predicate Disturbs(s: State, a: Step) {
    match a
    case SetMemory(_, _) => true
    case DeleteMemory => true
    case Invalidate => true
    case Rollback => s.mem.Some?
    case EraseMemory => s.mem.Some?
    case _ => false
  }

  ghost predicate Undisturbed(steps: seq<Step>, states: seq<State>, i: nat, j: nat)
    requires i <= j <= |steps| < |states|
  {
    forall m :: i <= m < j ==> !Disturbs(states[m], steps[m])
  }

  lemma DisturbStep(s: State, a: Step, r: nat)
    requires Tokens(s) && Enabled(s, a) && r in s.readers && !(a.Finish? && a.r == r)
    ensures var t := Apply(s, a);
      && r in t.readers && t.readers[r].tok == s.readers[r].tok
      && (s.readers[r].tok !in t.superseded <==> s.readers[r].tok !in s.superseded && !Disturbs(s, a))
  {
    hide ExposedReader, Users;
  }

  lemma RegisterStep(s: State, r: nat, tok: nat)
    requires Tokens(s) && Enabled(s, Register(r, tok))
    ensures var t := Apply(s, Register(r, tok)); r in t.readers && t.readers[r].tok == tok && tok !in t.superseded
  {
    hide ExposedReader, Users;
  }

  // In every run a read-through's token is current if and only if nothing has disturbed the key since it
  // began.
  lemma {:induction false} CurrentIffUndisturbed(steps: seq<Step>, states: seq<State>, i: nat, j: nat, r: nat, tok: nat)
    requires Run(steps, states) && i < j < |states| && steps[i] == Register(r, tok)
    requires forall m :: i < m < j ==> !(steps[m].Finish? && steps[m].r == r)
    ensures r in states[j].readers && states[j].readers[r].tok == tok
    ensures tok !in states[j].superseded <==> Undisturbed(steps, states, i + 1, j)
    decreases j
  {
    hide Apply, Enabled, Tokens, Ordered, Sourced, Current, Agrees, Counted, Disturbs;
    RunInv(steps, states, j - 1);
    if j == i + 1 {
      RegisterStep(states[i], r, tok);
    } else {
      CurrentIffUndisturbed(steps, states, i, j - 1, r, tok);
      DisturbStep(states[j - 1], steps[j - 1], r);
    }
  }

  // So a read-through puts into memory what it read if and only if that is admitted, memory is empty, and
  // nothing has disturbed the key since it began; otherwise it leaves memory alone.
  lemma PromotesIffUndisturbed(steps: seq<Step>, states: seq<State>, i: nat, j: nat, r: nat, tok: nat, admitted: bool)
    requires Run(steps, states) && i < j < |steps| && steps[i] == Register(r, tok) && steps[j] == Finish(r, admitted)
    requires forall m :: i < m < j ==> !(steps[m].Finish? && steps[m].r == r)
    ensures r in states[j].readers && states[j].readers[r].Got?
    ensures var got := states[j].readers[r].got;
      states[j + 1].mem ==
        if got.Some? && admitted && states[j].mem.None? && Undisturbed(steps, states, i + 1, j) then got
        else states[j].mem
  {
    hide ExposedReader, Undisturbed;
    CurrentIffUndisturbed(steps, states, i, j, r, tok);
    assert states[j + 1] == Apply(states[j], steps[j]);
  }

  // What each call leaves when its last step is done: a Set its value in the Store, a failed Set nothing in
  // memory, a Delete or a Compute delete nothing in the Store, and the key's lock free.
  lemma CallsLeave(s: State, a: Step)
    requires Enabled(s, a)
    ensures var t := Apply(s, a);
      match a
      case SetMemory(v, admitted) => admitted ==> t.mem.Some? && t.mem.value.v == v && t.writer == Setting(t.mem.value)
      case SetStore(ok, _) => ok ==> t.store == Some(s.writer.c) && t.writer.Free?
      case Rollback => t.mem.None? && t.store == s.store && t.writer.Free?
      case DeleteStore(ok, _) => ok ==> t.store.None?
      case DeleteMemory => t.mem.None? && t.store == s.store && t.writer.Free?
      case ComputePromote => t.mem == t.store == s.store
      case EraseStore(ok, _) => (ok ==> t.store.None?) && t.mem == s.mem && t.writer.Free?
      case _ => t.store == s.store
  {
    hide ExposedReader;
  }

  // Agreement can fail without any removal inside the Set: the key is evicted only after the Store
  // write, while a read-through that began inside the Set has yet to promote what it read.
  function LateStep(a: Val, b: Val, i: int): Step {
    if i == 0 then SetMemory(a, true) else if i == 1 then SetStore(true, true) else if i == 2 then Drop
    else if i == 3 then SetMemory(b, true) else if i == 4 then Register(0, 0) else if i == 5 then ReadStore(0, false)
    else if i == 6 then SetStore(true, true) else if i == 7 then Drop else Finish(0, true)
  }

  function LateState(a: Val, b: Val, i: int): State {
    var first, second := Cell(a, 0), Cell(b, 1);
    State(
      if i in {0, 3, 8} then None else if i <= 2 || i == 9 then Some(first) else Some(second),
      if i == 9 then Some(1) else None,
      if i <= 1 then None else if i <= 6 then Some(first) else Some(second),
      if i <= 1 then 0 else if i <= 6 then 1 else 2,
      if 5 <= i <= 8 then Some(0) else None, {},
      if i <= 4 then map[] else map[0 := if i <= 8 then 1 else 0],
      if i == 5 then map[0 := Watching(0)] else if 6 <= i <= 8 then map[0 := Got(0, Some(first), 1)] else map[],
      if i >= 5 then {0} else {},
      if i == 1 then Setting(first) else if 4 <= i <= 6 then Setting(second) else Free,
      if i <= 0 then 0 else if i <= 3 then 1 else 2, 0, i >= 8)
  }

  lemma LateEvictionDisagrees(a: Val, b: Val)
    requires a != b
    ensures var steps, states := seq(9, i => LateStep(a, b, i)), seq(10, i => LateState(a, b, i));
      && Run(steps, states) && (forall i :: 0 <= i < 9 && HalfSet(states[i].writer) ==> !steps[i].Drop?)
      && states[9].writer.Free? && states[9].readers == map[]
      && states[9].mem == Some(Cell(a, 0)) && states[9].store == Some(Cell(b, 1))
  {
    forall i | 0 <= i < 9
      ensures Enabled(LateState(a, b, i), LateStep(a, b, i))
      ensures LateState(a, b, i + 1) == Apply(LateState(a, b, i), LateStep(a, b, i))
    {
      LateNext(a, b, i);
    }
  }

  lemma LateNext(a: Val, b: Val, i: int)
    requires 0 <= i < 9
    ensures Enabled(LateState(a, b, i), LateStep(a, b, i))
    ensures LateState(a, b, i + 1) == Apply(LateState(a, b, i), LateStep(a, b, i))
  {
    var s, t := LateState(a, b, i), LateState(a, b, i + 1);
    assert i == 7 ==> 0 in t.readers && Stale(t, 0);
  }

  // -- Compute's delete ---------------------------------------------------------------------------

  // Step a at s puts c into memory, from a read-through that read the Store after at most w writes.
  predicate PutsBack(s: State, a: Step, c: Cell, w: nat) {
    && a.Finish? && a.admitted && s.mem.None? && a.r in s.readers && s.readers[a.r].Got?
    && s.readers[a.r].got == Some(c) && s.readers[a.r].at <= w && s.readers[a.r].tok !in s.superseded
  }

  // Since a Compute delete began with n the next stamp and w writes in the Store: values older than n
  // leave the Store with it, and reads that hold one were made before.
  ghost predicate Erased(s: State, n: nat, w: nat, done: bool) {
    && n <= s.next
    && (forall r :: r in s.readers && s.readers[r].Got? && Older(s.readers[r].got, n) ==> s.readers[r].at <= w)
    && (!done ==> s.writer.Erasing? && s.writes == w)
    && (done ==> !Older(s.store, n) && (s.writer.Setting? ==> n <= s.writer.c.stamp))
  }

  predicate Older(c: Option<Cell>, n: nat) {
    c.Some? && c.value.stamp < n
  }

  lemma ErasedStep(s: State, a: Step, n: nat, w: nat, done: bool)
    requires Erased(s, n, w, done) && Enabled(s, a) && (a.EraseStore? && !done ==> a.applied)
    ensures Erased(Apply(s, a), n, w, done || a.EraseStore?)
  {
    hide ExposedReader, HalfSet;
    var t := Effect(s, a);
    forall r | r in t.readers && t.readers[r].Got? && Older(t.readers[r].got, n)
      ensures t.readers[r].at <= w
    {
      if !a.ReadStore? || a.r != r { assert r in s.readers && s.readers[r] == t.readers[r]; }
    }
  }

  lemma PutsBackIff(s: State, a: Step, n: nat, w: nat, done: bool, c: Cell)
    requires Erased(s, n, w, done) && Enabled(s, a) && c.stamp < n && s.mem != Some(c)
    ensures Apply(s, a).mem == Some(c) <==> PutsBack(s, a, c, w)
  {
    hide ExposedReader;
  }

  // The steps h and i are the two halves of a Compute delete that reached the Store.
  ghost predicate ComputeDelete(steps: seq<Step>, states: seq<State>, h: nat, i: nat) {
    && Run(steps, states) && h < i < |steps| && steps[h].EraseMemory? && steps[i].EraseStore? && steps[i].applied
    && forall m :: h < m < i ==> !steps[m].EraseStore?
  }

  lemma {:induction false} RunErased(steps: seq<Step>, states: seq<State>, h: nat, i: nat, j: nat)
    requires ComputeDelete(steps, states, h, i) && h < j < |states|
    ensures Erased(states[j], states[h].next, states[h].writes, i < j) && states[h + 1].mem.None?
  {
    hide Apply, Erased, Tokens, Ordered, Sourced, Current, Agrees, Counted;
    if j == h + 1 {
      RunInv(steps, states, h);
      EraseBegins(states[h]);
    } else {
      RunErased(steps, states, h, i, j - 1);
      ErasedStep(states[j - 1], steps[j - 1], states[h].next, states[h].writes, i < j - 1);
    }
  }

  lemma EraseBegins(s: State)
    requires Enabled(s, EraseMemory) && Counted(s)
    ensures Erased(Apply(s, EraseMemory), s.next, s.writes, false) && Apply(s, EraseMemory).mem.None?
  {
    hide ExposedReader;
  }

  // A Compute delete can be undone, and exactly so: a value older than it is in memory again if and only
  // if a read-through that read the Store before the Store delete finishes admitted, its token still
  // current and memory empty.
  lemma {:induction false} ErasedReturnsIff(
    steps: seq<Step>, states: seq<State>, h: nat, i: nat, j: nat, c: Cell)
    requires ComputeDelete(steps, states, h, i) && h < j < |states| && c.stamp < states[h].next
    ensures (exists m :: h < m <= j && states[m].mem == Some(c)) <==>
            (exists m :: h < m < j && PutsBack(states[m], steps[m], c, states[h].writes))
  {
    hide Apply, Erased, PutsBack;
    RunErased(steps, states, h, i, j);
    if j > h + 1 {
      ErasedReturnsIff(steps, states, h, i, j - 1, c);
      RunErased(steps, states, h, i, j - 1);
      if states[j - 1].mem != Some(c) {
        PutsBackIff(states[j - 1], steps[j - 1], states[h].next, states[h].writes, i < j - 1, c);
      }
    }
  }

  // Neither memory nor any current read-through holds c.
  ghost predicate NoHolder(s: State, c: Cell) {
    s.mem != Some(c) && forall r :: r in s.readers && Promotable(s, r) ==> s.readers[r].got != Some(c)
  }

  lemma NoHolderStep(s: State, a: Step, n: nat, w: nat, c: Cell)
    requires Erased(s, n, w, true) && NoHolder(s, c) && c.stamp < n && Enabled(s, a)
    ensures NoHolder(Apply(s, a), c)
  {
    hide ExposedReader;
  }

  // So a Compute delete stands for good once no current read-through holds the value when it completes.
  lemma {:induction false} ErasedForGood(
    steps: seq<Step>, states: seq<State>, h: nat, i: nat, j: nat, c: Cell)
    requires ComputeDelete(steps, states, h, i) && i < j < |states| && c.stamp < states[h].next
    requires NoHolder(states[i + 1], c)
    ensures NoHolder(states[j], c) && states[j].mem != Some(c)
  {
    hide Apply, Erased;
    if j > i + 1 {
      ErasedForGood(steps, states, h, i, j - 1, c);
      RunErased(steps, states, h, i, j - 1);
      NoHolderStep(states[j - 1], steps[j - 1], states[h].next, states[h].writes, c);
    }
  }

  // A read-through that begins between the two halves puts the deleted value back.
  function UndoneStep(a: Val, i: int): Step {
    if i == 0 then SetMemory(a, true) else if i == 1 then SetStore(true, true) else if i == 2 then EraseMemory
    else if i == 3 then Register(0, 0) else if i == 4 then ReadStore(0, false)
    else if i == 5 then EraseStore(true, true) else Finish(0, true)
  }

  function UndoneState(a: Val, i: int): State {
    var c := Cell(a, 0);
    State(
      if i in {1, 2, 7} then Some(c) else None, if i == 7 then Some(1) else None,
      if 2 <= i <= 5 then Some(c) else None, if i <= 1 then 0 else if i <= 5 then 1 else 2,
      if 4 <= i <= 6 then Some(0) else None, {}, if i <= 3 then map[] else map[0 := if i <= 6 then 1 else 0],
      if i == 4 then map[0 := Watching(0)] else if 5 <= i <= 6 then map[0 := Got(0, Some(c), 1)] else map[],
      if i >= 4 then {0} else {}, if i == 1 then Setting(c) else if 3 <= i <= 5 then Erasing else Free,
      if i <= 0 then 0 else 1, 0, i >= 4)
  }

  lemma ComputeDeleteUndone(a: Val)
    ensures var steps, states := seq(7, i => UndoneStep(a, i)), seq(8, i => UndoneState(a, i));
      && Run(steps, states) && ComputeDelete(steps, states, 2, 5)
      && states[7].mem == states[2].mem == Some(Cell(a, 0)) && states[7].store.None? && states[7].writer.Free?
  {
    forall i | 0 <= i < 7
      ensures Enabled(UndoneState(a, i), UndoneStep(a, i))
      ensures UndoneState(a, i + 1) == Apply(UndoneState(a, i), UndoneStep(a, i))
    {
      UndoneNext(a, i);
    }
  }

  lemma UndoneNext(a: Val, i: int)
    requires 0 <= i < 7
    ensures Enabled(UndoneState(a, i), UndoneStep(a, i))
    ensures UndoneState(a, i + 1) == Apply(UndoneState(a, i), UndoneStep(a, i))
  {
    var t := UndoneState(a, i + 1);
    assert i == 3 ==> 0 in t.readers && Stale(t, 0);
  }

  // So does one that began before, when Compute took the value from the Store and could not cache it: then
  // memory has nothing to remove, and nothing supersedes the read-through.
  function UncachedStep(a: Val, i: int): Step {
    if i == 0 then SetMemory(a, true) else if i == 1 then SetStore(true, true) else if i == 2 then Drop
    else if i == 3 then Register(0, 0) else if i == 4 then ReadStore(0, false) else if i == 5 then EraseMemory
    else if i == 6 then EraseStore(true, true) else Finish(0, true)
  }

  function UncachedState(a: Val, i: int): State {
    var c := Cell(a, 0);
    State(
      if i in {1, 2, 8} then Some(c) else None, if i == 8 then Some(1) else None,
      if 2 <= i <= 6 then Some(c) else None, if i <= 1 then 0 else if i <= 6 then 1 else 2,
      if 4 <= i <= 7 then Some(0) else None, {}, if i <= 3 then map[] else map[0 := if i <= 7 then 1 else 0],
      if i == 4 then map[0 := Watching(0)] else if 5 <= i <= 7 then map[0 := Got(0, Some(c), 1)] else map[],
      if i >= 6 then {0} else {}, if i == 1 then Setting(c) else if i == 6 then Erasing else Free,
      if i <= 0 then 0 else 1, 0, i >= 6)
  }

  lemma UncachedComputeDeleteUndone(a: Val)
    ensures var steps, states := seq(8, i => UncachedStep(a, i)), seq(9, i => UncachedState(a, i));
      && Run(steps, states) && ComputeDelete(steps, states, 5, 6)
      && states[8].mem == states[5].store == Some(Cell(a, 0)) && states[8].store.None? && states[8].writer.Free?
  {
    forall i | 0 <= i < 8
      ensures Enabled(UncachedState(a, i), UncachedStep(a, i))
      ensures UncachedState(a, i + 1) == Apply(UncachedState(a, i), UncachedStep(a, i))
    {
      UncachedNext(a, i);
    }
  }

  lemma UncachedNext(a: Val, i: int)
    requires 0 <= i < 8
    ensures Enabled(UncachedState(a, i), UncachedStep(a, i))
    ensures UncachedState(a, i + 1) == Apply(UncachedState(a, i), UncachedStep(a, i))
  {
    var t := UncachedState(a, i + 1);
    assert i == 5 ==> 0 in t.readers && Stale(t, 0);
  }
}
