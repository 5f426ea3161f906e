/**
 * The per-key lock table of shard.go for one key: lock records are created on demand, counted, and
 * deleted when the last goroutine leaves, so a key may have many records over time.
 */
module KeyLocks {
  import opened Prelude

  // The table's record for the key; the count and the mutex owner of every record ever made; and the
  // record each goroutine inside lock or its unlock uses, with those that own its mutex and those that
  // have released it but are still counted.
  datatype Table = Table(
    current: Option<nat>, refs: map<nat, int>, owner: map<nat, nat>,
    using: map<nat, nat>, holding: set<nat>, leaving: set<nat>)

  datatype Step = Enter(t: nat, l: nat) | Acquire(t: nat) | Release(t: nat) | Leave(t: nat)

  predicate Enabled(s: Table, a: Step) {
    match a
    case Enter(t, l) => t !in s.using && (if s.current.Some? then l == s.current.value else l !in s.refs)
    case Acquire(t) => t in s.using && t !in s.holding + s.leaving && s.using[t] !in s.owner
    case Release(t) => t in s.using && t in s.holding
    case Leave(t) => t in s.using && t in s.leaving && s.using[t] in s.refs
  }

  function Apply(s: Table, a: Step): Table
    requires Enabled(s, a)
  {
    match a
    case Enter(t, l) =>
      s.(current := Some(l), refs := s.refs[l := (if l in s.refs then s.refs[l] else 0) + 1], using := s.using[t := l])
    case Acquire(t) => s.(owner := s.owner[s.using[t] := t], holding := s.holding + {t})
    case Release(t) => s.(owner := s.owner - {s.using[t]}, holding := s.holding - {t}, leaving := s.leaving + {t})
    case Leave(t) =>
      var l := s.using[t];
      s.(current := if s.refs[l] == 1 then None else s.current, refs := s.refs[l := s.refs[l] - 1],
         using := s.using - {t}, leaving := s.leaving - {t})
  }

  // Every goroutine inside uses the table's record, which counts them, and a mutex's owner is the one
  // goroutine holding it.
  ghost predicate Inv(s: Table) {
    && (s.current.Some? ==> s.current.value in s.refs && s.refs[s.current.value] == |s.using.Keys| > 0)
    && (forall t :: t in s.using ==> s.current == Some(s.using[t]))
    && s.holding + s.leaving <= s.using.Keys && s.holding !! s.leaving
    && (forall t :: t in s.holding && t in s.using ==> s.using[t] in s.owner && s.owner[s.using[t]] == t)
    && (forall l :: l in s.owner ==> s.owner[l] in s.holding && s.owner[l] in s.using && s.using[s.owner[l]] == l)
  }

  lemma EnterInv(s: Table, t: nat, l: nat)
    requires Inv(s) && Enabled(s, Enter(t, l))
    ensures Inv(Apply(s, Enter(t, l)))
  {
    assert s.using[t := l].Keys == s.using.Keys + {t};
    assert s.current.None? ==> s.using.Keys == {};
  }

  lemma LeaveInv(s: Table, t: nat)
    requires Inv(s) && Enabled(s, Leave(t))
    ensures Inv(Apply(s, Leave(t)))
  {
    assert (s.using - {t}).Keys == s.using.Keys - {t};
    assert |s.using.Keys - {t}| == |s.using.Keys| - 1;
  }

  lemma OwnerInv(s: Table, a: Step)
    requires Inv(s) && Enabled(s, a) && (a.Acquire? || a.Release?)
    ensures Inv(Apply(s, a))
  {
  }

  lemma InvStep(s: Table, a: Step)
    requires Inv(s) && Enabled(s, a)
    ensures Inv(Apply(s, a))
  {
    hide Inv;
    match a {
      case Enter(t, l) => EnterInv(s, t, l);
      case Leave(t) => LeaveInv(s, t);
      case _ => OwnerInv(s, a);
    }
  }

  ghost predicate Run(steps: seq<Step>, states: seq<Table>) {
    && |states| == |steps| + 1 && states[0] == Table(None, map[], map[], map[], {}, {})
    && forall i :: 0 <= i < |steps| ==> Enabled(states[i], steps[i]) && states[i + 1] == Apply(states[i], steps[i])
  }

  lemma {:induction false} RunInv(steps: seq<Step>, states: seq<Table>, i: nat)
    requires Run(steps, states) && i < |states|
    ensures Inv(states[i])
  {
    if i > 0 {
      RunInv(steps, states, i - 1);
      InvStep(states[i - 1], steps[i - 1]);
    }
  }

  // At any moment at most one goroutine holds the key, however many records the key has had; and the
  // table keeps no record for a key nobody is using.
  lemma OneHolder(steps: seq<Step>, states: seq<Table>, i: nat)
    requires Run(steps, states) && i < |states|
    ensures forall t, u :: t in states[i].holding && u in states[i].holding ==> t == u
    ensures states[i].using == map[] ==> states[i].current == None
  {
    RunInv(steps, states, i);
  }

  // A goroutine waiting for the key may take it if and only if nobody holds it.
  lemma WaiterEntersIff(steps: seq<Step>, states: seq<Table>, i: nat, t: nat)
    requires Run(steps, states) && i < |states|
    requires t in states[i].using && t !in states[i].holding + states[i].leaving
    ensures Enabled(states[i], Acquire(t)) <==> states[i].holding == {}
  {
    RunInv(steps, states, i);
    var s := states[i];
    if s.using[t] in s.owner { assert s.owner[s.using[t]] in s.holding; }
    if u :| u in s.holding { assert s.using[u] == s.using[t]; }
  }

  // A run in which the key passes from one goroutine to another.
  lemma Handover() returns (steps: seq<Step>, states: seq<Table>)
    ensures steps == [Enter(0, 0), Enter(1, 0), Acquire(0), Release(0), Leave(0), Acquire(1)]
    ensures Run(steps, states) && states[3].holding == {0} && states[6].holding == {1}
  {
    steps := [Enter(0, 0), Enter(1, 0), Acquire(0), Release(0), Leave(0), Acquire(1)];
    var s1 := Apply(Table(None, map[], map[], map[], {}, {}), steps[0]);
    var s2 := Apply(s1, steps[1]);
    var s3 := Apply(s2, steps[2]);
    var s4 := Apply(s3, steps[3]);
    var s5 := Apply(s4, steps[4]);
    states := [Table(None, map[], map[], map[], {}, {}), s1, s2, s3, s4, s5, Apply(s5, steps[5])];
  }
}
