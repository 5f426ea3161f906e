/** The wheel-backed TTL tracker of wheel_ttl.go, against the exact sweep of the heap backend. */
module WheelTtl {
  import opened Queues
  import opened TimingWheel
  import opened ExpiryHeap

  // Every scheduled entry fires no earlier than its expiry, and no later than one tick past the
  // instant before it, or one tick past the cursor that scheduled it if the expiry had passed by then.
  ghost predicate Punctual<E(!new)>(due: map<E, int>, exp: map<E, int>, addedAt: map<E, int>, d: Dial) {
    forall e :: e in due ==>
      && e in exp && e in addedAt && exp[e] != 0
      && exp[e] <= d.TimeOf(due[e]) <= Latest(exp[e], addedAt[e]) + d.tickNs
  }

  function Latest(expireAt: int, cursorAt: int): int {
    if expireAt > cursorAt then expireAt - 1 else cursorAt
  }

  // What a wheel sweep at now returns and keeps, given that it has reached the tick of now.
  ghost predicate WithinOneTick<E(!new)>(
    out: set<E>, tracked: set<E>, exp: map<E, int>, addedAt: map<E, int>, tickNs: int, now: int)
  {
    && out <= DueBy(tracked, exp, now)
    && (forall e :: e in DueBy(tracked, exp, now) - out ==> e in addedAt && now < Latest(exp[e], addedAt[e]) + tickNs)
  }

  lemma TickBounds(d: Dial, t: int, nowNs: int, tick: int)
    requires d.tickNs > 0
    requires tick == t + (if nowNs <= d.TimeOf(t) then 0 else (nowNs - d.TimeOf(t)) / d.tickNs)
    ensures nowNs < d.TimeOf(tick + 1) && tick >= t
    ensures tick == t || d.TimeOf(tick) <= nowNs
  {
    hide Dial.TimeOf;
    TimeAdvance(d, t, tick - t);
    TimeAdvance(d, tick, 1);
  }

  lemma Monotone(d: Dial, a: int, b: int)
    requires d.tickNs > 0 && a <= b
    ensures d.TimeOf(a) <= d.TimeOf(b)
  {
    TimeAdvance(d, a, b - a);
  }

  lemma SweepWithinOneTick<E(!new)>(
    due: map<E, int>, exp: map<E, int>, addedAt: map<E, int>, d: Dial, t: int, tick: int, now: int)
    requires d.tickNs > 0 && Punctual(due, exp, addedAt, d) && (forall e :: e in due ==> due[e] > t)
    requires tick == t + (if now <= d.TimeOf(t) then 0 else (now - d.TimeOf(t)) / d.tickNs)
    ensures WithinOneTick(Passed(due, tick), due.Keys, exp, addedAt, d.tickNs, now)
    ensures Punctual(Later(due, tick), exp, addedAt, d)
  {
    hide Dial.TimeOf;
    TickBounds(d, t, now, tick);
    forall e | e in Passed(due, tick) ensures exp[e] <= now {
      Monotone(d, due[e], tick);
    }
    forall e | e in due && e !in Passed(due, tick) ensures now < Latest(exp[e], addedAt[e]) + d.tickNs {
      Monotone(d, tick + 1, due[e]);
    }
  }

  lemma AddPunctual<E(!new)>(
    due: map<E, int>, exp: map<E, int>, addedAt: map<E, int>, d: Dial, e: E, at: int, expireAt: int, cursorAt: int)
    requires Punctual(due, exp, addedAt, d) && expireAt != 0
    requires expireAt <= d.TimeOf(at) <= Latest(expireAt, cursorAt) + d.tickNs
    ensures Punctual(due[e := at], exp[e := expireAt], addedAt[e := cursorAt], d)
  {
    hide Dial.TimeOf;
  }

  lemma UntimedPunctual<E(!new)>(
    due: map<E, int>, exp: map<E, int>, addedAt: map<E, int>, d: Dial, e: E, expireAt: int, cursorAt: int)
    requires Punctual(due, exp, addedAt, d) && e !in due
    ensures Punctual(due, exp[e := expireAt], addedAt[e := cursorAt], d)
  {
    hide Dial.TimeOf;
  }

  // An entry added before it expired is swept late by less than a tick.
  lemma TimelyWithinOneTick<E(!new)>(
    out: set<E>, tracked: set<E>, exp: map<E, int>, addedAt: map<E, int>, tickNs: int, now: int, e: E)
    requires WithinOneTick(out, tracked, exp, addedAt, tickNs, now)
    requires e in tracked && e in exp && e in addedAt && exp[e] > addedAt[e]
    ensures e in out ==> exp[e] <= now
    ensures exp[e] <= now - tickNs && tickNs >= 0 ==> e in out
  {
  }

  class WheelBackend<E(==, !new)> {
    const wheel: Wheel<E>
    var exp: map<E, int>
    // The cursor time at which each entry was last scheduled.
    ghost var addedAt: map<E, int>

    ghost function Tracked(): set<E>
      reads wheel
    {
      wheel.due.Keys
    }

    ghost predicate Valid()
      reads this, wheel
    {
      wheel.Valid() && Punctual(wheel.due, exp, addedAt, wheel.D())
    }

    constructor (slotCount: int, tickNs: int, originNs: int)
      ensures Valid() && Tracked() == {} && fresh(wheel)
    {
      wheel := new Wheel<E>(slotCount, tickNs, originNs);
      exp, addedAt := map[], map[];
    }

    method Add(e: E, expireAt: int)
      requires Valid() && e !in Tracked()
      modifies this, wheel
      ensures Valid() && exp == old(exp)[e := expireAt]
      ensures Tracked() == old(Tracked()) + (if expireAt == 0 then {} else {e})
      ensures addedAt == old(addedAt)[e := old(wheel.cursorAtNs)]
    {
      hide Dial.TimeOf, Punctual, Wheel.Ticking;
      wheel.Untracked(e);
      UntimedPunctual(wheel.due, exp, addedAt, wheel.D(), e, expireAt, wheel.cursorAtNs);
      if expireAt != 0 {
        ghost var was := wheel.due;
        TimeAdvance(wheel.D(), wheel.tick, 1);
        wheel.Add(e, expireAt);
        AddPunctual(was, exp, addedAt, wheel.D(), e, wheel.due[e], expireAt, wheel.cursorAtNs);
      }
      exp := exp[e := expireAt];
      addedAt := addedAt[e := wheel.cursorAtNs];
    }

    method Remove(e: E)
      requires Valid()
      modifies this, wheel
      ensures Valid() && exp == old(exp) && addedAt == old(addedAt)
      ensures Tracked() == old(Tracked()) - {e} && wheel.cursorAtNs == old(wheel.cursorAtNs)
    {
      hide Dial.TimeOf, OnSchedule, Linked;
      wheel.Remove(e);
    }

    method Fix(e: E, expireAt: int)
      requires Valid()
      modifies this, wheel
      ensures Valid() && exp == old(exp)[e := expireAt]
      ensures Tracked() == if expireAt != 0 then old(Tracked()) + {e} else old(Tracked()) - {e}
      ensures addedAt == old(addedAt)[e := old(wheel.cursorAtNs)]
    {
      Remove(e);
      Add(e, expireAt);
    }

    method Sweep(now: int) returns (out: seq<E>)
      requires Valid()
      modifies this, wheel
      ensures Valid() && exp == old(exp) && addedAt == old(addedAt)
      ensures Distinct(out) && Tracked() == old(Tracked()) - Keys(out)
      ensures WithinOneTick(Keys(out), old(Tracked()), exp, addedAt, wheel.tickNs, now)
    {
      hide Dial.TimeOf, OnSchedule, Linked, Keys, Distinct, Punctual, WithinOneTick;
      ghost var was, t := wheel.due, wheel.tick;
      wheel.Ahead();
      out := wheel.AdvanceTo(now);
      SweepWithinOneTick(was, exp, addedAt, wheel.D(), t, wheel.tick, now);
    }

    method Reset()
      requires Valid()
      modifies this, wheel
      ensures Valid() && Tracked() == {}
    {
      wheel.Reset();
    }
  }
}
