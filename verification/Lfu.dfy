/** The bucketed LFU policy of lfu.go against a minimum over all entries. */
module Lfu {
  import opened Prelude
  import opened Queues

  // -- The reference: what a history of calls says ------------------------------------------------

  datatype Event<E> = Insert(e: E) | Access(e: E) | Remove(e: E)

  // How often each tracked entry was visited, when it arrived at that frequency, and the latest insert
  // if it is still tracked. now is the number of events so far.
  datatype Tally<E> = Tally(freq: map<E, nat>, arrived: map<E, nat>, recent: Option<E>, now: nat)

  function Count<E(==)>(t: Tally<E>, x: Event<E>): Tally<E> {
    match x
    case Insert(e) => Tally(t.freq[e := 1], t.arrived[e := t.now], Some(e), t.now + 1)
    case Access(e) =>
      if e in t.freq then t.(freq := t.freq[e := t.freq[e] + 1], arrived := t.arrived[e := t.now], now := t.now + 1)
      else t.(now := t.now + 1)
    case Remove(e) =>
      Tally(t.freq - {e}, t.arrived - {e}, if t.recent == Some(e) then None else t.recent, t.now + 1)
  }

  function Replay<E(==)>(history: seq<Event<E>>): Tally<E> {
    if history == [] then Tally(map[], map[], None, 0)
    else Count(Replay(history[..|history| - 1]), history[|history| - 1])
  }

  predicate Before<E>(t: Tally<E>, a: E, b: E)
    requires a in t.freq && b in t.freq && a in t.arrived && b in t.arrived
  {
    t.freq[a] < t.freq[b] || (t.freq[a] == t.freq[b] && t.arrived[a] <= t.arrived[b])
  }

  // e is least by frequency, then by arrival, among all tracked entries but the latest insert, or is the
  // latest insert and alone.
  ghost predicate IsVictim<E(!new)>(t: Tally<E>, e: E) {
    && e in t.freq && e in t.arrived
    && (t.recent == Some(e) ==> t.freq.Keys == {e})
    && forall x :: x in t.freq && t.recent != Some(x) ==> x in t.arrived && Before(t, e, x)
  }

  // -- Buckets ------------------------------------------------------------------------------------

  // Strictly by arrival.
  ghost predicate InOrder<E(!new)>(q: seq<E>, arrived: map<E, nat>) {
    q == [] ||
    (&& q[0] in arrived && InOrder(q[1..], arrived)
     && forall x :: x in Keys(q[1..]) ==> x in arrived && arrived[q[0]] < arrived[x])
  }

  ghost function At<E(!new)>(freq: map<E, nat>, gone: set<E>, f: nat): set<E> {
    set e | e in freq && freq[e] == f && e !in gone
  }

  // Every bucket holds, in arrival order, exactly the linked entries of its frequency, and is not empty.
  ghost predicate Bucketed<E(!new)>(b: map<nat, seq<E>>, freq: map<E, nat>, arrived: map<E, nat>, gone: set<E>) {
    && (forall f :: f in b ==> b[f] != [] && InOrder(b[f], arrived) && Keys(b[f]) == At(freq, gone, f))
    && (forall e :: e in freq && e !in gone ==> freq[e] in b)
  }

  function Linked<E>(b: map<nat, seq<E>>, f: nat, e: E): map<nat, seq<E>> {
    b[f := (if f in b then b[f] else []) + [e]]
  }

  function Unlinked<E(==)>(b: map<nat, seq<E>>, f: nat, e: E): map<nat, seq<E>>
    requires f in b
  {
    var q := Without(b[f], e);
    if q == [] then b - {f} else b[f := q]
  }

  lemma {:induction false} OrderAppend<E(!new)>(q: seq<E>, arrived: map<E, nat>, e: E, now: nat)
    requires InOrder(q, arrived) && e !in Keys(q) && forall x :: x in Keys(q) ==> x in arrived && arrived[x] < now
    ensures InOrder(q + [e], arrived[e := now]) && InOrder(q, arrived[e := now])
  {
    if q == [] {
      assert (q + [e])[1..] == [] && InOrder([], arrived[e := now]);
    } else {
      OrderAppend(q[1..], arrived, e, now);
      assert (q + [e])[1..] == q[1..] + [e];
    }
  }

  lemma {:induction false} OrderWithout<E(!new)>(q: seq<E>, arrived: map<E, nat>, e: E)
    requires InOrder(q, arrived)
    ensures InOrder(Without(q, e), arrived) && Keys(Without(q, e)) == Keys(q) - {e}
  {
    if q != [] {
      OrderWithout(q[1..], arrived, e);
      assert Keys(q) == {q[0]} + Keys(q[1..]);
      if q[0] != e {
        assert Without(q, e)[1..] == Without(q[1..], e);
        assert Keys(Without(q, e)) == {q[0]} + Keys(Without(q[1..], e));
      }
    }
  }

  lemma KeysAppend<E>(q: seq<E>, e: E)
    ensures Keys(q + [e]) == Keys(q) + {e}
  {
  }

  lemma {:induction false} Arrived<E(!new)>(q: seq<E>, arrived: map<E, nat>)
    requires InOrder(q, arrived)
    ensures forall x :: x in Keys(q) ==> x in arrived
  {
    if q != [] {
      Arrived(q[1..], arrived);
      assert Keys(q) == {q[0]} + Keys(q[1..]);
    }
  }

  // One bucket when e, not linked before, is linked at frequency f as the latest arrival.
  lemma LinkOne<E(!new)>(
    q: seq<E>, freq: map<E, nat>, arrived: map<E, nat>, gone: set<E>, f: nat, e: E, now: nat, g: nat)
    requires InOrder(q, arrived) && (e in freq ==> e in gone) && Keys(q) == At(freq, gone, g)
    requires forall x :: x in arrived ==> arrived[x] < now
    ensures var r := if g == f then q + [e] else q;
      InOrder(r, arrived[e := now]) && Keys(r) == At(freq[e := f], gone - {e}, g)
  {
    hide InOrder;
    Arrived(q, arrived);
    OrderAppend(q, arrived, e, now);
    KeysAppend(q, e);
  }

  lemma NoneAt<E(!new)>(b: map<nat, seq<E>>, freq: map<E, nat>, arrived: map<E, nat>, gone: set<E>, f: nat)
    requires Bucketed(b, freq, arrived, gone) && f !in b
    ensures At(freq, gone, f) == {} && InOrder<E>([], arrived) && Keys<E>([]) == {}
  {
  }

  lemma LinkBucketed<E(!new)>(
    b: map<nat, seq<E>>, freq: map<E, nat>, arrived: map<E, nat>, gone: set<E>, f: nat, e: E, now: nat)
    requires Bucketed(b, freq, arrived, gone) && (e in freq ==> e in gone)
    requires forall x :: x in arrived ==> arrived[x] < now
    ensures Bucketed(Linked(b, f, e), freq[e := f], arrived[e := now], gone - {e})
  {
    hide InOrder, Keys, At;
    var t := Linked(b, f, e);
    forall g | g in t
      ensures t[g] != [] && InOrder(t[g], arrived[e := now]) && Keys(t[g]) == At(freq[e := f], gone - {e}, g)
    {
      if g !in b { NoneAt(b, freq, arrived, gone, g); }
      LinkOne(if g in b then b[g] else [], freq, arrived, gone, f, e, now, g);
    }
  }

  // e leaves its bucket.
  lemma UnlinkBucketed<E(!new)>(b: map<nat, seq<E>>, freq: map<E, nat>, arrived: map<E, nat>, gone: set<E>, e: E)
    requires Bucketed(b, freq, arrived, gone) && e in freq && e !in gone
    ensures freq[e] in b && Bucketed(Unlinked(b, freq[e], e), freq, arrived, gone + {e})
  {
    hide InOrder;
    var f := freq[e];
    OrderWithout(b[f], arrived, e);
    var t := Unlinked(b, f, e);
    assert e in Keys(b[f]);
    if Without(b[f], e) == [] {
      assert At(freq, gone, f) == {e};
      forall x | x in freq && x !in gone + {e} ensures freq[x] in t { assert freq[x] == f ==> x in At(freq, gone, f); }
    }
  }

  // A removed entry is forgotten.
  lemma {:induction false} OrderForget<E(!new)>(q: seq<E>, arrived: map<E, nat>, e: E)
    requires InOrder(q, arrived) && e !in Keys(q)
    ensures InOrder(q, arrived - {e})
  {
    if q != [] { OrderForget(q[1..], arrived, e); }
  }

  lemma ForgetBucketed<E(!new)>(b: map<nat, seq<E>>, freq: map<E, nat>, arrived: map<E, nat>, gone: set<E>, e: E)
    requires Bucketed(b, freq, arrived, gone) && e in gone
    ensures Bucketed(b, freq - {e}, arrived - {e}, gone - {e})
  {
    hide InOrder;
    forall f | f in b ensures InOrder(b[f], arrived - {e}) && Keys(b[f]) == At(freq - {e}, gone - {e}, f) {
      OrderForget(b[f], arrived, e);
    }
  }

  // -- The victim ---------------------------------------------------------------------------------

  // The minimum minFreq stands for: no linked entry lies below it.
  ghost predicate AtMost<E(!new)>(freq: map<E, nat>, gone: set<E>, minFreq: nat) {
    forall e :: e in freq && e !in gone ==> minFreq <= freq[e]
  }

  lemma HeadIsVictim<E(!new)>(b: map<nat, seq<E>>, t: Tally<E>, m: nat)
    requires Bucketed(b, t.freq, t.arrived, {}) && m in b && AtMost(t.freq, {}, m) && t.recent != Some(b[m][0])
    ensures IsVictim(t, b[m][0])
  {
    Least(b, t, m, 0);
  }

  lemma SecondIsVictim<E(!new)>(b: map<nat, seq<E>>, t: Tally<E>, m: nat)
    requires Bucketed(b, t.freq, t.arrived, {}) && m in b && AtMost(t.freq, {}, m)
    requires t.recent == Some(b[m][0]) && |b[m]| > 1
    ensures IsVictim(t, b[m][1])
  {
    Least(b, t, m, 1);
    assert b[m][1] in Keys(b[m][1..]);
  }

  lemma NextIsVictim<E(!new)>(b: map<nat, seq<E>>, t: Tally<E>, m: nat, g: nat)
    requires Bucketed(b, t.freq, t.arrived, {}) && m in b && AtMost(t.freq, {}, m)
    requires t.recent == Some(b[m][0]) && |b[m]| == 1
    requires g in b && m < g && forall f :: f in b && m < f ==> g <= f
    ensures IsVictim(t, b[g][0])
  {
    hide InOrder;
    Least(b, t, g, 0);
    OnlyOne(b[m]);
    forall x | x in t.freq && t.recent != Some(x) ensures x in t.arrived && Before(t, b[g][0], x) {
      Linkedness(b, t, x);
    }
    assert b[m][0] != b[g][0];
  }

  lemma OnlyOne<E>(q: seq<E>)
    requires |q| == 1
    ensures Keys(q) == {q[0]}
  {
  }

  lemma AloneIsVictim<E(!new)>(b: map<nat, seq<E>>, t: Tally<E>, m: nat)
    requires Bucketed(b, t.freq, t.arrived, {}) && m in b && AtMost(t.freq, {}, m)
    requires t.recent == Some(b[m][0]) && |b[m]| == 1
    requires forall f :: f in b ==> f <= m
    ensures IsVictim(t, b[m][0])
  {
    Least(b, t, m, 0);
    assert Keys(b[m]) == {b[m][0]};
    forall x | x in t.freq ensures x == b[m][0] { assert x in Keys(b[m]); }
  }

  lemma Linkedness<E(!new)>(b: map<nat, seq<E>>, t: Tally<E>, x: E)
    requires Bucketed(b, t.freq, t.arrived, {}) && x in t.freq
    ensures t.freq[x] in b && x in Keys(b[t.freq[x]]) && x in t.arrived
  {
    Arrived(b[t.freq[x]], t.arrived);
  }

  // The i-th entry of a bucket arrived before every later one of it.
  lemma Least<E(!new)>(b: map<nat, seq<E>>, t: Tally<E>, f: nat, i: nat)
    requires Bucketed(b, t.freq, t.arrived, {}) && f in b && i < |b[f]|
    ensures var e := b[f][i]; e in t.freq && e in t.arrived && t.freq[e] == f
    ensures forall x :: x in t.freq ==> x in t.arrived
    ensures forall x :: x in Keys(b[f][i..]) ==> x in t.arrived && t.arrived[b[f][i]] <= t.arrived[x]
    ensures i == 0 ==> Keys(b[f][i..]) == At(t.freq, {}, f)
    ensures i == 1 ==> Keys(b[f][i..]) == At(t.freq, {}, f) - {b[f][0]}
  {
    hide InOrder;
    assert b[f][i] in Keys(b[f]);
    forall x | x in t.freq ensures x in t.arrived { Linkedness(b, t, x); }
    OrderFrom(b[f], t.arrived, i);
  }

  lemma {:induction false} OrderFrom<E(!new)>(q: seq<E>, arrived: map<E, nat>, i: nat)
    requires InOrder(q, arrived) && i < |q|
    ensures q[i] in arrived && InOrder(q[i..], arrived)
    ensures forall x :: x in Keys(q[i..]) ==> x in arrived && arrived[q[i]] <= arrived[x]
    ensures i == 1 ==> Keys(q[i..]) == Keys(q) - {q[0]}
    ensures i == 0 ==> Keys(q[i..]) == Keys(q)
  {
    assert Keys(q) == {q[0]} + Keys(q[1..]);
    if i == 0 {
      assert q[0..] == q;
    } else {
      OrderFrom(q[1..], arrived, i - 1);
      assert q[1..][i - 1..] == q[i..];
    }
  }

  // Entries are timed exactly while tracked, all before now.
  ghost predicate Timed<E(!new)>(t: Tally<E>) {
    && t.arrived.Keys == t.freq.Keys && (t.recent.Some? ==> t.recent.value in t.freq)
    && (forall x :: x in t.freq ==> t.freq[x] >= 1 && t.arrived[x] < t.now)
  }

  // No two entries arrived at once.
  ghost predicate Apart<E(!new)>(t: Tally<E>) {
    && (forall x :: x in t.arrived ==> t.arrived[x] < t.now)
    && (forall x, y :: x in t.arrived && y in t.arrived && t.arrived[x] == t.arrived[y] ==> x == y)
  }

  lemma ReplayNext<E(!new)>(history: seq<Event<E>>, x: Event<E>)
    ensures Replay(history + [x]) == Count(Replay(history), x)
  {
    assert (history + [x])[..|history|] == history;
  }

  lemma TimedNext<E(!new)>(t: Tally<E>, x: Event<E>)
    requires Timed(t)
    ensures Timed(Count(t, x))
  {
  }

  lemma {:induction false} ReplayApart<E(!new)>(history: seq<Event<E>>)
    ensures Apart(Replay(history))
  {
    if history != [] { ReplayApart(history[..|history| - 1]); }
  }

  // After any history at most one entry is the victim, so Pick is determined.
  lemma VictimIsUnique<E(!new)>(history: seq<Event<E>>, a: E, b: E)
    requires IsVictim(Replay(history), a) && IsVictim(Replay(history), b)
    ensures a == b
  {
    hide Replay;
    ReplayApart(history);
    var t := Replay(history);
    assert t.recent == Some(a) ==> t.freq.Keys == {a};
    assert t.recent == Some(b) ==> t.freq.Keys == {b};
  }

  lemma NoneLeft<E(!new)>(b: map<nat, seq<E>>, freq: map<E, nat>, arrived: map<E, nat>, gone: set<E>, f: nat)
    requires Bucketed(b, freq, arrived, gone) && f !in b && AtMost(freq, gone, f)
    ensures AtMost(freq, gone, f + 1)
  {
  }

  lemma LinkedIff<E(!new)>(b: map<nat, seq<E>>, freq: map<E, nat>, arrived: map<E, nat>, gone: set<E>, e: E)
    requires Bucketed(b, freq, arrived, gone) && e in freq
    ensures e !in gone <==> freq[e] in b && e in b[freq[e]]
  {
    if freq[e] in b { assert e in Keys(b[freq[e]]) <==> e in b[freq[e]]; }
  }

  // The policy's fields agree with the tally, and no linked entry lies below minFreq.
  ghost predicate Sound<E(!new)>(
    b: map<nat, seq<E>>, freq: map<E, nat>, minFreq: nat, size: int, recent: Option<E>, gone: set<E>, t: Tally<E>)
  {
    && freq == t.freq && recent == t.recent && size == |freq| && gone <= freq.Keys
    && Timed(t) && Bucketed(b, freq, t.arrived, gone) && AtMost(freq, gone, minFreq)
  }

  lemma InsertSound<E(!new)>(
    b: map<nat, seq<E>>, freq: map<E, nat>, minFreq: nat, size: int, recent: Option<E>, gone: set<E>, t: Tally<E>, e: E)
    requires Sound(b, freq, minFreq, size, recent, gone, t) && e !in freq
    ensures Sound(Linked(b, 1, e), freq[e := 1], 1, size + 1, Some(e), gone, Count(t, Insert(e)))
  {
    hide Bucketed;
    LinkBucketed(b, freq, t.arrived, gone, 1, e, t.now);
    TimedNext(t, Insert(e));
    assert gone - {e} == gone;
  }

  lemma AccessCounts<E(!new)>(t: Tally<E>, e: E)
    requires e in t.freq
    ensures var u := Count(t, Access(e));
      && u.freq == t.freq[e := t.freq[e] + 1] && u.arrived == t.arrived[e := t.now] && u.recent == t.recent
      && u.freq.Keys == t.freq.Keys && |u.freq| == |t.freq|
  {
    assert t.freq[e := t.freq[e] + 1].Keys == t.freq.Keys;
  }

  lemma TimedKeys<E(!new)>(t: Tally<E>)
    requires Timed(t)
    ensures forall x :: x in t.arrived ==> t.arrived[x] < t.now
  {
  }

  lemma AccessAtMost<E(!new)>(freq: map<E, nat>, gone: set<E>, m: nat, e: E)
    requires AtMost(freq, gone, m) && e in freq && e !in gone
    ensures AtMost(freq[e := freq[e] + 1], gone, m)
  {
  }

  // The last entry at the least frequency moves up: so does the least frequency.
  lemma AccessLast<E(!new)>(c: map<nat, seq<E>>, freq: map<E, nat>, arrived: map<E, nat>, gone: set<E>, e: E)
    requires e in freq && e !in gone && Bucketed(c, freq, arrived, gone + {e})
    requires freq[e] !in c && AtMost(freq, gone, freq[e])
    ensures AtMost(freq[e := freq[e] + 1], gone, freq[e] + 1)
  {
    NoneLeft(c, freq, arrived, gone + {e}, freq[e]);
  }

  lemma AccessSound<E(!new)>(
    b: map<nat, seq<E>>, freq: map<E, nat>, minFreq: nat, size: int, recent: Option<E>, gone: set<E>, t: Tally<E>, e: E)
    requires Sound(b, freq, minFreq, size, recent, gone, t) && e in freq && e !in gone
    ensures freq[e] in b
    ensures var f := freq[e];
      var c := Unlinked(b, f, e);
      Sound(
        Linked(c, f + 1, e), freq[e := f + 1], if f !in c && minFreq == f then f + 1 else minFreq, size, recent, gone,
        Count(t, Access(e)))
  {
    hide Bucketed, Unlinked, Linked, Count, AtMost, Timed;
    TimedKeys(t);
    var f := freq[e];
    UnlinkBucketed(b, freq, t.arrived, gone, e);
    var c := Unlinked(b, f, e);
    LinkBucketed(c, freq, t.arrived, gone + {e}, f + 1, e, t.now);
    TimedNext(t, Access(e));
    AccessCounts(t, e);
    AccessAtMost(freq, gone, minFreq, e);
    assert gone + {e} - {e} == gone;
    if f !in c && minFreq == f { AccessLast(c, freq, t.arrived, gone, e); }
  }

  lemma StraySound<E(!new)>(
    b: map<nat, seq<E>>, freq: map<E, nat>, minFreq: nat, size: int, recent: Option<E>, gone: set<E>, t: Tally<E>,
    x: Event<E>)
    requires Sound(b, freq, minFreq, size, recent, gone, t) && !x.Insert? && x.e !in freq
    ensures Sound(b, freq, minFreq, size, recent, gone, Count(t, x)) && gone - {x.e} == gone
  {
    hide Bucketed;
    assert t.freq - {x.e} == t.freq && t.arrived - {x.e} == t.arrived;
  }

  lemma RemoveSound<E(!new)>(
    b: map<nat, seq<E>>, freq: map<E, nat>, minFreq: nat, size: int, recent: Option<E>, gone: set<E>, t: Tally<E>, e: E)
    requires Sound(b, freq, minFreq, size, recent, gone, t) && e in freq
    ensures e !in gone <==> freq[e] in b && e in b[freq[e]]
    ensures Sound(if e in gone then b else Unlinked(b, freq[e], e), freq - {e}, minFreq, size - 1,
                  if recent == Some(e) then None else recent, gone - {e}, Count(t, Remove(e)))
  {
    hide Bucketed;
    LinkedIff(b, freq, t.arrived, gone, e);
    if e in gone {
      ForgetBucketed(b, freq, t.arrived, gone, e);
    } else {
      UnlinkBucketed(b, freq, t.arrived, gone, e);
      ForgetBucketed(Unlinked(b, freq[e], e), freq, t.arrived, gone + {e}, e);
      assert gone + {e} - {e} == gone == gone - {e};
    }
    TimedNext(t, Remove(e));
    assert (freq - {e}).Keys == freq.Keys - {e};
  }

  lemma DetachSound<E(!new)>(
    b: map<nat, seq<E>>, freq: map<E, nat>, minFreq: nat, size: int, recent: Option<E>, gone: set<E>, t: Tally<E>, e: E)
    requires Sound(b, freq, minFreq, size, recent, gone, t) && e in freq && e !in gone
    ensures freq[e] in b && Sound(Unlinked(b, freq[e], e), freq, minFreq, size, recent, gone + {e}, t)
  {
    hide Bucketed;
    UnlinkBucketed(b, freq, t.arrived, gone, e);
  }

  class Policy<E(==, !new)> {
    var buckets: map<nat, seq<E>>
    var freq: map<E, nat>
    var minFreq: nat
    var size: int
    var recent: Option<E>

    ghost var history: seq<Event<E>>
    // Returned by Victim and not yet removed.
    ghost var gone: set<E>

    ghost predicate Valid()
      reads this
    {
      Sound(buckets, freq, minFreq, size, recent, gone, Replay(history))
    }

    constructor ()
      ensures Valid() && history == [] && gone == {}
    {
      buckets, freq, minFreq, size, recent, history, gone := map[], map[], 0, 0, None, [], {};
    }

    method OnInsert(e: E)
      requires Valid() && e !in freq
      modifies this
      ensures Valid() && history == old(history) + [Insert(e)] && gone == old(gone)
    {
      hide Sound, Replay, Count;
      ReplayNext(history, Insert(e));
      InsertSound(buckets, freq, minFreq, size, recent, gone, Replay(history), e);
      buckets := Linked(buckets, 1, e);
      freq := freq[e := 1];
      minFreq := 1;
      size := size + 1;
      recent := Some(e);
      history := history + [Insert(e)];
    }

    // Also OnUpdate.
    method OnAccess(e: E)
      requires Valid() && e !in gone
      modifies this
      ensures Valid() && history == old(history) + [Access(e)] && gone == old(gone)
    {
      hide Sound, Replay, Count;
      ReplayNext(history, Access(e));
      if e !in freq {
        StraySound(buckets, freq, minFreq, size, recent, gone, Replay(history), Access(e));
        history := history + [Access(e)];
        return;
      }
      AccessSound(buckets, freq, minFreq, size, recent, gone, Replay(history), e);
      history := history + [Access(e)];
      var f := freq[e];
      buckets := Unlinked(buckets, f, e);
      if f !in buckets && minFreq == f {
        minFreq := f + 1;
      }
      freq := freq[e := f + 1];
      buckets := Linked(buckets, f + 1, e);
    }

    method OnRemove(e: E)
      requires Valid()
      modifies this
      ensures Valid() && history == old(history) + [Remove(e)] && gone == old(gone) - {e}
    {
      hide Sound, Replay, Count;
      ReplayNext(history, Remove(e));
      if e !in freq {
        StraySound(buckets, freq, minFreq, size, recent, gone, Replay(history), Remove(e));
        history := history + [Remove(e)];
        return;
      }
      RemoveSound(buckets, freq, minFreq, size, recent, gone, Replay(history), e);
      history := history + [Remove(e)];
      if freq[e] in buckets && e in buckets[freq[e]] {
        buckets := Unlinked(buckets, freq[e], e);
      }
      if recent == Some(e) {
        recent := None;
      }
      freq := freq - {e};
      gone := gone - {e};
      size := size - 1;
    }

    // The least frequency above from with a bucket.
    method NextNonEmpty(from: nat) returns (next: Option<nat>)
      ensures next.None? ==> forall f :: f in buckets ==> f <= from
      ensures next.Some? ==> next.value in buckets && from < next.value
      ensures next.Some? ==> forall f :: f in buckets && from < f ==> next.value <= f
    {
      next := None;
      var todo := buckets.Keys;
      while todo != {}
        invariant todo <= buckets.Keys
        invariant next.None? ==> forall f :: f in buckets && f !in todo ==> f <= from
        invariant next.Some? ==> next.value in buckets && from < next.value
        invariant next.Some? ==> forall f :: f in buckets && f !in todo && from < f ==> next.value <= f
        decreases |todo|
      {
        var f :| f in todo;
        if f > from && (next.None? || f < next.value) {
          next := Some(f);
        }
        todo := todo - {f};
      }
    }

    // The entry with the least frequency, ties broken by arrival, but for the latest insert while any
    // other is left; None exactly when nothing is tracked.
    method Pick() returns (e: Option<E>)
      requires Valid() && gone == {}
      modifies this`minFreq
      ensures Valid()
      ensures e.None? <==> freq == map[]
      ensures e.Some? ==> IsVictim(Replay(history), e.value)
    {
      hide Bucketed, Replay;
      ghost var t := Replay(history);
      while size > 0
        invariant Valid()
        decreases if minFreq in buckets then 0 else 1
      {
        if minFreq !in buckets {
          var next := NextNonEmpty(minFreq);
          NextIsLeast(buckets, t, minFreq, next);
          minFreq := next.value;
          continue;
        }
        var list := buckets[minFreq];
        BucketHead(buckets, t, minFreq);
        if recent != Some(list[0]) {
          HeadIsVictim(buckets, t, minFreq);
          return Some(list[0]);
        }
        if |list| > 1 {
          SecondIsVictim(buckets, t, minFreq);
          return Some(list[1]);
        }
        var next := NextNonEmpty(minFreq);
        if next.Some? {
          BucketHead(buckets, t, next.value);
          NextIsVictim(buckets, t, minFreq, next.value);
          return Some(buckets[next.value][0]);
        }
        AloneIsVictim(buckets, t, minFreq);
        return Some(list[0]);
      }
      return None;
    }

    // Detaches the victim; OnRemove follows.
    method Victim() returns (e: Option<E>)
      requires Valid() && gone == {}
      modifies this
      ensures Valid() && history == old(history) && freq == old(freq)
      ensures e.None? <==> freq == map[]
      ensures e.Some? ==> IsVictim(Replay(history), e.value) && gone == {e.value}
    {
      hide Bucketed, Replay;
      e := Pick();
      if e.None? {
        return;
      }
      DetachSound(buckets, freq, minFreq, size, recent, gone, Replay(history), e.value);
      buckets := Unlinked(buckets, freq[e.value], e.value);
      assert gone + {e.value} == {e.value};
      gone := {e.value};
    }

    method Reset()
      modifies this
      ensures Valid() && history == [] && gone == {}
    {
      buckets, freq, minFreq, size, recent, history, gone := map[], map[], 0, 0, None, [], {};
    }
  }

  lemma BucketHead<E(!new)>(b: map<nat, seq<E>>, t: Tally<E>, f: nat)
    requires Bucketed(b, t.freq, t.arrived, {}) && f in b
    ensures b[f] != [] && b[f][0] in t.freq
  {
    assert b[f][0] in Keys(b[f]);
  }

  // When the bucket at minFreq is gone, the next one up is the least of all.
  lemma NextIsLeast<E(!new)>(b: map<nat, seq<E>>, t: Tally<E>, m: nat, next: Option<nat>)
    requires Bucketed(b, t.freq, t.arrived, {}) && AtMost(t.freq, {}, m) && m !in b && |t.freq| > 0
    requires next.None? ==> forall f :: f in b ==> f <= m
    requires next.Some? ==> next.value in b && m < next.value && forall f :: f in b && m < f ==> next.value <= f
    ensures next.Some? && AtMost(t.freq, {}, next.value)
  {
    var e :| e in t.freq;
    assert t.freq[e] in b;
  }
}
