/** The S3-FIFO eviction policy of s3fifo.go: queue rules, victim choice and its rotation bound. */
module S3Fifo {
  import opened Prelude
  import opened Queues

  const FREQ_MAX: nat := 3

  // Queues are oldest first; an entry is named by its key. The ghost budget is the main budget.
  datatype S3<K> = S3(
    small: seq<K>,
    main: seq<K>,
    ghosts: seq<K>,
    freq: map<K, nat>,
    recent: Option<K>,
    smallBudget: nat,
    mainBudget: nat)

  function SplitBudget(budget: int): (r: (nat, nat))
    ensures budget >= 0 ==> r.0 + r.1 == budget
    ensures budget <= 0 ==> r == (0, 0)
    ensures budget == 1 ==> r == (1, 0)
    ensures budget >= 2 ==> r.0 >= 1 && r.1 >= 1 && 10 * (r.0 - 1) < budget <= 10 * r.0
  {
    if budget <= 0 then (0, 0)
    else if budget == 1 then (1, 0)
    else
      var tenth := (budget + 9) / 10;
      var small := if tenth >= budget then 1 else tenth;
      (small, budget - small)
  }

  function Resident<K>(p: S3<K>): set<K> {
    Keys(p.small) + Keys(p.main)
  }

  function Len<K>(p: S3<K>): nat {
    |p.small| + |p.main|
  }

  function Freq<K>(p: S3<K>, k: K): nat {
    if k in p.freq then p.freq[k] else 0
  }

  // The queues never share an entry, and the ghost queue holds evicted keys only.
  ghost predicate Valid<K(!new)>(p: S3<K>) {
    && Linked(p)
    && p.freq.Keys == Resident(p)
    && (forall k :: k in p.freq ==> p.freq[k] <= FREQ_MAX)
    && GhostsValid(p)
    && (p.recent.Some? ==> p.recent.value in p.freq)
  }

  ghost predicate Linked<K(!new)>(p: S3<K>) {
    Distinct(p.small) && Distinct(p.main) && Keys(p.small) !! Keys(p.main)
  }

  ghost predicate GhostsValid<K(!new)>(p: S3<K>) {
    Distinct(p.ghosts) && Keys(p.ghosts) !! p.freq.Keys && |p.ghosts| <= p.mainBudget
  }

  function Ghosted<K(==)>(p: S3<K>, k: K): S3<K> {
    if k in p.ghosts then p else p.(ghosts := Newest(p.ghosts + [k], p.mainBudget))
  }

  function Inserted<K(==)>(p: S3<K>, k: K): S3<K> {
    if k in p.ghosts then
      p.(ghosts := Without(p.ghosts, k), main := p.main + [k], freq := p.freq[k := 1], recent := Some(k))
    else
      p.(small := p.small + [k], freq := p.freq[k := 0], recent := Some(k))
  }

  function Accessed<K(==)>(p: S3<K>, k: K): S3<K> {
    if k in p.freq && p.freq[k] < FREQ_MAX then p.(freq := p.freq[k := p.freq[k] + 1]) else p
  }

  function Removed<K(==)>(p: S3<K>, k: K): S3<K> {
    p.(small := Without(p.small, k), main := Without(p.main, k), freq := p.freq - {k},
       recent := if p.recent == Some(k) then None else p.recent)
  }

  function Rebudgeted<K>(p: S3<K>, budget: int): S3<K> {
    var (s, m) := SplitBudget(budget);
    p.(smallBudget := s, mainBudget := m, ghosts := Newest(p.ghosts, m))
  }

  function TakeSmall<K(==)>(p: S3<K>, k: K): S3<K> {
    Ghosted(p.(small := Without(p.small, k), freq := p.freq - {k}), k)
  }

  function TakeMain<K(==)>(p: S3<K>, k: K): S3<K> {
    p.(main := Without(p.main, k), freq := p.freq - {k})
  }

  // One turn of Victim's rotation loop.
  datatype Move<K> = Idle | Rotate(next: S3<K>) | Evict(key: K, next: S3<K>)

  function Step<K(==)>(p: S3<K>): Move<K> {
    if |p.small| > p.smallBudget then
      var n, rest := p.small[0], p.small[1..];
      if p.recent == Some(n) then Rotate(p.(small := rest + [n]))
      else if Freq(p, n) >= 1 then Rotate(p.(small := rest, main := p.main + [n], freq := p.freq[n := 0]))
      else Evict(n, TakeSmall(p, n))
    else if |p.main| > p.mainBudget then
      var n, rest := p.main[0], p.main[1..];
      if p.recent == Some(n) then Rotate(p.(main := rest + [n]))
      else if Freq(p, n) >= 1 then Rotate(p.(main := rest + [n], freq := p.freq[n := Freq(p, n) - 1]))
      else Evict(n, TakeMain(p, n))
    else Idle
  }

  datatype Outcome<K> = Done(victim: Option<K>, next: S3<K>) | Exhausted(next: S3<K>)

  function Run<K(==)>(p: S3<K>, fuel: nat): Outcome<K>
    decreases fuel
  {
    if fuel == 0 then Exhausted(p)
    else
      match Step(p)
      case Idle => Done(None, p)
      case Evict(k, q) => Done(Some(k), q)
      case Rotate(q) => Run(q, fuel - 1)
  }

  function MaxRotations<K>(p: S3<K>): nat {
    (Len(p) + 1) * (FREQ_MAX + 1) + 1
  }

  // ---- The loop always returns -------------------------------------------------------------

  // A rotation neither loses nor duplicates an entry.
  lemma RotateConserves<K(!new)>(p: S3<K>)
    requires Linked(p) && Step(p).Rotate?
    ensures var q := Step(p).next; Linked(q) && Resident(q) == Resident(p) && Len(q) == Len(p)
  {
    hide Keys, Distinct;
    if |p.small| > p.smallBudget {
      InKeys(p.small, p.small[0]);
      InKeys(p.main, p.small[0]);
      RotateHead(p.small);
      DropHead(p.small);
      Append(p.main, p.small[0]);
    } else {
      RotateHead(p.main);
    }
  }

  // The entry at position i of Main leaves, or another does, within this many turns.
  lemma {:induction false} MainPhaseEnds<K(!new)>(p: S3<K>, fuel: nat, i: nat)
    requires Linked(p) && |p.small| <= p.smallBudget
    requires i < |p.main| && p.recent != Some(p.main[i])
    requires fuel >= Freq(p, p.main[i]) * |p.main| + i + 1
    ensures Run(p, fuel).Done?
    decreases fuel
  {
    hide Keys, Distinct;
    if Step(p).Rotate? {
      var q := Step(p).next;
      var f := Freq(p, p.main[0]);
      RotateConserves(p);
      if i == 0 {
        assert (f - 1) * |p.main| + |p.main| == f * |p.main|;
        MainPhaseEnds(q, fuel - 1, |q.main| - 1);
      } else {
        DistinctAt(p.main, i);
        MainPhaseEnds(q, fuel - 1, i - 1);
      }
    }
  }

  // The recent entry costs Small at most one rotation, to its tail.
  function SmallTurns<K(==)>(p: S3<K>): nat
    requires p.small != []
  {
    |p.small| + if p.recent.Some? && p.recent.value in p.small[..|p.small| - 1] then 1 else 0
  }

  lemma InnerSlice<K>(s: seq<K>)
    requires |s| >= 2
    ensures s[1..][..|s| - 2] == s[..|s| - 1][1..]
  {
  }

  lemma {:induction false} SmallPhaseEnds<K(!new)>(p: S3<K>, fuel: nat)
    requires Linked(p) && p.smallBudget >= 1 && |p.small| > p.smallBudget
    requires fuel >= SmallTurns(p) + Len(p)
    ensures Run(p, fuel).Done?
    decreases fuel
  {
    hide Keys, Distinct, Resident;
    if Step(p).Rotate? {
      var q := Step(p).next;
      RotateConserves(p);
      DropHead(p.small);
      if p.recent == Some(p.small[0]) {
        assert q.small == p.small[1..] + [p.small[0]];
        assert q.small[..|q.small| - 1] == p.small[1..];
        SmallPhaseEnds(q, fuel - 1);
      } else if |q.small| > q.smallBudget {
        assert q.small == p.small[1..];
        InnerSlice(p.small);
        SmallPhaseEnds(q, fuel - 1);
      } else {
        MainPhaseEnds(q, fuel - 1, |q.main| - 1);
      }
    }
  }

  lemma VictimEndsInLoop<K(!new)>(p: S3<K>)
    requires Valid(p) && p.smallBudget >= 1 && p.mainBudget >= 1
    ensures Run(p, MaxRotations(p)).Done?
  {
    if |p.small| > p.smallBudget {
      SmallPhaseEnds(p, MaxRotations(p));
    } else if |p.main| > p.mainBudget {
      DistinctAt(p.main, 1);
      var i := if p.recent == Some(p.main[0]) then 1 else 0;
      assert p.main[i] in Resident(p);
      assert Freq(p, p.main[i]) * |p.main| <= FREQ_MAX * |p.main|;
      MainPhaseEnds(p, MaxRotations(p), i);
    }
  }

  // ---- Victim and shed -----------------------------------------------------------------------

  function FirstOther<K(==)>(q: seq<K>, recent: Option<K>): Option<K> {
    if q == [] then None else if recent != Some(q[0]) then Some(q[0]) else FirstOther(q[1..], recent)
  }

  function Fallback<K(==)>(p: S3<K>): (Option<K>, S3<K>) {
    var s, m := FirstOther(p.small, p.recent), FirstOther(p.main, p.recent);
    if |p.main| > p.mainBudget && m.Some? then (m, TakeMain(p, m.value))
    else if s.Some? then (s, TakeSmall(p, s.value))
    else if m.Some? then (m, TakeMain(p, m.value))
    else (None, p)
  }

  function VictimOf<K(==)>(p: S3<K>): (Option<K>, S3<K>) {
    match Run(p, MaxRotations(p))
    case Done(v, q) => (v, q)
    case Exhausted(q) => Fallback(q)
  }

  function ShedOf<K(==)>(p: S3<K>, keepRecent: bool): (Option<K>, S3<K>) {
    var s, m := FirstOther(p.small, p.recent), FirstOther(p.main, p.recent);
    if s.Some? then (s, TakeSmall(p, s.value))
    else if m.Some? then (m, TakeMain(p, m.value))
    else if keepRecent || p.recent.None? then (None, p)
    else if p.recent.value in p.main then (p.recent, TakeMain(p, p.recent.value))
    else (p.recent, TakeSmall(p, p.recent.value))
  }

  // policy.go's shedVictim: Victim, then shed.
  function ShedVictimOf<K(==)>(p: S3<K>, keepRecent: bool): (Option<K>, S3<K>) {
    var (v, q) := VictimOf(p);
    if v.Some? then (v, q) else ShedOf(q, keepRecent)
  }

  // One round of cache.go's evictOverBudgetLocked: Victim for the shard's budget, shedVictim for the cache's.
  function EvictOf<K(==)>(p: S3<K>, overShard: bool, overTotal: bool, keepRecent: bool): (Option<K>, S3<K>) {
    var (v, q) := if overShard then VictimOf(p) else (None, p);
    if v.None? && overTotal then ShedVictimOf(q, keepRecent) else (v, q)
  }

  // q is p with exactly v gone.
  ghost predicate Gone<K(!new)>(p: S3<K>, v: Option<K>, q: S3<K>) {
    && q.recent == p.recent && q.smallBudget == p.smallBudget && q.mainBudget == p.mainBudget
    && (v.Some? ==> v.value in p.freq)
    && q.freq.Keys == p.freq.Keys - (if v.Some? then {v.value} else {})
    && (forall k :: k in q.freq ==> q.freq[k] <= p.freq[k])
    && Len(p) == Len(q) + (if v.Some? then 1 else 0)
    && Linked(q) && q.freq.Keys == Resident(q) && GhostsValid(q)
  }

  lemma TakeMainGone<K(!new)>(p: S3<K>, k: K)
    requires Valid(p) && k in p.main
    ensures Gone(p, Some(k), TakeMain(p, k))
  {
    hide Keys, Distinct, Without;
    InKeys(p.main, k);
    Unlink(p.main, k);
  }

  lemma TakeSmallGone<K(!new)>(p: S3<K>, k: K)
    requires Valid(p) && k in p.small
    ensures Gone(p, Some(k), TakeSmall(p, k)) && k !in p.ghosts
    ensures TakeSmall(p, k).ghosts == Newest(p.ghosts + [k], p.mainBudget)
  {
    hide Keys, Distinct, Without, Newest;
    InKeys(p.small, k);
    InKeys(p.ghosts, k);
    Unlink(p.small, k);
    Append(p.ghosts, k);
    TrimFront(p.ghosts + [k], p.mainBudget);
  }

  lemma StepGone<K(!new)>(p: S3<K>)
    requires Valid(p)
    ensures Step(p).Rotate? ==> Gone(p, None, Step(p).next)
    ensures Step(p).Evict? ==> Gone(p, Some(Step(p).key), Step(p).next) && p.recent != Some(Step(p).key)
  {
    hide Keys, Distinct, TakeSmall, TakeMain;
    if |p.small| > p.smallBudget {
      InKeys(p.small, p.small[0]);
      TakeSmallGone(p, p.small[0]);
    } else if |p.main| > p.mainBudget {
      InKeys(p.main, p.main[0]);
      TakeMainGone(p, p.main[0]);
    }
    if Step(p).Rotate? { RotateConserves(p); }
  }

  lemma GoneValid<K(!new)>(p: S3<K>, v: Option<K>, q: S3<K>)
    requires Valid(p) && Gone(p, v, q) && (v.None? || v != p.recent)
    ensures Valid(q) && q.recent == p.recent
  {
    hide Keys, Distinct;
  }

  lemma GoneSelf<K(!new)>(p: S3<K>)
    requires Valid(p)
    ensures Gone(p, None, p)
  {
    hide Keys, Distinct;
  }

  lemma GoneTwice<K(!new)>(p: S3<K>, q: S3<K>, v: Option<K>, r: S3<K>)
    requires Gone(p, None, q) && Gone(q, v, r)
    ensures Gone(p, v, r)
  {
    hide Keys, Distinct, Linked, GhostsValid, Resident;
  }

  // Whatever the loop does, exactly its victim leaves, and never the recent insert.
  lemma {:induction false} RunGone<K(!new)>(p: S3<K>, fuel: nat)
    requires Valid(p)
    ensures var r := Run(p, fuel);
      && Gone(p, if r.Done? then r.victim else None, r.next) && Valid(r.next)
      && (r.Done? ==> r.victim.None? || r.victim != p.recent)
      && (r.Done? && r.victim.None? ==> Step(r.next).Idle?)
    decreases fuel
  {
    hide Gone, Valid, Step;
    if fuel == 0 {
      GoneSelf(p);
    } else {
      StepGone(p);
      match Step(p)
      case Idle => GoneSelf(p);
      case Evict(k, q) => GoneValid(p, Some(k), q);
      case Rotate(q) =>
        GoneValid(p, None, q);
        RunGone(q, fuel - 1);
        GoneTwice(p, q, if Run(q, fuel - 1).Done? then Run(q, fuel - 1).victim else None, Run(q, fuel - 1).next);
    }
  }

  // The ghost queue records exactly the victims that leave Small unaccessed.
  lemma {:induction false} RunGhosts<K(!new)>(p: S3<K>, fuel: nat)
    requires Valid(p)
    ensures var r := Run(p, fuel);
      r.next.ghosts ==
        if r.Done? && r.victim.Some? && r.victim.value in p.small && Freq(p, r.victim.value) == 0
        then Newest(p.ghosts + [r.victim.value], p.mainBudget) else p.ghosts
    decreases fuel
  {
    hide Keys, Distinct, Newest, GhostsValid, Resident;
    if fuel > 0 {
      StepGone(p);
      match Step(p)
      case Idle =>
      case Evict(k, q) => EvictGhosts(p);
      case Rotate(q) =>
        GoneValid(p, None, q);
        RunGhosts(q, fuel - 1);
        RunGone(q, fuel - 1);
        if Run(q, fuel - 1).Done? && Run(q, fuel - 1).victim.Some? {
          RotateColdness(p, Run(q, fuel - 1).victim.value);
        }
    }
  }

  // With budgets of at least 1 each, Victim turns into ghosts exactly the entries it takes from Small that
  // were not accessed since they came in, newest last and within the ghost budget.
  lemma VictimGhosts<K(!new)>(p: S3<K>)
    requires Valid(p) && p.smallBudget >= 1 && p.mainBudget >= 1
    ensures var (v, q) := VictimOf(p);
      q.ghosts ==
        if v.Some? && v.value in p.small && Freq(p, v.value) == 0
        then Newest(p.ghosts + [v.value], p.mainBudget) else p.ghosts
  {
    hide Run, MaxRotations, Valid, Newest;
    VictimEndsInLoop(p);
    RunGhosts(p, MaxRotations(p));
  }

  lemma EvictGhosts<K(!new)>(p: S3<K>)
    requires Valid(p) && Step(p).Evict?
    ensures Step(p).next.ghosts ==
      if Step(p).key in p.small && Freq(p, Step(p).key) == 0
      then Newest(p.ghosts + [Step(p).key], p.mainBudget) else p.ghosts
  {
    hide Keys, Distinct, Newest, Gone, Without;
    InKeys(p.small, Step(p).key);
    InKeys(p.main, Step(p).key);
    if |p.small| > p.smallBudget { TakeSmallGone(p, p.small[0]); }
  }

  lemma RotateColdness<K(!new)>(p: S3<K>, k: K)
    requires Valid(p) && Step(p).Rotate?
    ensures var q := Step(p).next; (k in q.small && Freq(q, k) == 0) <==> (k in p.small && Freq(p, k) == 0)
  {
    if |p.small| > p.smallBudget {
      DropHead(p.small);
      RotateHead(p.small);
      InKeys(p.small[1..] + [p.small[0]], k);
      InKeys(p.small[1..], k);
      InKeys(p.small, k);
    } else {
      InKeys(p.main, p.main[0]);
      InKeys(p.small, p.main[0]);
    }
  }

  lemma OtherFound<K>(q: seq<K>, recent: Option<K>)
    ensures var f := FirstOther(q, recent);
      if f.Some? then f.value in q && f != recent else forall k :: k in q ==> recent == Some(k)
  {
  }

  lemma FallbackGone<K(!new)>(p: S3<K>)
    requires Valid(p)
    ensures var (v, q) := Fallback(p);
      && Gone(p, v, q) && Valid(q)
      && (v.None? ==> Resident(p) <= if p.recent.Some? then {p.recent.value} else {})
      && (v.Some? ==> v != p.recent)
  {
    hide TakeSmall, TakeMain, Gone;
    OtherFound(p.small, p.recent);
    OtherFound(p.main, p.recent);
    var (v, q) := Fallback(p);
    if v.None? {
      GoneSelf(p);
    } else {
      if v.value in p.small { TakeSmallGone(p, v.value); }
      if v.value in p.main { TakeMainGone(p, v.value); }
      GoneValid(p, v, q);
    }
  }

  lemma ResidentCount<K(!new)>(p: S3<K>)
    requires Linked(p)
    ensures |Resident(p)| == Len(p)
  {
  }

  lemma AtMostOne<K(!new)>(p: S3<K>)
    requires Linked(p) && Resident(p) <= if p.recent.Some? then {p.recent.value} else {}
    ensures Len(p) <= if p.recent.Some? then 1 else 0
  {
    ResidentCount(p);
    if p.recent.Some? {
      assert Resident(p) == {} || Resident(p) == {p.recent.value};
    }
  }

  // The victim is an entry other than the latest insert, and there is one whenever the policy
  // tracks more than its budget. VictimEndsInLoop says when the fallback is not needed.
  lemma VictimSound<K(!new)>(p: S3<K>)
    requires Valid(p)
    ensures var (v, q) := VictimOf(p);
      && Valid(q) && Gone(p, v, q)
      && (v.Some? ==> v != p.recent)
      && (Len(p) > p.smallBudget + p.mainBudget && Len(p) >= 2 ==> v.Some?)
  {
    hide Run, MaxRotations, Fallback, Keys, Distinct, Resident, GhostsValid;
    RunGone(p, MaxRotations(p));
    var r := Run(p, MaxRotations(p));
    if r.Exhausted? {
      FallbackGone(r.next);
      if Fallback(r.next).0.None? { AtMostOne(r.next); }
      GoneTwice(p, r.next, Fallback(r.next).0, Fallback(r.next).1);
    }
  }

  // shed yields a victim whenever one is allowed: any entry, or any but the latest insert.
  lemma ShedSound<K(!new)>(p: S3<K>, keepRecent: bool)
    requires Valid(p)
    ensures var (v, q) := ShedOf(p, keepRecent);
      && Gone(p, v, q)
      && (v.Some? && v == p.recent ==> !keepRecent && Len(p) == 1)
      && (Len(p) >= (if keepRecent then 2 else 1) ==> v.Some?)
  {
    hide TakeSmall, TakeMain, Gone, GhostsValid;
    OtherFound(p.small, p.recent);
    OtherFound(p.main, p.recent);
    var v := ShedOf(p, keepRecent).0;
    if v.None? {
      GoneSelf(p);
      AtMostOne(p);
    } else {
      if v == p.recent { AtMostOne(p); }
      if v.value in p.small { TakeSmallGone(p, v.value); }
      if v.value in p.main { TakeMainGone(p, v.value); }
    }
  }

  // ---- What every notification keeps ---------------------------------------------------------

  lemma RebirthKeeps<K(!new)>(p: S3<K>, k: K)
    requires Valid(p) && k !in Resident(p) && k in p.ghosts
    ensures Linked(Inserted(p, k)) && GhostsValid(Inserted(p, k)) && Resident(Inserted(p, k)) == Resident(p) + {k}
    ensures k !in Inserted(p, k).ghosts
  {
    hide Keys, Distinct, Without;
    InKeys(p.small, k);
    InKeys(p.main, k);
    InKeys(Without(p.ghosts, k), k);
    Append(p.main, k);
    Unlink(p.ghosts, k);
  }

  lemma NewcomerKeeps<K(!new)>(p: S3<K>, k: K)
    requires Valid(p) && k !in Resident(p) && k !in p.ghosts
    ensures Linked(Inserted(p, k)) && GhostsValid(Inserted(p, k)) && Resident(Inserted(p, k)) == Resident(p) + {k}
    ensures k !in p.main
  {
    hide Keys, Distinct;
    InKeys(p.small, k);
    InKeys(p.main, k);
    InKeys(p.ghosts, k);
    Append(p.small, k);
  }

  // shedVictim finds a victim whenever it may take one, and spares the latest insert if asked to.
  lemma ShedVictimSound<K(!new)>(p: S3<K>, keepRecent: bool)
    requires Valid(p)
    ensures var (v, q) := ShedVictimOf(p, keepRecent);
      && Gone(p, v, q)
      && (v.Some? && v == p.recent ==> !keepRecent)
      && (Len(p) >= (if keepRecent then 2 else 1) ==> v.Some?)
  {
    hide VictimOf, ShedOf;
    VictimSound(p);
    var (v, q) := VictimOf(p);
    if v.None? {
      ShedSound(q, keepRecent);
      GoneTwice(p, q, ShedOf(q, keepRecent).0, ShedOf(q, keepRecent).1);
    }
  }

  // A new entry joins Main when its key was evicted from Small lately, else Small.
  lemma OnInsertKeeps<K(!new)>(p: S3<K>, k: K)
    requires Valid(p) && k !in Resident(p)
    ensures var q := Inserted(p, k);
      && Valid(q) && Resident(q) == Resident(p) + {k} && q.recent == Some(k) && Len(q) == Len(p) + 1
      && (k in p.ghosts <==> k in q.main) && k !in q.ghosts
      && (if k in p.ghosts then q.main == p.main + [k] && q.small == p.small
          else q.small == p.small + [k] && q.main == p.main)
      && forall x :: Freq(q, x) == if x == k then if k in p.ghosts then 1 else 0 else Freq(p, x)
  {
    hide Keys, Distinct, Without, Linked, GhostsValid, Resident;
    if k in p.ghosts { RebirthKeeps(p, k); } else { NewcomerKeeps(p, k); }
  }

  lemma OnAccessKeeps<K(!new)>(p: S3<K>, k: K)
    requires Valid(p)
    ensures var q := Accessed(p, k);
      && Valid(q) && Resident(q) == Resident(p) && q == p.(freq := q.freq)
      && forall x :: Freq(q, x) == if x == k && k in p.freq && Freq(p, k) < 3 then Freq(p, k) + 1 else Freq(p, x)
  {
    hide Keys, Distinct;
  }

  lemma SetBudgetKeeps<K(!new)>(p: S3<K>, budget: int)
    requires Valid(p)
    ensures var q := Rebudgeted(p, budget);
      && Valid(q) && Resident(q) == Resident(p) && (q.smallBudget, q.mainBudget) == SplitBudget(budget)
      && q == p.(smallBudget := q.smallBudget, mainBudget := q.mainBudget, ghosts := q.ghosts)
      && |q.ghosts| == (if |p.ghosts| < q.mainBudget then |p.ghosts| else q.mainBudget)
      && q.ghosts == p.ghosts[|p.ghosts| - |q.ghosts|..]
  {
    hide Keys, Distinct;
    TrimFront(p.ghosts, SplitBudget(budget).1);
  }

  lemma OnRemoveKeeps<K(!new)>(p: S3<K>, k: K)
    requires Valid(p)
    ensures var q := Removed(p, k);
      && Valid(q) && Resident(q) == Resident(p) - {k}
      && q.recent == if p.recent == Some(k) then None else p.recent
  {
    hide Keys, Distinct, Without, GhostsValid;
    InKeys(p.small, k);
    InKeys(p.main, k);
    if k in p.small {
      Unlink(p.small, k);
      UnlinkAbsent(p.main, k);
    } else {
      UnlinkAbsent(p.small, k);
      Unlink(p.main, k);
    }
    GhostsKept(p, Removed(p, k));
    assert Linked(Removed(p, k));
  }

  lemma GhostsKept<K(!new)>(p: S3<K>, q: S3<K>)
    requires GhostsValid(p) && q.ghosts == p.ghosts && q.mainBudget == p.mainBudget && q.freq.Keys <= p.freq.Keys
    ensures GhostsValid(q)
  {
  }

  // Nothing but the entry removed changes.
  lemma OnRemoveLeaves<K(!new)>(p: S3<K>, k: K)
    ensures var q := Removed(p, k);
      && q == p.(small := q.small, main := q.main, freq := q.freq, recent := q.recent)
      && (k !in p.small ==> q.small == p.small) && (k !in p.main ==> q.main == p.main)
      && forall x :: x != k ==> Freq(q, x) == Freq(p, x)
  {
    if k !in p.small { UnlinkAbsent(p.small, k); }
    if k !in p.main { UnlinkAbsent(p.main, k); }
  }

  // The OnRemove that follows an eviction finds nothing left to unlink.
  lemma OnRemoveEvicted<K(!new)>(p: S3<K>, k: K, q: S3<K>)
    requires Valid(p) && Gone(p, Some(k), q)
    ensures var r := Removed(q, k);
      && Valid(r) && Resident(r) == Resident(p) - {k} && Len(r) == Len(p) - 1
      && r.recent == (if p.recent == Some(k) then None else p.recent)
      && r.smallBudget == p.smallBudget && r.mainBudget == p.mainBudget
  {
    hide Keys, Distinct, Without, GhostsValid;
    InKeys(q.small, k);
    InKeys(q.main, k);
    UnlinkAbsent(q.small, k);
    UnlinkAbsent(q.main, k);
    GhostsKept(q, Removed(q, k));
  }

  // ---- The policy object ---------------------------------------------------------------------

  class S3Policy<K(==, !new)> {
    var small: seq<K>
    var main: seq<K>
    var ghosts: seq<K>
    var freq: map<K, nat>
    var recent: Option<K>
    var smallBudget: nat
    var mainBudget: nat

    ghost function View(): S3<K>
      reads this
    {
      S3(small, main, ghosts, freq, recent, smallBudget, mainBudget)
    }

    constructor (budget: int)
      ensures Valid(View()) && Resident(View()) == {}
      ensures (smallBudget, mainBudget) == SplitBudget(budget)
    {
      var (s, m) := SplitBudget(budget);
      small, main, ghosts, freq, recent := [], [], [], map[], None;
      smallBudget, mainBudget := s, m;
    }

    method SetBudget(budget: int)
      modifies this
      ensures View() == Rebudgeted(old(View()), budget)
    {
      var (s, m) := SplitBudget(budget);
      smallBudget, mainBudget := s, m;
      TrimGhosts();
    }

    method TrimGhosts()
      modifies this
      ensures View() == old(View()).(ghosts := Newest(old(ghosts), mainBudget))
    {
      while |ghosts| > mainBudget
        invariant View() == old(View()).(ghosts := ghosts)
        invariant Newest(ghosts, mainBudget) == Newest(old(ghosts), mainBudget)
      {
        ghosts := ghosts[1..];
      }
    }

    method OnInsert(k: K)
      modifies this
      ensures View() == Inserted(old(View()), k)
    {
      if k in ghosts {
        ghosts := Without(ghosts, k);
        freq := freq[k := 1];
        main := main + [k];
      } else {
        freq := freq[k := 0];
        small := small + [k];
      }
      recent := Some(k);
    }

    method OnAccess(k: K)
      modifies this`freq
      ensures View() == Accessed(old(View()), k)
    {
      if k in freq && freq[k] < FREQ_MAX {
        freq := freq[k := freq[k] + 1];
      }
    }

    method OnRemove(k: K)
      modifies this
      ensures View() == Removed(old(View()), k)
    {
      small, main, freq := Without(small, k), Without(main, k), freq - {k};
      if recent == Some(k) { recent := None; }
    }

    method RecordGhost(k: K)
      modifies this
      ensures View() == Ghosted(old(View()), k)
    {
      if k in ghosts { return; }
      ghosts := ghosts + [k];
      TrimGhosts();
    }

    // firstSmallNotRecent and firstMainNotRecent.
    method FirstNotRecent(q: seq<K>) returns (r: Option<K>)
      ensures r == FirstOther(q, recent)
    {
      for i := 0 to |q|
        invariant FirstOther(q[i..], recent) == FirstOther(q, recent)
      {
        if recent != Some(q[i]) { return Some(q[i]); }
        assert q[i..][1..] == q[i + 1..];
      }
      return None;
    }

    method EvictSmall(k: K)
      modifies this
      ensures View() == TakeSmall(old(View()), k)
    {
      small, freq := Without(small, k), freq - {k};
      RecordGhost(k);
    }

    method Victim() returns (v: Option<K>)
      modifies this
      ensures (v, View()) == VictimOf(old(View()))
    {
      var maxRotations := (|small| + |main| + 1) * (FREQ_MAX + 1) + 1;
      for it := 0 to maxRotations
        invariant Run(View(), maxRotations - it) == Run(old(View()), maxRotations)
      {
        ghost var p := View();
        if |small| > smallBudget {
          var n := small[0];
          if recent == Some(n) {
            small := small[1..] + [n];
          } else if n in freq && freq[n] >= 1 {
            small, main, freq := small[1..], main + [n], freq[n := 0];
          } else {
            EvictSmall(n);
            return Some(n);
          }
        } else if |main| > mainBudget {
          var n := main[0];
          if recent == Some(n) {
            main := main[1..] + [n];
          } else if n in freq && freq[n] >= 1 {
            main, freq := main[1..] + [n], freq[n := freq[n] - 1];
          } else {
            main, freq := Without(main, n), freq - {n};
            return Some(n);
          }
        } else {
          return None;
        }
        assert Step(p) == Rotate(View());
      }
      var s := FirstNotRecent(small);
      var m := FirstNotRecent(main);
      if |main| > mainBudget && m.Some? {
        main, freq := Without(main, m.value), freq - {m.value};
        return m;
      }
      if s.Some? {
        EvictSmall(s.value);
        return s;
      }
      if m.Some? {
        main, freq := Without(main, m.value), freq - {m.value};
        return m;
      }
      return None;
    }

    method Reset()
      modifies this
      ensures Valid(View()) && Resident(View()) == {}
      ensures smallBudget == old(smallBudget) && mainBudget == old(mainBudget)
    {
      small, main, ghosts, freq, recent := [], [], [], map[], None;
    }

    method Shed(keepRecent: bool) returns (v: Option<K>)
      modifies this
      ensures (v, View()) == ShedOf(old(View()), keepRecent)
    {
      v := FirstNotRecent(small);
      if v.Some? {
        EvictSmall(v.value);
        return;
      }
      v := FirstNotRecent(main);
      if v.Some? {
        main, freq := Without(main, v.value), freq - {v.value};
        return;
      }
      if keepRecent || recent.None? { return; }
      v := recent;
      if v.value in main {
        main, freq := Without(main, v.value), freq - {v.value};
      } else {
        EvictSmall(v.value);
      }
    }

    method ShedVictim(keepRecent: bool) returns (v: Option<K>)
      modifies this
      ensures (v, View()) == ShedVictimOf(old(View()), keepRecent)
    {
      hide VictimOf, ShedOf;
      v := Victim();
      if v.None? { v := Shed(keepRecent); }
    }
  }
}
