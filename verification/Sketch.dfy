/** The nibble-packed count-min sketch of internal/sketch/cms.go. */
module Sketch {
  import opened FlatStorage

  datatype Event = Hit(h: nat) | Decay

  const MAX: bv8 := 15

  // The exact count of h: saturating at 15 and halved by every Reset.
  function Exact(history: seq<Event>, h: nat): bv8 {
    if history == [] then 0 as bv8
    else
      var before := Exact(history[..|history| - 1], h);
      match history[|history| - 1]
      case Hit(x) => if x == h then Bump(before) else before
      case Decay => before >> 1
  }

  function Bump(c: bv8): bv8 {
    if c >= MAX then c else c + 1
  }

  // The counter in the even or odd half of a byte.
  function Nibble(b: bv8, odd: bool): bv8 {
    if odd then (b >> 4) & 0x0f else b & 0x0f
  }

  function Packed(b: bv8, odd: bool, v: bv8): bv8 {
    if odd then (b & 0x0f) | ((v & 0x0f) << 4) else (b & 0xf0) | (v & 0x0f)
  }

  function Halved(b: bv8): bv8 {
    (((b & 0xf0) >> 1) & 0xf0) | ((b & 0x0f) >> 1)
  }

  // A write changes its own counter and not the one it shares the byte with.
  lemma PackedNibbles(b: bv8, odd: bool, v: bv8)
    requires v <= MAX
    ensures Nibble(Packed(b, odd, v), odd) == v && Nibble(Packed(b, odd, v), !odd) == Nibble(b, !odd)
  {
  }

  // Both counters of a byte are halved independently.
  lemma HalvedNibbles(b: bv8, odd: bool)
    ensures Nibble(Halved(b), odd) == Nibble(b, odd) >> 1
  {
  }

  lemma NibbleBound(b: bv8, odd: bool)
    ensures Nibble(b, odd) <= MAX
  {
  }

  lemma HalfMonotone(a: bv8, b: bv8)
    requires a <= b
    ensures a >> 1 <= b >> 1
  {
  }

  lemma BumpMonotone(a: bv8, b: bv8)
    requires a <= b <= MAX
    ensures Bump(a) <= Bump(b) && a <= Bump(a) <= MAX && (a < b ==> Bump(a) <= b)
  {
  }

  lemma ExactNext(history: seq<Event>, x: Event, h: nat)
    ensures Exact(history + [x], h) ==
            match x { case Hit(y) => if y == h then Bump(Exact(history, h)) else Exact(history, h)
                      case Decay => Exact(history, h) >> 1 }
  {
    assert (history + [x])[..|history|] == history;
  }

  // One counter c of a hash with exact count e when a hash whose least counter is l is counted: same says
  // they are one hash, col that they share this counter.
  lemma AddCase(e: bv8, l: bv8, c: bv8, same: bool, col: bool)
    requires e <= c <= MAX && l <= MAX && (same ==> col && e <= l <= c)
    ensures var d := if col && c == l && l < MAX then Bump(l) else c;
      var f := if same then Bump(e) else e;
      f <= d <= MAX && (c == e && (same || !col) ==> d == f)
  {
    BumpMonotone(e, c);
    BumpMonotone(l, MAX);
  }

  lemma Bumps(l: bv8)
    requires l < MAX
    ensures Bump(l) == l + 1 && l + 1 <= MAX
  {
  }

  class CountMinSketch {
    const rows: array2<bv8>
    // The column hash of each row, before reduction to the width.
    const mix: (nat, nat) -> nat
    ghost var history: seq<Event>

    function Width(): nat {
      2 * rows.Length1
    }

    function Column(i: nat, h: nat): (col: nat)
      requires rows.Length1 > 0
      ensures col < Width()
    {
      mix(i, h) % Width()
    }

    // The packed table as the two-dimensional array of counters it stands for.
    ghost function Counter(i: nat, col: nat): bv8
      requires i < rows.Length0 && col < Width()
      reads rows
    {
      Nibble(rows[i, col / 2], col % 2 == 1)
    }

    // No other hash counted in history shares h's column in row i.
    ghost predicate Alone(history: seq<Event>, i: nat, h: nat)
      requires rows.Length1 > 0
    {
      forall m :: 0 <= m < |history| && history[m].Hit? && Column(i, history[m].h) == Column(i, h) ==> history[m].h == h
    }

    // Every counter of h fits four bits and is at least its exact count, and equal to it where h is alone.
    ghost predicate Valid()
      reads this, rows
    {
      && rows.Length0 == 4 && rows.Length1 > 0
      && (forall i: nat, h: nat :: i < 4 ==> Exact(history, h) <= Counter(i, Column(i, h)) <= MAX)
      && (forall i: nat, h: nat :: i < 4 && Alone(history, i, h) ==> Counter(i, Column(i, h)) == Exact(history, h))
    }

    // Width is a power of two of at least 64 and at least ten times the expected keys.
    constructor (expected: int, mix: (nat, nat) -> nat)
      ensures Valid() && history == [] && fresh(rows) && this.mix == mix
      ensures PowerOfTwo(Width()) && Width() >= 64 && Width() >= 10 * expected
    {
      var target := if expected * 10 >= 64 then expected * 10 else 64;
      var w := 64;
      while w < target
        invariant PowerOfTwo(w) && w >= 64 && w % 2 == 0
      {
        assert (w * 2) / 2 == w;
        w := w * 2;
      }
      this.mix := mix;
      history := [];
      rows := new bv8[4, w / 2]((_, _) => 0);
    }

    method Read(i: nat, col: nat) returns (v: bv8)
      requires i < rows.Length0 && col < Width()
      ensures v == Counter(i, col) && v <= MAX
    {
      var b := rows[i, col / 2];
      NibbleBound(b, col % 2 == 1);
      v := if col % 2 == 0 then b & 0x0f else (b >> 4) & 0x0f;
    }

    method Write(i: nat, col: nat, v: bv8)
      requires i < rows.Length0 && col < Width() && v <= MAX
      modifies rows
      ensures Counter(i, col) == v
      ensures forall r: nat, c: nat :: r < rows.Length0 && c < Width() && (r != i || c != col) ==>
                Counter(r, c) == old(Counter(r, c))
    {
      var b := rows[i, col / 2];
      PackedNibbles(b, col % 2 == 1, v);
      hide Nibble, Packed;
      rows[i, col / 2] := Packed(b, col % 2 == 1, v);
    }
  
    // The least counter of h.
    method Lowest(h: nat) returns (lowest: bv8)
      requires rows.Length0 == 4 && rows.Length1 > 0
      ensures lowest <= MAX && forall i: nat :: i < 4 ==> lowest <= Counter(i, Column(i, h))
      ensures exists i: nat :: i < 4 && lowest == Counter(i, Column(i, h))
    {
      hide Nibble;
      lowest := MAX;
      for i := 0 to 4
        invariant lowest <= MAX && forall r: nat :: r < i ==> lowest <= Counter(r, Column(r, h))
        invariant lowest == MAX || exists r: nat :: r < i && lowest == Counter(r, Column(r, h))
      {
        var v := Read(i, Column(i, h));
        if v < lowest { lowest := v; }
      }
      if lowest == MAX {
        var v := Read(0, Column(0, h));
        assert lowest == Counter(0, Column(0, h));
      }
    }

    // Never below the exact count, and equal to it when some row holds h alone.
    method Estimate(h: nat) returns (lowest: bv8)
      requires Valid()
      ensures Exact(history, h) <= lowest <= MAX
      ensures (exists i: nat :: i < 4 && Alone(history, i, h)) ==> lowest == Exact(history, h)
    {
      hide Nibble, Exact;
      lowest := Lowest(h);
    }

    // Adds one to every counter of h that is at its least.
    method Raise(h: nat, lowest: bv8)
      requires rows.Length0 == 4 && rows.Length1 > 0 && lowest < MAX
      modifies rows
      ensures forall r: nat, c: nat :: r < 4 && c < Width() ==>
        Counter(r, c) == if c == Column(r, h) && old(Counter(r, c)) == lowest then Bump(lowest) else old(Counter(r, c))
    {
      hide Nibble, Bump;
      Bumps(lowest);
      for i := 0 to 4
        invariant forall r: nat, c: nat :: r < 4 && c < Width() ==>
          Counter(r, c) == if r < i && c == Column(r, h) && old(Counter(r, c)) == lowest then Bump(lowest)
                           else old(Counter(r, c))
      {
        var v := Read(i, Column(i, h));
        if v == lowest { Write(i, Column(i, h), v + 1); }
      }
    }

    method Increment(h: nat)
      requires Valid()
      modifies this`history, rows
      ensures Valid() && history == old(history) + [Hit(h)]
    {
      hide Nibble, Exact, Bump, CountMinSketch.Counter, CountMinSketch.Column, CountMinSketch.Alone;
      var lowest := Lowest(h);
      if lowest < MAX {
        Raise(h, lowest);
      }
      history := history + [Hit(h)];
      forall i: nat, x: nat | i < 4
        ensures Exact(history, x) <= Counter(i, Column(i, x)) <= MAX
        ensures Alone(history, i, x) ==> Counter(i, Column(i, x)) == Exact(history, x)
      {
        ExactNext(old(history), Hit(h), x);
        AddCase(Exact(old(history), x), lowest, old(Counter(i, Column(i, x))), x == h, Column(i, x) == Column(i, h));
        if Alone(history, i, x) { AloneBefore(old(history), Hit(h), i, x); }
      }
    }

    lemma AloneBefore(before: seq<Event>, x: Event, i: nat, h: nat)
      requires rows.Length1 > 0 && Alone(before + [x], i, h)
      ensures Alone(before, i, h) && (x.Hit? && Column(i, x.h) == Column(i, h) ==> x.h == h)
    {
      assert (before + [x])[|before|] == x;
      forall m | 0 <= m < |before| ensures (before + [x])[m] == before[m] {}
    }

    // Halves every counter.
    method HalveAll()
      requires rows.Length0 == 4 && rows.Length1 > 0
      modifies rows
      ensures forall i, j :: 0 <= i < 4 && 0 <= j < rows.Length1 ==> rows[i, j] == Halved(old(rows[i, j]))
    {
      for r := 0 to 4
        invariant forall i, j :: 0 <= i < 4 && 0 <= j < rows.Length1 ==>
          rows[i, j] == if i < r then Halved(old(rows[i, j])) else old(rows[i, j])
      {
        for k := 0 to rows.Length1
          invariant forall i, j :: 0 <= i < 4 && 0 <= j < rows.Length1 ==>
            rows[i, j] == if i < r || (i == r && j < k) then Halved(old(rows[i, j])) else old(rows[i, j])
        {
          var b := rows[r, k];
          rows[r, k] := (((b & 0xf0) >> 1) & 0xf0) | ((b & 0x0f) >> 1);
        }
      }
    }

    method Reset()
      requires Valid()
      modifies this`history, rows
      ensures Valid() && history == old(history) + [Decay]
    {
      hide Nibble, Exact, Halved, CountMinSketch.Column, CountMinSketch.Alone;
      HalveAll();
      history := history + [Decay];
      forall i: nat, x: nat | i < 4
        ensures Exact(history, x) <= Counter(i, Column(i, x)) <= MAX
        ensures Alone(history, i, x) ==> Counter(i, Column(i, x)) == Exact(history, x)
      {
        ExactNext(old(history), Decay, x);
        HalvedNibbles(old(rows[i, Column(i, x) / 2]), Column(i, x) % 2 == 1);
        HalfMonotone(Exact(old(history), x), old(Counter(i, Column(i, x))));
        HalfMonotone(old(Counter(i, Column(i, x))), MAX);
        if Alone(history, i, x) { AloneBefore(old(history), Decay, i, x); }
      }
    }
  }
}
