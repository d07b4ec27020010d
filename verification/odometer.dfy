/** The mixed-radix counter that enumerates primary keys when tables are populated. */
module Odometer {
  import opened Sequences

  /** One column of the index: its digit and its radix. */
  datatype Digit = Digit(col: nat, at: nat, radix: nat)

  /** `std::map` order. */
  predicate Ascending(s: seq<Digit>)
  {
    forall i, j :: 0 <= i < j < |s| ==> s[i].col < s[j].col
  }

  predicate InRange(s: seq<Digit>)
  {
    forall i :: 0 <= i < |s| ==> s[i].at < s[i].radix
  }

  /** The same columns with the same radices. */
  predicate SameShape(s: seq<Digit>, t: seq<Digit>)
  {
    |s| == |t| && forall i :: 0 <= i < |s| ==> s[i].col == t[i].col && s[i].radix == t[i].radix
  }

  predicate AllZero(s: seq<Digit>)
  {
    forall i :: 0 <= i < |s| ==> s[i].at == 0
  }

  // ---------- the number that the digits write ----------

  function Value(s: seq<Digit>): nat
  {
    if s == [] then 0 else s[0].at + s[0].radix * Value(s[1..])
  }

  function Total(s: seq<Digit>): nat
  {
    if s == [] then 1 else s[0].radix * Total(s[1..])
  }

  /** One step: the first digit that does not overflow is raised, all before it return to zero. */
  function Next(s: seq<Digit>): (t: seq<Digit>)
    ensures SameShape(t, s)
  {
    if s == [] then []
    else if s[0].at + 1 < s[0].radix then [s[0].(at := s[0].at + 1)] + s[1..]
    else [s[0].(at := 0)] + Next(s[1..])
  }

  /** Every digit is at its last value. */
  predicate Full(s: seq<Digit>)
  {
    forall i :: 0 <= i < |s| ==> s[i].at + 1 >= s[i].radix
  }

  lemma Product(r: nat, a: nat, b: nat)
    requires a < b
    ensures r * a + r <= r * b
  {
    assert r * b == r * a + r * (b - a);
    assert r * (b - a) >= r by {
      if r > 0 {
        OneTimes(r, b - a);
      }
    }
  }

  lemma OneTimes(r: nat, k: nat)
    requires k >= 1
    ensures r * k >= r
  {
  }

  lemma {:induction false} ValueBelowTotal(s: seq<Digit>)
    requires InRange(s)
    ensures Value(s) < Total(s)
  {
    if s != [] {
      ValueBelowTotal(s[1..]);
      Product(s[0].radix, Value(s[1..]), Total(s[1..]));
    }
  }

  /** A step adds one, until every digit is full; then the counter is back at zero. */
  lemma {:induction false} NextCounts(s: seq<Digit>)
    requires InRange(s)
    ensures InRange(Next(s))
    ensures !Full(s) ==> Value(Next(s)) == Value(s) + 1
    ensures Full(s) ==> AllZero(Next(s)) && Value(s) + 1 == Total(s)
  {
    if s != [] {
      var rest := s[1..];
      NextCounts(rest);
      if s[0].at + 1 < s[0].radix {
        assert Next(s)[1..] == rest;
        assert !Full(s);
      } else {
        assert Next(s)[1..] == Next(rest);
        assert Full(s) <==> Full(rest);
        Distribute(s[0].radix, Value(rest));
      }
    }
  }

  lemma Distribute(r: nat, v: nat)
    ensures r * (v + 1) == r * v + r
  {
  }

  lemma {:induction false} ZeroIsZero(s: seq<Digit>)
    requires AllZero(s)
    ensures Value(s) == 0
  {
    if s != [] {
      ZeroIsZero(s[1..]);
    }
  }

  /** Different tuples write different numbers. */
  lemma {:induction false} ValueInjective(s: seq<Digit>, t: seq<Digit>)
    requires SameShape(s, t) && InRange(s) && InRange(t) && Value(s) == Value(t)
    ensures s == t
  {
    if s != [] {
      var a, b := Value(s[1..]), Value(t[1..]);
      if a < b {
        Product(s[0].radix, a, b);
      } else if b < a {
        Product(s[0].radix, b, a);
      }
      ValueInjective(s[1..], t[1..]);
      assert s == [s[0]] + s[1..] && t == [t[0]] + t[1..];
    }
  }

  // ---------- whole runs ----------

  function Steps(s: seq<Digit>, n: nat): (t: seq<Digit>)
    ensures SameShape(t, s)
  {
    if n == 0 then s else Next(Steps(s, n - 1))
  }

  /** From zero, `n` steps lead to the tuple that writes `n`, without overflow before the last tuple. */
  lemma {:induction false} StepsCount(zero: seq<Digit>, n: nat)
    requires AllZero(zero) && InRange(zero) && n < Total(zero)
    ensures InRange(Steps(zero, n)) && Value(Steps(zero, n)) == n
    ensures Full(Steps(zero, n)) <==> n + 1 == Total(zero)
  {
    if n == 0 {
      ZeroIsZero(zero);
    } else {
      StepsCount(zero, n - 1);
      NextCounts(Steps(zero, n - 1));
    }
    NextCounts(Steps(zero, n));
    SameTotal(Steps(zero, n), zero);
    ValueBelowTotal(Next(Steps(zero, n)));
    SameTotal(Next(Steps(zero, n)), zero);
  }

  lemma {:induction false} SameTotal(s: seq<Digit>, t: seq<Digit>)
    requires SameShape(s, t)
    ensures Total(s) == Total(t)
  {
    if s != [] {
      SameTotal(s[1..], t[1..]);
    }
  }

  /** Every tuple of the product is visited, at exactly one step. */
  lemma EveryTupleOnce(zero: seq<Digit>, t: seq<Digit>)
    requires AllZero(zero) && InRange(zero) && SameShape(t, zero) && InRange(t)
    ensures Value(t) < Total(zero) && Steps(zero, Value(t)) == t
    ensures forall n :: 0 <= n < Total(zero) && Steps(zero, n) == t ==> n == Value(t)
  {
    ValueBelowTotal(t);
    SameTotal(t, zero);
    StepsCount(zero, Value(t));
    ValueInjective(Steps(zero, Value(t)), t);
    forall n | 0 <= n < Total(zero) && Steps(zero, n) == t ensures n == Value(t) {
      StepsCount(zero, n);
    }
  }

  /** The step after the last tuple leads back to the first. */
  lemma RoundTrip(zero: seq<Digit>)
    requires AllZero(zero) && InRange(zero)
    ensures Total(zero) > 0 && Steps(zero, Total(zero)) == zero
  {
    hide Next, Total, Value, Full, InRange, AllZero;
    ValueBelowTotal(zero);
    var last := Steps(zero, Total(zero) - 1);
    StepsCount(zero, Total(zero) - 1);
    NextCounts(last);
    OneZero(Next(last), zero);
  }

  lemma OneZero(s: seq<Digit>, t: seq<Digit>)
    requires SameShape(s, t) && AllZero(s) && AllZero(t)
    ensures s == t
  {
  }

  // ---------- the carry loop ----------

  function Zeroed(d: Digit): Digit { d.(at := 0) }
  function Raised(d: Digit): Digit { d.(at := d.at + 1) }

  /** The carry has reached digit `i`: everything before it was full and is zero, it is raised. */
  predicate Carrying(s0: seq<Digit>, s: seq<Digit>, i: nat)
  {
    && |s| == |s0| && i < |s| && Full(s0[..i])
    && (forall k :: 0 <= k < i ==> s[k] == Zeroed(s0[k]))
    && s[i] == Raised(s0[i])
    && (forall k :: i < k < |s| ==> s[k] == s0[k])
  }

  lemma {:induction false} NextAt(s0: seq<Digit>, i: nat, k: nat)
    requires i <= |s0| && Full(s0[..i]) && k < |s0|
    ensures k < i ==> Next(s0)[k] == Zeroed(s0[k])
    ensures k >= i ==> k - i < |Next(s0[i..])| && Next(s0)[k] == Next(s0[i..])[k - i]
    decreases i
  {
    if i == 0 {
      assert s0[i..] == s0;
    } else {
      var rest := s0[1..];
      assert rest[..i - 1] == s0[..i][1..] && rest[i - 1..] == s0[i..];
      assert s0[..i][0] == s0[0];
      if k > 0 {
        NextAt(rest, i - 1, k - 1);
      }
    }
  }

  /** No overflow at the carry: the step is complete. */
  lemma CarryStops(s0: seq<Digit>, s: seq<Digit>, i: nat)
    requires Carrying(s0, s, i) && s[i].at < s[i].radix
    ensures s == Next(s0) && !Full(s0)
  {
    forall k | 0 <= k < |s| ensures s[k] == Next(s0)[k] {
      NextAt(s0, i, k);
      assert k > i ==> s0[i..][k - i] == s0[k];
    }
    assert s0[i].at + 1 < s0[i].radix;
  }

  /** Overflow: the digit returns to exactly zero and the next one is raised. */
  lemma CarryGoesOn(s0: seq<Digit>, s: seq<Digit>, i: nat)
    requires InRange(s0) && Carrying(s0, s, i) && s[i].at >= s[i].radix
    ensures s[i].at - s[i].radix == 0
    ensures i + 1 < |s| ==> Carrying(s0, s[i := Zeroed(s[i])][i + 1 := Raised(s[i + 1])], i + 1)
    ensures i + 1 == |s| ==> s[i := Zeroed(s[i])] == Next(s0) && Full(s0)
  {
    forall k | 0 <= k < i + 1 ensures s0[k].at + 1 >= s0[k].radix {
      assert k < i ==> s0[..i][k] == s0[k];
    }
    if i + 1 == |s| {
      assert s0[..i + 1] == s0;
      forall k | 0 <= k < |s| ensures s[i := Zeroed(s[i])][k] == Next(s0)[k] {
        NextAt(s0, i + 1, k);
      }
    }
  }

  // ---------- bound columns ----------

  /** The columns outside a set: what is left after erasing it. */
  function Without(s: seq<Digit>, cs: set<nat>): seq<Digit>
  {
    if s == [] then []
    else if s[0].col in cs then Without(s[1..], cs)
    else [s[0]] + Without(s[1..], cs)
  }

  /** `index[col] = ...`. */
  function Set(s: seq<Digit>, d: Digit): seq<Digit>
  {
    if s == [] || d.col < s[0].col then [d] + s
    else if d.col == s[0].col then [d] + s[1..]
    else [s[0]] + Set(s[1..], d)
  }

  lemma {:induction false} WithoutMember(s: seq<Digit>, cs: set<nat>, x: Digit)
    ensures x in Without(s, cs) <==> x in s && x.col !in cs
  {
    if s != [] {
      WithoutMember(s[1..], cs, x);
      assert s == [s[0]] + s[1..];
    }
  }

  lemma {:induction false} WithoutAscending(s: seq<Digit>, cs: set<nat>)
    requires Ascending(s)
    ensures Ascending(Without(s, cs))
  {
    if s != [] {
      WithoutAscending(s[1..], cs);
      var rest := Without(s[1..], cs);
      forall j | 0 <= j < |rest| ensures s[0].col < rest[j].col {
        WithoutMember(s[1..], cs, rest[j]);
        var i :| 0 <= i < |s[1..]| && s[1..][i] == rest[j];
      }
    }
  }

  lemma {:induction false} WithoutMore(s: seq<Digit>, a: set<nat>, b: set<nat>)
    ensures Without(Without(s, a), b) == Without(s, a + b)
  {
    if s != [] {
      WithoutMore(s[1..], a, b);
    }
  }

  lemma {:induction false} WithoutNone(s: seq<Digit>)
    ensures Without(s, {}) == s
  {
    if s != [] {
      WithoutNone(s[1..]);
    }
  }

  lemma {:induction false} SetMember(s: seq<Digit>, d: Digit, x: Digit)
    requires Ascending(s)
    ensures x in Set(s, d) <==> x == d || (x in s && x.col != d.col)
  {
    if s != [] {
      assert s == [s[0]] + s[1..];
      if s[0].col < d.col {
        SetMember(s[1..], d, x);
      }
    }
  }

  lemma {:induction false} SetAscending(s: seq<Digit>, d: Digit)
    requires Ascending(s)
    ensures Ascending(Set(s, d))
  {
    if s != [] && s[0].col < d.col {
      SetAscending(s[1..], d);
      var rest := Set(s[1..], d);
      forall j | 0 <= j < |rest| ensures s[0].col < rest[j].col {
        SetMember(s[1..], d, rest[j]);
        if rest[j] != d {
          var i :| 0 <= i < |s[1..]| && s[1..][i] == rest[j];
        }
      }
    }
  }

  /** Setting an erased column does not show among the others. */
  lemma {:induction false} SetElsewhere(s: seq<Digit>, d: Digit, cs: set<nat>)
    requires d.col in cs
    ensures Without(Set(s, d), cs) == Without(s, cs)
  {
    if s == [] || d.col < s[0].col {
      assert ([d] + s)[1..] == s;
    } else if d.col == s[0].col {
      assert ([d] + s[1..])[1..] == s[1..];
    } else {
      SetElsewhere(s[1..], d, cs);
      assert Set(s, d)[1..] == Set(s[1..], d);
    }
  }

  /** The columns tied to the first bound column. */
  function Tied(bound: seq<nat>): set<nat>
  {
    if |bound| <= 1 then {} else set i | 1 <= i < |bound| :: bound[i]
  }

  predicate HasCol(s: seq<Digit>, c: nat)
  {
    exists i :: 0 <= i < |s| && s[i].col == c
  }

  function ColAt(s: seq<Digit>, c: nat): (d: Digit)
    requires HasCol(s, c)
    ensures d in s && d.col == c
  {
    if s[0].col == c then s[0] else assert HasCol(s[1..], c) by { Later(s, c); } ColAt(s[1..], c)
  }

  lemma Later(s: seq<Digit>, c: nat)
    requires HasCol(s, c) && s[0].col != c
    ensures HasCol(s[1..], c)
  {
  }

  lemma OnlyOne(s: seq<Digit>, d: Digit, e: Digit)
    requires Ascending(s) && d in s && e in s && d.col == e.col
    ensures d == e
  {
  }

  /** Tied columns repeat the digit and the radix of the first bound column. */
  predicate Repeats(s: seq<Digit>, lead: Digit, cs: set<nat>)
  {
    forall c :: c in cs ==> Digit(c, lead.at, lead.radix) in s
  }

  /** The first bound column copied to the others, one after the other. */
  function CopyLead(s: seq<Digit>, lead: Digit, cols: seq<nat>): seq<Digit>
  {
    if cols == [] then s
    else Set(CopyLead(s, lead, cols[..|cols| - 1]), Digit(cols[|cols| - 1], lead.at, lead.radix))
  }

  /** One step of the whole index. */
  function StepBound(s: seq<Digit>, bound: seq<nat>): seq<Digit>
  {
    if |bound| <= 1 then Next(s)
    else
      var f := Next(Without(s, Tied(bound)));
      if HasCol(f, bound[0]) then CopyLead(f, ColAt(f, bound[0]), bound[1..]) else f
  }

  function BoundSteps(s: seq<Digit>, bound: seq<nat>, n: nat): seq<Digit>
  {
    if n == 0 then s else StepBound(BoundSteps(s, bound, n - 1), bound)
  }

  // ---------- the index ----------

  class Index {
    var index: seq<Digit>

    ghost predicate Valid()
      reads this
    {
      Ascending(index) && InRange(index)
    }

    /** `init_index`. */
    method Init() returns (ret: int)
      requires Ascending(index) && forall i :: 0 <= i < |index| ==> index[i].radix > 0
      modifies this
      ensures Valid() && SameShape(index, old(index)) && AllZero(index)
      ensures ret == if index == [] then -1 else 0
    {
      if index == [] {
        return -1;
      }
      for i := 0 to |index|
        invariant SameShape(index, old(index)) && forall k :: 0 <= k < i ==> index[k].at == 0
      {
        index := index[i := Zeroed(index[i])];
      }
      return 0;
    }

    /** `index_increase`. */
    method Increase() returns (ret: int)
      requires Valid()
      modifies this
      ensures Valid() && index == Next(old(index))
      ensures ret == if Full(old(index)) then -1 else 0
    {
      if index == [] {
        return -1;
      }
      ghost var s0 := index;
      NextCounts(s0);
      var i := 0;
      index := index[0 := Raised(index[0])];
      hide Full, Next;
      assert Carrying(s0, index, 0) by { CarryStarts(s0); }
      while index[i].at >= index[i].radix
        invariant Carrying(s0, index, i)
        decreases |s0| - i
      {
        CarryGoesOn(s0, index, i);
        assert index[i].at - index[i].radix == 0;
        index := index[i := index[i].(at := index[i].at - index[i].radix)];
        i := i + 1;
        if i == |index| {
          return -1;
        }
        index := index[i := Raised(index[i])];
      }
      CarryStops(s0, index, i);
      return 0;
    }

    /** One round of the reverse carry loop. */
    method StepBack(ghost s0: seq<Digit>, i: nat) returns (j: nat, ret: int)
      requires InRange(s0) && CarryingBack(s0, index, i) && i < |index| && index[i].at >= index[i].radix
      modifies this
      ensures ret == 0 ==> j < i && j < |index| && CarryingBack(s0, index, j)
      ensures ret != 0 ==>
        ret == -1 && Reversed(index) == Next(Reversed(s0)) && Full(Reversed(s0)) && SameShape(index, s0)
    {
      hide Full, Next, Carrying, Reversed, CarryingBack, SameShape, InRange;
      CarryGoesBack(s0, index, i);
      assert index[i].at - index[i].radix == 0;
      index := index[i := index[i].(at := index[i].at - index[i].radix)];
      if i == 0 {
        return 0, -1;
      }
      j, ret := i - 1, 0;
      index := index[j := Raised(index[j])];
    }

    /** `index_reverse_increase`: the same from the last column on. */
    method ReverseIncrease() returns (ret: int)
      requires Valid()
      modifies this
      ensures Valid() && Reversed(index) == Next(Reversed(old(index)))
      ensures ret == if Full(Reversed(old(index))) then -1 else 0
    {
      if index == [] {
        return -1;
      }
      ghost var s0 := index;
      var i := |index| - 1;
      CarryingBackStarts(s0);
      index := index[i := Raised(index[i])];
      hide Full, Next, Carrying, Reversed, CarryingBack, SameShape, InRange;
      ret := CarryBack(s0, i);
      BackInRange(s0, index);
    }

    method CarryBack(ghost s0: seq<Digit>, from: nat) returns (ret: int)
      requires InRange(s0) && from < |index| && CarryingBack(s0, index, from)
      modifies this
      ensures SameShape(index, s0) && Reversed(index) == Next(Reversed(s0))
      ensures ret == if Full(Reversed(s0)) then -1 else 0
    {
      hide Full, Next, Carrying, Reversed, CarryingBack, SameShape, InRange;
      var i := from;
      while index[i].at >= index[i].radix
        invariant 0 <= i < |index| && CarryingBack(s0, index, i)
        decreases i
      {
        i, ret := StepBack(s0, i);
        if ret == -1 {
          return;
        }
      }
      CarryingBackShape(s0, index, i);
      CarryStops(Reversed(s0), Reversed(index), |index| - 1 - i);
      return 0;
    }

    /** The erase loop of the bound forms. */
    method EraseTied(bound: seq<nat>)
      requires Valid() && |bound| > 1
      modifies this
      ensures Valid() && index == Without(old(index), Tied(bound))
    {
      ghost var s0 := index;
      WithoutNone(s0);
      for i := 1 to |bound|
        invariant index == Without(s0, Tied(bound[..i]))
      {
        WithoutMore(s0, Tied(bound[..i]), {bound[i]});
        assert Tied(bound[..i + 1]) == Tied(bound[..i]) + {bound[i]} by { TiedNext(bound, i); }
        index := Without(index, {bound[i]});
      }
      assert bound[..|bound|] == bound;
      WithoutAscending(s0, Tied(bound));
      WithoutInRange(s0, Tied(bound));
    }

    /** The loop that copies the first bound column to the others. */
    method CopyTied(bound: seq<nat>)
      requires Valid() && |bound| > 1 && HasCol(index, bound[0]) && bound[0] !in Tied(bound)
      modifies this
      ensures Valid() && Without(index, Tied(bound)) == Without(old(index), Tied(bound))
      ensures HasCol(index, bound[0]) && ColAt(index, bound[0]) == old(ColAt(index, bound[0]))
      ensures Repeats(index, ColAt(index, bound[0]), Tied(bound))
      ensures index == CopyLead(old(index), old(ColAt(index, bound[0])), bound[1..])
    {
      ghost var s0, lead := index, ColAt(index, bound[0]);
      CopyingStarts(s0, bound, lead);
      hide Without, Set, Tied, Ascending, InRange, Copying, Repeats;
      CopyLoop(bound, s0, lead);
      CopyingEnds(s0, index, lead, Tied(bound));
    }

    method CopyLoop(bound: seq<nat>, ghost s0: seq<Digit>, ghost lead: Digit)
      requires |bound| > 1 && lead.col == bound[0] && Copying(s0, index, lead, Tied(bound[..1]), Tied(bound))
      requires index == s0
      modifies this
      ensures Copying(s0, index, lead, Tied(bound), Tied(bound)) && index == CopyLead(s0, lead, bound[1..])
    {
      hide Without, Set, Tied, Ascending, InRange, Copying, Repeats, CopyLead;
      CopyLeadNext(s0, lead, bound, 1);
      for i := 1 to |bound|
        invariant Copying(s0, index, lead, Tied(bound[..i]), Tied(bound)) && index == CopyLead(s0, lead, bound[1..i])
      {
        TiedNext(bound, i);
        CopyLeadNext(s0, lead, bound, i);
        CopyingNext(s0, index, lead, Tied(bound[..i]), Tied(bound), bound[i]);
        var d := Lead(bound[0], lead);
        index := Set(index, Digit(bound[i], d.at, d.radix));
      }
      assert bound[..|bound|] == bound;
    }

    /** `index[bound_index[0]]`. */
    method Lead(c: nat, ghost lead: Digit) returns (d: Digit)
      requires Valid() && lead in index && lead.col == c
      ensures d == lead
    {
      assert HasCol(index, c);
      OnlyOne(index, ColAt(index, c), lead);
      d := ColAt(index, c);
    }

    /** `index_increase` with bound columns: the free columns count, the tied ones follow the first. */
    method IncreaseBound(bound: seq<nat>) returns (ret: int)
      requires Valid() && BoundOk(index, bound)
      modifies this
      ensures Valid() && Without(index, Tied(bound)) == Next(old(Without(index, Tied(bound))))
      ensures ret == if Full(old(Without(index, Tied(bound)))) then -1 else 0
      ensures |bound| > 1 ==> HasCol(index, bound[0]) && Repeats(index, ColAt(index, bound[0]), Tied(bound))
      ensures index == StepBound(old(index), bound)
    {
      hide Without, Next, Full, Repeats, CopyLead;
      WithoutNone(index);
      if |bound| <= 1 {
        ret := Increase();
        WithoutNone(index);
        return;
      }
      ghost var free := Without(index, Tied(bound));
      StillThere(index, Tied(bound), bound[0]);
      EraseTied(bound);
      ret := Increase();
      SameCols(index, free, bound[0]);
      WithoutFree(free, index, old(index), Tied(bound));
      CopyTied(bound);
    }

    /** The loop of `InsertRow` when the table has a primary key of its own: it ends, after offering
        every combination of the free columns exactly once, tied columns with the digit of the first
        bound one, with the counter back at zero. */
    method Populate(bound: seq<nat>) returns (offered: seq<seq<Digit>>)
      requires Valid() && AllZero(index) && BoundOk(index, bound)
      modifies this
      ensures Valid()
      ensures var zero := old(Without(index, Tied(bound)));
        && Without(index, Tied(bound)) == zero && |offered| == Total(zero)
        && (forall n :: 0 <= n < |offered| ==> offered[n] == BoundSteps(old(index), bound, n))
        && (forall n :: 0 <= n < |offered| ==>
            Without(offered[n], Tied(bound)) == Steps(zero, n) && TiedFollow(offered[n], bound))
        && (forall t :: SameShape(t, zero) && InRange(t) ==>
            Value(t) < |offered| && Without(offered[Value(t)], Tied(bound)) == t)
    {
      ghost var s0 := index;
      ghost var zero := Without(s0, Tied(bound));
      OfferingStarts(s0, bound);
      hide Without, Tied, Full, Next, Total, Value, BoundOk, Repeats, InRange, AllZero, Ascending, SameShape, Steps,
        Offering, TiedFollow;
      offered := [];
      var ret := 0;
      while ret == 0
        invariant Valid() && BoundOk(index, bound) && Offering(s0, index, bound, offered, ret)
        decreases Total(zero) + 1 - |offered|, ret == 0
      {
        ghost var was := offered;
        OfferingAt(s0, index, bound, was);
        offered := offered + [index];
        ret := Advance(bound, s0, was);
      }
      OfferingEnds(s0, index, bound, offered, ret);
    }

    /** One more step of the whole index. */
    method Advance(bound: seq<nat>, ghost s0: seq<Digit>, ghost offered: seq<seq<Digit>>) returns (ret: int)
      requires Valid() && BoundOk(index, bound) && Offering(s0, index, bound, offered, 0)
      modifies this
      ensures Valid() && BoundOk(index, bound) && Offering(s0, index, bound, offered + [old(index)], ret)
    {
      hide Without, Tied, Full, Next, InRange, Ascending, Offering, BoundOk, Repeats, StepBound;
      ghost var s := index;
      OfferedSoFar(s0, s, bound, offered, 0);
      StillBound(s, bound);
      ret := IncreaseBound(bound);
      if |bound| > 1 {
        RepeatsFollow(index, bound);
      }
      OfferingNext(s0, s, index, bound, offered);
    }

    /** The loop when the table has no primary key of its own: it stops with the row that makes the
        records enough. If no combination does, the counter overflows and the code gives up. */
    method PopulateCounted(bound: seq<nat>, makes: seq<Made>, records: int) returns (ok: bool, offered: seq<seq<Digit>>)
      requires Valid() && AllZero(index) && BoundOk(index, bound) && |makes| == Total(Without(index, Tied(bound)))
      modifies this
      ensures Counted(old(index), bound, makes, records, ok, offered)
    {
      ghost var s0 := index;
      OfferingStarts(s0, bound);
      hide *;
      offered := [];
      var inserted := 0;
      var ret := 0;
      CountingStarts(makes, records);
      while ret == 0
        invariant Valid() && BoundOk(index, bound) && Offering(s0, index, bound, offered, ret)
        invariant |offered| <= |makes| && inserted == Inserted(makes, |offered|) && Never(makes, records, |offered|)
        decreases |makes| + 1 - |offered|
      {
        ghost var was := offered;
        OfferingAt(s0, index, bound, was);
        var made := makes[|offered|];
        inserted := inserted + if made.Added? then made.rows else 0;
        CountingNext(makes, records, |was|);
        offered := offered + [index];
        if made.Added? && inserted >= records {
          CountedStops(s0, bound, makes, records, was, index);
          return true, offered;
        }
        ret := Advance(bound, s0, was);
      }
      CountedOverflows(s0, bound, makes, records, offered, index, ret);
      return false, offered;
    }
  }

  /** The first bound column is in the index, and is not bound twice. */
  predicate BoundOk(s: seq<Digit>, bound: seq<nat>)
  {
    |bound| > 1 ==> HasCol(s, bound[0]) && bound[0] !in Tied(bound)
  }

  lemma StillBound(s: seq<Digit>, bound: seq<nat>)
    requires BoundOk(s, bound)
    ensures forall t :: (|bound| > 1 ==> HasCol(t, bound[0])) ==> BoundOk(t, bound)
  {
  }

  /** Tied columns show the digit of the first bound column. */
  predicate TiedFollow(s: seq<Digit>, bound: seq<nat>)
  {
    |bound| > 1 ==>
      && HasCol(s, bound[0])
      && forall c :: c in Tied(bound) && HasCol(s, c) ==> ColAt(s, c).at == ColAt(s, bound[0]).at
  }

  lemma RepeatsFollow(s: seq<Digit>, bound: seq<nat>)
    requires |bound| > 1 && Ascending(s) && HasCol(s, bound[0]) && Repeats(s, ColAt(s, bound[0]), Tied(bound))
    ensures TiedFollow(s, bound)
  {
    var lead := ColAt(s, bound[0]);
    forall c | c in Tied(bound) && HasCol(s, c) ensures ColAt(s, c).at == lead.at {
      OnlyOne(s, ColAt(s, c), Digit(c, lead.at, lead.radix));
    }
  }

  /** What becomes of one offered combination: no row, or rows that count. */
  datatype Made = Skipped | Added(rows: nat)

  /** The rows that count after `n` combinations. */
  function Inserted(makes: seq<Made>, n: nat): nat
    requires n <= |makes|
  {
    if n == 0 then 0
    else Inserted(makes, n - 1) + if makes[n - 1].Added? then makes[n - 1].rows else 0
  }

  /** Combination `n` makes a row, and with it there are records enough. */
  predicate Enough(makes: seq<Made>, records: int, n: nat)
    requires n < |makes|
  {
    makes[n].Added? && Inserted(makes, n + 1) >= records
  }

  /** How the counted loop ends: with enough records, at the first combination that makes them enough,
      if and only if some combination does; else after all combinations, giving up. */
  ghost predicate Counted(s: seq<Digit>, bound: seq<nat>, makes: seq<Made>, records: int, ok: bool,
      offered: seq<seq<Digit>>)
  {
    && |offered| <= |makes|
    && (ok <==> exists n :: 0 <= n < |makes| && Enough(makes, records, n))
    && (forall n :: 0 <= n < |offered| ==> offered[n] == BoundSteps(s, bound, n))
    && (forall n :: 0 <= n < |offered| - 1 ==> !Enough(makes, records, n))
    && (if ok then 0 < |offered| && Enough(makes, records, |offered| - 1) else |offered| == |makes|)
  }

  /** The last offered combination brings the rows up to the records; none before it did. */
  lemma CountedMeans(s: seq<Digit>, bound: seq<nat>, makes: seq<Made>, records: int, ok: bool,
      offered: seq<seq<Digit>>)
    requires Counted(s, bound, makes, records, ok, offered)
    ensures ok ==> offered != [] && makes[|offered| - 1].Added? && records <= Inserted(makes, |offered|)
    ensures forall n :: 0 <= n < |offered| && (ok ==> n < |offered| - 1) && makes[n].Added? ==>
      Inserted(makes, n + 1) < records
  {
    hide BoundSteps, Inserted;
    forall n | 0 <= n < |offered| && (ok ==> n < |offered| - 1) && makes[n].Added?
      ensures Inserted(makes, n + 1) < records
    {
      assert !Enough(makes, records, n);
    }
  }

  lemma CountedStops(s: seq<Digit>, bound: seq<nat>, makes: seq<Made>, records: int, was: seq<seq<Digit>>,
      last: seq<Digit>)
    requires Offering(s, last, bound, was, 0) && |makes| == Total(Without(s, Tied(bound)))
    requires |was| < |makes| && Enough(makes, records, |was|) && Never(makes, records, |was|)
    ensures Counted(s, bound, makes, records, true, was + [last])
  {
    hide Enough, BoundSteps, Total, Without, Offering, Tied;
    OfferedSoFar(s, last, bound, was, 0);
  }

  lemma CountedOverflows(s: seq<Digit>, bound: seq<nat>, makes: seq<Made>, records: int, offered: seq<seq<Digit>>,
      now: seq<Digit>, ret: int)
    requires Offering(s, now, bound, offered, ret) && |makes| == Total(Without(s, Tied(bound)))
    requires ret != 0 && |offered| <= |makes| && Never(makes, records, |offered|)
    ensures Counted(s, bound, makes, records, false, offered)
  {
    hide Enough, BoundSteps, Total, Without, Offering, Tied;
    OfferedSoFar(s, now, bound, offered, ret);
  }

  /** So far the records were never enough. */
  ghost predicate Never(makes: seq<Made>, records: int, n: nat)
    requires n <= |makes|
  {
    forall m :: 0 <= m < n ==> !Enough(makes, records, m)
  }

  lemma CountingStarts(makes: seq<Made>, records: int)
    ensures Inserted(makes, 0) == 0 && Never(makes, records, 0)
  {
  }

  lemma CountingNext(makes: seq<Made>, records: int, n: nat)
    requires n < |makes| && Never(makes, records, n)
    ensures Inserted(makes, n + 1) == Inserted(makes, n) + if makes[n].Added? then makes[n].rows else 0
    ensures if makes[n].Added? && Inserted(makes, n + 1) >= records then Enough(makes, records, n)
            else Never(makes, records, n + 1)
  {
  }

  /** The carry, walking down. */
  predicate CarryingBack(s0: seq<Digit>, s: seq<Digit>, i: nat)
  {
    |s| == |s0| && i < |s| && SameShape(s, s0) && Carrying(Reversed(s0), Reversed(s), |s| - 1 - i)
  }

  lemma CarryingBackStarts(s0: seq<Digit>)
    requires s0 != []
    ensures CarryingBack(s0, s0[|s0| - 1 := Raised(s0[|s0| - 1])], |s0| - 1)
  {
  }

  lemma CarryGoesBack(s0: seq<Digit>, s: seq<Digit>, i: nat)
    requires InRange(s0) && CarryingBack(s0, s, i) && s[i].at >= s[i].radix
    ensures s[i].at - s[i].radix == 0
    ensures i > 0 ==> CarryingBack(s0, s[i := Zeroed(s[i])][i - 1 := Raised(s[i - 1])], i - 1)
    ensures i == 0 ==> Reversed(s[i := Zeroed(s[i])]) == Next(Reversed(s0)) && Full(Reversed(s0))
    ensures SameShape(s[i := Zeroed(s[i])], s0)
  {
    var r0, r, j := Reversed(s0), Reversed(s), |s| - 1 - i;
    ReversedInRange(s0);
    ShapeKept(s0, s, i);
    assert r[j] == s[i] && (i > 0 ==> r[j + 1] == s[i - 1]);
    hide Carrying, Full, Next, InRange, Reversed, SameShape;
    CarryGoesOn(r0, r, j);
    ReversedSet(s, j, Zeroed(s[i]));
    if i > 0 {
      ReversedSet(s[i := Zeroed(s[i])], j + 1, Raised(s[i - 1]));
    }
  }

  lemma ReversedInRange(s: seq<Digit>)
    requires InRange(s)
    ensures InRange(Reversed(s))
  {
  }

  lemma ShapeKept(s0: seq<Digit>, s: seq<Digit>, i: nat)
    requires SameShape(s, s0) && i < |s|
    ensures SameShape(s[i := Zeroed(s[i])], s0)
    ensures i > 0 ==> SameShape(s[i := Zeroed(s[i])][i - 1 := Raised(s[i - 1])], s0)
  {
  }

  lemma CarryingBackShape(s0: seq<Digit>, s: seq<Digit>, i: nat)
    requires CarryingBack(s0, s, i)
    ensures |s| == |s0| && SameShape(s, s0) && Reversed(s)[|s| - 1 - i] == s[i]
    ensures Carrying(Reversed(s0), Reversed(s), |s| - 1 - i)
  {
  }

  lemma CarryStarts(s0: seq<Digit>)
    requires s0 != []
    ensures Carrying(s0, s0[0 := Raised(s0[0])], 0)
  {
  }

  /** What holds of the reversed digits holds of the digits. */
  lemma BackInRange(s0: seq<Digit>, s: seq<Digit>)
    requires InRange(s0) && Reversed(s) == Next(Reversed(s0)) && SameShape(s, s0) && Ascending(s0)
    ensures InRange(s) && Ascending(s)
  {
    assert InRange(Reversed(s0));
    NextCounts(Reversed(s0));
    forall i | 0 <= i < |s| ensures s[i].at < s[i].radix {
      assert Reversed(s)[|s| - 1 - i] == s[i];
    }
  }

  lemma TiedNext(bound: seq<nat>, i: nat)
    requires 1 <= i < |bound|
    ensures Tied(bound[..i + 1]) == Tied(bound[..i]) + {bound[i]}
    ensures bound[i] in Tied(bound)
  {
  }

  lemma WithoutInRange(s: seq<Digit>, cs: set<nat>)
    requires InRange(s)
    ensures InRange(Without(s, cs))
  {
  }

  /** Part of the way through the copies. */
  ghost predicate Copying(s0: seq<Digit>, s: seq<Digit>, lead: Digit, done: set<nat>, cs: set<nat>)
  {
    && Ascending(s) && InRange(s) && lead in s && lead.col !in cs && done <= cs
    && Without(s, cs) == Without(s0, cs) && Repeats(s, lead, done)
  }

  lemma CopyLeadNext(s: seq<Digit>, lead: Digit, bound: seq<nat>, i: nat)
    requires 1 <= i <= |bound|
    ensures CopyLead(s, lead, bound[1..1]) == s
    ensures i < |bound| ==>
      CopyLead(s, lead, bound[1..i + 1]) == Set(CopyLead(s, lead, bound[1..i]), Digit(bound[i], lead.at, lead.radix))
  {
    if i < |bound| {
      assert bound[1..i + 1][..i - 1] == bound[1..i];
    }
  }

  lemma CopyingStarts(s0: seq<Digit>, bound: seq<nat>, lead: Digit)
    requires Ascending(s0) && InRange(s0) && lead in s0 && lead.col !in Tied(bound) && |bound| > 1
    ensures Copying(s0, s0, lead, Tied(bound[..1]), Tied(bound))
  {
  }

  lemma CopyingNext(s0: seq<Digit>, s: seq<Digit>, lead: Digit, done: set<nat>, cs: set<nat>, c: nat)
    requires Copying(s0, s, lead, done, cs) && c in cs
    ensures Ascending(s) && InRange(s) && lead in s
    ensures Copying(s0, Set(s, Digit(c, lead.at, lead.radix)), lead, done + {c}, cs)
  {
    SetTied(s, Digit(c, lead.at, lead.radix), lead, done, cs);
  }

  lemma CopyingEnds(s0: seq<Digit>, s: seq<Digit>, lead: Digit, cs: set<nat>)
    requires Copying(s0, s, lead, cs, cs)
    ensures Ascending(s) && InRange(s) && Without(s, cs) == Without(s0, cs)
    ensures HasCol(s, lead.col) && ColAt(s, lead.col) == lead && Repeats(s, lead, cs)
  {
  }

  lemma SetTied(s: seq<Digit>, d: Digit, lead: Digit, done: set<nat>, cs: set<nat>)
    requires Ascending(s) && InRange(s) && lead in s && Repeats(s, lead, done)
    requires d.col in cs && d.col != lead.col && d.at == lead.at && d.radix == lead.radix
    ensures Ascending(Set(s, d)) && InRange(Set(s, d)) && lead in Set(s, d)
    ensures Repeats(Set(s, d), lead, done + {d.col}) && Without(Set(s, d), cs) == Without(s, cs)
  {
    SetAscending(s, d);
    SetElsewhere(s, d, cs);
    SetMember(s, d, lead);
    SetMember(s, d, d);
    forall i | 0 <= i < |Set(s, d)| ensures Set(s, d)[i].at < Set(s, d)[i].radix {
      SetMember(s, d, Set(s, d)[i]);
    }
    forall c | c in done + {d.col} ensures Digit(c, lead.at, lead.radix) in Set(s, d) {
      SetMember(s, d, Digit(c, lead.at, lead.radix));
    }
  }

  lemma StillThere(s: seq<Digit>, cs: set<nat>, c: nat)
    requires HasCol(s, c) && c !in cs
    ensures HasCol(Without(s, cs), c)
  {
    WithoutMember(s, cs, ColAt(s, c));
    var i :| 0 <= i < |Without(s, cs)| && Without(s, cs)[i] == ColAt(s, c);
  }

  lemma SameCols(s: seq<Digit>, t: seq<Digit>, c: nat)
    requires SameShape(s, t) && HasCol(t, c)
    ensures HasCol(s, c)
  {
  }

  /** The free columns stay free through a step. */
  lemma {:induction false} WithoutFree(free: seq<Digit>, s: seq<Digit>, s0: seq<Digit>, cs: set<nat>)
    requires free == Without(s0, cs) && SameShape(s, free)
    ensures Without(s, cs) == s
  {
    forall i | 0 <= i < |s| ensures s[i].col !in cs {
      WithoutMember(s0, cs, free[i]);
    }
    NothingTied(s, cs);
  }

  lemma {:induction false} NothingTied(s: seq<Digit>, cs: set<nat>)
    requires forall i :: 0 <= i < |s| ==> s[i].col !in cs
    ensures Without(s, cs) == s
  {
    if s != [] {
      NothingTied(s[1..], cs);
    }
  }

  /** Part of the way through the combinations. */
  ghost predicate Offering(s0: seq<Digit>, s: seq<Digit>, bound: seq<nat>, offered: seq<seq<Digit>>, ret: int)
  {
    var zero := Without(s0, Tied(bound));
    && AllZero(zero) && InRange(zero)
    && s == BoundSteps(s0, bound, |offered|) && Without(s, Tied(bound)) == Steps(zero, |offered|)
    && TiedFollow(s, bound)
    && (if ret == 0 then |offered| < Total(zero) else |offered| == Total(zero))
    && (forall n :: 0 <= n < |offered| ==>
          && offered[n] == BoundSteps(s0, bound, n) && Without(offered[n], Tied(bound)) == Steps(zero, n)
          && TiedFollow(offered[n], bound))
  }

  lemma OfferingStarts(s0: seq<Digit>, bound: seq<nat>)
    requires InRange(s0) && AllZero(s0) && BoundOk(s0, bound)
    ensures Offering(s0, s0, bound, [], 0)
  {
    var zero := Without(s0, Tied(bound));
    WithoutInRange(s0, Tied(bound));
    WithoutZero(s0, Tied(bound));
    ValueBelowTotal(zero);
  }

  lemma WithoutZero(s: seq<Digit>, cs: set<nat>)
    requires AllZero(s)
    ensures AllZero(Without(s, cs))
  {
    forall i | 0 <= i < |Without(s, cs)| ensures Without(s, cs)[i].at == 0 {
      WithoutMember(s, cs, Without(s, cs)[i]);
    }
  }

  lemma OfferingNext(s0: seq<Digit>, s: seq<Digit>, s': seq<Digit>, bound: seq<nat>, offered: seq<seq<Digit>>)
    requires Offering(s0, s, bound, offered, 0)
    requires s' == BoundSteps(s0, bound, |offered| + 1) && TiedFollow(s', bound)
    requires Without(s', Tied(bound)) == Next(Without(s, Tied(bound)))
    ensures Offering(s0, s', bound, offered + [s], if Full(Without(s, Tied(bound))) then -1 else 0)
  {
    hide Full, Total, Next, InRange, AllZero, Without, Tied, BoundSteps, TiedFollow;
    StepsCount(Without(s0, Tied(bound)), |offered|);
  }

  lemma OfferingAt(s0: seq<Digit>, s: seq<Digit>, bound: seq<nat>, offered: seq<seq<Digit>>)
    requires Offering(s0, s, bound, offered, 0)
    ensures s == BoundSteps(s0, bound, |offered|) && |offered| < Total(Without(s0, Tied(bound)))
  {
  }

  lemma OfferedSoFar(s0: seq<Digit>, s: seq<Digit>, bound: seq<nat>, offered: seq<seq<Digit>>, ret: int)
    requires Offering(s0, s, bound, offered, ret)
    ensures forall n :: 0 <= n < |offered| ==> offered[n] == BoundSteps(s0, bound, n)
    ensures s == BoundSteps(s0, bound, |offered|)
    ensures if ret == 0 then |offered| < Total(Without(s0, Tied(bound)))
            else |offered| == Total(Without(s0, Tied(bound)))
  {
  }

  lemma OfferingEnds(s0: seq<Digit>, s: seq<Digit>, bound: seq<nat>, offered: seq<seq<Digit>>, ret: int)
    requires Offering(s0, s, bound, offered, ret) && ret != 0
    ensures var zero := Without(s0, Tied(bound));
      && Without(s, Tied(bound)) == zero && |offered| == Total(zero)
      && (forall n :: 0 <= n < |offered| ==> offered[n] == BoundSteps(s0, bound, n))
      && (forall n :: 0 <= n < |offered| ==>
          Without(offered[n], Tied(bound)) == Steps(zero, n) && TiedFollow(offered[n], bound))
      && (forall t :: SameShape(t, zero) && InRange(t) ==>
          Value(t) < |offered| && Without(offered[Value(t)], Tied(bound)) == t)
  {
    var zero := Without(s0, Tied(bound));
    RoundTrip(zero);
    hide Full, Total, Next, InRange, AllZero, Value, Steps, SameShape, Without, Tied, BoundSteps, TiedFollow;
    forall t | SameShape(t, zero) && InRange(t)
      ensures Value(t) < |offered| && Without(offered[Value(t)], Tied(bound)) == t
    {
      EveryTupleOnce(zero, t);
    }
  }
}
