/** Stable multimap iterators, and why a live range keeps holding what it held. */
module SnapshotCursor {
  import opened Keys
  import opened Ring
  import opened Multimap
  import opened SnapshotCells
  import opened SnapshotGroup
  import opened Sequences

  /** A `std::multimap` iterator: a node, or the end. */
  datatype Iter = AtEnd | AtNode(node: nat)

  predicate Held(cells: seq<Cell>, it: Iter)
  {
    it.AtEnd? || exists c :: c in cells && c.node == it.node
  }

  /** The position of an iterator; the end if its node is gone. */
  function Pos(cells: seq<Cell>, it: Iter): (p: nat)
    ensures p <= |cells|
    ensures it.AtNode? && p < |cells| ==> cells[p].node == it.node
    ensures it.AtEnd? ==> p == |cells|
  {
    if cells == [] || (it.AtNode? && cells[0].node == it.node) then 0 else 1 + Pos(cells[1..], it)
  }

  function IterAt(cells: seq<Cell>, p: nat): Iter
    requires p <= |cells|
  {
    if p == |cells| then AtEnd else AtNode(cells[p].node)
  }

  lemma {:induction false} HeldInside(cells: seq<Cell>, it: Iter)
    ensures Held(cells, it) <==> it.AtEnd? || Pos(cells, it) < |cells|
  {
    if cells != [] {
      assert cells == [cells[0]] + cells[1..];
      HeldInside(cells[1..], it);
    }
  }

  /** Iterators and positions name the same places. */
  lemma PosUnique(cells: seq<Cell>, it: Iter, p: nat)
    requires NodesDistinct(cells) && p <= |cells|
    requires it == IterAt(cells, p)
    ensures Held(cells, it) && Pos(cells, it) == p
  {
    if p < |cells| {
      assert cells[p] in cells;
      HeldInside(cells, it);
    }
  }

  ghost predicate RangeOk(cells: seq<Cell>, lo: Iter, hi: Iter)
  {
    Held(cells, lo) && Held(cells, hi) && Pos(cells, lo) <= Pos(cells, hi)
  }

  /** What a range of version `v` still has between its iterators. */
  function Holds(cells: seq<Cell>, lo: Iter, hi: Iter, v: nat): seq<Entry>
    requires Pos(cells, lo) <= Pos(cells, hi)
  {
    View(cells[Pos(cells, lo)..Pos(cells, hi)], v)
  }

  // ---------- insertion ----------

  /** Where `InsertCell` puts the new node. */
  function InsertPos(cells: seq<Cell>, k: Key): (p: nat)
    ensures p <= |cells|
  {
    if cells == [] || Less(k, cells[0].entry.key) then 0 else 1 + InsertPos(cells[1..], k)
  }

  lemma {:induction false} InsertCellAt(cells: seq<Cell>, c: Cell)
    ensures InsertCell(cells, c) == InsertAt(cells, InsertPos(cells, c.entry.key), c)
  {
    if cells != [] && !Less(c.entry.key, cells[0].entry.key) {
      InsertCellAt(cells[1..], c);
      assert cells == [cells[0]] + cells[1..];
    }
  }

  /** A new node shifts the later positions by one and invalidates no iterator. */
  lemma {:induction false} PosAfterInsert(cells: seq<Cell>, c: Cell, it: Iter)
    requires it.AtNode? ==> it.node != c.node
    requires Held(cells, it)
    ensures Held(InsertCell(cells, c), it)
    ensures var p := InsertPos(cells, c.entry.key);
      Pos(InsertCell(cells, c), it) == if Pos(cells, it) < p then Pos(cells, it) else Pos(cells, it) + 1
  {
    InsertCellMember(cells, c);
    if cells == [] || Less(c.entry.key, cells[0].entry.key) {
      assert ([c] + cells)[1..] == cells;
    } else if !(it.AtNode? && cells[0].node == it.node) {
      assert cells == [cells[0]] + cells[1..];
      PosAfterInsert(cells[1..], c, it);
    }
  }

  /** Stretches of the longer sequence that leave out the new element. */
  lemma InsertedSlice(cells: seq<Cell>, c: Cell, p: nat, a: nat, b: nat)
    requires p <= |cells| && a <= b <= |cells|
    ensures InsertAt(cells, p, c)[p] == c
    ensures b <= p ==> InsertAt(cells, p, c)[a..b] == cells[a..b]
    ensures p <= a ==> InsertAt(cells, p, c)[a + 1..b + 1] == cells[a..b]
  {
    var s := InsertAt(cells, p, c);
    Pieces(cells[..p], c, cells[p..], s);
    hide InsertAt;
    if b <= p {
      SliceOfTake(s, p, a, b);
      SliceOfTake(cells, p, a, b);
    }
    if p <= a {
      SliceOfDrop(s, p + 1, a + 1, b + 1);
      SliceOfDrop(cells, p, a, b);
    }
  }

  lemma Pieces(front: seq<Cell>, c: Cell, back: seq<Cell>, s: seq<Cell>)
    requires s == front + [c] + back
    ensures s[..|front|] == front && s[|front|] == c && s[|front| + 1..] == back
  {
  }

  lemma SliceAfterInsert(cells: seq<Cell>, c: Cell, p: nat, a: nat, b: nat, v: nat)
    requires p <= |cells| && a <= b <= |cells| && !c.ValidAt(v)
    ensures var a' := if a < p then a else a + 1;
            var b' := if b < p then b else b + 1;
      View(InsertAt(cells, p, c)[a'..b'], v) == View(cells[a..b], v)
  {
    hide InsertAt, View;
    var s := InsertAt(cells, p, c);
    InsertedSlice(cells, c, p, a, b);
    if a < p <= b {
      InsertedSlice(cells, c, p, a, p);
      InsertedSlice(cells, c, p, p, b);
      SliceJoin(s, a, p, b + 1);
      SliceJoin(s, p, p + 1, b + 1);
      SliceJoin(cells, a, p, b);
      assert s[p..p + 1] == [c];
      HiddenMiddle(cells[a..p], c, cells[p..b], v);
    }
  }

  lemma HiddenMiddle(a: seq<Cell>, c: Cell, b: seq<Cell>, v: nat)
    requires !c.ValidAt(v)
    ensures View(a + ([c] + b), v) == View(a + b, v)
  {
    ViewConcat(a, [c] + b, v);
    ViewConcat(a, b, v);
    assert ([c] + b)[1..] == b;
  }

  lemma HeldBelow(cells: seq<Cell>, it: Iter, n: nat)
    requires Held(cells, it) && NodesBelow(cells, n)
    ensures it.AtNode? ==> it.node < n
  {
  }

  /** A range whose version does not see the new node holds what it held. */
  lemma RangeAfterInsert(cells: seq<Cell>, c: Cell, lo: Iter, hi: Iter, v: nat)
    requires RangeOk(cells, lo, hi) && NodesBelow(cells, c.node) && !c.ValidAt(v)
    ensures RangeOk(InsertCell(cells, c), lo, hi)
    ensures Holds(InsertCell(cells, c), lo, hi, v) == Holds(cells, lo, hi, v)
  {
    hide Pos, InsertCell, InsertAt, InsertPos, View, Held, NodesBelow;
    HeldBelow(cells, lo, c.node);
    HeldBelow(cells, hi, c.node);
    PosAfterInsert(cells, c, lo);
    PosAfterInsert(cells, c, hi);
    var p := InsertPos(cells, c.entry.key);
    InsertCellAt(cells, c);
    SliceAfterInsert(cells, c, p, Pos(cells, lo), Pos(cells, hi), v);
  }

  // ---------- removal marks ----------

  lemma {:induction false} PosAfterMarks(t: seq<Cell>, cells: seq<Cell>, at: nat, it: Iter)
    requires Marked(t, cells, at)
    ensures Pos(t, it) == Pos(cells, it)
    ensures Held(t, it) <==> Held(cells, it)
  {
    HeldInside(t, it);
    HeldInside(cells, it);
    if cells != [] {
      PosAfterMarks(t[1..], cells[1..], at, it);
    }
  }

  /** Marks made after version `v` are invisible to it. */
  lemma {:induction false} ViewAfterMarks(t: seq<Cell>, cells: seq<Cell>, at: nat, b: nat, v: nat)
    requires Marked(t, cells, at) && Bounded(cells, b) && v <= b < at
    requires forall i :: 0 <= i < |t| ==> t[i] == cells[i] || cells[i].ValidAt(b)
    ensures View(t, v) == View(cells, v)
  {
    if cells != [] {
      assert cells[0] in cells && forall c :: c in cells[1..] ==> c in cells;
      assert t[0] == cells[0] || (cells[0].ValidAt(b) && t[0] == cells[0].(removed := Some(at)));
      ViewAfterMarks(t[1..], cells[1..], at, b, v);
    }
  }

  /** Every tombstoning erase, whatever it marks. */
  lemma RangeAfterMarks(t: seq<Cell>, cells: seq<Cell>, b: nat, lo: Iter, hi: Iter, v: nat)
    requires RangeOk(cells, lo, hi) && Marked(t, cells, b + 1) && Bounded(cells, b) && v <= b
    requires forall i :: 0 <= i < |t| ==> t[i] == cells[i] || cells[i].ValidAt(b)
    ensures RangeOk(t, lo, hi)
    ensures Holds(t, lo, hi, v) == Holds(cells, lo, hi, v)
  {
    PosAfterMarks(t, cells, b + 1, lo);
    PosAfterMarks(t, cells, b + 1, hi);
    var x, y := Pos(cells, lo), Pos(cells, hi);
    ViewAfterMarks(t[x..y], cells[x..y], b + 1, b, v);
  }

  // ---------- collection ----------

  ghost predicate PointsAtGarbage(cells: seq<Cell>, it: Iter, low: nat)
  {
    it.AtNode? && exists c :: c in cells && c.node == it.node && Garbage(c, low)
  }

  /** Collection erases exactly the garbage nodes: an iterator survives if and only if it is not at one. */
  lemma IterAfterCollect(cells: seq<Cell>, low: nat, it: Iter)
    requires NodesDistinct(cells) && Held(cells, it)
    ensures Held(Collect(cells, low), it) <==> !PointsAtGarbage(cells, it, low)
  {
    CollectMember(cells, low);
    if it.AtNode? {
      var c :| c in cells && c.node == it.node;
      SameNode(cells, it.node);
    }
  }

  lemma SameNode(cells: seq<Cell>, n: nat)
    requires NodesDistinct(cells)
    ensures forall c, d :: c in cells && d in cells && c.node == n && d.node == n ==> c == d
  {
  }

  lemma {:induction false} CollectUpTo(cells: seq<Cell>, low: nat, it: Iter)
    requires NodesDistinct(cells) && Held(cells, it) && !PointsAtGarbage(cells, it, low)
    ensures Pos(Collect(cells, low), it) == |Collect(cells[..Pos(cells, it)], low)|
    ensures Collect(cells, low)[..Pos(Collect(cells, low), it)] == Collect(cells[..Pos(cells, it)], low)
  {
    if cells != [] && !(it.AtNode? && cells[0].node == it.node) {
      HeldLater(cells, it, low);
      hide NodesDistinct, Held, PointsAtGarbage, Collect, Pos;
      CollectUpTo(cells[1..], low, it);
      var n, t := Pos(cells[1..], it), Collect(cells[1..], low);
      CollectFront(cells, n, low);
      CollectHead(cells, low);
      PosLater(cells[0], t, it);
      FrontOf(if Garbage(cells[0], low) then [] else [cells[0]], t, Pos(t, it));
    } else {
      CollectUpToHead(cells, low, it);
    }
  }

  lemma CollectUpToHead(cells: seq<Cell>, low: nat, it: Iter)
    requires Held(cells, it) && !PointsAtGarbage(cells, it, low)
    requires cells == [] || (it.AtNode? && cells[0].node == it.node)
    ensures Pos(cells, it) == 0 && Pos(Collect(cells, low), it) == 0
  {
    if cells != [] {
      assert cells[0] in cells;
    }
  }

  lemma FrontOf(h: seq<Cell>, t: seq<Cell>, p: nat)
    requires p <= |t|
    ensures (h + t)[..|h| + p] == h + t[..p]
  {
  }

  lemma PosLater(c: Cell, rest: seq<Cell>, it: Iter)
    requires it.AtNode? ==> c.node != it.node
    ensures Pos([c] + rest, it) == Pos(rest, it) + 1 && Pos([] + rest, it) == Pos(rest, it)
  {
    assert ([c] + rest)[1..] == rest && [] + rest == rest;
  }

  lemma HeldLater(cells: seq<Cell>, it: Iter, low: nat)
    requires cells != [] && NodesDistinct(cells) && Held(cells, it) && !PointsAtGarbage(cells, it, low)
    requires it.AtNode? ==> cells[0].node != it.node
    ensures NodesDistinct(cells[1..]) && Held(cells[1..], it) && !PointsAtGarbage(cells[1..], it, low)
    ensures Pos(cells, it) == Pos(cells[1..], it) + 1
  {
    assert cells == [cells[0]] + cells[1..];
  }

  lemma CollectHead(cells: seq<Cell>, low: nat)
    requires cells != []
    ensures Collect(cells, low) == (if Garbage(cells[0], low) then [] else [cells[0]]) + Collect(cells[1..], low)
  {
  }

  lemma CollectFront(cells: seq<Cell>, n: nat, low: nat)
    requires n < |cells|
    ensures Collect(cells[..n + 1], low)
         == (if Garbage(cells[0], low) then [] else [cells[0]]) + Collect(cells[1..][..n], low)
  {
    assert cells[..n + 1][1..] == cells[1..][..n];
    CollectHead(cells[..n + 1], low);
  }

  /** A range whose iterators survive holds what it held: its version is not below the lowest. */
  lemma RangeAfterCollect(cells: seq<Cell>, low: nat, lo: Iter, hi: Iter, v: nat)
    requires NodesDistinct(cells) && RangeOk(cells, lo, hi) && low <= v
    requires !PointsAtGarbage(cells, lo, low) && !PointsAtGarbage(cells, hi, low)
    ensures RangeOk(Collect(cells, low), lo, hi)
    ensures Holds(Collect(cells, low), lo, hi, v) == Holds(cells, lo, hi, v)
  {
    var t := Collect(cells, low);
    var x, y := Pos(cells, lo), Pos(cells, hi);
    IterAfterCollect(cells, low, lo);
    IterAfterCollect(cells, low, hi);
    CollectUpTo(cells, low, lo);
    CollectUpTo(cells, low, hi);
    CollectSlice(cells, low, x, y, t, Pos(t, lo), Pos(t, hi));
    hide Collect, Pos, NodesDistinct, PointsAtGarbage, Held;
    CollectView(cells[x..y], low, v);
  }

  lemma CollectSlice(cells: seq<Cell>, low: nat, x: nat, y: nat, t: seq<Cell>, a: nat, b: nat)
    requires x <= y <= |cells| && a <= |t| && b <= |t|
    requires t[..a] == Collect(cells[..x], low) && t[..b] == Collect(cells[..y], low)
    ensures a <= b && t[a..b] == Collect(cells[x..y], low)
  {
    assert cells[..y] == cells[..x] + cells[x..y];
    CollectSplit(cells[..x], cells[x..y], low);
    hide Collect;
    assert t[a..b] == t[..b][a..];
  }

  lemma {:induction false} CollectSplit(a: seq<Cell>, b: seq<Cell>, low: nat)
    ensures Collect(a + b, low) == Collect(a, low) + Collect(b, low)
  {
    if a == [] {
      assert a + b == b;
    } else {
      assert (a + b)[1..] == a[1..] + b;
      CollectSplit(a[1..], b, low);
    }
  }

  // ---------- a live range through the group's operations ----------

  /** The fields of a `snapshot_range`: its two ends, where it stands, and a prefetched entry. A reverse
      range goes from `hi` down to `lo`; its iterators are kept by their base. */
  datatype Span = Span(lo: Iter, next: Iter, hi: Iter, cached: Option<Entry>, reverse: bool)

  ghost predicate Placed(cells: seq<Cell>, s: Span)
  {
    RangeOk(cells, s.lo, s.next) && RangeOk(cells, s.next, s.hi)
  }

  /** All it yields, first to last. */
  ghost function Whole(cells: seq<Cell>, s: Span, v: nat): seq<Entry>
    requires Placed(cells, s)
  {
    var all := Holds(cells, s.lo, s.hi, v);
    if s.reverse then Reversed(all) else all
  }

  /** What it has not yielded yet. */
  ghost function Rest(cells: seq<Cell>, s: Span, v: nat): seq<Entry>
    requires Placed(cells, s)
  {
    (if s.cached.Some? then [s.cached.value] else []) +
    if s.reverse then Reversed(Holds(cells, s.lo, s.next, v)) else Holds(cells, s.next, s.hi, v)
  }

  /** The node is there and holds the entry, for a version that sees it. */
  ghost predicate Sees(cells: seq<Cell>, node: nat, e: Entry, v: nat)
  {
    exists i :: 0 <= i < |cells| && cells[i].node == node && cells[i].entry == e && cells[i].ValidAt(v)
  }

  /** Every node that a version sees is still there with its entry. A prefetched entry is a pointer into
      such a node. */
  ghost predicate SeenStay(t: seq<Cell>, cells: seq<Cell>, v: nat)
  {
    forall i :: 0 <= i < |cells| && cells[i].ValidAt(v) ==> Sees(t, cells[i].node, cells[i].entry, v)
  }

  lemma SeenSame(cells: seq<Cell>, v: nat)
    ensures SeenStay(cells, cells, v)
  {
  }

  lemma SeenTwice(u: seq<Cell>, t: seq<Cell>, cells: seq<Cell>, v: nat)
    requires SeenStay(t, cells, v) && SeenStay(u, t, v)
    ensures SeenStay(u, cells, v)
  {
    forall i | 0 <= i < |cells| && cells[i].ValidAt(v) ensures Sees(u, cells[i].node, cells[i].entry, v) {
      assert Sees(t, cells[i].node, cells[i].entry, v);
    }
  }

  /** Whatever cells are among the new ones stay. */
  lemma SeenAmong(t: seq<Cell>, cells: seq<Cell>, v: nat)
    requires forall c :: c in cells && c.ValidAt(v) ==> c in t
    ensures SeenStay(t, cells, v)
  {
    forall i | 0 <= i < |cells| && cells[i].ValidAt(v) ensures Sees(t, cells[i].node, cells[i].entry, v) {
      var j :| 0 <= j < |t| && t[j] == cells[i];
    }
  }

  lemma SeenAfterInsert(cells: seq<Cell>, c: Cell, v: nat)
    ensures SeenStay(InsertCell(cells, c), cells, v)
  {
    forall x | x in cells ensures x in InsertCell(cells, c) {
      InsertedMember(cells, c, x);
    }
    SeenAmong(InsertCell(cells, c), cells, v);
  }

  lemma {:induction false} InsertedMember(cells: seq<Cell>, c: Cell, x: Cell)
    requires x in cells
    ensures x in InsertCell(cells, c)
  {
    if x != cells[0] {
      InsertedMember(cells[1..], c, x);
    }
  }

  lemma SeenAfterMarks(t: seq<Cell>, cells: seq<Cell>, b: nat, v: nat)
    requires Marked(t, cells, b + 1) && v <= b
    ensures SeenStay(t, cells, v)
  {
    forall i | 0 <= i < |cells| && cells[i].ValidAt(v) ensures Sees(t, cells[i].node, cells[i].entry, v) {
      assert t[i].node == cells[i].node && t[i].entry == cells[i].entry && t[i].ValidAt(v);
    }
  }

  lemma SeenAfterCollect(cells: seq<Cell>, low: nat, v: nat)
    requires low <= v
    ensures SeenStay(Collect(cells, low), cells, v)
  {
    forall x | x in cells && x.ValidAt(v) ensures x in Collect(cells, low) {
      CollectedMember(cells, low, v, x);
    }
    SeenAmong(Collect(cells, low), cells, v);
  }

  lemma {:induction false} CollectedMember(cells: seq<Cell>, low: nat, v: nat, x: Cell)
    requires x in cells && x.ValidAt(v) && low <= v
    ensures x in Collect(cells, low)
  {
    if x != cells[0] {
      CollectedMember(cells[1..], low, v, x);
    }
  }

  /** A prefetched entry is the entry of a node that the range's version sees. */
  ghost predicate Backed(cells: seq<Cell>, s: Span, v: nat)
  {
    s.cached.Some? ==> exists node :: Sees(cells, node, s.cached.value, v)
  }

  lemma StaysBacked(t: seq<Cell>, cells: seq<Cell>, s: Span, v: nat)
    requires SeenStay(t, cells, v) && Backed(cells, s, v)
    ensures Backed(t, s, v)
  {
    if s.cached.Some? {
      var node :| Sees(cells, node, s.cached.value, v);
      assert Sees(t, node, s.cached.value, v);
    }
  }

  lemma NowBacked(cells: seq<Cell>, s: Span, v: nat)
    requires s.cached.Some? ==> exists j :: 0 <= j < |cells| && cells[j].entry == s.cached.value && cells[j].ValidAt(v)
    ensures Backed(cells, s, v)
  {
    if s.cached.Some? {
      var j :| 0 <= j < |cells| && cells[j].entry == s.cached.value && cells[j].ValidAt(v);
      assert Sees(cells, cells[j].node, s.cached.value, v);
    }
  }

  /** The iterators still stand, the range yields what it did, and no node it sees is gone. */
  ghost predicate Kept(t: seq<Cell>, cells: seq<Cell>, s: Span, v: nat)
    requires Placed(cells, s)
  {
    && Placed(t, s) && Rest(t, s, v) == Rest(cells, s, v) && Whole(t, s, v) == Whole(cells, s, v)
    && SeenStay(t, cells, v)
  }

  lemma KeptByParts(t: seq<Cell>, cells: seq<Cell>, s: Span, v: nat)
    requires Placed(cells, s) && Placed(t, s) && SeenStay(t, cells, v)
    requires Holds(t, s.lo, s.next, v) == Holds(cells, s.lo, s.next, v)
    requires Holds(t, s.next, s.hi, v) == Holds(cells, s.next, s.hi, v)
    requires Holds(t, s.lo, s.hi, v) == Holds(cells, s.lo, s.hi, v)
    ensures Kept(t, cells, s, v)
  {
    hide SeenStay;
  }

  lemma SpanAfterInsert(cells: seq<Cell>, c: Cell, s: Span, v: nat)
    requires Placed(cells, s) && NodesBelow(cells, c.node) && !c.ValidAt(v)
    ensures Placed(InsertCell(cells, c), s) && Kept(InsertCell(cells, c), cells, s, v)
  {
    hide Pos, InsertCell, View, Held, NodesBelow, SeenStay;
    SeenAfterInsert(cells, c, v);
    RangeAfterInsert(cells, c, s.lo, s.next, v);
    RangeAfterInsert(cells, c, s.next, s.hi, v);
    RangeAfterInsert(cells, c, s.lo, s.hi, v);
    KeptByParts(InsertCell(cells, c), cells, s, v);
  }

  lemma SpanAfterMarks(t: seq<Cell>, cells: seq<Cell>, b: nat, s: Span, v: nat)
    requires Placed(cells, s) && Marked(t, cells, b + 1) && Bounded(cells, b) && v <= b
    requires forall i :: 0 <= i < |t| ==> t[i] == cells[i] || cells[i].ValidAt(b)
    ensures Placed(t, s) && Kept(t, cells, s, v)
  {
    hide Pos, View, Held, Marked, Bounded, SeenStay;
    SeenAfterMarks(t, cells, b, v);
    RangeAfterMarks(t, cells, b, s.lo, s.next, v);
    RangeAfterMarks(t, cells, b, s.next, s.hi, v);
    RangeAfterMarks(t, cells, b, s.lo, s.hi, v);
    KeptByParts(t, cells, s, v);
  }

  /** Some iterator of the range stands on garbage. */
  ghost predicate OnGarbage(cells: seq<Cell>, s: Span, low: nat)
  {
    PointsAtGarbage(cells, s.lo, low) || PointsAtGarbage(cells, s.next, low) || PointsAtGarbage(cells, s.hi, low)
  }

  lemma SpanAfterCollect(cells: seq<Cell>, low: nat, s: Span, v: nat)
    requires NodesDistinct(cells) && Placed(cells, s) && low <= v
    ensures Placed(Collect(cells, low), s) <==> !OnGarbage(cells, s, low)
    ensures !OnGarbage(cells, s, low) ==> Kept(Collect(cells, low), cells, s, v)
  {
    IterAfterCollect(cells, low, s.lo);
    IterAfterCollect(cells, low, s.next);
    IterAfterCollect(cells, low, s.hi);
    if !OnGarbage(cells, s, low) {
      hide Pos, View, Held, NodesDistinct, PointsAtGarbage, Collect, SeenStay;
      SeenAfterCollect(cells, low, v);
      RangeAfterCollect(cells, low, s.lo, s.next, v);
      RangeAfterCollect(cells, low, s.next, s.hi, v);
      RangeAfterCollect(cells, low, s.lo, s.hi, v);
      KeptByParts(Collect(cells, low), cells, s, v);
    }
  }

  /** A range in a group, under the read-only member it holds. */
  datatype Range<H> = Range(owner: H, span: Span)

  ghost predicate LiveRange<H>(g: Group<H>, r: Range<H>)
  {
    r.owner in g.ring && r.owner in g.ver && g.writer != Some(r.owner) && Placed(g.cells, r.span)
  }

  /** The range lives on and yields what it did. */
  ghost predicate RangeKept<H>(g': Group<H>, g: Group<H>, r: Range<H>)
    requires LiveRange(g, r)
  {
    LiveRange(g', r) && g'.ver[r.owner] == g.ver[r.owner] && Kept(g'.cells, g.cells, r.span, g.ver[r.owner])
  }

  lemma RangeKeepsWriterShared<H>(g: Group<H>, r: Range<H>)
    requires Inv(g) && LiveRange(g, r) && g.writer.Some?
    ensures Shared(g)
  {
  }

  lemma WriterBounds<H>(g: Group<H>, h: H)
    requires Inv(g) && g.writer.Some? && h in g.ring
    ensures g.writer.value in g.ver && Bounded(g.cells, g.ver[g.writer.value]) && NodesBelow(g.cells, g.nextNode)
    ensures h in g.ver && g.ver[h] <= g.ver[g.writer.value]
  {
    WriterIsTail(g, h);
  }

  lemma RangeThroughInsert<H>(g: Group<H>, r: Range<H>, e: Entry)
    requires Inv(g) && LiveRange(g, r) && g.writer.Some?
    ensures RangeKept(Insert(g, e), g, r)
  {
    hide Inv, Placed, Kept, InsertCell, Bounded, NodesBelow;
    WriterBounds(g, r.owner);
    SpanAfterInsert(g.cells, Cell(g.nextNode, e, g.ver[g.writer.value] + 1, None), r.span, g.ver[r.owner]);
  }

  /** A new version of the writer alone. */
  lemma RangeThroughBump<H>(g: Group<H>, r: Range<H>)
    requires LiveRange(g, r) && g.writer.Some? && g.writer.value in g.ver
    ensures RangeKept(BumpVersion(g), g, r)
  {
    hide SeenStay;
    SeenSame(g.cells, g.ver[r.owner]);
  }

  /** One more node of a batch, under a version that no range has. */
  lemma RangeThroughAppend<H>(g: Group<H>, r: Range<H>, e: Entry)
    requires Inv(g) && LiveRange(g, r) && g.writer.Some? && WriterAhead(g)
    ensures var c := Cell(g.nextNode, e, g.ver[g.writer.value], None);
      RangeKept(g.(cells := InsertCell(g.cells, c), inserts := g.inserts + 1, nextNode := g.nextNode + 1), g, r)
  {
    hide Inv, Placed, Kept, InsertCell, Bounded, NodesBelow;
    WriterBounds(g, r.owner);
    SpanAfterInsert(g.cells, Cell(g.nextNode, e, g.ver[g.writer.value], None), r.span, g.ver[r.owner]);
  }

  lemma {:induction false} RangeThroughBatch<H>(g: Group<H>, r: Range<H>, es: seq<Entry>)
    requires Inv(g) && LiveRange(g, r) && g.writer.Some? && WriterAhead(g)
    ensures RangeKept(Append(g, es), g, r)
  {
    WriterListed(g);
    if es != [] {
      var n := |es| - 1;
      RangeThroughBatch(g, r, es[..n]);
      hide Inv, Placed, Kept, WriterAhead, InsertCell;
      AppendCorrect(g, es[..n]);
      RangeThroughAppend(Append(g, es[..n]), r, es[n]);
      KeptTwice(Append(g, es).cells, Append(g, es[..n]).cells, g.cells, r.span, g.ver[r.owner]);
    }
  }

  lemma KeptTwice(u: seq<Cell>, t: seq<Cell>, cells: seq<Cell>, s: Span, v: nat)
    requires Placed(cells, s) && Placed(t, s) && Kept(t, cells, s, v) && Kept(u, t, s, v)
    ensures Kept(u, cells, s, v)
  {
    hide SeenStay;
    SeenTwice(u, t, cells, v);
  }

  lemma RangeThroughInsertAll<H>(g: Group<H>, r: Range<H>, es: seq<Entry>)
    requires Inv(g) && LiveRange(g, r) && g.writer.Some?
    ensures g.writer.value in g.ver && RangeKept(InsertAll(g, es), g, r)
  {
    WriterListed(g);
    BumpInv(g);
    hide Inv, Append, WriterAhead, Placed, SeenStay;
    RangeThroughBatch(BumpVersion(g), r, es);
  }

  lemma TombstoneMarks(cells: seq<Cell>, pick: Entry -> bool, v: nat)
    ensures var t := Tombstone(cells, pick, v, v + 1);
      && Marked(t, cells, v + 1)
      && forall i :: 0 <= i < |t| ==> t[i] == cells[i] || cells[i].ValidAt(v)
  {
    TombstoneShape(cells, pick, v, v + 1);
  }

  lemma RangeThroughErase<H>(g: Group<H>, r: Range<H>, pick: Entry -> bool)
    requires Inv(g) && LiveRange(g, r) && g.writer.Some?
    ensures RangeKept(Erase(g, pick), g, r)
  {
    hide Inv, Placed, Kept, Tombstone, Bounded, NodesBelow, VisibleCount;
    WriterBounds(g, r.owner);
    RangeKeepsWriterShared(g, r);
    var v := g.ver[g.writer.value];
    TombstoneMarks(g.cells, pick, v);
    SpanAfterMarks(Tombstone(g.cells, pick, v, v + 1), g.cells, v, r.span, g.ver[r.owner]);
  }

  lemma {:induction false} TombstoneFirstVisible(cells: seq<Cell>, pick: Entry -> bool, v: nat, at: nat)
    ensures |TombstoneFirst(cells, pick, v, at)| == |cells|
    ensures forall i :: 0 <= i < |cells| ==>
      TombstoneFirst(cells, pick, v, at)[i] == cells[i] || cells[i].ValidAt(v)
  {
    if cells != [] {
      TombstoneFirstVisible(cells[1..], pick, v, at);
    }
  }

  lemma RangeThroughEraseFirst<H>(g: Group<H>, r: Range<H>, k: Key, row: Option<RowId>)
    requires Inv(g) && LiveRange(g, r) && g.writer.Some?
    ensures RangeKept(EraseFirst(g, k, row), g, r)
  {
    hide Inv, Placed, Kept, TombstoneFirst, Bounded, NodesBelow, VisibleCount, MatchOf;
    WriterBounds(g, r.owner);
    RangeKeepsWriterShared(g, r);
    var v, pick := g.ver[g.writer.value], MatchOf(k, row);
    TombstoneFirstMarks(g.cells, pick, v, v + 1);
    TombstoneFirstVisible(g.cells, pick, v, v + 1);
    SpanAfterMarks(TombstoneFirst(g.cells, pick, v, v + 1), g.cells, v, r.span, g.ver[r.owner]);
  }

  lemma RangeThroughEraseBetween<H>(g: Group<H>, r: Range<H>, b: nat, e: nat)
    requires Inv(g) && LiveRange(g, r) && g.writer.Some? && b <= e <= |g.cells|
    ensures RangeKept(EraseBetween(g, b, e), g, r)
  {
    hide Inv, Placed, Kept, MarkBetween, Bounded, NodesBelow;
    WriterBounds(g, r.owner);
    var v := g.ver[g.writer.value];
    MarkBetweenMarks(g.cells, b, e, v);
    MarkBetweenOnlyVisible(g.cells, b, e, v);
    SpanAfterMarks(MarkBetween(g.cells, b, e, v), g.cells, v, r.span, g.ver[r.owner]);
  }

  lemma MarkBetweenOnlyVisible(cells: seq<Cell>, b: nat, e: nat, v: nat)
    requires b <= e <= |cells|
    ensures |MarkBetween(cells, b, e, v)| == |cells|
    ensures forall i :: 0 <= i < |cells| ==> MarkBetween(cells, b, e, v)[i] == cells[i] || cells[i].ValidAt(v)
  {
    TombstoneShape(cells[b..e], Everything(), v, v + 1);
  }

  /** Collection leaves a live range intact if and only if none of its three iterators stands on garbage. */
  lemma RangeThroughGc<H>(g: Group<H>, r: Range<H>)
    requires Inv(g) && LiveRange(g, r)
    ensures LiveRange(Gc(g), r) <==> !OnGarbage(g.cells, r.span, Lowest(g))
    ensures LiveRange(Gc(g), r) ==> RangeKept(Gc(g), g, r)
    ensures SeenStay(Gc(g).cells, g.cells, g.ver[r.owner])
  {
    LowestIsLowest(g, r.owner);
    assert NodesDistinct(g.cells);
    hide Inv, Placed, Kept, SnapshotCells.Collect, OnGarbage, NodesDistinct, SeenStay;
    SpanAfterCollect(g.cells, Lowest(g), r.span, g.ver[r.owner]);
    SeenAfterCollect(g.cells, Lowest(g), g.ver[r.owner]);
  }

  /** Another member's leaving leaves a live range intact, unless it is the writer's, it collects, and an
      iterator stands on garbage. */
  lemma RangeThroughLeave<H>(g: Group<H>, r: Range<H>, i: nat)
    requires Inv(g) && LiveRange(g, r) && i < |g.ring| && g.ring[i] != r.owner
    ensures |g.ring| > 1 && Unlink(g, i).ring[0] in Unlink(g, i).ver
    ensures LiveRange(Leave(g, i), r) <==>
      !(Writable(g, g.ring[i]) && AutoGc(g) && OnGarbage(g.cells, r.span, Lowest(Unlink(g, i))))
    ensures LiveRange(Leave(g, i), r) ==> RangeKept(Leave(g, i), g, r)
    ensures SeenStay(Leave(g, i).cells, g.cells, g.ver[r.owner])
  {
    TwoMembers(g.ring, i, r.owner);
    LeaveCorrect(g, i);
    UnlinkInv(g, i);
    hide Inv, Placed, OnGarbage, SeenStay, AutoGc, Gc, RemoveAt, Rest, Whole;
    RangeThroughUnlink(g, r, i);
    RangeThroughGc(Unlink(g, i), r);
  }

  lemma TwoMembers<H>(ring: seq<H>, i: nat, h: H)
    requires i < |ring| && h in ring && ring[i] != h
    ensures |ring| > 1
  {
  }

  lemma RangeThroughUnlink<H>(g: Group<H>, r: Range<H>, i: nat)
    requires LiveRange(g, r) && i < |g.ring| && r.owner in Unlink(g, i).ring && g.ring[i] != r.owner
    ensures RangeKept(Unlink(g, i), g, r) && Unlink(g, i).ver[r.owner] == g.ver[r.owner]
  {
    hide SeenStay, Placed;
    SeenSame(g.cells, g.ver[r.owner]);
  }

  /** Three entries of one key; the second was removed before the range's version. */
  function DanglingCells(k: Key): seq<Cell>
  {
    [Cell(0, Entry(k, 1), 1, None), Cell(1, Entry(k, 2), 2, Some(3)), Cell(2, Entry(k, 3), 4, None)]
  }

  lemma DanglingInv(k: Key)
    ensures Inv(Group(DanglingCells(k), [5, 7], map[5 := 4, 7 := 4], Some(7), 0, 0, 3))
  {
    LessTotal(k, k);
  }

  lemma DanglingSpan(k: Key)
    ensures var c, s := DanglingCells(k), Span(AtNode(0), AtNode(1), AtEnd, None, false);
      Placed(c, s) && OnGarbage(c, s, 4) && Rest(c, s, 4) == [Entry(k, 3)]
  {
    var c := DanglingCells(k);
    assert c[0] in c && c[1] in c;
    assert c[1..] == [c[1], c[2]] && [c[1], c[2]][1..] == [c[2]] && [c[2]][1..] == [];
    PosUnique(c, AtNode(0), 0);
    PosUnique(c, AtNode(1), 1);
    PosUnique(c, AtEnd, 3);
    assert c[1..3] == [c[1], c[2]];
    assert View([], 4) == [] && View([c[2]], 4) == [Entry(k, 3)];
    assert View([c[1], c[2]], 4) == View([c[1], c[2]][1..], 4);
  }

  /** A collection under a live range can take the node it stands on: the range began before the
      tombstone and has yielded the entry in front of it. */
  lemma CollectCanDangle(k: Key)
    ensures var g := Group(DanglingCells(k), [5, 7], map[5 := 4, 7 := 4], Some(7), 0, 0, 3);
            var r := Range(5, Span(AtNode(0), AtNode(1), AtEnd, None, false));
      && Inv(g) && LiveRange(g, r)
      && Rest(g.cells, r.span, 4) == [Entry(k, 3)]
      && !LiveRange(Gc(g), r)
  {
    hide Inv, Placed, DanglingCells, OnGarbage, Rest;
    DanglingInv(k);
    DanglingSpan(k);
    var g := Group(DanglingCells(k), [5, 7], map[5 := 4, 7 := 4], Some(7), 0, 0, 3);
    RangeThroughGc(g, Range(5, Span(AtNode(0), AtNode(1), AtEnd, None, false)));
  }
}
