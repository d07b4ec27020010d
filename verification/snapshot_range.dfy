/** Key intervals, the positions that bracket them, and what a range between two positions holds. */
module SnapshotRange {
  import opened Bounds
  import opened Multimap
  import opened SnapshotCells

  function CellBeforeBegin(iv: Interval): Cell -> bool
  {
    (c: Cell) => iv.BeforeBegin(c.entry.key)
  }

  function CellBeforeEnd(iv: Interval): Cell -> bool
  {
    (c: Cell) => iv.BeforeEnd(c.entry.key)
  }

  /** The position of a query's first iterator, and of its last. */
  function Begin(cells: seq<Cell>, iv: Interval): (b: nat)
    ensures b <= |cells|
  {
    PartitionPoint(cells, CellBeforeBegin(iv))
  }

  function End(cells: seq<Cell>, iv: Interval): (e: nat)
    ensures e <= |cells|
  {
    PartitionPoint(cells, CellBeforeEnd(iv))
  }

  /** A cell lies between the two positions exactly when its key lies in the interval. */
  lemma BracketHolds(cells: seq<Cell>, iv: Interval, i: nat)
    requires Sorted(cells) && i < |cells|
    ensures i < Begin(cells, iv) <==> iv.BeforeBegin(cells[i].entry.key)
    ensures i < End(cells, iv) <==> iv.BeforeEnd(cells[i].entry.key)
    ensures Begin(cells, iv) <= i < End(cells, iv) <==> iv.Contains(cells[i].entry.key)
  {
    CutsPartition(cells, iv);
    PartitionSplits(cells, CellBeforeBegin(iv), i);
    PartitionSplits(cells, CellBeforeEnd(iv), i);
    CutsBound(iv, cells[i].entry.key);
  }

  lemma CutsPartition(cells: seq<Cell>, iv: Interval)
    requires Sorted(cells)
    ensures Partitioned(cells, CellBeforeBegin(iv)) && Partitioned(cells, CellBeforeEnd(iv))
  {
    forall i, j | 0 <= i < j < |cells|
      ensures CellBeforeBegin(iv)(cells[j]) ==> CellBeforeBegin(iv)(cells[i])
      ensures CellBeforeEnd(iv)(cells[j]) ==> CellBeforeEnd(iv)(cells[i])
    {
      CutsDownClosed(iv, cells[i].entry.key, cells[j].entry.key);
    }
  }

  lemma BracketOrdered(cells: seq<Cell>, iv: Interval)
    requires Sorted(cells) && iv.Proper()
    ensures Begin(cells, iv) <= End(cells, iv)
  {
    var e := End(cells, iv);
    if e < |cells| {
      BracketHolds(cells, iv, e);
      if iv.BeforeBegin(cells[e].entry.key) { CutsOrdered(iv, cells[e].entry.key); }
    }
  }

  // ---------- views between positions ----------

  lemma PartUniform(cells: seq<Cell>, pick: Entry -> bool, v: nat, inside: bool)
    requires forall i :: 0 <= i < |cells| ==> pick(cells[i].entry) == inside
    ensures Keep(View(cells, v), pick) == if inside then View(cells, v) else []
    ensures Without(View(cells, v), pick) == if inside then [] else View(cells, v)
  {
  }

  /** A range over an interval holds exactly what its version sees of the interval, in order, and
      leaves exactly the rest outside. */
  lemma RangeView(cells: seq<Cell>, iv: Interval, v: nat)
    requires Sorted(cells) && iv.Proper()
    ensures Begin(cells, iv) <= End(cells, iv)
    ensures View(cells[Begin(cells, iv)..End(cells, iv)], v) == Keep(View(cells, v), InInterval(iv))
    ensures View(cells[..Begin(cells, iv)], v) + View(cells[End(cells, iv)..], v)
         == Without(View(cells, v), InInterval(iv))
  {
    BracketOrdered(cells, iv);
    var b, e := Begin(cells, iv), End(cells, iv);
    forall i | 0 <= i < |cells| ensures b <= i < e <==> InInterval(iv)(cells[i].entry) {
      BracketHolds(cells, iv, i);
    }
    ThreeParts(cells, b, e, InInterval(iv), v);
  }

  lemma ThreeParts(cells: seq<Cell>, b: nat, e: nat, pick: Entry -> bool, v: nat)
    requires b <= e <= |cells|
    requires forall i :: 0 <= i < |cells| ==> (b <= i < e <==> pick(cells[i].entry))
    ensures View(cells[b..e], v) == Keep(View(cells, v), pick)
    ensures View(cells[..b], v) + View(cells[e..], v) == Without(View(cells, v), pick)
  {
    var pre, mid, post := cells[..b], cells[b..e], cells[e..];
    assert cells == pre + mid + post;
    JoinParts(pre, mid, post, pick, v);
  }

  lemma JoinParts(pre: seq<Cell>, mid: seq<Cell>, post: seq<Cell>, pick: Entry -> bool, v: nat)
    requires forall i :: 0 <= i < |pre| ==> !pick(pre[i].entry)
    requires forall i :: 0 <= i < |mid| ==> pick(mid[i].entry)
    requires forall i :: 0 <= i < |post| ==> !pick(post[i].entry)
    ensures View(mid, v) == Keep(View(pre + mid + post, v), pick)
    ensures View(pre, v) + View(post, v) == Without(View(pre + mid + post, v), pick)
  {
    PartUniform(pre, pick, v, false);
    PartUniform(mid, pick, v, true);
    PartUniform(post, pick, v, false);
    assert View(pre + mid + post, v) == View(pre, v) + View(mid, v) + View(post, v) by {
      ViewConcat(pre + mid, post, v);
      ViewConcat(pre, mid, v);
    }
    KeepMiddle(View(pre, v), View(mid, v), View(post, v), pick);
  }
}
