/** The versioned cells a snapshot group shares, and what one version sees of them. */
module SnapshotCells {
  import opened Keys
  import opened Multimap

  /** `versioned_value` in its multimap node. `node` is the node's identity: what an iterator holds. */
  datatype Cell = Cell(node: nat, entry: Entry, created: nat, removed: Option<nat>) {
    predicate ValidAt(v: nat) {
      created <= v && (removed.None? || v < removed.value)
    }
  }

  /** The ordered contents a member of version `v` observes. */
  function View(cells: seq<Cell>, v: nat): seq<Entry>
  {
    if cells == [] then []
    else if cells[0].ValidAt(v) then [cells[0].entry] + View(cells[1..], v)
    else View(cells[1..], v)
  }

  /** Multimap order: no later key is smaller. */
  predicate Sorted(cells: seq<Cell>)
  {
    forall i, j :: 0 <= i < j < |cells| ==> !Less(cells[j].entry.key, cells[i].entry.key)
  }

  /** Every creation and removal happened at or below version `v`. */
  predicate Bounded(cells: seq<Cell>, v: nat)
  {
    forall c :: c in cells ==> c.created <= v && (c.removed.Some? ==> c.removed.value <= v)
  }

  // ---------- operations on the multimap of cells ----------

  /** `std::multimap::insert`: after every equal key. */
  function InsertCell(cells: seq<Cell>, c: Cell): seq<Cell>
  {
    if cells == [] then [c]
    else if Less(c.entry.key, cells[0].entry.key) then [c] + cells
    else [cells[0]] + InsertCell(cells[1..], c)
  }

  /** Mark every cell visible at `v` and picked by `pick` as removed at `at`. */
  function Tombstone(cells: seq<Cell>, pick: Entry -> bool, v: nat, at: nat): seq<Cell>
  {
    if cells == [] then []
    else
      var c := cells[0];
      [if c.ValidAt(v) && pick(c.entry) then c.(removed := Some(at)) else c]
      + Tombstone(cells[1..], pick, v, at)
  }

  /** Mark only the first such cell. */
  function TombstoneFirst(cells: seq<Cell>, pick: Entry -> bool, v: nat, at: nat): seq<Cell>
  {
    if cells == [] then []
    else if cells[0].ValidAt(v) && pick(cells[0].entry) then [cells[0].(removed := Some(at))] + cells[1..]
    else [cells[0]] + TombstoneFirst(cells[1..], pick, v, at)
  }

  /** Physically erase every picked cell, tombstone or not. */
  function Drop(cells: seq<Cell>, pick: Entry -> bool): seq<Cell>
  {
    if cells == [] then []
    else if pick(cells[0].entry) then Drop(cells[1..], pick)
    else [cells[0]] + Drop(cells[1..], pick)
  }

  /** Physically erase the first picked cell, tombstone or not. */
  function DropFirst(cells: seq<Cell>, pick: Entry -> bool): seq<Cell>
  {
    if cells == [] then []
    else if pick(cells[0].entry) then cells[1..]
    else [cells[0]] + DropFirst(cells[1..], pick)
  }

  predicate Garbage(c: Cell, low: nat)
  {
    c.removed.Some? && c.removed.value < low
  }

  /** What a collection with lowest live version `low` leaves. */
  function Collect(cells: seq<Cell>, low: nat): seq<Cell>
  {
    if cells == [] then []
    else if Garbage(cells[0], low) then Collect(cells[1..], low)
    else [cells[0]] + Collect(cells[1..], low)
  }

  // ---------- views ----------

  lemma {:induction false} ViewConcat(a: seq<Cell>, b: seq<Cell>, v: nat)
    ensures View(a + b, v) == View(a, v) + View(b, v)
  {
    if a == [] {
      assert a + b == b;
    } else {
      assert (a + b)[1..] == a[1..] + b;
      ViewConcat(a[1..], b, v);
    }
  }

  lemma {:induction false} ViewMember(cells: seq<Cell>, v: nat, e: Entry)
    ensures e in View(cells, v) <==> exists c :: c in cells && c.ValidAt(v) && c.entry == e
  {
    if cells != [] {
      ViewMember(cells[1..], v, e);
      assert cells == [cells[0]] + cells[1..];
    }
  }

  lemma {:induction false} ViewSorted(cells: seq<Cell>, v: nat)
    requires Sorted(cells)
    ensures SortedEntries(View(cells, v))
  {
    if cells != [] {
      ViewSorted(cells[1..], v);
      var rest := View(cells[1..], v);
      forall j | 0 <= j < |rest| ensures !Less(rest[j].key, cells[0].entry.key) {
        ViewMember(cells[1..], v, rest[j]);
      }
    }
  }

  /** Nothing changes above the last write. */
  lemma {:induction false} ViewAboveBound(cells: seq<Cell>, b: nat, v: nat)
    requires Bounded(cells, b) && b <= v
    ensures View(cells, v) == View(cells, b)
  {
    if cells != [] {
      assert cells[0] in cells;
      assert forall c :: c in cells[1..] ==> c in cells;
      ViewAboveBound(cells[1..], b, v);
    }
  }

  // ---------- insertion ----------

  lemma {:induction false} InsertCellMember(cells: seq<Cell>, c: Cell)
    ensures forall x :: x in InsertCell(cells, c) <==> x == c || x in cells
  {
    if cells != [] {
      InsertCellMember(cells[1..], c);
      assert cells == [cells[0]] + cells[1..];
    }
  }

  lemma {:induction false} InsertCellSorted(cells: seq<Cell>, c: Cell)
    requires Sorted(cells)
    ensures Sorted(InsertCell(cells, c))
  {
    if cells != [] {
      if Less(c.entry.key, cells[0].entry.key) {
        forall j | 0 <= j < |cells| ensures !Less(cells[j].entry.key, c.entry.key) {
          if j == 0 {
            LessTotal(c.entry.key, cells[0].entry.key);
          } else {
            LessThenNotLess(c.entry.key, cells[0].entry.key, cells[j].entry.key);
          }
        }
      } else {
        InsertCellSorted(cells[1..], c);
        InsertCellMember(cells[1..], c);
        var rest := InsertCell(cells[1..], c);
        forall j | 0 <= j < |rest| ensures !Less(rest[j].entry.key, cells[0].entry.key) {
          assert rest[j] == c || rest[j] in cells[1..];
        }
      }
    }
  }

  /** Older versions do not see the new cell. */
  lemma {:induction false} InsertHidden(cells: seq<Cell>, c: Cell, v: nat)
    requires !c.ValidAt(v)
    ensures View(InsertCell(cells, c), v) == View(cells, v)
  {
    if cells == [] || Less(c.entry.key, cells[0].entry.key) {
      ViewConcat([c], cells, v);
    } else {
      InsertHidden(cells[1..], c, v);
    }
  }

  /** The version that sees the new cell sees it where a plain multimap would put it. */
  lemma {:induction false} InsertVisible(cells: seq<Cell>, c: Cell, v: nat)
    requires Sorted(cells) && c.ValidAt(v)
    ensures View(InsertCell(cells, c), v) == InsertEntry(View(cells, v), c.entry)
  {
    if cells == [] {
    } else if Less(c.entry.key, cells[0].entry.key) {
      var view := View(cells, v);
      if view != [] {
        ViewMember(cells, v, view[0]);
        var x :| x in cells && x.ValidAt(v) && x.entry == view[0];
        LessThenNotLess(c.entry.key, cells[0].entry.key, x.entry.key) by {
          if x == cells[0] { LessTotal(x.entry.key, x.entry.key); }
        }
      }
      InsertEntryBefore(view, c.entry);
    } else {
      InsertVisible(cells[1..], c, v);
    }
  }

  // ---------- tombstones ----------

  lemma {:induction false} TombstoneShape(cells: seq<Cell>, pick: Entry -> bool, v: nat, at: nat)
    ensures |Tombstone(cells, pick, v, at)| == |cells|
    ensures forall i :: 0 <= i < |cells| ==>
      Tombstone(cells, pick, v, at)[i] ==
        (if cells[i].ValidAt(v) && pick(cells[i].entry) then cells[i].(removed := Some(at)) else cells[i])
  {
    if cells != [] {
      TombstoneShape(cells[1..], pick, v, at);
    }
  }

  /** Versions before the removal still see everything they saw. */
  lemma {:induction false} TombstoneOld(cells: seq<Cell>, pick: Entry -> bool, v: nat, at: nat, u: nat)
    requires u < at
    requires Bounded(cells, v)
    ensures u <= v ==> View(Tombstone(cells, pick, v, at), u) == View(cells, u)
  {
    if cells != [] && u <= v {
      assert cells[0] in cells && forall c :: c in cells[1..] ==> c in cells;
      TombstoneOld(cells[1..], pick, v, at, u);
    }
  }

  /** The version of the removal sees exactly the rest. */
  lemma {:induction false} TombstoneNew(cells: seq<Cell>, pick: Entry -> bool, v: nat)
    requires Bounded(cells, v)
    ensures View(Tombstone(cells, pick, v, v + 1), v + 1) == Without(View(cells, v), pick)
  {
    if cells != [] {
      assert cells[0] in cells && forall c :: c in cells[1..] ==> c in cells;
      TombstoneNew(cells[1..], pick, v);
    }
  }

  lemma {:induction false} TombstoneFirstOld(cells: seq<Cell>, pick: Entry -> bool, v: nat, u: nat)
    requires u <= v && Bounded(cells, v)
    ensures View(TombstoneFirst(cells, pick, v, v + 1), u) == View(cells, u)
  {
    if cells != [] {
      assert cells[0] in cells && forall c :: c in cells[1..] ==> c in cells;
      TombstoneFirstOld(cells[1..], pick, v, u);
    }
  }

  lemma {:induction false} TombstoneFirstNew(cells: seq<Cell>, pick: Entry -> bool, v: nat)
    requires Bounded(cells, v)
    ensures View(TombstoneFirst(cells, pick, v, v + 1), v + 1) == WithoutFirst(View(cells, v), pick)
  {
    if cells != [] {
      assert cells[0] in cells && forall c :: c in cells[1..] ==> c in cells;
      ViewAboveBound(cells[1..], v, v + 1);
      TombstoneFirstNew(cells[1..], pick, v);
    }
  }

  // ---------- physical erasure ----------

  lemma {:induction false} DropView(cells: seq<Cell>, pick: Entry -> bool, v: nat)
    ensures View(Drop(cells, pick), v) == Without(View(cells, v), pick)
  {
    if cells != [] {
      DropView(cells[1..], pick, v);
    }
  }

  /** Some cell visible at `v` is picked. */
  predicate AnyVisible(cells: seq<Cell>, pick: Entry -> bool, v: nat)
  {
    exists c :: c in cells && c.ValidAt(v) && pick(c.entry)
  }

  /** The first picked cell exists and is visible at `v`. */
  predicate FirstVisible(cells: seq<Cell>, pick: Entry -> bool, v: nat)
  {
    if cells == [] then false
    else if pick(cells[0].entry) then cells[0].ValidAt(v)
    else FirstVisible(cells[1..], pick, v)
  }

  lemma {:induction false} NothingPicked(cells: seq<Cell>, pick: Entry -> bool, v: nat)
    ensures !AnyVisible(cells, pick, v) ==> WithoutFirst(View(cells, v), pick) == View(cells, v)
    ensures AnyVisible(cells, pick, v) ==> |WithoutFirst(View(cells, v), pick)| == |View(cells, v)| - 1
  {
    if cells != [] {
      assert cells == [cells[0]] + cells[1..];
      assert AnyVisible(cells, pick, v) <==>
        (cells[0].ValidAt(v) && pick(cells[0].entry)) || AnyVisible(cells[1..], pick, v);
      NothingPicked(cells[1..], pick, v);
    }
  }

  /** Erasing the first match directly, without looking at its visibility, is right exactly when
      that match is visible or no visible match exists. */
  lemma {:induction false} DropFirstView(cells: seq<Cell>, pick: Entry -> bool, v: nat)
    ensures View(DropFirst(cells, pick), v) == WithoutFirst(View(cells, v), pick)
            <==> FirstVisible(cells, pick, v) || !AnyVisible(cells, pick, v)
  {
    if cells != [] {
      assert cells == [cells[0]] + cells[1..];
      assert AnyVisible(cells, pick, v) <==>
        (cells[0].ValidAt(v) && pick(cells[0].entry)) || AnyVisible(cells[1..], pick, v);
      NothingPicked(cells, pick, v);
      DropFirstView(cells[1..], pick, v);
      SamePrefix(cells[0].entry, View(DropFirst(cells[1..], pick), v), WithoutFirst(View(cells[1..], v), pick));
    }
  }

  /** Not below `k`: where `lower_bound(k)` points. */
  function NotBelow(k: Key): Entry -> bool
  {
    (e: Entry) => !Less(e.key, k)
  }

  /** The cell `lower_bound(k)` points at, if it is not the end. */
  function AtLowerBound(cells: seq<Cell>, k: Key): Option<Cell>
  {
    if cells == [] then None
    else if !Less(cells[0].entry.key, k) then Some(cells[0])
    else AtLowerBound(cells[1..], k)
  }

  /** `data.erase(data.lower_bound(key))` removes the first visible match exactly when the lower
      bound is a visible cell of that key, or it is hidden and the key has no visible cell. */
  lemma {:induction false} EraseLowerBoundView(cells: seq<Cell>, k: Key, v: nat)
    requires Sorted(cells)
    requires AtLowerBound(cells, k).Some?
    ensures View(DropFirst(cells, NotBelow(k)), v) == WithoutFirst(View(cells, v), KeyIs(k))
            <==> var c := AtLowerBound(cells, k).value;
                 if c.ValidAt(v) then c.entry.key == k else !AnyVisible(cells, KeyIs(k), v)
  {
    var pick := KeyIs(k);
    assert cells == [cells[0]] + cells[1..];
    assert AnyVisible(cells, pick, v) <==>
      (cells[0].ValidAt(v) && pick(cells[0].entry)) || AnyVisible(cells[1..], pick, v);
    LessTotal(cells[0].entry.key, k);
    if Less(cells[0].entry.key, k) {
      EraseLowerBoundView(cells[1..], k, v);
      SamePrefix(cells[0].entry, View(DropFirst(cells[1..], NotBelow(k)), v),
                 WithoutFirst(View(cells[1..], v), KeyIs(k)));
    } else {
      NothingPicked(cells, pick, v);
      if cells[0].ValidAt(v) && cells[0].entry.key != k {
        NoLaterKey(cells, k);
        assert !AnyVisible(cells, pick, v);
      }
    }
  }

  lemma NoLaterKey(cells: seq<Cell>, k: Key)
    requires Sorted(cells) && cells != []
    requires Less(k, cells[0].entry.key)
    ensures forall c :: c in cells ==> c.entry.key != k
  {
    forall j | 0 <= j < |cells| ensures cells[j].entry.key != k {
      LessTotal(k, cells[0].entry.key);
      if j > 0 {
        LessThenNotLess(k, cells[0].entry.key, cells[j].entry.key);
        LessTotal(k, cells[j].entry.key);
      }
    }
  }

  // ---------- collection ----------

  lemma {:induction false} CollectView(cells: seq<Cell>, low: nat, v: nat)
    requires low <= v
    ensures View(Collect(cells, low), v) == View(cells, v)
  {
    if cells != [] {
      CollectView(cells[1..], low, v);
    }
  }

  lemma {:induction false} CollectMember(cells: seq<Cell>, low: nat)
    ensures forall c :: c in Collect(cells, low) <==> c in cells && !Garbage(c, low)
  {
    if cells != [] {
      CollectMember(cells[1..], low);
      assert cells == [cells[0]] + cells[1..];
    }
  }
}
