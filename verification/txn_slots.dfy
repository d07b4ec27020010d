/** Ordered bags of rows under `table_row_pair::operator<`: the staged inserts of a transaction, and
    the rows of a sorted table. */
module TxnSlots {
  import opened Keys
  import opened Bounds
  import opened TxnModel

  /** A row filed under its table and key. */
  datatype Slot = Slot(table: TableId, key: Key, row: RowId) {
    function At(): Pair { Pair(table, Place.At(key)) }
  }

  predicate SlotsSorted(s: seq<Slot>)
  {
    forall i, j :: 0 <= i < j < |s| ==> !PairLess(s[j].At(), s[i].At())
  }

  /** Tables never change under a bag. */
  predicate TablesRise(s: seq<Slot>)
  {
    forall i, j :: 0 <= i < j < |s| ==> s[i].table <= s[j].table
  }

  /** The slots of one table are in key order. */
  predicate KeysRise(s: seq<Slot>, t: TableId)
  {
    forall i, j :: 0 <= i < j < |s| && s[i].table == t && s[j].table == t ==> !Less(s[j].key, s[i].key)
  }

  lemma SortedRises(s: seq<Slot>)
    requires SlotsSorted(s)
    ensures TablesRise(s) && forall t :: KeysRise(s, t)
  {
    forall i, j | 0 <= i < j < |s|
      ensures s[i].table <= s[j].table && (s[i].table == s[j].table ==> !Less(s[j].key, s[i].key))
    {
      assert !PairLess(s[j].At(), s[i].At());
    }
  }

  predicate SlotsDistinct(s: seq<Slot>)
  {
    forall i, j :: 0 <= i < j < |s| ==> s[i].row != s[j].row
  }

  function Filed(sch: Schema, rows: map<RowId, Cols>, t: TableId, r: RowId): Slot
  {
    Slot(t, KeyOf(sch(t), Memory(rows, r)), r)
  }

  /** The bag files exactly the rows of `among`, each under its current key. */
  predicate Files(sch: Schema, rows: map<RowId, Cols>, among: map<RowId, TableId>, s: seq<Slot>)
  {
    && SlotsSorted(s) && SlotsDistinct(s)
    && (forall i :: 0 <= i < |s| ==> s[i].row in among && s[i] == Filed(sch, rows, among[s[i].row], s[i].row))
    && (forall r :: r in among ==> Filed(sch, rows, among[r], r) in s)
  }

  // ---------- bounds ----------

  function LowerThan(p: Pair): Slot -> bool
  {
    (x: Slot) => PairLess(x.At(), p)
  }

  function NotAbove(p: Pair): Slot -> bool
  {
    (x: Slot) => !PairLess(p, x.At())
  }

  function LowerBound(s: seq<Slot>, p: Pair): (n: nat)
    ensures n <= |s|
  {
    PartitionPoint(s, LowerThan(p))
  }

  function UpperBound(s: seq<Slot>, p: Pair): (n: nat)
    ensures n <= |s|
  {
    PartitionPoint(s, NotAbove(p))
  }

  /** A probe of one table divides the bag if that table's slots are in order, whatever the others are. */
  lemma BoundsPartition(s: seq<Slot>, p: Pair)
    requires TablesRise(s) && KeysRise(s, p.table)
    ensures Partitioned(s, LowerThan(p)) && Partitioned(s, NotAbove(p))
  {
    forall i, j | 0 <= i < j < |s|
      ensures LowerThan(p)(s[j]) ==> LowerThan(p)(s[i])
      ensures NotAbove(p)(s[j]) ==> NotAbove(p)(s[i])
    {
      if s[i].table == p.table && s[j].table == p.table {
        PairDown(s[i].At(), s[j].At(), p);
      }
    }
  }

  lemma PairDown(a: Pair, b: Pair, p: Pair)
    requires !PairLess(b, a)
    ensures PairLess(b, p) ==> PairLess(a, p)
    ensures !PairLess(p, b) ==> !PairLess(p, a)
  {
    PairStrict(a, b);
    PairStrict(a, p);
    PairStrict(b, p);
    if PairLess(b, p) && a != b {
      PairLessTransitive(a, b, p);
    }
    if PairLess(p, a) && a != b {
      PairLessTransitive(p, a, b);
    }
  }

  /** What the two bounds tell about a position. */
  lemma BoundsAt(s: seq<Slot>, p: Pair, i: nat)
    requires TablesRise(s) && KeysRise(s, p.table) && i < |s|
    ensures i < LowerBound(s, p) <==> PairLess(s[i].At(), p)
    ensures i < UpperBound(s, p) <==> !PairLess(p, s[i].At())
  {
    BoundsPartition(s, p);
    PartitionSplits(s, LowerThan(p), i);
    PartitionSplits(s, NotAbove(p), i);
  }

  lemma PartitionOrdered<T>(s: seq<T>, a: T -> bool, b: T -> bool)
    requires forall i :: 0 <= i < |s| && a(s[i]) ==> b(s[i])
    ensures PartitionPoint(s, a) <= PartitionPoint(s, b)
  {
  }

  lemma BoundsOrdered(s: seq<Slot>, p: Pair, q: Pair)
    requires !PairLess(q, p)
    ensures LowerBound(s, p) <= UpperBound(s, q)
    ensures PairLess(p, q) ==> UpperBound(s, p) <= LowerBound(s, q)
  {
    forall i | 0 <= i < |s|
      ensures LowerThan(p)(s[i]) ==> NotAbove(q)(s[i])
      ensures PairLess(p, q) && NotAbove(p)(s[i]) ==> LowerThan(q)(s[i])
    {
      PairStrict(s[i].At(), p);
      PairStrict(s[i].At(), q);
      PairStrict(p, q);
      if PairLess(s[i].At(), p) && p != q {
        PairLessTransitive(s[i].At(), p, q);
      }
    }
    PartitionOrdered(s, LowerThan(p), NotAbove(q));
    if PairLess(p, q) {
      PartitionOrdered(s, NotAbove(p), LowerThan(q));
    }
  }

  // ---------- insertion ----------

  /** `multiset::insert`: after everything not above. */
  function FileSlot(s: seq<Slot>, e: Slot): seq<Slot>
  {
    var n := UpperBound(s, e.At());
    s[..n] + [e] + s[n..]
  }

  lemma FileSlotOrder(s: seq<Slot>, e: Slot)
    requires SlotsSorted(s)
    ensures SlotsSorted(FileSlot(s, e))
  {
    hide UpperBound, PairLess, TablesRise, KeysRise;
    var n := UpperBound(s, e.At());
    SortedRises(s);
    forall i | 0 <= i < |s|
      ensures (i < n ==> !PairLess(e.At(), s[i].At())) && (n <= i ==> !PairLess(s[i].At(), e.At()))
    {
      BoundsAt(s, e.At(), i);
      PairStrict(s[i].At(), e.At());
    }
    SpliceOrder(s, e, n);
  }

  lemma SpliceOrder(s: seq<Slot>, e: Slot, n: nat)
    requires SlotsSorted(s) && n <= |s|
    requires forall i :: 0 <= i < |s| ==>
      (i < n ==> !PairLess(e.At(), s[i].At())) && (n <= i ==> !PairLess(s[i].At(), e.At()))
    ensures SlotsSorted(s[..n] + [e] + s[n..])
  {
    hide PairLess;
    var q := s[..n] + [e] + s[n..];
    assert q[n] == e;
    forall i, j | 0 <= i < j < |q| ensures !PairLess(q[j].At(), q[i].At()) {
      assert i != n ==> q[i] == if i < n then s[i] else s[i - 1];
      assert j != n ==> q[j] == if j < n then s[j] else s[j - 1];
    }
  }

  lemma FileSlotMember(s: seq<Slot>, e: Slot, x: Slot)
    ensures x in FileSlot(s, e) <==> x == e || x in s
  {
  }

  lemma FileSlotDistinct(s: seq<Slot>, e: Slot)
    requires SlotsDistinct(s) && forall i :: 0 <= i < |s| ==> s[i].row != e.row
    ensures SlotsDistinct(FileSlot(s, e))
  {
  }

  lemma FiledMember(sch: Schema, rows: map<RowId, Cols>, among: map<RowId, TableId>, s: seq<Slot>, x: Slot)
    requires Files(sch, rows, among, s)
    ensures x in s <==> x.row in among && x == Filed(sch, rows, among[x.row], x.row)
  {
  }

  /** `Files`, by membership. */
  lemma FilesWhole(sch: Schema, rows: map<RowId, Cols>, among: map<RowId, TableId>, s: seq<Slot>)
    requires SlotsSorted(s) && SlotsDistinct(s)
    requires forall x :: x in s <==> x.row in among && x == Filed(sch, rows, among[x.row], x.row)
    ensures Files(sch, rows, among, s)
  {
  }

  lemma FileKeeps(sch: Schema, rows: map<RowId, Cols>, among: map<RowId, TableId>, s: seq<Slot>, t: TableId, r: RowId)
    requires Files(sch, rows, among, s) && r !in among
    ensures Files(sch, rows, among[r := t], FileSlot(s, Filed(sch, rows, t, r)))
  {
    var e := Filed(sch, rows, t, r);
    assert forall i :: 0 <= i < |s| ==> s[i].row != r;
    FileSlotOrder(s, e);
    FileSlotDistinct(s, e);
    hide FileSlot, Filed, SlotsSorted, SlotsDistinct, Files;
    assert e.row == r && e == Filed(sch, rows, t, r);
    forall x ensures x in FileSlot(s, e) <==>
      x.row in among[r := t] && x == Filed(sch, rows, among[r := t][x.row], x.row) {
      FileSlotMember(s, e, x);
      FiledMember(sch, rows, among, s, x);
    }
    FilesWhole(sch, rows, among[r := t], FileSlot(s, e));
  }

  // ---------- removal ----------

  /** The sweep over the equal range for an exact row match. */
  method Sweep(s: seq<Slot>, e: Slot) returns (i: nat)
    requires SlotsSorted(s)
    ensures i <= UpperBound(s, e.At())
    ensures i < UpperBound(s, e.At()) <==> e in s
    ensures e in s ==> s[i] == e
  {
    i := LowerBound(s, e.At());
    var end := UpperBound(s, e.At());
    PairStrict(e.At(), e.At());
    BoundsOrdered(s, e.At(), e.At());
    SortedRises(s);
    forall j | 0 <= j < |s| ensures LowerBound(s, e.At()) <= j < end <==> s[j].At() == e.At() {
      BoundsAt(s, e.At(), j);
      PairStrict(s[j].At(), e.At());
    }
    while i != end && s[i].row != e.row
      invariant LowerBound(s, e.At()) <= i <= end
      invariant forall j :: LowerBound(s, e.At()) <= j < i ==> s[j].row != e.row
    {
      i := i + 1;
    }
  }

  function DropSlot(s: seq<Slot>, i: nat): seq<Slot>
    requires i < |s|
  {
    s[..i] + s[i + 1..]
  }

  lemma DropSlotMember(s: seq<Slot>, i: nat, x: Slot)
    requires i < |s| && SlotsDistinct(s)
    ensures x in DropSlot(s, i) <==> x in s && x.row != s[i].row
  {
  }

  lemma DropSlotOrder(s: seq<Slot>, i: nat)
    requires i < |s| && SlotsSorted(s) && SlotsDistinct(s)
    ensures SlotsSorted(DropSlot(s, i)) && SlotsDistinct(DropSlot(s, i))
  {
  }

  lemma DropKeeps(sch: Schema, rows: map<RowId, Cols>, among: map<RowId, TableId>, s: seq<Slot>, i: nat)
    requires Files(sch, rows, among, s) && i < |s|
    ensures Files(sch, rows, among - {s[i].row}, DropSlot(s, i))
  {
    DropSlotOrder(s, i);
    assert SlotsDistinct(s);
    hide DropSlot, Filed, SlotsSorted, SlotsDistinct, Files;
    var among' := among - {s[i].row};
    forall x ensures x in DropSlot(s, i) <==> x.row in among' && x == Filed(sch, rows, among'[x.row], x.row) {
      DropSlotMember(s, i, x);
      FiledMember(sch, rows, among, s, x);
    }
    FilesWhole(sch, rows, among', DropSlot(s, i));
  }

  // ---------- writing a row ----------

  /** A row may change where its key does not see it. */
  lemma WriteKeepsFiles(sch: Schema, rows: map<RowId, Cols>, among: map<RowId, TableId>, s: seq<Slot>, r: RowId,
      cols: Cols)
    requires Files(sch, rows, among, s)
    requires r in among ==> KeyOf(sch(among[r]), cols) == KeyOf(sch(among[r]), Memory(rows, r))
    ensures Files(sch, rows[r := cols], among, s)
  {
  }

  // ---------- range search ----------

  /** What lies before an interval of table `t`: below the probe row, or below a sentinel. */
  function BeforeRange(t: TableId, iv: Interval): Slot -> bool
  {
    match iv
    case All => LowerThan(Pair(t, RowMin))
    case Exactly(k) => LowerThan(Pair(t, Place.At(k)))
    case Below(_) => LowerThan(Pair(t, RowMin))
    case Above(k) => NotAbove(Pair(t, Place.At(k)))
    case Between(lo, _) => NotAbove(Pair(t, Place.At(lo)))
  }

  /** What lies before its end. */
  function BeforeRangeEnd(t: TableId, iv: Interval): Slot -> bool
  {
    match iv
    case All => NotAbove(Pair(t, RowMax))
    case Exactly(k) => NotAbove(Pair(t, Place.At(k)))
    case Below(k) => LowerThan(Pair(t, Place.At(k)))
    case Above(_) => NotAbove(Pair(t, RowMax))
    case Between(_, hi) => LowerThan(Pair(t, Place.At(hi)))
  }

  /** Where the search in a bag in order begins and ends. */
  function RangeBegin(s: seq<Slot>, t: TableId, iv: Interval): nat
  {
    PartitionPoint(s, BeforeRange(t, iv))
  }

  function RangeEnd(s: seq<Slot>, t: TableId, iv: Interval): nat
  {
    PartitionPoint(s, BeforeRangeEnd(t, iv))
  }

  /** The positions found are exactly those of the table's rows in the interval. */
  lemma RangeExact(s: seq<Slot>, t: TableId, iv: Interval, i: nat)
    requires TablesRise(s) && KeysRise(s, t) && i < |s|
    ensures RangeBegin(s, t, iv) <= i < RangeEnd(s, t, iv) <==> s[i].table == t && iv.Contains(s[i].key)
  {
    hide TablesRise, KeysRise, PartitionPoint, Less;
    BoundsAt(s, Pair(t, RowMin), i);
    BoundsAt(s, Pair(t, RowMax), i);
    match iv
    case All =>
    case Exactly(k) =>
      BoundsAt(s, Pair(t, Place.At(k)), i);
      LessTotal(s[i].key, k);
    case Below(k) => BoundsAt(s, Pair(t, Place.At(k)), i);
    case Above(k) => BoundsAt(s, Pair(t, Place.At(k)), i);
    case Between(lo, hi) =>
      BoundsAt(s, Pair(t, Place.At(lo)), i);
      BoundsAt(s, Pair(t, Place.At(hi)), i);
  }

  lemma RangeOrdered(s: seq<Slot>, t: TableId, iv: Interval)
    requires iv.Proper()
    ensures RangeBegin(s, t, iv) <= RangeEnd(s, t, iv) <= |s|
  {
    hide PartitionPoint;
    match iv
    case All => BoundsOrdered(s, Pair(t, RowMin), Pair(t, RowMax));
    case Exactly(k) => LessTotal(k, k); BoundsOrdered(s, Pair(t, Place.At(k)), Pair(t, Place.At(k)));
    case Below(k) => BoundsLower(s, Pair(t, RowMin), Pair(t, Place.At(k)));
    case Above(k) => BoundsUpper(s, Pair(t, Place.At(k)), Pair(t, RowMax));
    case Between(lo, hi) => LessTotal(lo, hi); BoundsOrdered(s, Pair(t, Place.At(lo)), Pair(t, Place.At(hi)));
  }

  lemma BoundsLower(s: seq<Slot>, p: Pair, q: Pair)
    requires PairLess(p, q)
    ensures LowerBound(s, p) <= LowerBound(s, q)
  {
    PairStrict(p, q);
    PairStrict(p, p);
    BoundsOrdered(s, p, p);
    BoundsOrdered(s, p, q);
  }

  lemma BoundsUpper(s: seq<Slot>, p: Pair, q: Pair)
    requires PairLess(p, q)
    ensures UpperBound(s, p) <= UpperBound(s, q)
  {
    PairStrict(p, q);
    PairStrict(q, q);
    BoundsOrdered(s, q, q);
    BoundsOrdered(s, p, q);
  }

  function RowsOf(s: seq<Slot>): (q: seq<RowId>)
    ensures |q| == |s| && forall i :: 0 <= i < |q| ==> q[i] == s[i].row
  {
    seq(|s|, i requires 0 <= i < |s| => s[i].row)
  }

  lemma {:induction false} DistinctCounts(q: seq<RowId>, of: set<RowId>)
    requires forall i, j :: 0 <= i < j < |q| ==> q[i] != q[j]
    requires forall r :: r in q <==> r in of
    ensures multiset(q) == multiset(of)
  {
    if q == [] {
      assert of == {};
    } else {
      assert q == [q[0]] + q[1..];
      DistinctCounts(q[1..], of - {q[0]});
      assert multiset(of) == multiset(of - {q[0]}) + multiset{q[0]};
    }
  }

  /** The rows of `t` that an interval asks for. */
  function Wanted(s: seq<Slot>, t: TableId, iv: Interval): set<RowId>
  {
    set i | 0 <= i < |s| && s[i].table == t && iv.Contains(s[i].key) :: s[i].row
  }

  /** Between two positions that enclose exactly the slots asked for are their rows, each once. */
  lemma SliceRows(s: seq<Slot>, t: TableId, iv: Interval, b: nat, e: nat)
    requires SlotsDistinct(s) && b <= e <= |s|
    requires forall i :: 0 <= i < |s| ==> (b <= i < e <==> s[i].table == t && iv.Contains(s[i].key))
    ensures multiset(RowsOf(s[b..e])) == multiset(Wanted(s, t, iv))
  {
    hide Interval.Contains;
    var q := RowsOf(s[b..e]);
    forall r ensures r in q <==> r in Wanted(s, t, iv) {
      if r in q {
        var i :| 0 <= i < |q| && q[i] == r;
        assert s[b + i].row == r;
      }
      if r in Wanted(s, t, iv) {
        var i :| 0 <= i < |s| && s[i].table == t && iv.Contains(s[i].key) && s[i].row == r;
        assert q[i - b] == r;
      }
    }
    DistinctCounts(q, Wanted(s, t, iv));
  }

  /** The bag holds exactly the rows of `among`, each under its current key, in any order of keys. */
  predicate Lists(sch: Schema, rows: map<RowId, Cols>, among: map<RowId, TableId>, s: seq<Slot>)
  {
    && TablesRise(s) && SlotsDistinct(s)
    && (forall i :: 0 <= i < |s| ==> s[i].row in among && s[i] == Filed(sch, rows, among[s[i].row], s[i].row))
    && (forall r :: r in among ==> Filed(sch, rows, among[r], r) in s)
  }

  lemma ListsIs(sch: Schema, rows: map<RowId, Cols>, among: map<RowId, TableId>, s: seq<Slot>)
    requires Lists(sch, rows, among, s)
    ensures TablesRise(s) && SlotsDistinct(s) && forall i :: 0 <= i < |s| ==> s[i].row in among
  {
  }

  lemma FilesLists(sch: Schema, rows: map<RowId, Cols>, among: map<RowId, TableId>, s: seq<Slot>)
    requires Files(sch, rows, among, s)
    ensures Lists(sch, rows, among, s) && forall t :: KeysRise(s, t)
  {
    SortedRises(s);
  }

  lemma ListedRows(sch: Schema, rows: map<RowId, Cols>, among: map<RowId, TableId>, s: seq<Slot>, t: TableId,
      iv: Interval)
    requires Lists(sch, rows, among, s)
    ensures Wanted(s, t, iv) == Matching(sch, rows, among, t, iv)
  {
    hide KeyOf, Interval.Contains;
    forall r | r in Matching(sch, rows, among, t, iv) ensures r in Wanted(s, t, iv) {
      var i :| 0 <= i < |s| && s[i] == Filed(sch, rows, among[r], r);
    }
  }

  /** The rows between the bounds are the matching rows, each once. */
  lemma RangeRows(sch: Schema, rows: map<RowId, Cols>, among: map<RowId, TableId>, s: seq<Slot>, t: TableId,
      iv: Interval)
    requires Files(sch, rows, among, s) && iv.Proper()
    ensures RangeBegin(s, t, iv) <= RangeEnd(s, t, iv) <= |s|
    ensures multiset(RowsOf(s[RangeBegin(s, t, iv)..RangeEnd(s, t, iv)])) == multiset(Matching(sch, rows, among, t, iv))
  {
    hide RangeBegin, RangeEnd, Matching, SlotsSorted, TablesRise, KeysRise, RowsOf, Interval.Contains;
    RangeOrdered(s, t, iv);
    FilesLists(sch, rows, among, s);
    ListedRows(sch, rows, among, s, t, iv);
    forall i | 0 <= i < |s|
      ensures RangeBegin(s, t, iv) <= i < RangeEnd(s, t, iv) <==> s[i].table == t && iv.Contains(s[i].key)
    {
      RangeExact(s, t, iv, i);
    }
    SliceRows(s, t, iv, RangeBegin(s, t, iv), RangeEnd(s, t, iv));
  }

  // ---------- range search in a tree that may be out of order ----------

  /** What a query finds in a tree: the rows between two descents. Where the second ends before the
      first, which no order of keys allows, the code would walk off the end; that counts as nothing. */
  function Found(tree: Tree<Slot>, t: TableId, iv: Interval): seq<RowId>
  {
    var b, e := Descend(tree, BeforeRange(t, iv)), Descend(tree, BeforeRangeEnd(t, iv));
    if b <= e then RowsOf(Flat(tree)[b..e]) else []
  }

  /** All intervals of a table are answered rightly if and only if its slots are in key order. */
  lemma FoundExact(tree: Tree<Slot>, t: TableId)
    requires TablesRise(Flat(tree)) && SlotsDistinct(Flat(tree))
    ensures (forall iv :: multiset(Found(tree, t, iv)) == multiset(Wanted(Flat(tree), t, iv))) <==>
      KeysRise(Flat(tree), t)
  {
    hide Found, Wanted, TablesRise, SlotsDistinct, Flat, KeysRise;
    if KeysRise(Flat(tree), t) {
      forall iv ensures multiset(Found(tree, t, iv)) == multiset(Wanted(Flat(tree), t, iv)) {
        FoundRight(tree, t, iv);
      }
    } else {
      var i, j := OutOfOrder(Flat(tree), t);
      FoundWrong(tree, t, i, j);
    }
  }

  lemma OutOfOrder(s: seq<Slot>, t: TableId) returns (i: nat, j: nat)
    requires !KeysRise(s, t)
    ensures i < j < |s| && s[i].table == t && s[j].table == t && Less(s[j].key, s[i].key)
  {
    i, j :| 0 <= i < j < |s| && s[i].table == t && s[j].table == t && Less(s[j].key, s[i].key);
  }

  lemma FoundRight(tree: Tree<Slot>, t: TableId, iv: Interval)
    requires TablesRise(Flat(tree)) && KeysRise(Flat(tree), t) && SlotsDistinct(Flat(tree))
    ensures multiset(Found(tree, t, iv)) == multiset(Wanted(Flat(tree), t, iv))
  {
    hide Interval.Contains, RangeBegin, RangeEnd, TablesRise, KeysRise, SlotsDistinct, RowsOf, Wanted, Flat;
    DescentsFind(tree, t, iv);
    var s := Flat(tree);
    var b, e := RangeBegin(s, t, iv), RangeEnd(s, t, iv);
    forall i | 0 <= i < |s| ensures b <= i < e <==> s[i].table == t && iv.Contains(s[i].key) {
      RangeExact(s, t, iv, i);
    }
    if b <= e {
      SliceRows(s, t, iv, b, e);
    } else {
      NothingWanted(s, t, iv);
    }
  }

  lemma NothingWanted(s: seq<Slot>, t: TableId, iv: Interval)
    requires forall i :: 0 <= i < |s| ==> !(s[i].table == t && iv.Contains(s[i].key))
    ensures Wanted(s, t, iv) == {}
  {
  }

  lemma DescentsFind(tree: Tree<Slot>, t: TableId, iv: Interval)
    requires TablesRise(Flat(tree)) && KeysRise(Flat(tree), t)
    ensures Descend(tree, BeforeRange(t, iv)) == RangeBegin(Flat(tree), t, iv)
    ensures Descend(tree, BeforeRangeEnd(t, iv)) == RangeEnd(Flat(tree), t, iv) <= |Flat(tree)|
  {
    hide TablesRise, KeysRise, Flat, LowerThan, NotAbove, Partitioned, Descend;
    BoundsPartition(Flat(tree), Pair(t, RowMin));
    BoundsPartition(Flat(tree), Pair(t, RowMax));
    match iv {
      case All =>
      case Exactly(k) => BoundsPartition(Flat(tree), Pair(t, Place.At(k)));
      case Below(k) => BoundsPartition(Flat(tree), Pair(t, Place.At(k)));
      case Above(k) => BoundsPartition(Flat(tree), Pair(t, Place.At(k)));
      case Between(lo, hi) =>
        BoundsPartition(Flat(tree), Pair(t, Place.At(lo)));
        BoundsPartition(Flat(tree), Pair(t, Place.At(hi)));
    }
    DescentFinds(tree, BeforeRange(t, iv));
    DescentFinds(tree, BeforeRangeEnd(t, iv));
  }

  /** Two slots out of order: in a tree of any shape, the query below the first one's key cannot take
      the second without the first. */
  lemma FoundWrong(tree: Tree<Slot>, t: TableId, i: nat, j: nat)
    requires TablesRise(Flat(tree)) && SlotsDistinct(Flat(tree)) && i < j < |Flat(tree)|
    requires Flat(tree)[i].table == t && Flat(tree)[j].table == t && Less(Flat(tree)[j].key, Flat(tree)[i].key)
    ensures var s := Flat(tree); var iv := Below(s[i].key);
      && s[i].row !in Wanted(s, t, iv) && s[j].row in Wanted(s, t, iv)
      && (s[j].row in Found(tree, t, iv) ==> s[i].row in Found(tree, t, iv))
    ensures multiset(Found(tree, t, Below(Flat(tree)[i].key))) !=
      multiset(Wanted(Flat(tree), t, Below(Flat(tree)[i].key)))
  {
    hide Less, TablesRise, SlotsDistinct, Flat, Descend, Wanted, RowsOf;
    var s := Flat(tree);
    var iv := Below(s[i].key);
    LessTotal(s[i].key, s[i].key);
    WantedAt(s, t, iv, i);
    WantedAt(s, t, iv, j);
    TableBegins(tree, t, i);
    var b, e := Descend(tree, BeforeRange(t, iv)), Descend(tree, BeforeRangeEnd(t, iv));
    if b <= e {
      SliceAt(s, b, e, i);
      SliceAt(s, b, e, j);
    }
    var q := Found(tree, t, iv);
    assert s[i].row in multiset(q) <==> s[i].row in q;
    assert s[j].row in multiset(q) <==> s[j].row in q;
  }

  lemma WantedAt(s: seq<Slot>, t: TableId, iv: Interval, i: nat)
    requires SlotsDistinct(s) && i < |s|
    ensures s[i].row in Wanted(s, t, iv) <==> s[i].table == t && iv.Contains(s[i].key)
  {
  }

  lemma SliceAt(s: seq<Slot>, b: nat, e: nat, i: nat)
    requires SlotsDistinct(s) && b <= e <= |s| && i < |s|
    ensures s[i].row in RowsOf(s[b..e]) <==> b <= i < e
  {
    var q := RowsOf(s[b..e]);
    if b <= i < e {
      assert q[i - b] == s[i].row;
    }
    if s[i].row in q {
      var n :| 0 <= n < |q| && q[n] == s[i].row;
      assert s[b + n].row == s[i].row;
    }
  }

  /** The sentinel finds the beginning of a table in any order of its keys. */
  lemma TableBegins(tree: Tree<Slot>, t: TableId, i: nat)
    requires TablesRise(Flat(tree)) && i < |Flat(tree)| && Flat(tree)[i].table == t
    ensures Descend(tree, LowerThan(Pair(t, RowMin))) <= i
  {
    DescentFinds(tree, LowerThan(Pair(t, RowMin)));
    PartitionSplits(Flat(tree), LowerThan(Pair(t, RowMin)), i);
  }
}
