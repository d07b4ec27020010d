/** Rows and sorted tables, and `TxnUnsafe`, whose operations act on them at once. */
module TxnStore {
  import opened Keys
  import opened Bounds
  import opened TxnModel
  import opened TxnStack
  import opened TxnCursor
  import opened TxnSlots
  import opened Sequences

  /** The rows of one table. */
  function Only(tbl: map<RowId, TableId>, t: TableId): map<RowId, TableId>
  {
    map r | r in tbl && tbl[r] == t :: t
  }

  function TableOf(tables: map<TableId, seq<Slot>>, t: TableId): seq<Slot>
  {
    if t in tables then tables[t] else []
  }

  /** Each table files exactly its own rows, under their current keys. */
  ghost predicate TablesOk(sch: Schema, rows: map<RowId, Cols>, tbl: map<RowId, TableId>,
      tables: map<TableId, seq<Slot>>)
  {
    forall t :: Files(sch, rows, Only(tbl, t), TableOf(tables, t))
  }

  lemma TableInserted(sch: Schema, rows: map<RowId, Cols>, tbl: map<RowId, TableId>, tables: map<TableId, seq<Slot>>,
      t: TableId, r: RowId)
    requires TablesOk(sch, rows, tbl, tables) && r !in tbl
    ensures TablesOk(sch, rows, tbl[r := t], tables[t := FileSlot(TableOf(tables, t), Filed(sch, rows, t, r))])
  {
    hide Files, FileSlot, Filed;
    var tables' := tables[t := FileSlot(TableOf(tables, t), Filed(sch, rows, t, r))];
    forall u ensures Files(sch, rows, Only(tbl[r := t], u), TableOf(tables', u)) {
      assert Files(sch, rows, Only(tbl, u), TableOf(tables, u));
      if u == t {
        FileKeeps(sch, rows, Only(tbl, t), TableOf(tables, t), t, r);
        assert Only(tbl[r := t], t) == Only(tbl, t)[r := t];
      } else {
        assert Only(tbl[r := t], u) == Only(tbl, u);
      }
    }
  }

  lemma TableRemoved(sch: Schema, rows: map<RowId, Cols>, tbl: map<RowId, TableId>, tables: map<TableId, seq<Slot>>,
      t: TableId, i: nat)
    requires TablesOk(sch, rows, tbl, tables) && i < |TableOf(tables, t)|
    ensures var r := TableOf(tables, t)[i].row;
      r in tbl && tbl[r] == t && TablesOk(sch, rows, tbl - {r}, tables[t := DropSlot(TableOf(tables, t), i)])
  {
    var r, tables' := TableOf(tables, t)[i].row, tables[t := DropSlot(TableOf(tables, t), i)];
    SlotInTable(sch, rows, tbl, tables, t, i);
    hide Files, DropSlot, Only;
    forall u ensures Files(sch, rows, Only(tbl - {r}, u), TableOf(tables', u)) {
      assert Files(sch, rows, Only(tbl, u), TableOf(tables, u));
      OnlyRemoved(tbl, r, u);
      if u == t {
        DropKeeps(sch, rows, Only(tbl, t), TableOf(tables, t), i);
      }
    }
  }

  lemma SlotInTable(sch: Schema, rows: map<RowId, Cols>, tbl: map<RowId, TableId>, tables: map<TableId, seq<Slot>>,
      t: TableId, i: nat)
    requires TablesOk(sch, rows, tbl, tables) && i < |TableOf(tables, t)|
    ensures TableOf(tables, t)[i].row in tbl && tbl[TableOf(tables, t)[i].row] == t
  {
  }

  lemma OnlyRemoved(tbl: map<RowId, TableId>, r: RowId, u: TableId)
    requires r in tbl
    ensures Only(tbl - {r}, u) == if tbl[r] == u then Only(tbl, u) - {r} else Only(tbl, u)
  {
  }

  lemma TableWritten(sch: Schema, rows: map<RowId, Cols>, tbl: map<RowId, TableId>, tables: map<TableId, seq<Slot>>,
      r: RowId, c: nat, x: ColVal)
    requires TablesOk(sch, rows, tbl, tables) && r in rows && c < |rows[r]| && (r in tbl ==> c !in sch(tbl[r]))
    ensures TablesOk(sch, rows[r := rows[r][c := x]], tbl, tables)
  {
    var cols := rows[r][c := x];
    if r in tbl {
      KeyKept(sch(tbl[r]), rows[r], c, x);
    }
    hide Files;
    forall u ensures Files(sch, rows[r := cols], Only(tbl, u), TableOf(tables, u)) {
      assert Files(sch, rows, Only(tbl, u), TableOf(tables, u));
      WriteKeepsFiles(sch, rows, Only(tbl, u), TableOf(tables, u), r, cols);
    }
  }

  lemma RowCreated(sch: Schema, rows: map<RowId, Cols>, tbl: map<RowId, TableId>, tables: map<TableId, seq<Slot>>,
      r: RowId, cols: Cols)
    requires TablesOk(sch, rows, tbl, tables) && r !in tbl
    ensures TablesOk(sch, rows[r := cols], tbl, tables)
  {
    hide Files;
    forall u ensures Files(sch, rows[r := cols], Only(tbl, u), TableOf(tables, u)) {
      assert Files(sch, rows, Only(tbl, u), TableOf(tables, u));
      WriteKeepsFiles(sch, rows, Only(tbl, u), TableOf(tables, u), r, cols);
    }
  }

  lemma FiledHere(sch: Schema, rows: map<RowId, Cols>, tbl: map<RowId, TableId>, tables: map<TableId, seq<Slot>>,
      t: TableId, r: RowId)
    requires TablesOk(sch, rows, tbl, tables)
    ensures SlotsSorted(TableOf(tables, t))
    ensures Filed(sch, rows, t, r) in TableOf(tables, t) <==> r in tbl && tbl[r] == t
  {
    assert Files(sch, rows, Only(tbl, t), TableOf(tables, t));
    FiledMember(sch, rows, Only(tbl, t), TableOf(tables, t), Filed(sch, rows, t, r));
  }

  lemma TableFiles(sch: Schema, rows: map<RowId, Cols>, tbl: map<RowId, TableId>, tables: map<TableId, seq<Slot>>,
      t: TableId, iv: Interval)
    requires TablesOk(sch, rows, tbl, tables)
    ensures Files(sch, rows, Only(tbl, t), TableOf(tables, t))
    ensures Matching(sch, rows, Only(tbl, t), t, iv) == RefQuery(ShownBy(Stack(rows, tbl, [])), sch(t), t, iv)
  {
  }

  function KeyIn(sch: Schema, rows: map<RowId, Cols>, t: TableId, r: RowId): Key
  {
    KeyOf(sch(t), Memory(rows, r))
  }

  /** Keys rise along the rows, or fall. */
  predicate InKeyOrder(sch: Schema, rows: map<RowId, Cols>, t: TableId, q: seq<RowId>, descending: bool)
  {
    forall i, j :: 0 <= i < j < |q| ==>
      if descending then !Less(KeyIn(sch, rows, t, q[i]), KeyIn(sch, rows, t, q[j]))
      else !Less(KeyIn(sch, rows, t, q[j]), KeyIn(sch, rows, t, q[i]))
  }

  lemma ReversedOrder(sch: Schema, rows: map<RowId, Cols>, t: TableId, q: seq<RowId>)
    requires InKeyOrder(sch, rows, t, q, false)
    ensures InKeyOrder(sch, rows, t, Reversed(q), true)
  {
    hide KeyIn, Less;
  }

  /** A stretch of one table lists its rows in key order. */
  lemma SliceInOrder(sch: Schema, rows: map<RowId, Cols>, among: map<RowId, TableId>, s: seq<Slot>, t: TableId, b: nat,
      e: nat)
    requires Files(sch, rows, among, s) && b <= e <= |s| && forall i :: b <= i < e ==> s[i].table == t
    ensures InKeyOrder(sch, rows, t, RowsOf(s[b..e]), false)
  {
    var q := RowsOf(s[b..e]);
    forall i, j | 0 <= i < j < |q| ensures !Less(KeyIn(sch, rows, t, q[j]), KeyIn(sch, rows, t, q[i])) {
      assert !PairLess(s[b + j].At(), s[b + i].At());
    }
  }

  lemma OneTable(sch: Schema, rows: map<RowId, Cols>, among: map<RowId, TableId>, s: seq<Slot>, t: TableId,
      iv: Interval)
    requires Files(sch, rows, among, s)
    ensures RangeEnd(s, t, iv) <= |s| && forall i :: RangeBegin(s, t, iv) <= i < RangeEnd(s, t, iv) ==> s[i].table == t
  {
    SortedRises(s);
    hide RangeBegin, RangeEnd, TablesRise, KeysRise, Interval.Contains;
    assert RangeEnd(s, t, iv) <= |s|;
    forall i | 0 <= i < |s| && RangeBegin(s, t, iv) <= i < RangeEnd(s, t, iv) ensures s[i].table == t {
      RangeExact(s, t, iv, i);
    }
  }

  class Store {
    const sch: Schema
    var rows: map<RowId, Cols>
    var tbl: map<RowId, TableId>
    var tables: map<TableId, seq<Slot>>

    ghost predicate Valid()
      reads this
    {
      (forall r :: r in tbl ==> r in rows) && TablesOk(sch, rows, tbl, tables)
    }

    ghost function Stk(): Stack
      reads this
    {
      Stack(rows, tbl, [])
    }

    constructor (s: Schema)
      ensures Valid() && sch == s && rows == map[] && tbl == map[]
    {
      sch, rows, tbl, tables := s, map[], map[], map[];
    }

    /** `Row::create`: a row in no table. */
    method CreateRow(r: RowId, cols: Cols)
      requires Valid() && r !in rows
      modifies this`rows
      ensures Valid() && rows == old(rows)[r := cols]
    {
      hide TablesOk;
      RowCreated(sch, rows, tbl, tables, r, cols);
      rows := rows[r := cols];
    }

    /** `SortedTable::insert`. */
    method InsertRow(t: TableId, r: RowId)
      requires Valid() && r in rows && r !in tbl
      modifies this`tbl, this`tables
      ensures Valid() && Stk() == TxnStack.InsertRow(old(Stk()), t, r)
    {
      hide TablesOk, FileSlot;
      TableInserted(sch, rows, tbl, tables, t, r);
      tables := tables[t := FileSlot(TableOf(tables, t), Filed(sch, rows, t, r))];
      tbl := tbl[r := t];
    }

    /** `SortedTable::remove(Row*)`: nothing happens to a row of another table. */
    method RemoveRow(t: TableId, r: RowId)
      requires Valid()
      modifies this`tbl, this`tables
      ensures Valid() && rows == old(rows)
      ensures tbl == if r in old(tbl) && old(tbl)[r] == t then old(tbl) - {r} else old(tbl)
    {
      hide TablesOk, SlotsSorted, DropSlot, UpperBound;
      var s := TableOf(tables, t);
      FiledHere(sch, rows, tbl, tables, t, r);
      var i := Sweep(s, Filed(sch, rows, t, r));
      if i != UpperBound(s, Filed(sch, rows, t, r).At()) {
        TableRemoved(sch, rows, tbl, tables, t, i);
        tbl := tbl - {r};
        tables := tables[t := DropSlot(s, i)];
      }
    }

    /** `Row::update`: a row whose key changes leaves its table and comes back. */
    method WriteColumn(r: RowId, c: nat, x: ColVal)
      requires Valid() && r in rows && c < |rows[r]|
      modifies this
      ensures Valid() && rows == old(rows)[r := old(rows)[r][c := x]] && tbl == old(tbl)
    {
      hide TablesOk;
      if rows[r][c] == x {
        assert rows[r][c := x] == rows[r];
        assert rows[r := rows[r]] == rows;
        return;
      }
      if r in tbl && c in sch(tbl[r]) {
        var t := tbl[r];
        RemoveRow(t, r);
        SetColumn(r, c, x);
        InsertRow(t, r);
        assert tbl == old(tbl);
      } else {
        SetColumn(r, c, x);
      }
    }

    method SetColumn(r: RowId, c: nat, x: ColVal)
      requires Valid() && r in rows && c < |rows[r]| && (r in tbl ==> c !in sch(tbl[r]))
      modifies this`rows
      ensures Valid() && rows == old(rows)[r := old(rows)[r][c := x]]
    {
      hide TablesOk;
      TableWritten(sch, rows, tbl, tables, r, c, x);
      rows := rows[r := rows[r][c := x]];
    }

    /** The query forms of `SortedTable`, in either order. */
    method Query(t: TableId, iv: Interval, descending: bool) returns (c: Cursor)
      requires Valid() && iv.Proper()
      ensures c.Valid() && fresh(c) && c.below == {}
      ensures multiset(c.Remaining()) == multiset(RefQuery(ShownBy(Stk()), sch(t), t, iv))
      ensures InKeyOrder(sch, rows, t, c.Remaining(), descending)
    {
      hide InKeyOrder, Reversed, TablesOk, Files, RefQuery, Matching, RangeBegin, RangeEnd, ShownBy;
      var s := TableOf(tables, t);
      TableFiles(sch, rows, tbl, tables, t, iv);
      RangeRows(sch, rows, Only(tbl, t), s, t, iv);
      var q := RowsOf(s[RangeBegin(s, t, iv)..RangeEnd(s, t, iv)]);
      OneTable(sch, rows, Only(tbl, t), s, t, iv);
      SliceInOrder(sch, rows, Only(tbl, t), s, t, RangeBegin(s, t, iv), RangeEnd(s, t, iv));
      ReversedSame(q);
      ReversedOrder(sch, rows, t, q);
      c := new Cursor.OfTable(if descending then Reversed(q) else q);
    }
  }
}
