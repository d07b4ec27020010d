/** A transaction over a transaction over ... over the tables, at any depth. */
module TxnStack {
  import opened Keys
  import opened TxnModel

  /** All row objects, the table each row is in, and the write buffers from the lowest up. */
  datatype Stack = Stack(rows: map<RowId, Cols>, tbl: map<RowId, TableId>, stages: seq<Stage>) {
    function Below(): Stack
      requires stages != []
    {
      this.(stages := stages[..|stages| - 1])
    }

    function Top(): Stage
      requires stages != []
    {
      stages[|stages| - 1]
    }

    function SetTop(st: Stage): Stack
      requires stages != []
    {
      this.(stages := stages[..|stages| - 1] + [st])
    }
  }

  function TableRows(rows: map<RowId, Cols>, tbl: map<RowId, TableId>): Shown
  {
    map r | r in tbl :: Rec(tbl[r], Memory(rows, r))
  }

  /** What the topmost transaction shows. */
  function ShownBy(k: Stack): Shown
    decreases |k.stages|
  {
    if k.stages == [] then TableRows(k.rows, k.tbl)
    else Overlay(ShownBy(k.Below()), k.rows, k.Top())
  }

  /** What every level shows, from the tables up. */
  function Levels(k: Stack): (ls: seq<Shown>)
    ensures |ls| == |k.stages| + 1
    ensures ls[|ls| - 1] == ShownBy(k)
    decreases |k.stages|
  {
    if k.stages == [] then [ShownBy(k)] else Levels(k.Below()) + [ShownBy(k)]
  }

  /** Rows that sit in a table or in some buffer. */
  function Known(k: Stack): set<RowId>
    decreases |k.stages|
  {
    if k.stages == [] then k.tbl.Keys else Known(k.Below()) + k.Top().ins.Keys
  }

  /** Every buffer is sound over what lies below, and every row has one place. */
  ghost predicate StackOk(k: Stack)
    decreases |k.stages|
  {
    if k.stages == [] then forall r :: r in k.tbl ==> r in k.rows
    else
      && StackOk(k.Below())
      && StageOk(ShownBy(k.Below()), k.rows, k.Top())
      && Known(k.Below()) !! k.Top().ins.Keys
  }

  lemma SetTopParts(k: Stack, st: Stage)
    requires k.stages != []
    ensures k.SetTop(st).stages != [] && k.SetTop(st).Below() == k.Below() && k.SetTop(st).Top() == st
  {
  }

  lemma {:induction false} StagedIsKnown(k: Stack, i: nat)
    requires i < |k.stages|
    ensures forall r :: r in k.stages[i].ins ==> r in Known(k)
    decreases |k.stages|
  {
    if i < |k.stages| - 1 {
      StagedIsKnown(k.Below(), i);
      assert k.Below().stages[i] == k.stages[i];
    }
  }

  lemma {:induction false} TablesKnown(k: Stack)
    ensures k.tbl.Keys <= Known(k)
    decreases |k.stages|
  {
    if k.stages != [] {
      TablesKnown(k.Below());
    }
  }

  lemma {:induction false} ShownIsKnown(k: Stack)
    ensures forall r :: r in ShownBy(k) ==> r in Known(k)
    decreases |k.stages|
  {
    if k.stages != [] {
      ShownIsKnown(k.Below());
    }
  }

  function SetRow(k: Stack, r: RowId, cols: Cols): Stack
  {
    k.(rows := k.rows[r := cols])
  }

  /** A row nobody knows may change at will. */
  lemma {:induction false} UnknownRow(k: Stack, r: RowId, cols: Cols)
    requires StackOk(k) && r !in Known(k)
    ensures StackOk(SetRow(k, r, cols)) && Known(SetRow(k, r, cols)) == Known(k)
    ensures ShownBy(SetRow(k, r, cols)) == ShownBy(k) && Levels(SetRow(k, r, cols)) == Levels(k)
    decreases |k.stages|
  {
    var k' := SetRow(k, r, cols);
    if k.stages == [] {
      SameShown(ShownBy(k'), ShownBy(k));
    } else {
      UnknownRow(k.Below(), r, cols);
      assert k'.Below() == SetRow(k.Below(), r, cols) && k'.Top() == k.Top();
      UnstagedRow(ShownBy(k.Below()), k.rows, k.Top(), r, cols);
    }
  }

  // ---------- the operations of the topmost transaction ----------

  function Write(k: Stack, r: RowId, c: nat, x: ColVal): Stack
    requires r in ShownBy(k) && c < |ShownBy(k)[r].cols|
  {
    if k.stages == [] || r in k.Top().ins then
      SetRow(k, r, if c < |Memory(k.rows, r)| then Memory(k.rows, r)[c := x] else Memory(k.rows, r))
    else k.SetTop(StageUpdate(k.Top(), r, c, x))
  }

  function InsertRow(k: Stack, t: TableId, r: RowId): Stack
  {
    if k.stages == [] then k.(tbl := k.tbl[r := t])
    else k.SetTop(StageInsert(k.Top(), t, r))
  }

  function RemoveRow(k: Stack, t: TableId, r: RowId): Stack
  {
    if k.stages == [] then k.(tbl := k.tbl - {r})
    else k.SetTop(StageRemove(k.Top(), t, r))
  }

  /** The lookup order of `read_column`: the row itself if it is staged here, a pending update, or
      whatever the transaction below answers. */
  function Read(k: Stack, r: RowId, c: nat): ColVal
    requires r in ShownBy(k) && c < |ShownBy(k)[r].cols|
    decreases |k.stages|
  {
    if k.stages == [] then Memory(k.rows, r)[c]
    else if r in k.Top().ins then Memory(k.rows, r)[c]
    else if (r, c) in k.Top().upd then k.Top().upd[(r, c)]
    else Read(k.Below(), r, c)
  }

  /** Reading is reading what is shown. */
  lemma {:induction false} ReadCorrect(k: Stack, r: RowId, c: nat)
    requires r in ShownBy(k) && c < |ShownBy(k)[r].cols|
    ensures Read(k, r, c) == ShownBy(k)[r].cols[c]
    decreases |k.stages|
  {
    if k.stages != [] && r !in k.Top().ins && (r, c) !in k.Top().upd {
      ReadCorrect(k.Below(), r, c);
    }
  }

  /** What an operation does to its own transaction, and that it leaves all others alone. */
  ghost predicate Changes(k': Stack, k: Stack, v: Shown)
  {
    && StackOk(k') && ShownBy(k') == v && |k'.stages| == |k.stages| && k'.rows.Keys == k.rows.Keys
    && (k.stages != [] ==>
          k'.tbl == k.tbl && k'.Below().stages == k.Below().stages && Levels(k'.Below()) == Levels(k.Below()))
  }

  lemma ChangesTwice(k2: Stack, k1: Stack, k: Stack, v1: Shown, v2: Shown)
    requires Changes(k1, k, v1) && Changes(k2, k1, v2)
    ensures Changes(k2, k, v2)
  {
  }

  lemma StackParts(k: Stack)
    requires StackOk(k) && k.stages != []
    ensures StackOk(k.Below()) && StageOk(ShownBy(k.Below()), k.rows, k.Top())
    ensures ShownBy(k) == Overlay(ShownBy(k.Below()), k.rows, k.Top())
    ensures forall r :: r in k.Top().ins ==> r in k.rows && r !in Known(k.Below())
  {
  }

  /** The same, put together again. */
  lemma StackWhole(k: Stack)
    requires k.stages != [] && StackOk(k.Below()) && StageOk(ShownBy(k.Below()), k.rows, k.Top())
    requires forall r :: r in k.Top().ins ==> r !in Known(k.Below())
    ensures StackOk(k) && ShownBy(k) == Overlay(ShownBy(k.Below()), k.rows, k.Top())
  {
  }

  /** A write at the tables. */
  lemma WriteTables(k: Stack, r: RowId, c: nat, x: ColVal)
    requires StackOk(k) && k.stages == [] && r in ShownBy(k) && c < |ShownBy(k)[r].cols|
    ensures Changes(Write(k, r, c, x), k, RefWrite(ShownBy(k), r, c, x))
  {
    hide Levels;
    var k' := Write(k, r, c, x);
    assert k'.rows == k.rows[r := k.rows[r][c := x]] && k'.tbl == k.tbl;
    SameShown(ShownBy(k'), RefWrite(ShownBy(k), r, c, x));
  }

  lemma WriteStaged(k: Stack, r: RowId, c: nat, x: ColVal)
    requires StackOk(k) && k.stages != [] && r in k.Top().ins && r in ShownBy(k) && c < |ShownBy(k)[r].cols|
    ensures Changes(Write(k, r, c, x), k, RefWrite(ShownBy(k), r, c, x))
  {
    hide StackOk, ShownBy, Levels, Known, StageOk;
    StackParts(k);
    var b, cols := k.Below(), k.rows[r][c := x];
    UnknownRow(b, r, cols);
    WriteToStaged(ShownBy(b), k.rows, k.Top(), r, c, x);
    var k' := Write(k, r, c, x);
    assert k' == SetRow(k, r, cols) && k'.Below() == SetRow(b, r, cols) && k'.Top() == k.Top();
    StackWhole(k');
  }

  lemma WriteBelow(k: Stack, r: RowId, c: nat, x: ColVal)
    requires StackOk(k) && k.stages != [] && r !in k.Top().ins && r in ShownBy(k) && c < |ShownBy(k)[r].cols|
    ensures Changes(Write(k, r, c, x), k, RefWrite(ShownBy(k), r, c, x))
  {
    hide StackOk, ShownBy, Levels, Known, StageOk;
    StackParts(k);
    var st := StageUpdate(k.Top(), r, c, x);
    SetTopParts(k, st);
    WriteBuffered(ShownBy(k.Below()), k.rows, k.Top(), r, c, x);
    StackWhole(k.SetTop(st));
  }

  lemma WriteCorrect(k: Stack, r: RowId, c: nat, x: ColVal)
    requires StackOk(k) && r in ShownBy(k) && c < |ShownBy(k)[r].cols|
    ensures Changes(Write(k, r, c, x), k, RefWrite(ShownBy(k), r, c, x))
  {
    hide StackOk, ShownBy, Levels, Write, Changes;
    if k.stages == [] {
      WriteTables(k, r, c, x);
    } else if r in k.Top().ins {
      WriteStaged(k, r, c, x);
    } else {
      WriteBelow(k, r, c, x);
    }
  }

  /** A write is read back at its level, and no other column or row reads differently. */
  lemma WriteThenRead(k: Stack, r: RowId, c: nat, x: ColVal, q: RowId, d: nat)
    requires StackOk(k) && r in ShownBy(k) && c < |ShownBy(k)[r].cols|
    requires q in ShownBy(k) && d < |ShownBy(k)[q].cols|
    ensures var k' := Write(k, r, c, x);
      && q in ShownBy(k') && d < |ShownBy(k')[q].cols|
      && Read(k', q, d) == if q == r && d == c then x else Read(k, q, d)
  {
    hide StackOk, ShownBy, Levels, Write, Read;
    WriteCorrect(k, r, c, x);
    ReadCorrect(k, q, d);
    ReadCorrect(Write(k, r, c, x), q, d);
  }

  lemma InsertCorrect(k: Stack, t: TableId, r: RowId)
    requires StackOk(k) && r in k.rows && r !in Known(k)
    ensures Changes(InsertRow(k, t, r), k, RefInsert(ShownBy(k), t, r, k.rows[r]))
    ensures Known(InsertRow(k, t, r)) == Known(k) + {r}
  {
    if k.stages == [] {
      SameShown(ShownBy(InsertRow(k, t, r)), RefInsert(ShownBy(k), t, r, k.rows[r]));
    } else {
      InsertStaged(k, t, r);
    }
  }

  lemma InsertStaged(k: Stack, t: TableId, r: RowId)
    requires StackOk(k) && k.stages != [] && r in k.rows && r !in Known(k)
    ensures Changes(InsertRow(k, t, r), k, RefInsert(ShownBy(k), t, r, k.rows[r]))
    ensures Known(InsertRow(k, t, r)) == Known(k) + {r}
  {
    hide StackOk, ShownBy, Levels, Known, StageOk, Overlay, RefInsert;
    var b, st := k.Below(), StageInsert(k.Top(), t, r);
    var k' := k.SetTop(st);
    KnownParts(k);
    SetTopParts(k, st);
    KnownParts(k');
    StackParts(k);
    ShownIsKnown(b);
    InsertBuffered(ShownBy(b), k.rows, k.Top(), t, r);
    StackWhole(k');
  }

  lemma KnownParts(k: Stack)
    requires k.stages != []
    ensures Known(k) == Known(k.Below()) + k.Top().ins.Keys
  {
  }

  lemma RemoveCorrect(k: Stack, t: TableId, r: RowId)
    requires StackOk(k) && r in ShownBy(k) && ShownBy(k)[r].table == t
    ensures Changes(RemoveRow(k, t, r), k, RefRemove(ShownBy(k), r))
  {
    if k.stages == [] {
      SameShown(ShownBy(RemoveRow(k, t, r)), RefRemove(ShownBy(k), r));
    } else {
      hide StageOk, Overlay;
      SetTopParts(k, StageRemove(k.Top(), t, r));
      RemoveBuffered(ShownBy(k.Below()), k.rows, k.Top(), t, r);
    }
  }

  /** Starting a nested transaction shows what its base shows. */
  lemma BeginCorrect(k: Stack)
    requires StackOk(k)
    ensures var n := k.(stages := k.stages + [NoStage]);
      StackOk(n) && n.Below() == k && ShownBy(n) == ShownBy(k)
  {
    var n := k.(stages := k.stages + [NoStage]);
    assert n.Below() == k && n.Top() == NoStage;
    NothingStaged(ShownBy(k), k.rows);
  }

  lemma {:induction false} KnownHasMemory(k: Stack)
    requires StackOk(k)
    ensures Known(k) <= k.rows.Keys
    decreases |k.stages|
  {
    if k.stages != [] {
      KnownHasMemory(k.Below());
    }
  }

  /** An inserted row is shown in its table with its own columns; the others read as before. */
  lemma InsertThenRead(k: Stack, t: TableId, r: RowId, q: RowId, d: nat)
    requires StackOk(k) && r in k.rows && r !in Known(k)
    requires if q == r then d < |k.rows[r]| else q in ShownBy(k) && d < |ShownBy(k)[q].cols|
    ensures var k' := InsertRow(k, t, r);
      && q in ShownBy(k') && d < |ShownBy(k')[q].cols| && ShownBy(k')[r].table == t
      && Read(k', q, d) == if q == r then k.rows[r][d] else Read(k, q, d)
  {
    hide StackOk, ShownBy, Levels, InsertRow, Read, Known;
    InsertCorrect(k, t, r);
    ReadCorrect(InsertRow(k, t, r), q, d);
    if q != r {
      ReadCorrect(k, q, d);
    }
  }

  /** A removed row is not shown; the others read as before. */
  lemma RemoveThenRead(k: Stack, t: TableId, r: RowId, q: RowId, d: nat)
    requires StackOk(k) && r in ShownBy(k) && ShownBy(k)[r].table == t
    requires q in ShownBy(k) && d < |ShownBy(k)[q].cols|
    ensures var k' := RemoveRow(k, t, r);
      && (q in ShownBy(k') <==> q != r)
      && (q != r ==> d < |ShownBy(k')[q].cols| && Read(k', q, d) == Read(k, q, d))
  {
    hide StackOk, ShownBy, Levels, RemoveRow, Read;
    RemoveCorrect(k, t, r);
    ReadCorrect(k, q, d);
    if q != r {
      ReadCorrect(RemoveRow(k, t, r), q, d);
    }
  }
}
