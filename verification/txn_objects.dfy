/** Transactions as objects: `TxnUnsafe` acts on the tables, `Txn2PL` and `TxnNested` buffer their
    changes over the transaction below. */
module TxnObjects {
  import opened Keys
  import opened Bounds
  import opened TxnModel
  import opened TxnStack
  import opened TxnQuery
  import opened TxnRun
  import opened TxnCursor
  import opened TxnSlots
  import opened TxnStore
  import opened TxnOrder
  import opened Sequences

  // ---------- buffers and their ordered inserts ----------

  ghost predicate BagsFile(sch: Schema, rows: map<RowId, Cols>, stages: seq<Stage>, bags: seq<seq<Slot>>)
  {
    |bags| == |stages| && forall i :: 0 <= i < |bags| ==> Files(sch, rows, stages[i].ins, bags[i])
  }

  /** Everything that holds between operations. */
  ghost predicate Sound(sch: Schema, k: Stack, bags: seq<seq<Slot>>)
  {
    StackOk(k) && KeysKept(sch, k) && BagsFile(sch, k.rows, k.stages, bags)
  }

  /** Writing a row leaves every bag in order if the row's key does not change. */
  lemma BagsAfterWrite(sch: Schema, rows: map<RowId, Cols>, stages: seq<Stage>, bags: seq<seq<Slot>>, r: RowId,
      cols: Cols)
    requires BagsFile(sch, rows, stages, bags)
    requires forall i :: 0 <= i < |stages| && r in stages[i].ins ==>
      KeyOf(sch(stages[i].ins[r]), cols) == KeyOf(sch(stages[i].ins[r]), Memory(rows, r))
    ensures BagsFile(sch, rows[r := cols], stages, bags)
  {
    hide Files, KeyOf;
    forall i | 0 <= i < |bags| ensures Files(sch, rows[r := cols], stages[i].ins, bags[i]) {
      assert Files(sch, rows, stages[i].ins, bags[i]);
      WriteKeepsFiles(sch, rows, stages[i].ins, bags[i], r, cols);
    }
  }

  lemma StagedBelow(k: Stack, i: nat)
    requires StackOk(k) && i < |k.stages| - 1
    ensures k.stages[i].ins.Keys !! k.Top().ins.Keys
  {
    StagedIsKnown(k.Below(), i);
    assert k.Below().stages[i] == k.stages[i];
  }

  lemma StagedOnlyOnTop(k: Stack, r: RowId)
    requires StackOk(k) && k.stages != [] && r in k.Top().ins
    ensures forall i :: 0 <= i < |k.stages| - 1 ==> r !in k.stages[i].ins
  {
    hide StackOk;
    forall i | 0 <= i < |k.stages| - 1 ensures r !in k.stages[i].ins {
      StagedBelow(k, i);
    }
  }

  /** A write to a row staged on top, as a write to the row. */
  lemma WriteRowIs(sch: Schema, k: Stack, r: RowId, c: nat, x: ColVal)
    requires StackOk(k) && k.stages != [] && r in k.Top().ins
    requires r in ShownBy(k) && c < |ShownBy(k)[r].cols| && c !in sch(ShownBy(k)[r].table)
    ensures r in k.rows && r !in k.tbl && c < |k.rows[r]| && Write(k, r, c, x) == SetRow(k, r, k.rows[r][c := x])
    ensures c !in sch(k.Top().ins[r])
  {
    StackParts(k);
    TablesKnown(k.Below());
  }

  lemma BagsWritten(sch: Schema, k: Stack, bags: seq<seq<Slot>>, r: RowId, c: nat, x: ColVal)
    requires StackOk(k) && BagsFile(sch, k.rows, k.stages, bags) && k.stages != [] && r in k.Top().ins && r in k.rows
    requires c < |k.rows[r]| && c !in sch(k.Top().ins[r])
    ensures BagsFile(sch, k.rows[r := k.rows[r][c := x]], k.stages, bags)
  {
    hide StackOk, BagsFile, KeyOf;
    StagedOnlyOnTop(k, r);
    KeyKept(sch(k.Top().ins[r]), k.rows[r], c, x);
    BagsAfterWrite(sch, k.rows, k.stages, bags, r, k.rows[r][c := x]);
  }

  lemma SoundWriteRow(sch: Schema, k: Stack, bags: seq<seq<Slot>>, r: RowId, c: nat, x: ColVal)
    requires Sound(sch, k, bags) && k.stages != [] && r in k.Top().ins
    requires r in ShownBy(k) && c < |ShownBy(k)[r].cols| && c !in sch(ShownBy(k)[r].table)
    ensures Sound(sch, Write(k, r, c, x), bags)
  {
    hide StackOk, KeysKept, BagsFile, ShownBy, Write, Levels;
    WriteRowIs(sch, k, r, c, x);
    WriteCorrect(k, r, c, x);
    WriteKeepsKeys(sch, k, r, c, x);
    BagsWritten(sch, k, bags, r, c, x);
  }

  lemma BagsTop(sch: Schema, rows: map<RowId, Cols>, stages: seq<Stage>, bags: seq<seq<Slot>>, st: Stage,
      bag: seq<Slot>)
    requires stages != [] && BagsFile(sch, rows, stages, bags) && Files(sch, rows, st.ins, bag)
    ensures BagsFile(sch, rows, stages[..|stages| - 1] + [st], bags[..|bags| - 1] + [bag])
  {
  }

  lemma BagTop(sch: Schema, k: Stack, bags: seq<seq<Slot>>)
    requires Sound(sch, k, bags) && k.stages != []
    ensures |bags| == |k.stages| && Files(sch, k.rows, k.Top().ins, bags[|bags| - 1])
    ensures SlotsSorted(bags[|bags| - 1])
  {
  }

  lemma SoundUpdate(sch: Schema, k: Stack, bags: seq<seq<Slot>>, r: RowId, c: nat, x: ColVal)
    requires Sound(sch, k, bags) && k.stages != [] && r !in k.Top().ins
    requires r in ShownBy(k) && c < |ShownBy(k)[r].cols| && c !in sch(ShownBy(k)[r].table)
    ensures Sound(sch, Write(k, r, c, x), bags)
  {
    hide StackOk, KeysKept, BagsFile, ShownBy, Levels, Changes, Write, RefWrite;
    WriteCorrect(k, r, c, x);
    ChangesShown(Write(k, r, c, x), k, RefWrite(ShownBy(k), r, c, x));
    WriteKeepsKeys(sch, k, r, c, x);
    BagsUpdated(sch, k, bags, r, c, x);
  }

  /** A pending update leaves every staged row where it is filed. */
  lemma BagsUpdated(sch: Schema, k: Stack, bags: seq<seq<Slot>>, r: RowId, c: nat, x: ColVal)
    requires Sound(sch, k, bags) && k.stages != [] && r !in k.Top().ins
    requires r in ShownBy(k) && c < |ShownBy(k)[r].cols|
    ensures BagsFile(sch, Write(k, r, c, x).rows, Write(k, r, c, x).stages, bags)
  {
    hide StackOk, KeysKept, BagsFile, ShownBy, Files;
    BagTop(sch, k, bags);
    BagsTop(sch, k.rows, k.stages, bags, StageUpdate(k.Top(), r, c, x), bags[|bags| - 1]);
    assert bags[..|bags| - 1] + [bags[|bags| - 1]] == bags;
  }

  lemma SoundInsert(sch: Schema, k: Stack, bags: seq<seq<Slot>>, t: TableId, r: RowId)
    requires Sound(sch, k, bags) && k.stages != [] && r in k.rows && r !in Known(k)
    ensures |bags| > 0
    ensures Sound(sch, InsertRow(k, t, r),
      bags[..|bags| - 1] + [FileSlot(bags[|bags| - 1], Filed(sch, k.rows, t, r))])
  {
    BagTop(sch, k, bags);
    InsertCorrect(k, t, r);
    InsertKeepsKeys(sch, k, t, r);
    hide StackOk, KeysKept, BagsFile, ShownBy, Files, FileSlot;
    FileKeeps(sch, k.rows, k.Top().ins, bags[|bags| - 1], t, r);
    BagsTop(sch, k.rows, k.stages, bags, StageInsert(k.Top(), t, r),
      FileSlot(bags[|bags| - 1], Filed(sch, k.rows, t, r)));
  }

  lemma SoundRemove(sch: Schema, k: Stack, bags: seq<seq<Slot>>, t: TableId, r: RowId, bag: seq<Slot>)
    requires Sound(sch, k, bags) && k.stages != [] && r in ShownBy(k) && ShownBy(k)[r].table == t
    requires Files(sch, k.rows, StageRemove(k.Top(), t, r).ins, bag)
    ensures Sound(sch, RemoveRow(k, t, r), bags[..|bags| - 1] + [bag])
  {
    RemoveCorrect(k, t, r);
    RemoveKeepsKeys(sch, k, t, r);
    hide StackOk, KeysKept, BagsFile, ShownBy, Files;
    BagsTop(sch, k.rows, k.stages, bags, StageRemove(k.Top(), t, r), bag);
  }

  /** The row is swept out of the staged inserts exactly when it is staged here. */
  lemma StagedSlot(sch: Schema, k: Stack, bag: seq<Slot>, t: TableId, r: RowId)
    requires StackOk(k) && k.stages != [] && Files(sch, k.rows, k.Top().ins, bag)
    requires r in ShownBy(k) && ShownBy(k)[r].table == t
    ensures Filed(sch, k.rows, t, r) in bag <==> r in k.Top().ins
  {
  }

  /** At the lowest level a visible row is staged exactly when it is in no table. */
  lemma NotInTable(k: Stack, r: RowId)
    requires StackOk(k) && |k.stages| == 1 && r in ShownBy(k)
    ensures r in k.Top().ins <==> r !in k.tbl
  {
  }

  lemma FiledRow(sch: Schema, rows: map<RowId, Cols>, t: TableId, r: RowId)
    ensures Filed(sch, rows, t, r).row == r
  {
  }

  /** Rows from below and staged rows, merged in any order, are the rows shown. */
  lemma MergedQuery(sch: Schema, k: Stack, bags: seq<seq<Slot>>, t: TableId, iv: Interval, below: seq<RowId>,
      staged: seq<RowId>)
    requires Sound(sch, k, bags) && k.stages != []
    requires multiset(below) == multiset(RefQuery(ShownBy(k.Below()), sch(t), t, iv))
    requires multiset(staged) == multiset(Matching(sch, k.rows, k.Top().ins, t, iv))
    ensures multiset(Merge(Kept(below, t, k.Top().rem), staged)) == multiset(RefQuery(ShownBy(k), sch(t), t, iv))
  {
    hide StackOk, ShownBy, KeysAgree, ByMemory, RefQuery, BagsFile, Matching, Kept, Merge;
    StackParts(k);
    KeptKeysAgree(sch, k, t);
    KeptKeysAgree(sch, k.Below(), t);
    AgreeingKeys(sch, k, t, iv);
    AgreeingKeys(sch, k.Below(), t, iv);
    MergeIsBoth(Kept(below, t, k.Top().rem), staged);
    LevelByMemory(sch, k, t, iv, below);
  }

  lemma ImmediateOrder(sch: Schema, k: Stack, t: TableId, iv: Interval, q: seq<RowId>, descending: bool)
    requires k.stages == [] && InKeyOrder(sch, k.rows, t, q, descending)
    requires multiset(q) == multiset(RefQuery(ShownBy(k), sch(t), t, iv))
    ensures OrderedBySource(sch, k, t, q, descending)
  {
    hide InKeyOrder, OrderedBySource;
    forall r | r in q ensures r in k.tbl {
      assert r in multiset(q);
    }
    TableOrder(sch, k, t, q, descending);
  }

  lemma BufferOrder(sch: Schema, k: Stack, bags: seq<seq<Slot>>, t: TableId, iv: Interval, below: seq<RowId>,
      staged: seq<RowId>, descending: bool)
    requires Sound(sch, k, bags) && k.stages != []
    requires multiset(below) == multiset(RefQuery(ShownBy(k.Below()), sch(t), t, iv))
    requires multiset(staged) == multiset(Matching(sch, k.rows, k.Top().ins, t, iv))
    requires OrderedBySource(sch, k.Below(), t, below, descending) && InKeyOrder(sch, k.rows, t, staged, descending)
    ensures OrderedBySource(sch, k, t, Merge(Kept(below, t, k.Top().rem), staged), descending)
  {
    hide InKeyOrder, OrderedBySource, StackOk, KeysKept, BagsFile, ShownBy, Known, Merge, Kept;
    ShownIsKnown(k.Below());
    forall r | r in below ensures r in Known(k.Below()) {
      assert r in multiset(below);
    }
    forall r | r in staged ensures r in k.Top().ins {
      assert r in multiset(staged);
    }
    MergedOrder(sch, k, t, below, staged, descending);
  }

  /** Where a read finds its value. */
  lemma ReadCases(k: Stack, r: RowId, c: nat)
    requires r in ShownBy(k) && c < |ShownBy(k)[r].cols|
    ensures k.stages == [] || r in k.Top().ins ==>
      r in k.rows && c < |k.rows[r]| && ShownBy(k)[r].cols[c] == k.rows[r][c]
    ensures k.stages != [] && r !in k.Top().ins ==>
      && r in ShownBy(k.Below()) && c < |ShownBy(k.Below())[r].cols|
      && ShownBy(k)[r].cols[c] == if (r, c) in k.Top().upd then k.Top().upd[(r, c)] else ShownBy(k.Below())[r].cols[c]
  {
  }

  lemma SoundParts(sch: Schema, k: Stack, bags: seq<seq<Slot>>)
    requires Sound(sch, k, bags)
    ensures StackOk(k) && KeysKept(sch, k) && BagsFile(sch, k.rows, k.stages, bags)
  {
  }

  lemma SoundBegin(sch: Schema, k: Stack, bags: seq<seq<Slot>>)
    requires Sound(sch, k, bags)
    ensures Sound(sch, k.(stages := k.stages + [NoStage]), bags + [[]])
  {
  }

  // ---------- committing in the order of the bag ----------

  function InsMap(s: seq<Slot>): map<RowId, TableId>
  {
    if s == [] then map[] else InsMap(s[1..])[s[0].row := s[0].table]
  }

  lemma {:induction false} InsMapRows(s: seq<Slot>)
    requires SlotsDistinct(s)
    ensures forall i :: 0 <= i < |s| ==> s[i].row in InsMap(s) && InsMap(s)[s[i].row] == s[i].table
    ensures forall r :: r in InsMap(s) ==> exists i :: 0 <= i < |s| && s[i].row == r
  {
    if s != [] {
      InsMapRows(s[1..]);
      forall i | 0 < i < |s| ensures s[i].row in InsMap(s) && InsMap(s)[s[i].row] == s[i].table {
        assert s[1..][i - 1] == s[i];
      }
      forall r | r in InsMap(s) ensures exists i :: 0 <= i < |s| && s[i].row == r {
        if r != s[0].row {
          var i :| 0 <= i < |s[1..]| && s[1..][i].row == r;
          assert s[i + 1].row == r;
        }
      }
    }
  }

  lemma InsMapIs(sch: Schema, rows: map<RowId, Cols>, ins: map<RowId, TableId>, s: seq<Slot>)
    requires Files(sch, rows, ins, s)
    ensures InsMap(s) == ins
  {
    InsMapRows(s);
    forall r | r in ins ensures r in InsMap(s) && InsMap(s)[r] == ins[r] {
      var i :| 0 <= i < |s| && s[i] == Filed(sch, rows, ins[r], r);
      assert s[i].row in InsMap(s);
    }
  }

  lemma InsMapStep(s: seq<Slot>)
    requires SlotsDistinct(s) && s != []
    ensures SlotsDistinct(s[1..])
    ensures s[0].row in InsMap(s) && InsMap(s)[s[0].row] == s[0].table
    ensures InsMap(s) - {s[0].row} == InsMap(s[1..])
  {
    InsMapRows(s[1..]);
    assert s[0].row !in InsMap(s[1..]);
  }

  /** Part of the way through the inserts of a commit: `goal` is what will be shown. */
  ghost predicate Inserting(k0: Stack, k: Stack, rest: seq<Slot>, goal: Shown)
  {
    && Changes(k, k0, ShownBy(k)) && k.rows == k0.rows && SlotsDistinct(rest)
    && (forall i :: 0 <= i < |rest| ==> rest[i].row in k.rows && rest[i].row !in Known(k))
    && Overlay(ShownBy(k), k.rows, OnlyInserts(InsMap(rest))) == goal
  }

  lemma InsertingStart(k: Stack, s: seq<Slot>)
    requires StackOk(k) && SlotsDistinct(s) && forall i :: 0 <= i < |s| ==> s[i].row in k.rows && s[i].row !in Known(k)
    ensures Inserting(k, k, s, Overlay(ShownBy(k), k.rows, OnlyInserts(InsMap(s))))
  {
  }

  lemma InsertingStep(k0: Stack, k: Stack, rest: seq<Slot>, goal: Shown)
    requires Inserting(k0, k, rest, goal) && rest != []
    ensures Inserting(k0, InsertRow(k, rest[0].table, rest[0].row), rest[1..], goal)
  {
    var t, r := rest[0].table, rest[0].row;
    var k' := InsertRow(k, t, r);
    InsertingParts(k0, k, rest, goal);
    InsertingRows(k, rest);
    hide StackOk, ShownBy, Levels, Overlay, Known, InsMap, SlotsDistinct, Changes, Inserting;
    ShownIsKnown(k);
    InsertCorrect(k, t, r);
    ChangesShown(k', k, RefInsert(ShownBy(k), t, r, k.rows[r]));
    InsMapStep(rest);
    InsMapNew(rest, k.rows.Keys, Known(k));
    InsertStep(ShownBy(k), k.rows, InsMap(rest), r);
    ChangesTwice(k', k, k0, ShownBy(k), ShownBy(k'));
    InsertingWhole(k0, k', rest[1..], goal);
  }

  lemma InsertingRows(k: Stack, rest: seq<Slot>)
    requires rest != [] && SlotsDistinct(rest)
    requires forall i :: 0 <= i < |rest| ==> rest[i].row in k.rows && rest[i].row !in Known(k)
    ensures forall i :: 0 <= i < |rest[1..]| ==>
      rest[1..][i].row in k.rows && rest[1..][i].row !in Known(k) + {rest[0].row}
  {
  }

  lemma ChangesShown(k': Stack, k: Stack, v: Shown)
    requires Changes(k', k, v)
    ensures StackOk(k') && ShownBy(k') == v
  {
  }

  lemma InsertingParts(k0: Stack, k: Stack, rest: seq<Slot>, goal: Shown)
    requires Inserting(k0, k, rest, goal)
    ensures Changes(k, k0, ShownBy(k)) && k.rows == k0.rows && SlotsDistinct(rest) && StackOk(k)
    ensures forall i :: 0 <= i < |rest| ==> rest[i].row in k.rows && rest[i].row !in Known(k)
    ensures Overlay(ShownBy(k), k.rows, OnlyInserts(InsMap(rest))) == goal
  {
  }

  lemma InsertingWhole(k0: Stack, k: Stack, rest: seq<Slot>, goal: Shown)
    requires Changes(k, k0, ShownBy(k)) && k.rows == k0.rows && SlotsDistinct(rest)
    requires forall i :: 0 <= i < |rest| ==> rest[i].row in k.rows && rest[i].row !in Known(k)
    requires Overlay(ShownBy(k), k.rows, OnlyInserts(InsMap(rest))) == goal
    ensures Inserting(k0, k, rest, goal)
  {
  }

  lemma InsMapNew(s: seq<Slot>, have: set<RowId>, known: set<RowId>)
    requires SlotsDistinct(s) && forall i :: 0 <= i < |s| ==> s[i].row in have && s[i].row !in known
    ensures forall r :: r in InsMap(s) ==> r in have && r !in known
  {
  }

  lemma InsertingEnd(k0: Stack, k: Stack, goal: Shown)
    requires Inserting(k0, k, [], goal)
    ensures Changes(k, k0, goal)
  {
    assert OnlyInserts(InsMap([])) == NoStage;
    NothingStaged(ShownBy(k), k.rows);
  }

  /** Part of the way through the updates. */
  ghost predicate Updating(sch: Schema, k0: Stack, k: Stack, todo: map<(RowId, nat), ColVal>, goal: Shown)
  {
    && Changes(k, k0, ShownBy(k)) && Writable(sch, ShownBy(k), todo)
    && Overlay(ShownBy(k), k0.rows, OnlyUpdates(todo)) == goal
  }

  lemma UpdatingStart(sch: Schema, k: Stack, upd: map<(RowId, nat), ColVal>)
    requires StackOk(k) && Writable(sch, ShownBy(k), upd)
    ensures Updating(sch, k, k, upd, Overlay(ShownBy(k), k.rows, OnlyUpdates(upd)))
  {
  }

  lemma UpdatingStep(sch: Schema, k0: Stack, k: Stack, todo: map<(RowId, nat), ColVal>, goal: Shown, u: (RowId, nat))
    requires Updating(sch, k0, k, todo, goal) && u in todo
    ensures u.0 in ShownBy(k) && u.1 < |ShownBy(k)[u.0].cols| && u.1 !in sch(ShownBy(k)[u.0].table)
    ensures Updating(sch, k0, Write(k, u.0, u.1, todo[u]), todo - {u}, goal)
  {
    hide StackOk, ShownBy, Levels, Overlay;
    var k' := Write(k, u.0, u.1, todo[u]);
    WriteCorrect(k, u.0, u.1, todo[u]);
    StillWritable(sch, ShownBy(k), todo, u);
    UpdateStep(ShownBy(k), k0.rows, todo, u);
    ChangesTwice(k', k, k0, ShownBy(k), ShownBy(k'));
  }

  lemma UpdatingEnd(sch: Schema, k0: Stack, k: Stack, goal: Shown)
    requires Updating(sch, k0, k, map[], goal)
    ensures Changes(k, k0, goal)
  {
    assert OnlyUpdates(map[]) == NoStage;
    NothingStaged(ShownBy(k), k0.rows);
  }

  /** Part of the way through the removals. */
  ghost predicate Removing(k0: Stack, k: Stack, todo: set<(TableId, RowId)>, goal: Shown)
  {
    && Changes(k, k0, ShownBy(k))
    && (forall u :: u in todo ==> u.1 in ShownBy(k) && ShownBy(k)[u.1].table == u.0)
    && Overlay(ShownBy(k), k0.rows, OnlyRemoves(todo)) == goal
  }

  lemma RemovingStart(k: Stack, rem: set<(TableId, RowId)>)
    requires StackOk(k) && forall u :: u in rem ==> u.1 in ShownBy(k) && ShownBy(k)[u.1].table == u.0
    ensures Removing(k, k, rem, Overlay(ShownBy(k), k.rows, OnlyRemoves(rem)))
  {
  }

  lemma RemovingStep(k0: Stack, k: Stack, todo: set<(TableId, RowId)>, goal: Shown, u: (TableId, RowId))
    requires Removing(k0, k, todo, goal) && u in todo
    ensures u.1 in ShownBy(k) && ShownBy(k)[u.1].table == u.0
    ensures Removing(k0, RemoveRow(k, u.0, u.1), todo - {u}, goal)
  {
    hide StackOk, ShownBy, Levels, Overlay;
    var k' := RemoveRow(k, u.0, u.1);
    RemoveCorrect(k, u.0, u.1);
    RemoveStep(ShownBy(k), k0.rows, todo, u);
    ChangesTwice(k', k, k0, ShownBy(k), ShownBy(k'));
  }

  lemma RemovingEnd(k0: Stack, k: Stack, goal: Shown)
    requires Removing(k0, k, {}, goal)
    ensures Changes(k, k0, goal)
  {
    assert OnlyRemoves({}) == NoStage;
    NothingStaged(ShownBy(k), k0.rows);
  }

  /** What the three loops of `commit` may rely on. */
  lemma CommitPrepared(sch: Schema, k: Stack, bags: seq<seq<Slot>>)
    requires Sound(sch, k, bags) && k.stages != []
    ensures |bags| == |k.stages|
    ensures var s, b, st := bags[|bags| - 1], k.Below(), k.Top();
      && SlotsDistinct(s) && InsMap(s) == st.ins
      && (forall i :: 0 <= i < |s| ==> s[i].row in b.rows && s[i].row !in Known(b))
  {
    StackParts(k);
    BagTop(sch, k, bags);
    InsMapIs(sch, k.rows, k.Top().ins, bags[|bags| - 1]);
  }

  lemma CommitAllowed(sch: Schema, k: Stack)
    requires StackOk(k) && KeysKept(sch, k) && k.stages != []
    ensures var v, st := ShownBy(k.Below()), k.Top();
            var a := Overlay(v, k.rows, OnlyInserts(st.ins));
            var b := Overlay(a, k.rows, OnlyUpdates(st.upd));
      && Writable(sch, a, st.upd)
      && (forall u :: u in st.rem ==> u.1 in b && b[u.1].table == u.0)
      && Overlay(b, k.rows, OnlyRemoves(st.rem)) == ShownBy(k)
  {
    StackParts(k);
    assert StageKeysKept(sch, ShownBy(k.Below()), k.Top());
    hide StackOk, ShownBy, StageOk, StageKeysKept, Overlay, KeysKept;
    FlushesWritable(sch, ShownBy(k.Below()), k.rows, k.Top());
    FlushesAllowed(ShownBy(k.Below()), k.rows, k.Top());
    ThreeFlushes(ShownBy(k.Below()), k.rows, k.Top());
  }

  // ---------- the objects ----------

  datatype Outcome = Open | Committed | Aborted

  class Txn {
    const store: Store
    const base: Txn?                              // null for `TxnUnsafe`
    var inserts: seq<Slot>
    var rowInserts: set<RowId>
    var updates: map<(RowId, nat), ColVal>
    var removes: set<(TableId, RowId)>
    var outcome: Outcome

    ghost const depth: nat                        // the number of buffers, this one included
    ghost const lower: set<Txn>                   // every transaction below
    ghost var ins: map<RowId, TableId>            // the staged rows, as a map

    ghost predicate Linked()
      decreases depth
    {
      if base == null then lower == {} && depth == 0
      else
        && base.store == store && depth == base.depth + 1 && lower == base.lower + {base} && this !in lower
        && base.Linked()
    }

    ghost function Stages(): (s: seq<Stage>)
      requires Linked()
      reads this, lower
      ensures |s| == depth
      decreases depth
    {
      if base == null then [] else base.Stages() + [Stage.Stage(ins, updates, removes)]
    }

    ghost function Bags(): (s: seq<seq<Slot>>)
      requires Linked()
      reads this, lower
      ensures |s| == depth
      decreases depth
    {
      if base == null then [] else base.Bags() + [inserts]
    }

    /** `row_inserts_` mirrors the staged rows; `Txn2PL` does without it. */
    ghost predicate Tracked()
      requires Linked()
      reads this, lower
      decreases depth
    {
      base != null ==> base.Tracked() && (base.base != null ==> rowInserts == ins.Keys)
    }

    ghost function Stk(): Stack
      requires Linked()
      reads this, store, lower
    {
      Stack(store.rows, store.tbl, Stages())
    }

    ghost predicate Valid()
      reads this, store, lower
    {
      Linked() && Tracked() && store.Valid() && Sound(store.sch, Stk(), Bags())
    }

    ghost function Shown(): Shown
      requires Linked()
      reads this, store, lower
    {
      ShownBy(Stk())
    }

    constructor Unsafe(s: Store)
      requires s.Valid()
      ensures Valid() && store == s && base == null && Stk() == s.Stk()
    {
      store, base, depth, lower := s, null, 0, {};
      inserts, rowInserts, updates, removes, outcome, ins := [], {}, map[], {}, Open, map[];
    }

    /** `Txn2PL` over an immediate transaction, `TxnNested` over another buffer. */
    constructor Over(b: Txn)
      requires b.Valid()
      ensures base == b && outcome == Open && Valid() && Shown() == b.Shown()
    {
      store, base, depth, lower := b.store, b, b.depth + 1, b.lower + {b};
      inserts, rowInserts, updates, removes, outcome, ins := [], {}, map[], {}, Open, map[];
      hide *;
      new;
      Started();
    }

    /** An empty buffer over a sound transaction is sound and shows the same. */
    lemma Started()
      requires Linked() && base != null && base.Valid()
      requires inserts == [] && rowInserts == {} && updates == map[] && removes == {} && ins == map[]
      ensures Valid() && Shown() == base.Shown()
    {
      hide Sound, ShownBy, StackOk;
      SoundBegin(store.sch, base.Stk(), base.Bags());
      SoundParts(store.sch, base.Stk(), base.Bags());
      BeginCorrect(base.Stk());
    }

    /** The parts of a buffer over another transaction. */
    lemma Parts()
      requires Valid() && base != null
      ensures base.Valid() && |Stk().stages| == depth == |Bags()| && (depth == 1 <==> base.base == null)
      ensures Stk().stages != [] && Stk().Below() == base.Stk()
      ensures Stk().Top() == Stage.Stage(ins, updates, removes)
      ensures Bags()[depth - 1] == inserts && Bags()[..depth - 1] == base.Bags()
    {
    }

    /** The test by which a transaction recognises its own rows. */
    method IsStaged(r: RowId) returns (here: bool)
      requires Valid() && base != null && r in Shown()
      ensures here <==> r in ins
    {
      hide StackOk, ShownBy, KeysKept, Sound, Stages, Bags, Store.Valid;
      SoundParts(store.sch, Stk(), Bags());
      Parts();
      if base.base == null {
        NotInTable(Stk(), r);
        return r !in store.tbl;
      }
      return r in rowInserts;
    }

    /** `read_column`. */
    method ReadColumn(r: RowId, c: nat) returns (x: ColVal)
      requires Valid() && r in Shown() && c < |Shown()[r].cols|
      ensures x == Shown()[r].cols[c]
      decreases depth
    {
      hide ShownBy, Stages, Bags, Sound, Store.Valid;
      ReadCases(Stk(), r, c);
      if base == null {
        ImmediateParts();
        return store.rows[r][c];
      }
      Parts();
      var here := IsStaged(r);
      if here {
        return store.rows[r][c];
      }
      if (r, c) in updates {
        return updates[(r, c)];
      }
      x := base.ReadColumn(r, c);
    }

    lemma ImmediateParts()
      requires Linked() && base == null
      ensures Stk() == store.Stk() && Stk().stages == [] && Bags() == []
    {
    }

    /** A buffer and what lies below it, put together. */
    lemma Whole(k: Stack, bags: seq<seq<Slot>>)
      requires Linked() && base != null && base.Tracked() && store.Valid()
      requires base.base != null ==> rowInserts == ins.Keys
      requires k == Stack(store.rows, store.tbl, base.Stages() + [Stage.Stage(ins, updates, removes)])
      requires bags == base.Bags() + [inserts] && Sound(store.sch, k, bags)
      ensures Valid() && Stk() == k
    {
    }

    /** `write_column`. */
    method WriteColumn(r: RowId, c: nat, x: ColVal)
      requires Valid() && r in Shown() && c < |Shown()[r].cols|
      requires base != null ==> c !in store.sch(Shown()[r].table)
      modifies this, store
      ensures Valid() && Stk() == Write(old(Stk()), r, c, x)
    {
      hide ShownBy, Sound, Stages, Bags, Linked, Tracked, Store.Valid, Write;
      if base == null {
        WriteTable(r, c, x);
        return;
      }
      var here := IsStaged(r);
      if here {
        WriteOwn(r, c, x);
      } else {
        WriteBuffer(r, c, x);
      }
    }

    method WriteTable(r: RowId, c: nat, x: ColVal)
      requires Valid() && base == null && r in Shown() && c < |Shown()[r].cols|
      modifies store
      ensures Valid() && Stk() == Write(old(Stk()), r, c, x)
    {
      ImmediateParts();
      ReadCases(Stk(), r, c);
      store.WriteColumn(r, c, x);
      ImmediateParts();
    }

    method WriteOwn(r: RowId, c: nat, x: ColVal)
      requires Valid() && base != null && r in Shown() && c < |Shown()[r].cols| && r in ins
      requires c !in store.sch(Shown()[r].table)
      modifies store
      ensures Valid() && Stk() == Write(old(Stk()), r, c, x)
    {
      hide ShownBy, Sound, Bags, Stages, Tracked, StackOk, Write;
      ghost var k, bags := Stk(), Bags();
      Parts();
      SoundParts(store.sch, k, bags);
      WriteRowIs(store.sch, k, r, c, x);
      SoundWriteRow(store.sch, k, bags, r, c, x);
      store.WriteColumn(r, c, x);
      assert Stages() == k.stages && Bags() == bags && Tracked();
    }

    method WriteBuffer(r: RowId, c: nat, x: ColVal)
      requires Valid() && base != null && r in Shown() && c < |Shown()[r].cols| && r !in ins
      requires c !in store.sch(Shown()[r].table)
      modifies this`updates
      ensures Valid() && Stk() == Write(old(Stk()), r, c, x)
    {
      hide ShownBy, Sound, Bags, Stages, StackOk, Store.Valid;
      ghost var k, bags := Stk(), Bags();
      Parts();
      SoundUpdate(store.sch, k, bags, r, c, x);
      ghost var below, belowBags := base.Stages(), base.Bags();
      assert base.Tracked();
      updates := updates[(r, c) := x];
      assert base.Stages() == below && base.Bags() == belowBags && base.Tracked();
      assert bags == belowBags + [inserts];
      Whole(Write(k, r, c, x), bags);
    }

    /** `insert_row`. */
    method InsertRow(t: TableId, r: RowId)
      requires Valid() && r in store.rows && r !in Known(Stk())
      modifies this, store`tbl, store`tables
      ensures Valid() && Stk() == TxnStack.InsertRow(old(Stk()), t, r)
    {
      hide ShownBy, Sound, Stages, Bags, Linked, Tracked, Store.Valid, TxnStack.InsertRow, Known;
      if base == null {
        InsertTable(t, r);
      } else {
        InsertBuffer(t, r);
      }
    }

    method InsertTable(t: TableId, r: RowId)
      requires Valid() && base == null && r in store.rows && r !in Known(Stk())
      modifies store`tbl, store`tables
      ensures Valid() && Stk() == TxnStack.InsertRow(old(Stk()), t, r)
    {
      ImmediateParts();
      store.InsertRow(t, r);
      ImmediateParts();
    }

    method InsertBuffer(t: TableId, r: RowId)
      requires Valid() && base != null && r in store.rows && r !in Known(Stk())
      modifies this
      ensures Valid() && Stk() == TxnStack.InsertRow(old(Stk()), t, r)
    {
      hide ShownBy, Sound, Bags, Stages, StackOk, Store.Valid, Known, FileSlot;
      ghost var k, bags := Stk(), Bags();
      Parts();
      SoundInsert(store.sch, k, bags, t, r);
      ghost var below, belowBags := base.Stages(), base.Bags();
      assert base.Tracked();
      inserts := FileSlot(inserts, Filed(store.sch, store.rows, t, r));
      rowInserts, removes, ins := rowInserts + {r}, removes - {(t, r)}, ins[r := t];
      assert base.Stages() == below && base.Bags() == belowBags && base.Tracked();
      Whole(TxnStack.InsertRow(k, t, r), belowBags + [inserts]);
    }

    /** `remove_row`. */
    method RemoveRow(t: TableId, r: RowId)
      requires Valid() && r in Shown() && Shown()[r].table == t
      modifies this, store`tbl, store`tables
      ensures Valid() && Stk() == TxnStack.RemoveRow(old(Stk()), t, r)
    {
      hide ShownBy, Sound, Stages, Bags, Linked, Tracked, Store.Valid, TxnStack.RemoveRow;
      if base == null {
        RemoveTable(t, r);
      } else {
        RemoveBuffer(t, r);
      }
    }

    method RemoveTable(t: TableId, r: RowId)
      requires Valid() && base == null && r in Shown() && Shown()[r].table == t
      modifies store`tbl, store`tables
      ensures Valid() && Stk() == TxnStack.RemoveRow(old(Stk()), t, r)
    {
      ImmediateParts();
      store.RemoveRow(t, r);
      ImmediateParts();
    }

    method RemoveBuffer(t: TableId, r: RowId)
      requires Valid() && base != null && r in Shown() && Shown()[r].table == t
      modifies this
      ensures Valid() && Stk() == TxnStack.RemoveRow(old(Stk()), t, r)
    {
      hide ShownBy, Sound, Bags, Stages, StackOk, Store.Valid, Files, SlotsSorted, UpperBound, DropSlot, Forget;
      ghost var k, bags := Stk(), Bags();
      Parts();
      ghost var below, belowBags := base.Stages(), base.Bags();
      assert base.Tracked();
      Unfile(t, r);
      updates := Forget(updates, r);
      assert base.Stages() == below && base.Bags() == belowBags && base.Tracked();
      SoundRemove(store.sch, k, bags, t, r, inserts);
      Whole(TxnStack.RemoveRow(k, t, r), belowBags + [inserts]);
    }

    /** Sweep the row out of the staged inserts, or note its removal. */
    method Unfile(t: TableId, r: RowId)
      requires Valid() && base != null && r in Shown() && Shown()[r].table == t
      modifies this
      ensures Linked() && updates == old(updates)
      ensures Stage.Stage(ins, Forget(updates, r), removes) ==
        StageRemove(old(Stage.Stage(ins, updates, removes)), t, r)
      ensures Files(store.sch, store.rows, ins, inserts)
      ensures base.base != null ==> rowInserts == ins.Keys
    {
      hide ShownBy, Sound, Bags, Stages, StackOk, Store.Valid, Files, SlotsSorted, UpperBound, DropSlot, Forget, Filed;
      Parts();
      SoundParts(store.sch, Stk(), Bags());
      BagTop(store.sch, Stk(), Bags());
      StagedSlot(store.sch, Stk(), inserts, t, r);
      var e := Filed(store.sch, store.rows, t, r);
      FiledRow(store.sch, store.rows, t, r);
      var i := Sweep(inserts, e);
      if i == UpperBound(inserts, e.At()) {
        removes := removes + {(t, r)};
      } else {
        DropKeeps(store.sch, store.rows, ins, inserts, i);
        inserts, rowInserts, ins := DropSlot(inserts, i), rowInserts - {r}, ins - {r};
      }
    }

    /** The staged rows of a table between two bounds, in either order. */
    method StagedRows(t: TableId, iv: Interval, descending: bool) returns (q: seq<RowId>)
      requires Valid() && base != null && iv.Proper()
      ensures multiset(q) == multiset(Matching(store.sch, store.rows, ins, t, iv))
      ensures InKeyOrder(store.sch, store.rows, t, q, descending)
    {
      hide ShownBy, Sound, Bags, Stages, Store.Valid, RangeBegin, RangeEnd, Matching, Files, InKeyOrder, Reversed;
      Parts();
      BagTop(store.sch, Stk(), Bags());
      RangeRows(store.sch, store.rows, ins, inserts, t, iv);
      OneTable(store.sch, store.rows, ins, inserts, t, iv);
      SliceInOrder(store.sch, store.rows, ins, inserts, t, RangeBegin(inserts, t, iv), RangeEnd(inserts, t, iv));
      q := RowsOf(inserts[RangeBegin(inserts, t, iv)..RangeEnd(inserts, t, iv)]);
      if descending {
        ReversedSame(q);
        ReversedOrder(store.sch, store.rows, t, q);
        q := Reversed(q);
      }
    }

    /** The query forms of all three kinds of transaction. */
    method Query(t: TableId, iv: Interval, descending: bool) returns (c: Cursor)
      requires Valid() && iv.Proper()
      ensures c.Valid() && fresh(c) && fresh(c.below) && c !in c.below
      ensures multiset(c.Remaining()) == multiset(RefQuery(Shown(), store.sch(t), t, iv))
      ensures OrderedBySource(store.sch, Stk(), t, c.Remaining(), descending)
      ensures base == null ==> InKeyOrder(store.sch, store.rows, t, c.Remaining(), descending)
      decreases depth
    {
      hide ShownBy, Sound, Bags, Stages, Store.Valid, RefQuery, Matching, Cursor.Valid, Cursor.Remaining, Merge, Kept,
        OrderedBySource, InKeyOrder;
      if base == null {
        ImmediateParts();
        c := store.Query(t, iv, descending);
        ImmediateOrder(store.sch, Stk(), t, iv, c.Remaining(), descending);
        return;
      }
      Parts();
      var inner := base.Query(t, iv, descending);
      var staged := StagedRows(t, iv, descending);
      ghost var rest, shown := inner.Remaining(), RefQuery(Shown(), store.sch(t), t, iv);
      MergedQuery(store.sch, Stk(), Bags(), t, iv, rest, staged);
      BufferOrder(store.sch, Stk(), Bags(), t, iv, rest, staged, descending);
      c := new Cursor.Merged(t, inner, staged, removes);
      assert inner.Remaining() == rest;
      assert multiset(c.Remaining()) == multiset(shown);
    }

    lemma ValidParts()
      requires Valid()
      ensures StackOk(Stk()) && KeysKept(store.sch, Stk())
    {
    }

    /** The first loop of `commit`, as the transaction below sees it. */
    method ApplyInserts(s: seq<Slot>)
      requires Valid() && SlotsDistinct(s)
      requires forall i :: 0 <= i < |s| ==> s[i].row in store.rows && s[i].row !in Known(Stk())
      modifies this, store`tbl, store`tables
      ensures Valid()
      ensures Changes(Stk(), old(Stk()), Overlay(old(Shown()), old(store.rows), OnlyInserts(InsMap(s))))
    {
      hide ShownBy, Sound, Stages, Bags, Tracked, Store.Valid, Inserting, StackOk, Known, Overlay, Changes, InsMap,
        SlotsDistinct;
      ghost var k0 := Stk();
      ghost var goal := Overlay(ShownBy(k0), k0.rows, OnlyInserts(InsMap(s)));
      ValidParts();
      InsertingStart(k0, s);
      assert s[0..] == s;
      for i := 0 to |s|
        invariant Valid() && Inserting(k0, Stk(), s[i..], goal)
      {
        ghost var k, rest := Stk(), s[i..];
        InsertingStep(k0, k, rest, goal);
        InsertingParts(k0, k, rest, goal);
        assert rest[0] == s[i] && rest[1..] == s[i + 1..];
        InsertRow(s[i].table, s[i].row);
      }
      assert s[|s|..] == [];
      InsertingEnd(k0, Stk(), goal);
    }

    /** The second loop of `commit`. */
    method ApplyUpdates(upd: map<(RowId, nat), ColVal>)
      requires Valid() && Writable(store.sch, Shown(), upd)
      modifies this, store
      ensures Valid()
      ensures Changes(Stk(), old(Stk()), Overlay(old(Shown()), old(store.rows), OnlyUpdates(upd)))
    {
      hide ShownBy, Sound, Stages, Bags, Tracked, Store.Valid, Updating, StackOk, Overlay, Changes, Write, Writable;
      ghost var k0 := Stk();
      ghost var goal := Overlay(ShownBy(k0), k0.rows, OnlyUpdates(upd));
      ValidParts();
      UpdatingStart(store.sch, k0, upd);
      var todo := upd;
      while todo != map[]
        invariant Valid() && Updating(store.sch, k0, Stk(), todo, goal)
        decreases |todo|
      {
        var u :| u in todo;
        UpdatingStep(store.sch, k0, Stk(), todo, goal, u);
        WriteColumn(u.0, u.1, todo[u]);
        todo := todo - {u};
      }
      UpdatingEnd(store.sch, k0, Stk(), goal);
    }

    /** The third loop of `commit`. */
    method ApplyRemoves(rem: set<(TableId, RowId)>)
      requires Valid() && forall u :: u in rem ==> u.1 in Shown() && Shown()[u.1].table == u.0
      modifies this, store`tbl, store`tables
      ensures Valid()
      ensures Changes(Stk(), old(Stk()), Overlay(old(Shown()), old(store.rows), OnlyRemoves(rem)))
    {
      hide ShownBy, Sound, Stages, Bags, Tracked, Store.Valid, Removing, StackOk, Overlay, Changes, TxnStack.RemoveRow;
      ghost var k0 := Stk();
      ghost var goal := Overlay(ShownBy(k0), k0.rows, OnlyRemoves(rem));
      ValidParts();
      RemovingStart(k0, rem);
      var todo := rem;
      while todo != {}
        invariant Valid() && Removing(k0, Stk(), todo, goal)
        decreases |todo|
      {
        var u :| u in todo;
        RemovingStep(k0, Stk(), todo, goal, u);
        RemoveRow(u.0, u.1);
        todo := todo - {u};
      }
      RemovingEnd(k0, Stk(), goal);
    }

    /** `commit`: afterwards the transaction below shows what this one showed, and everything further
        down shows what it did. */
    method Commit()
      requires Valid() && base != null && outcome == Open
      modifies this`outcome, base, store
      ensures outcome == Committed && base.Valid()
      ensures Changes(base.Stk(), old(base.Stk()), old(Shown()))
    {
      hide ShownBy, Sound, Stages, Bags, Tracked, Store.Valid, StackOk, KeysKept, Known, Overlay, Changes, InsMap,
        SlotsDistinct, Writable;
      ghost var k, k0 := Stk(), base.Stk();
      Parts();
      ValidParts();
      CommitPrepared(store.sch, k, Bags());
      CommitAllowed(store.sch, k);
      ghost var v, rows := ShownBy(k0), k0.rows;
      ghost var a := Overlay(v, rows, OnlyInserts(ins));
      ghost var b := Overlay(a, rows, OnlyUpdates(updates));

      base.ApplyInserts(inserts);
      ghost var k1 := base.Stk();
      ChangesShown(k1, k0, a);
      RowsMatterNot(a, k1.rows, rows, OnlyUpdates(updates));

      base.ApplyUpdates(updates);
      ghost var k2 := base.Stk();
      ChangesShown(k2, k1, b);
      ChangesTwice(k2, k1, k0, a, b);
      RowsMatterNot(b, k2.rows, rows, OnlyRemoves(removes));

      base.ApplyRemoves(removes);
      ChangesTwice(base.Stk(), k2, k0, b, ShownBy(k));
      outcome := Committed;
    }

    /** `abort`: the buffer is dropped; the transaction below was never touched. */
    method Abort()
      requires Valid() && base != null && outcome == Open
      modifies this`outcome
      ensures outcome == Aborted && base.Valid() && base.Stk() == old(base.Stk())
    {
      hide Sound, Stages, Bags, Store.Valid;
      Parts();
      outcome := Aborted;
    }
  }
}
