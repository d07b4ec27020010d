/** Commit, and whole programs of nested transactions against immediate execution. */
module TxnRun {
  import opened Keys
  import opened Bounds
  import opened TxnModel
  import opened TxnStack
  import opened TxnQuery

  // ---------- commit ----------

  function OnlyInserts(ins: map<RowId, TableId>): Stage { Stage(ins, map[], {}) }
  function OnlyUpdates(upd: map<(RowId, nat), ColVal>): Stage { Stage(map[], upd, {}) }
  function OnlyRemoves(rem: set<(TableId, RowId)>): Stage { Stage(map[], map[], rem) }

  /** The three loops of `commit`, each in any order. */
  ghost function FlushInserts(b: Stack, ins: map<RowId, TableId>): Stack
    decreases |ins|
  {
    if ins == map[] then b
    else
      var r :| r in ins;
      FlushInserts(InsertRow(b, ins[r], r), ins - {r})
  }

  ghost function FlushUpdates(b: Stack, upd: map<(RowId, nat), ColVal>): Stack
    decreases |upd|
  {
    if upd == map[] then b
    else
      var k :| k in upd;
      if k.0 in ShownBy(b) && k.1 < |ShownBy(b)[k.0].cols|
      then FlushUpdates(Write(b, k.0, k.1, upd[k]), upd - {k})
      else b
  }

  ghost function FlushRemoves(b: Stack, rem: set<(TableId, RowId)>): Stack
    decreases |rem|
  {
    if rem == {} then b
    else
      var k :| k in rem;
      FlushRemoves(RemoveRow(b, k.0, k.1), rem - {k})
  }

  /** `commit`: play the buffer into the transaction below. */
  ghost function Commit(k: Stack): Stack
    requires k.stages != []
  {
    FlushRemoves(FlushUpdates(FlushInserts(k.Below(), k.Top().ins), k.Top().upd), k.Top().rem)
  }

  /** One more buffered insert. */
  lemma InsertStep(v: Shown, rows: map<RowId, Cols>, ins: map<RowId, TableId>, r: RowId)
    requires r in ins && forall q :: q in ins ==> q !in v && q in rows
    ensures Overlay(RefInsert(v, ins[r], r, rows[r]), rows, OnlyInserts(ins - {r})) ==
      Overlay(v, rows, OnlyInserts(ins))
  {
    var a := Overlay(RefInsert(v, ins[r], r, rows[r]), rows, OnlyInserts(ins - {r}));
    forall q | q in v ensures Patch(v[q].cols, map[], q) == v[q].cols {
    }
    assert Patch(rows[r], map[], r) == rows[r];
    SameShown(a, Overlay(v, rows, OnlyInserts(ins)));
  }

  lemma {:induction false} FlushInsertsCorrect(b: Stack, ins: map<RowId, TableId>)
    requires StackOk(b) && forall r :: r in ins ==> r in b.rows && r !in Known(b)
    ensures Changes(FlushInserts(b, ins), b, Overlay(ShownBy(b), b.rows, OnlyInserts(ins)))
    ensures FlushInserts(b, ins).rows == b.rows
    decreases |ins|
  {
    ShownIsKnown(b);
    hide StackOk, ShownBy, Levels, Overlay;
    if ins == map[] {
      assert OnlyInserts(ins) == NoStage;
      NothingStaged(ShownBy(b), b.rows);
    } else {
      var r :| r in ins && FlushInserts(b, ins) == FlushInserts(InsertRow(b, ins[r], r), ins - {r});
      InsertCorrect(b, ins[r], r);
      FlushInsertsCorrect(InsertRow(b, ins[r], r), ins - {r});
      InsertStep(ShownBy(b), b.rows, ins, r);
    }
  }

  lemma UpdateStep(v: Shown, rows: map<RowId, Cols>, upd: map<(RowId, nat), ColVal>, k: (RowId, nat))
    requires k in upd && k.0 in v && k.1 < |v[k.0].cols|
    ensures Overlay(RefWrite(v, k.0, k.1, upd[k]), rows, OnlyUpdates(upd - {k})) == Overlay(v, rows, OnlyUpdates(upd))
  {
    var w := RefWrite(v, k.0, k.1, upd[k]);
    forall q | q in v ensures Patch(w[q].cols, upd - {k}, q) == Patch(v[q].cols, upd, q) {
    }
    SameShown(Overlay(w, rows, OnlyUpdates(upd - {k})), Overlay(v, rows, OnlyUpdates(upd)));
  }

  lemma RowsMatterNot(v: Shown, rows: map<RowId, Cols>, rows': map<RowId, Cols>, st: Stage)
    requires st.ins == map[]
    ensures Overlay(v, rows, st) == Overlay(v, rows', st)
  {
  }

  lemma {:induction false} FlushUpdatesCorrect(b: Stack, upd: map<(RowId, nat), ColVal>)
    requires StackOk(b) && forall k :: k in upd ==> k.0 in ShownBy(b) && k.1 < |ShownBy(b)[k.0].cols|
    ensures Changes(FlushUpdates(b, upd), b, Overlay(ShownBy(b), b.rows, OnlyUpdates(upd)))
    decreases |upd|
  {
    hide StackOk, ShownBy, Levels, Overlay, Write;
    if upd == map[] {
      assert OnlyUpdates(upd) == NoStage;
      NothingStaged(ShownBy(b), b.rows);
    } else {
      var k :| k in upd && FlushUpdates(b, upd) == FlushUpdates(Write(b, k.0, k.1, upd[k]), upd - {k});
      WriteCorrect(b, k.0, k.1, upd[k]);
      var b' := Write(b, k.0, k.1, upd[k]);
      FlushUpdatesCorrect(b', upd - {k});
      UpdateStep(ShownBy(b), b.rows, upd, k);
      RowsMatterNot(ShownBy(b'), b'.rows, b.rows, OnlyUpdates(upd - {k}));
    }
  }

  lemma RemoveStep(v: Shown, rows: map<RowId, Cols>, rem: set<(TableId, RowId)>, k: (TableId, RowId))
    requires k in rem && k.1 in v && v[k.1].table == k.0
    ensures Overlay(RefRemove(v, k.1), rows, OnlyRemoves(rem - {k})) == Overlay(v, rows, OnlyRemoves(rem))
  {
  }

  lemma {:induction false} FlushRemovesCorrect(b: Stack, rem: set<(TableId, RowId)>)
    requires StackOk(b) && forall k :: k in rem ==> k.1 in ShownBy(b) && ShownBy(b)[k.1].table == k.0
    ensures Changes(FlushRemoves(b, rem), b, Overlay(ShownBy(b), b.rows, OnlyRemoves(rem)))
    decreases |rem|
  {
    hide StackOk, ShownBy, Levels, Overlay;
    if rem == {} {
      assert OnlyRemoves(rem) == NoStage;
      NothingStaged(ShownBy(b), b.rows);
    } else {
      var k :| k in rem && FlushRemoves(b, rem) == FlushRemoves(RemoveRow(b, k.0, k.1), rem - {k});
      RemoveCorrect(b, k.0, k.1);
      var b' := RemoveRow(b, k.0, k.1);
      FlushRemovesCorrect(b', rem - {k});
      RemoveStep(ShownBy(b), b.rows, rem, k);
      RowsMatterNot(ShownBy(b'), b'.rows, b.rows, OnlyRemoves(rem - {k}));
    }
  }

  /** Inserts, then updates, then removals, row by row. */
  lemma FlushedRow(v: Shown, rows: map<RowId, Cols>, st: Stage, q: RowId)
    requires StageOk(v, rows, st)
    ensures var a := Overlay(v, rows, OnlyInserts(st.ins));
            var b := Overlay(a, rows, OnlyUpdates(st.upd));
            var c := Overlay(b, rows, OnlyRemoves(st.rem));
      && (q in a <==> q in b)
      && (q in c <==> Visible(v, st, q))
      && (q in c ==> c[q] == Through(v, rows, st, q))
  {
    var a := Overlay(v, rows, OnlyInserts(st.ins));
    var b := Overlay(a, rows, OnlyUpdates(st.upd));
    if q in a {
      assert Patch(Patch(a[q].cols, st.upd, q), map[], q) == Patch(a[q].cols, st.upd, q);
      if q in st.ins {
        assert Patch(a[q].cols, st.upd, q) == a[q].cols;
      } else {
        assert Patch(v[q].cols, map[], q) == v[q].cols;
      }
    }
  }

  lemma FlushesAllowed(v: Shown, rows: map<RowId, Cols>, st: Stage)
    requires StageOk(v, rows, st)
    ensures var a := Overlay(v, rows, OnlyInserts(st.ins));
            var b := Overlay(a, rows, OnlyUpdates(st.upd));
      && (forall k :: k in st.upd ==> k.0 in a && k.1 < |a[k.0].cols|)
      && (forall k :: k in st.rem ==> k.1 in b && b[k.1].table == k.0)
  {
  }

  /** Inserts, then updates, then removals compose to the whole buffer. */
  lemma ThreeFlushes(v: Shown, rows: map<RowId, Cols>, st: Stage)
    requires StageOk(v, rows, st)
    ensures var a := Overlay(v, rows, OnlyInserts(st.ins));
            var b := Overlay(a, rows, OnlyUpdates(st.upd));
      Overlay(b, rows, OnlyRemoves(st.rem)) == Overlay(v, rows, st)
  {
    var a := Overlay(v, rows, OnlyInserts(st.ins));
    var b := Overlay(a, rows, OnlyUpdates(st.upd));
    var c, d := Overlay(b, rows, OnlyRemoves(st.rem)), Overlay(v, rows, st);
    hide StageOk, Patch, Through, Visible;
    forall q ensures (q in c <==> q in d) && (q in c ==> c[q] == d[q]) {
      FlushedRow(v, rows, st, q);
    }
    SameShown(c, d);
  }

  /** Committing makes the transaction below show exactly what the committed one showed. */
  lemma CommitCorrect(k: Stack)
    requires StackOk(k) && k.stages != []
    ensures Changes(Commit(k), k.Below(), ShownBy(k))
  {
    var b, st := k.Below(), k.Top();
    StackParts(k);
    hide StackOk, ShownBy, Levels, Overlay, StageOk;
    ThreeFlushes(ShownBy(b), k.rows, st);
    FlushesAllowed(ShownBy(b), k.rows, st);
    FlushInsertsCorrect(b, st.ins);
    var b1 := FlushInserts(b, st.ins);
    FlushUpdatesCorrect(b1, st.upd);
    var b2 := FlushUpdates(b1, st.upd);
    FlushRemovesCorrect(b2, st.rem);
    RowsMatterNot(ShownBy(b2), b2.rows, k.rows, OnlyRemoves(st.rem));
  }

  /** Playing a buffer into the level below stages no update of a key column there either. */
  lemma {:induction false} FlushInsertsKeys(sch: Schema, b: Stack, ins: map<RowId, TableId>)
    requires StackOk(b) && KeysKept(sch, b) && forall r :: r in ins ==> r in b.rows && r !in Known(b)
    ensures KeysKept(sch, FlushInserts(b, ins))
    decreases |ins|
  {
    hide StackOk, ShownBy, Levels, KeysKept;
    if ins != map[] {
      var r :| r in ins && FlushInserts(b, ins) == FlushInserts(InsertRow(b, ins[r], r), ins - {r});
      InsertCorrect(b, ins[r], r);
      InsertKeepsKeys(sch, b, ins[r], r);
      FlushInsertsKeys(sch, InsertRow(b, ins[r], r), ins - {r});
    }
  }

  predicate Writable(sch: Schema, v: Shown, upd: map<(RowId, nat), ColVal>)
  {
    forall k :: k in upd ==> k.0 in v && k.1 < |v[k.0].cols| && k.1 !in sch(v[k.0].table)
  }

  lemma StillWritable(sch: Schema, v: Shown, upd: map<(RowId, nat), ColVal>, k: (RowId, nat))
    requires k in upd && Writable(sch, v, upd)
    ensures Writable(sch, RefWrite(v, k.0, k.1, upd[k]), upd - {k})
  {
  }

  lemma {:induction false} FlushUpdatesKeys(sch: Schema, b: Stack, upd: map<(RowId, nat), ColVal>)
    requires StackOk(b) && KeysKept(sch, b) && Writable(sch, ShownBy(b), upd)
    ensures KeysKept(sch, FlushUpdates(b, upd))
    decreases |upd|
  {
    hide StackOk, ShownBy, Levels, KeysKept;
    if upd != map[] {
      var k :| k in upd && FlushUpdates(b, upd) == FlushUpdates(Write(b, k.0, k.1, upd[k]), upd - {k});
      WriteCorrect(b, k.0, k.1, upd[k]);
      WriteKeepsKeys(sch, b, k.0, k.1, upd[k]);
      StillWritable(sch, ShownBy(b), upd, k);
      FlushUpdatesKeys(sch, Write(b, k.0, k.1, upd[k]), upd - {k});
    }
  }

  lemma {:induction false} FlushRemovesKeys(sch: Schema, b: Stack, rem: set<(TableId, RowId)>)
    requires StackOk(b) && KeysKept(sch, b)
    requires forall k :: k in rem ==> k.1 in ShownBy(b) && ShownBy(b)[k.1].table == k.0
    ensures KeysKept(sch, FlushRemoves(b, rem))
    decreases |rem|
  {
    hide StackOk, ShownBy, Levels, KeysKept;
    if rem != {} {
      var k :| k in rem && FlushRemoves(b, rem) == FlushRemoves(RemoveRow(b, k.0, k.1), rem - {k});
      RemoveCorrect(b, k.0, k.1);
      RemoveKeepsKeys(sch, b, k.0, k.1);
      FlushRemovesKeys(sch, RemoveRow(b, k.0, k.1), rem - {k});
    }
  }

  lemma FlushesWritable(sch: Schema, v: Shown, rows: map<RowId, Cols>, st: Stage)
    requires StageOk(v, rows, st) && StageKeysKept(sch, v, st)
    ensures Writable(sch, Overlay(v, rows, OnlyInserts(st.ins)), st.upd)
  {
  }

  lemma CommitKeepsKeys(sch: Schema, k: Stack)
    requires StackOk(k) && k.stages != [] && KeysKept(sch, k)
    ensures KeysKept(sch, Commit(k))
  {
    var b, st := k.Below(), k.Top();
    StackParts(k);
    assert KeysKept(sch, b) && StageKeysKept(sch, ShownBy(b), st);
    hide StackOk, ShownBy, Levels, Overlay, StageOk, KeysKept, StageKeysKept;
    FlushesAllowed(ShownBy(b), k.rows, st);
    FlushesWritable(sch, ShownBy(b), k.rows, st);
    FlushInsertsCorrect(b, st.ins);
    FlushInsertsKeys(sch, b, st.ins);
    var b1 := FlushInserts(b, st.ins);
    FlushUpdatesCorrect(b1, st.upd);
    FlushUpdatesKeys(sch, b1, st.upd);
    var b2 := FlushUpdates(b1, st.upd);
    FlushRemovesKeys(sch, b2, st.rem);
  }

  // ---------- programs ----------

  datatype Cmd =
    | Get(r: RowId, c: nat)
    | Put(r: RowId, c: nat, x: ColVal)
    | Create(t: TableId, r: RowId, cols: Cols)               // Row::create and insert_row
    | Delete(t: TableId, r: RowId)
    | Find(t: TableId, iv: Interval)
    | Begin                                                   // start_nested
    | Finish                                                  // commit of the innermost
    | Abandon                                                 // abort of the innermost

  datatype Obs = Nothing | Got(x: ColVal) | Rows(rs: multiset<RowId>)

  /** Immediate execution: one private picture per open transaction, and the row objects ever used. */
  datatype Ref = Ref(levels: seq<Shown>, used: set<RowId>) {
    function Now(): Shown
      requires |levels| > 0
    {
      levels[|levels| - 1]
    }
    function SetNow(v: Shown): Ref
      requires |levels| > 0
    {
      this.(levels := levels[..|levels| - 1] + [v])
    }
  }

  /** Rows are used only while they are there, inserted rows are new, and keys stay as they are. */
  predicate Allowed(sch: Schema, s: Ref, cmd: Cmd)
    requires |s.levels| > 0
  {
    match cmd
    case Get(r, c) => r in s.Now() && c < |s.Now()[r].cols|
    case Put(r, c, _) => r in s.Now() && c < |s.Now()[r].cols| && c !in sch(s.Now()[r].table)
    case Create(_, r, _) => r !in s.used
    case Delete(t, r) => r in s.Now() && s.Now()[r].table == t
    case Find(_, _) => true
    case Begin => true
    case Finish => |s.levels| > 1
    case Abandon => |s.levels| > 1
  }

  function RefStep(sch: Schema, s: Ref, cmd: Cmd): (Ref, Obs)
    requires |s.levels| > 0 && Allowed(sch, s, cmd)
  {
    match cmd
    case Get(r, c) => (s, Got(s.Now()[r].cols[c]))
    case Put(r, c, x) => (s.SetNow(RefWrite(s.Now(), r, c, x)), Nothing)
    case Create(t, r, cols) => (s.SetNow(RefInsert(s.Now(), t, r, cols)).(used := s.used + {r}), Nothing)
    case Delete(_, r) => (s.SetNow(RefRemove(s.Now(), r)), Nothing)
    case Find(t, iv) => (s, Rows(multiset(RefQuery(s.Now(), sch(t), t, iv))))
    case Begin => (s.(levels := s.levels + [s.Now()]), Nothing)
    case Finish => (s.(levels := s.levels[..|s.levels| - 2] + [s.Now()]), Nothing)
    case Abandon => (s.(levels := s.levels[..|s.levels| - 1]), Nothing)
  }

  function Abs(k: Stack): Ref
  {
    Ref(Levels(k), k.rows.Keys)
  }

  /** The same command on the stack of buffers. Keys stay as they are, so the bags of staged rows stay
      in order, and all such bags answer alike. */
  ghost function Step(sch: Schema, k: Stack, cmd: Cmd): (Stack, Obs)
    requires Allowed(sch, Abs(k), cmd)
  {
    match cmd
    case Get(r, c) => (k, Got(Read(k, r, c)))
    case Put(r, c, x) => (Write(k, r, c, x), Nothing)
    case Create(t, r, cols) => (InsertRow(SetRow(k, r, cols), t, r), Nothing)
    case Delete(t, r) => (RemoveRow(k, t, r), Nothing)
    case Find(t, iv) => (k, Rows(multiset(Answer(sch, k, Filing(sch, k), t, iv))))
    case Begin => (k.(stages := k.stages + [NoStage]), Nothing)
    case Finish => (Commit(k), Nothing)
    case Abandon => (k.Below(), Nothing)
  }

  /** An operation that changes its own level only. */
  lemma LevelChanged(k': Stack, k: Stack, v: Shown)
    requires Changes(k', k, v)
    ensures Levels(k') == Levels(k)[..|Levels(k)| - 1] + [v]
  {
  }

  lemma LevelsParts(k: Stack)
    requires k.stages != []
    ensures Levels(k) == Levels(k.Below()) + [ShownBy(k)]
    ensures Levels(k.Below()) == Levels(k)[..|Levels(k)| - 1]
  {
  }

  lemma CreateCorrect(k: Stack, t: TableId, r: RowId, cols: Cols)
    requires StackOk(k) && r !in k.rows
    ensures var k' := InsertRow(SetRow(k, r, cols), t, r);
      && StackOk(k') && k'.rows.Keys == k.rows.Keys + {r}
      && Levels(k') == Levels(k)[..|Levels(k)| - 1] + [RefInsert(ShownBy(k), t, r, cols)]
  {
    hide StackOk, ShownBy, Levels, InsertRow, Known;
    KnownHasMemory(k);
    UnknownRow(k, r, cols);
    InsertCorrect(SetRow(k, r, cols), t, r);
    LevelChanged(InsertRow(SetRow(k, r, cols), t, r), SetRow(k, r, cols), RefInsert(ShownBy(k), t, r, cols));
  }

  lemma FinishCorrect(k: Stack)
    requires StackOk(k) && k.stages != []
    ensures StackOk(Commit(k)) && Commit(k).rows.Keys == k.rows.Keys
    ensures Levels(Commit(k)) == Levels(k)[..|Levels(k)| - 2] + [ShownBy(k)]
  {
    hide StackOk, ShownBy, Commit, Levels;
    LevelsParts(k);
    CommitCorrect(k);
    LevelChanged(Commit(k), k.Below(), ShownBy(k));
  }

  lemma BeginLevels(k: Stack)
    requires StackOk(k)
    ensures var n := k.(stages := k.stages + [NoStage]);
      StackOk(n) && Levels(n) == Levels(k) + [ShownBy(k)]
  {
    BeginCorrect(k);
  }

  lemma CreateKeepsKeys(sch: Schema, k: Stack, t: TableId, r: RowId, cols: Cols)
    requires StackOk(k) && KeysKept(sch, k) && r !in k.rows
    ensures KeysKept(sch, InsertRow(SetRow(k, r, cols), t, r))
  {
    hide StackOk, ShownBy, Levels, InsertRow, Known, KeysKept;
    KnownHasMemory(k);
    UnknownRow(k, r, cols);
    KeysDepend(sch, k, SetRow(k, r, cols));
    InsertKeepsKeys(sch, SetRow(k, r, cols), t, r);
  }

  lemma BeginKeepsKeys(sch: Schema, k: Stack)
    requires KeysKept(sch, k)
    ensures KeysKept(sch, k.(stages := k.stages + [NoStage]))
  {
  }

  lemma StepKeepsKeys(sch: Schema, k: Stack, cmd: Cmd)
    requires StackOk(k) && KeysKept(sch, k) && Allowed(sch, Abs(k), cmd)
    ensures KeysKept(sch, Step(sch, k, cmd).0)
  {
    hide StackOk, ShownBy, Levels, Read, Write, InsertRow, SetRow, RemoveRow, Commit, RefQuery, Changes, KeysKept,
      Answer, BagsList, BagsRise;
    match cmd
    case Get(r, c) =>
    case Put(r, c, x) => WriteKeepsKeys(sch, k, r, c, x);
    case Create(t, r, cols) => CreateKeepsKeys(sch, k, t, r, cols);
    case Delete(t, r) => RemoveKeepsKeys(sch, k, t, r);
    case Find(t, iv) =>
    case Begin => BeginKeepsKeys(sch, k);
    case Finish => CommitKeepsKeys(sch, k);
    case Abandon => KeysKeptBelow(sch, k);
  }

  lemma KeysKeptBelow(sch: Schema, k: Stack)
    requires KeysKept(sch, k) && k.stages != []
    ensures KeysKept(sch, k.Below())
  {
  }

  /** One command at any depth does what immediate execution does, and answers the same. */
  lemma StepCorrect(sch: Schema, k: Stack, cmd: Cmd)
    requires StackOk(k) && KeysKept(sch, k) && Allowed(sch, Abs(k), cmd)
    ensures StackOk(Step(sch, k, cmd).0) && KeysKept(sch, Step(sch, k, cmd).0)
    ensures (Abs(Step(sch, k, cmd).0), Step(sch, k, cmd).1) == RefStep(sch, Abs(k), cmd)
  {
    hide StackOk, ShownBy, Levels, Read, Write, InsertRow, SetRow, RemoveRow, Commit, RefQuery, Changes, KeysKept,
      KeysAgree, Answer, BagsList, BagsRise;
    StepKeepsKeys(sch, k, cmd);
    match cmd
    case Get(r, c) => ReadCorrect(k, r, c);
    case Put(r, c, x) => PutCorrect(k, r, c, x);
    case Create(t, r, cols) => CreateCorrect(k, t, r, cols);
    case Delete(t, r) => DeleteCorrect(k, t, r);
    case Find(t, iv) =>
      KeptKeysAgree(sch, k, t);
      AnswerCorrect(sch, k, Filing(sch, k), t, iv);
    case Begin => BeginLevels(k);
    case Finish => FinishCorrect(k);
    case Abandon =>
      StackParts(k);
      LevelsParts(k);
  }

  /** After a commit every row reads below as it read above. */
  lemma CommitThenRead(k: Stack, q: RowId, d: nat)
    requires StackOk(k) && k.stages != [] && q in ShownBy(k) && d < |ShownBy(k)[q].cols|
    ensures q in ShownBy(Commit(k)) && d < |ShownBy(Commit(k))[q].cols| && Read(Commit(k), q, d) == Read(k, q, d)
  {
    hide StackOk, ShownBy, Levels, Commit, Read;
    CommitCorrect(k);
    ReadCorrect(k, q, d);
    ReadCorrect(Commit(k), q, d);
  }

  lemma PutCorrect(k: Stack, r: RowId, c: nat, x: ColVal)
    requires StackOk(k) && r in ShownBy(k) && c < |ShownBy(k)[r].cols|
    ensures var k' := Write(k, r, c, x);
      && StackOk(k') && k'.rows.Keys == k.rows.Keys
      && Levels(k') == Levels(k)[..|Levels(k)| - 1] + [RefWrite(ShownBy(k), r, c, x)]
  {
    hide StackOk, ShownBy, Levels, Write;
    WriteCorrect(k, r, c, x);
    LevelChanged(Write(k, r, c, x), k, RefWrite(ShownBy(k), r, c, x));
  }

  lemma DeleteCorrect(k: Stack, t: TableId, r: RowId)
    requires StackOk(k) && r in ShownBy(k) && ShownBy(k)[r].table == t
    ensures var k' := RemoveRow(k, t, r);
      && StackOk(k') && k'.rows.Keys == k.rows.Keys
      && Levels(k') == Levels(k)[..|Levels(k)| - 1] + [RefRemove(ShownBy(k), r)]
  {
    hide StackOk, ShownBy, Levels, RemoveRow;
    RemoveCorrect(k, t, r);
    LevelChanged(RemoveRow(k, t, r), k, RefRemove(ShownBy(k), r));
  }

  predicate AllowedAll(sch: Schema, s: Ref, prog: seq<Cmd>)
    requires |s.levels| > 0
    decreases prog
  {
    prog == [] || (Allowed(sch, s, prog[0]) && AllowedAll(sch, RefStep(sch, s, prog[0]).0, prog[1..]))
  }

  function RefRun(sch: Schema, s: Ref, prog: seq<Cmd>): (Ref, seq<Obs>)
    requires |s.levels| > 0 && AllowedAll(sch, s, prog)
    decreases prog
  {
    if prog == [] then (s, [])
    else
      var (s1, o) := RefStep(sch, s, prog[0]);
      var (s2, os) := RefRun(sch, s1, prog[1..]);
      (s2, [o] + os)
  }

  ghost function Run(sch: Schema, k: Stack, prog: seq<Cmd>): (Stack, seq<Obs>)
    requires StackOk(k) && KeysKept(sch, k) && AllowedAll(sch, Abs(k), prog)
    decreases prog
  {
    if prog == [] then (k, [])
    else
      StepCorrect(sch, k, prog[0]);
      var (k1, o) := Step(sch, k, prog[0]);
      var (k2, os) := Run(sch, k1, prog[1..]);
      (k2, [o] + os)
  }

  /** Any program of reads, writes, inserts, removals, queries, begins, commits and aborts, at any
      depth, shows at every open level and answers to every question what immediate execution does. */
  lemma {:induction false} ProgramCorrect(sch: Schema, k: Stack, prog: seq<Cmd>)
    requires StackOk(k) && KeysKept(sch, k) && AllowedAll(sch, Abs(k), prog)
    ensures StackOk(Run(sch, k, prog).0) && KeysKept(sch, Run(sch, k, prog).0)
    ensures (Abs(Run(sch, k, prog).0), Run(sch, k, prog).1) == RefRun(sch, Abs(k), prog)
    decreases prog
  {
    if prog != [] {
      StepCorrect(sch, k, prog[0]);
      ProgramCorrect(sch, Step(sch, k, prog[0]).0, prog[1..]);
    }
  }

  // ---------- a nested transaction is as good as none ----------

  /** A program that closes only what it opened does not depend on the levels further down. */
  lemma {:induction false} LowerLevelsIrrelevant(sch: Schema, low: seq<Shown>, l: seq<Shown>, used: set<RowId>,
      prog: seq<Cmd>)
    requires |l| > 0 && AllowedAll(sch, Ref(l, used), prog)
    ensures AllowedAll(sch, Ref(low + l, used), prog)
    ensures var (s, os) := RefRun(sch, Ref(l, used), prog);
      RefRun(sch, Ref(low + l, used), prog) == (Ref(low + s.levels, s.used), os)
    decreases prog
  {
    if prog != [] {
      LowerStep(sch, low, l, used, prog[0]);
      var (s, _) := RefStep(sch, Ref(l, used), prog[0]);
      LowerLevelsIrrelevant(sch, low, s.levels, s.used, prog[1..]);
    }
  }

  lemma LowerStep(sch: Schema, low: seq<Shown>, l: seq<Shown>, used: set<RowId>, cmd: Cmd)
    requires |l| > 0 && Allowed(sch, Ref(l, used), cmd)
    ensures Allowed(sch, Ref(low + l, used), cmd)
    ensures var (s, o) := RefStep(sch, Ref(l, used), cmd);
      |s.levels| > 0 && RefStep(sch, Ref(low + l, used), cmd) == (Ref(low + s.levels, s.used), o)
  {
    var n := |l| - 1;
    assert (low + l)[..|low + l| - 1] == low + l[..n];
    if n > 0 {
      assert (low + l)[..|low + l| - 2] == low + l[..n - 1];
    }
    hide RefWrite, RefInsert, RefRemove, RefQuery;
    forall v: Shown ensures (low + l[..n]) + [v] == low + (l[..n] + [v]) {
    }
    if n > 0 {
      forall v: Shown ensures (low + l[..n - 1]) + [v] == low + (l[..n - 1] + [v]) {
      }
    }
    assert (low + l) + [l[n]] == low + (l + [l[n]]);
  }

  lemma StepHasLevels(sch: Schema, s: Ref, cmd: Cmd)
    requires |s.levels| > 0 && Allowed(sch, s, cmd)
    ensures |RefStep(sch, s, cmd).0.levels| > 0
  {
  }

  lemma {:induction false} RunConcat(sch: Schema, s: Ref, a: seq<Cmd>, b: seq<Cmd>)
    requires |s.levels| > 0 && AllowedAll(sch, s, a) && |RefRun(sch, s, a).0.levels| > 0
    requires AllowedAll(sch, RefRun(sch, s, a).0, b)
    ensures AllowedAll(sch, s, a + b)
    ensures RefRun(sch, s, a + b) ==
      (RefRun(sch, RefRun(sch, s, a).0, b).0, RefRun(sch, s, a).1 + RefRun(sch, RefRun(sch, s, a).0, b).1)
    decreases a
  {
    hide RefStep, Allowed;
    if a == [] {
      assert a + b == b;
      assert [] + RefRun(sch, s, b).1 == RefRun(sch, s, b).1;
    } else {
      assert (a + b)[0] == a[0] && (a + b)[1..] == a[1..] + b;
      StepHasLevels(sch, s, a[0]);
      var (s1, o) := RefStep(sch, s, a[0]);
      RunConcat(sch, s1, a[1..], b);
      var (s2, os) := RefRun(sch, s1, a[1..]);
      var os' := RefRun(sch, s2, b).1;
      assert [o] + (os + os') == ([o] + os) + os';
    }
  }

  /** The program, closed over the level it starts on. */
  ghost predicate Closed(sch: Schema, v: Shown, used: set<RowId>, prog: seq<Cmd>)
  {
    AllowedAll(sch, Ref([v], used), prog) && |RefRun(sch, Ref([v], used), prog).0.levels| == 1
  }

  /** Where a closed program leads from any stack of levels. */
  lemma ClosedRun(sch: Schema, low: seq<Shown>, v: Shown, used: set<RowId>, prog: seq<Cmd>)
    requires Closed(sch, v, used, prog)
    ensures var (s, os) := RefRun(sch, Ref([v], used), prog);
      && AllowedAll(sch, Ref(low + [v], used), prog)
      && RefRun(sch, Ref(low + [v], used), prog) == (Ref(low + [s.Now()], s.used), os)
  {
    LowerLevelsIrrelevant(sch, low, [v], used, prog);
    var s := RefRun(sch, Ref([v], used), prog).0;
    assert s.levels == [s.Now()];
  }

  lemma RefNested(sch: Schema, low: seq<Shown>, v: Shown, used: set<RowId>, prog: seq<Cmd>, last: Cmd)
    requires Closed(sch, v, used, prog) && (last == Finish || last == Abandon)
    ensures var s := Ref(low + [v], used);
            var (e, os) := RefRun(sch, Ref([v], used), prog);
      && AllowedAll(sch, s, [Begin] + prog + [last])
      && RefRun(sch, s, [Begin] + prog + [last]) ==
           (Ref(low + [if last == Finish then e.Now() else v], e.used), [Nothing] + os + [Nothing])
  {
    var s := Ref(low + [v], used);
    var (e, os) := RefRun(sch, Ref([v], used), prog);
    var s1 := Ref(low + [v] + [v], used);
    assert RefStep(sch, s, Begin) == (s1, Nothing);
    assert [Begin][1..] == [];
    assert RefRun(sch, s, [Begin]) == (s1, [Nothing]) by { assert [Nothing] + [] == [Nothing]; }
    ClosedRun(sch, low + [v], v, used, prog);
    RunConcat(sch, s, [Begin], prog);
    var s2 := Ref(low + [v] + [e.Now()], e.used);
    RefLast(sch, s2, low, v, e.Now(), last);
    RunConcat(sch, s, [Begin] + prog, [last]);
  }

  lemma RefLast(sch: Schema, s: Ref, low: seq<Shown>, v: Shown, w: Shown, last: Cmd)
    requires s.levels == low + [v] + [w] && (last == Finish || last == Abandon)
    ensures AllowedAll(sch, s, [last])
    ensures RefRun(sch, s, [last]) == (Ref(low + [if last == Finish then w else v], s.used), [Nothing])
  {
    assert [last][1..] == [];
    assert [Nothing] + [] == [Nothing];
    assert s.levels[..|s.levels| - 2] == low && s.levels[..|s.levels| - 1] == low + [v];
  }

  lemma LevelsEnd(k: Stack) returns (low: seq<Shown>)
    ensures Levels(k) == low + [ShownBy(k)]
  {
    low := Levels(k)[..|Levels(k)| - 1];
  }

  /** Running a closed program inside a nested transaction and committing it leaves every level, and
      answers every question, as running it directly; aborting it leaves every level as it was. */
  lemma NestedIsDirect(sch: Schema, k: Stack, prog: seq<Cmd>)
    requires StackOk(k) && KeysKept(sch, k) && Closed(sch, ShownBy(k), k.rows.Keys, prog)
    ensures AllowedAll(sch, Abs(k), prog)
    ensures AllowedAll(sch, Abs(k), [Begin] + prog + [Finish]) && AllowedAll(sch, Abs(k), [Begin] + prog + [Abandon])
    ensures Levels(Run(sch, k, [Begin] + prog + [Finish]).0) == Levels(Run(sch, k, prog).0)
    ensures Run(sch, k, [Begin] + prog + [Finish]).1 == [Nothing] + Run(sch, k, prog).1 + [Nothing]
    ensures Levels(Run(sch, k, [Begin] + prog + [Abandon]).0) == Levels(k)
  {
    hide StackOk, KeysKept, Levels, ShownBy, Closed, Run, RefRun, AllowedAll;
    var low := LevelsEnd(k);
    var v, used := ShownBy(k), k.rows.Keys;
    ClosedRun(sch, low, v, used, prog);
    RefNested(sch, low, v, used, prog, Finish);
    RefNested(sch, low, v, used, prog, Abandon);
    ProgramCorrect(sch, k, prog);
    ProgramCorrect(sch, k, [Begin] + prog + [Finish]);
    ProgramCorrect(sch, k, [Begin] + prog + [Abandon]);
  }

  /** Until the topmost transaction commits, nothing below it shows any change: not the buffers, and
      not the tables. */
  lemma BelowUntouched(sch: Schema, k: Stack, prog: seq<Cmd>)
    requires StackOk(k) && KeysKept(sch, k) && Closed(sch, ShownBy(k), k.rows.Keys, prog)
    ensures AllowedAll(sch, Abs(k), prog)
    ensures var n := |Levels(k)| - 1; var after := Levels(Run(sch, k, prog).0);
      |after| == n + 1 && after[..n] == Levels(k)[..n]
  {
    hide StackOk, KeysKept, Levels, ShownBy, Closed, Run, RefRun, AllowedAll;
    var low := LevelsEnd(k);
    ClosedRun(sch, low, ShownBy(k), k.rows.Keys, prog);
    ProgramCorrect(sch, k, prog);
  }
}
