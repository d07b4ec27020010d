/** Staged transactions as values: what a stack of write buffers over the tables shows. */
module TxnModel {
  import opened Keys
  import opened Bounds

  type Cols = seq<ColVal>

  datatype Rec = Rec(table: TableId, cols: Cols)

  /** What a transaction shows: the rows in some table, and their columns. */
  type Shown = map<RowId, Rec>

  /** The key of a row: its values in the key columns. */
  function KeyOf(keyCols: seq<nat>, cols: Cols): Key
  {
    if keyCols == [] then []
    else [if keyCols[0] < |cols| then cols[keyCols[0]] else I32(0)] + KeyOf(keyCols[1..], cols)
  }

  /** The key columns of each table. */
  type Schema = TableId -> seq<nat>

  lemma {:induction false} KeyKept(keyCols: seq<nat>, cols: Cols, c: nat, x: ColVal)
    requires c < |cols| && c !in keyCols
    ensures KeyOf(keyCols, cols[c := x]) == KeyOf(keyCols, cols)
  {
    if keyCols != [] {
      KeyKept(keyCols[1..], cols, c, x);
    }
  }

  // ---------- the reference: everything happens at once ----------

  function RefWrite(v: Shown, r: RowId, c: nat, x: ColVal): Shown
    requires r in v && c < |v[r].cols|
  {
    v[r := v[r].(cols := v[r].cols[c := x])]
  }

  function RefInsert(v: Shown, t: TableId, r: RowId, cols: Cols): Shown
  {
    v[r := Rec(t, cols)]
  }

  function RefRemove(v: Shown, r: RowId): Shown
  {
    v - {r}
  }

  /** The rows of `t` whose key lies in the interval. */
  function RefQuery(v: Shown, keyCols: seq<nat>, t: TableId, iv: Interval): set<RowId>
  {
    set r | r in v && v[r].table == t && iv.Contains(KeyOf(keyCols, v[r].cols))
  }

  /** A key lists the key columns, one for one. */
  lemma {:induction false} KeyAt(keyCols: seq<nat>, cols: Cols)
    ensures |KeyOf(keyCols, cols)| == |keyCols|
    ensures forall i :: 0 <= i < |keyCols| && keyCols[i] < |cols| ==> KeyOf(keyCols, cols)[i] == cols[keyCols[i]]
  {
    if keyCols != [] {
      KeyAt(keyCols[1..], cols);
      forall i | 0 < i < |keyCols| && keyCols[i] < |cols| ensures KeyOf(keyCols, cols)[i] == cols[keyCols[i]] {
        assert KeyOf(keyCols, cols)[i] == KeyOf(keyCols[1..], cols)[i - 1];
      }
    }
  }

  /** The rows below a key, at it and above it divide the table; between two keys lie the rows above the
      one and below the other. */
  lemma AnswersTogether(v: Shown, keyCols: seq<nat>, t: TableId, k: Key, hi: Key)
    ensures var below, at, above := RefQuery(v, keyCols, t, Below(k)), RefQuery(v, keyCols, t, Exactly(k)),
                                    RefQuery(v, keyCols, t, Above(k));
      && below !! at !! above && below + at + above == RefQuery(v, keyCols, t, All)
      && RefQuery(v, keyCols, t, Between(k, hi)) == above * RefQuery(v, keyCols, t, Below(hi))
    ensures forall r :: r in RefQuery(v, keyCols, t, All) <==> r in v && v[r].table == t
    ensures forall r :: r in RefQuery(v, keyCols, t, Exactly(k)) <==>
      r in v && v[r].table == t && KeyOf(keyCols, v[r].cols) == k
    ensures forall r :: r in RefQuery(v, keyCols, t, Below(k)) ==> Ordered(KeyOf(keyCols, v[r].cols), k, -1)
    ensures forall r :: r in RefQuery(v, keyCols, t, Above(k)) ==> Ordered(KeyOf(keyCols, v[r].cols), k, 1)
  {
    hide KeyOf, Less, Ordered;
    forall r | r in v ensures
      var key := KeyOf(keyCols, v[r].cols);
      && (Exactly(k).Contains(key) <==> key == k)
      && (Below(k).Contains(key) ==> key != k && Ordered(key, k, -1))
      && (Above(k).Contains(key) ==> key != k && Ordered(key, k, 1))
      && !(Below(k).Contains(key) && Above(k).Contains(key))
      && (Below(k).Contains(key) || key == k || Above(k).Contains(key))
      && (Between(k, hi).Contains(key) <==> Above(k).Contains(key) && Below(hi).Contains(key))
    {
      ThreeWays(k, KeyOf(keyCols, v[r].cols));
    }
  }

  // ---------- one write buffer ----------

  /** `inserts_`, `updates_` and `removes_`. */
  datatype Stage = Stage(ins: map<RowId, TableId>, upd: map<(RowId, nat), ColVal>, rem: set<(TableId, RowId)>)

  const NoStage := Stage(map[], map[], {})

  function Patch(cols: Cols, upd: map<(RowId, nat), ColVal>, r: RowId): (p: Cols)
    ensures |p| == |cols|
    ensures forall c :: 0 <= c < |p| ==> p[c] == if (r, c) in upd then upd[(r, c)] else cols[c]
  {
    seq(|cols|, c requires 0 <= c < |cols| => if (r, c) in upd then upd[(r, c)] else cols[c])
  }

  predicate Removed(base: Shown, st: Stage, r: RowId)
    requires r in base
  {
    (base[r].table, r) in st.rem
  }

  predicate Visible(base: Shown, st: Stage, r: RowId)
  {
    r in st.ins || (r in base && !Removed(base, st, r))
  }

  /** The columns of a row object. */
  function Memory(rows: map<RowId, Cols>, r: RowId): Cols
  {
    if r in rows then rows[r] else []
  }

  /** The rows of `t` in the interval among `among`, judged by the row objects themselves. */
  function Matching(sch: Schema, rows: map<RowId, Cols>, among: map<RowId, TableId>, t: TableId,
      iv: Interval): set<RowId>
  {
    set r | r in among && among[r] == t && iv.Contains(KeyOf(sch(t), Memory(rows, r)))
  }

  /** What a row looks like through a buffer. `rows` is the memory of all rows. */
  function Through(base: Shown, rows: map<RowId, Cols>, st: Stage, r: RowId): Rec
    requires Visible(base, st, r)
  {
    if r in st.ins then Rec(st.ins[r], Memory(rows, r))
    else Rec(base[r].table, Patch(base[r].cols, st.upd, r))
  }

  function Overlay(base: Shown, rows: map<RowId, Cols>, st: Stage): (v: Shown)
    ensures forall r :: r in v <==> Visible(base, st, r)
    ensures forall r :: r in v ==> v[r] == Through(base, rows, st, r)
  {
    map r | r in base.Keys + st.ins.Keys && Visible(base, st, r) :: Through(base, rows, st, r)
  }

  /** Staged rows are new, updates and removals concern rows that are there, and a removed row has
      no pending update. */
  ghost predicate StageOk(base: Shown, rows: map<RowId, Cols>, st: Stage)
  {
    && (forall r :: r in st.ins ==> r !in base && r in rows)
    && (forall k :: k in st.upd ==> k.0 in base && !Removed(base, st, k.0) && k.1 < |base[k.0].cols|)
    && (forall k :: k in st.rem ==> k.1 in base && base[k.1].table == k.0)
  }

  // ---------- the operations of one buffer ----------

  function StageUpdate(st: Stage, r: RowId, c: nat, x: ColVal): Stage
  {
    st.(upd := st.upd[(r, c) := x])
  }

  function StageInsert(st: Stage, t: TableId, r: RowId): Stage
  {
    st.(ins := st.ins[r := t], rem := st.rem - {(t, r)})
  }

  function Forget(upd: map<(RowId, nat), ColVal>, r: RowId): map<(RowId, nat), ColVal>
  {
    map k | k in upd && k.0 != r :: upd[k]
  }

  function StageRemove(st: Stage, t: TableId, r: RowId): Stage
  {
    if r in st.ins then st.(ins := st.ins - {r}, upd := Forget(st.upd, r))
    else st.(rem := st.rem + {(t, r)}, upd := Forget(st.upd, r))
  }

  /** Pointwise equality of views. */
  lemma SameShown(a: Shown, b: Shown)
    requires forall r :: r in a <==> r in b
    requires forall r :: r in a && r in b ==> a[r] == b[r]
    ensures a == b
  {
  }

  /** A write to a staged row goes to the row itself. */
  lemma WriteToStaged(base: Shown, rows: map<RowId, Cols>, st: Stage, r: RowId, c: nat, x: ColVal)
    requires StageOk(base, rows, st) && r in st.ins && c < |rows[r]|
    ensures StageOk(base, rows[r := rows[r][c := x]], st)
    ensures Overlay(base, rows[r := rows[r][c := x]], st) == RefWrite(Overlay(base, rows, st), r, c, x)
  {
  }

  lemma PatchedOne(cols: Cols, upd: map<(RowId, nat), ColVal>, r: RowId, c: nat, x: ColVal, q: RowId)
    requires q == r ==> c < |cols|
    ensures Patch(cols, upd[(r, c) := x], q) == if q == r then Patch(cols, upd, q)[c := x] else Patch(cols, upd, q)
  {
  }

  lemma UpdateStages(base: Shown, rows: map<RowId, Cols>, st: Stage, r: RowId, c: nat, x: ColVal)
    requires StageOk(base, rows, st) && r !in st.ins && r in base && !Removed(base, st, r) && c < |base[r].cols|
    ensures StageOk(base, rows, StageUpdate(st, r, c, x))
  {
  }

  /** A write to a row from below is buffered. */
  lemma WriteBuffered(base: Shown, rows: map<RowId, Cols>, st: Stage, r: RowId, c: nat, x: ColVal)
    requires StageOk(base, rows, st) && r !in st.ins && r in base && !Removed(base, st, r) && c < |base[r].cols|
    ensures StageOk(base, rows, StageUpdate(st, r, c, x))
    ensures Overlay(base, rows, StageUpdate(st, r, c, x)) == RefWrite(Overlay(base, rows, st), r, c, x)
  {
    hide StageOk, Patch;
    var st' := StageUpdate(st, r, c, x);
    UpdateStages(base, rows, st, r, c, x);
    var v := Overlay(base, rows, st);
    forall q | q in Overlay(base, rows, st') ensures Overlay(base, rows, st')[q] == RefWrite(v, r, c, x)[q] {
      if q !in st.ins {
        PatchedOne(base[q].cols, st.upd, r, c, x, q);
      }
    }
    SameShown(Overlay(base, rows, st'), RefWrite(v, r, c, x));
  }

  lemma InsertBuffered(base: Shown, rows: map<RowId, Cols>, st: Stage, t: TableId, r: RowId)
    requires StageOk(base, rows, st) && r in rows && r !in base
    ensures StageOk(base, rows, StageInsert(st, t, r))
    ensures Overlay(base, rows, StageInsert(st, t, r)) == RefInsert(Overlay(base, rows, st), t, r, rows[r])
  {
    assert (t, r) !in st.rem;
    SameShown(Overlay(base, rows, StageInsert(st, t, r)), RefInsert(Overlay(base, rows, st), t, r, rows[r]));
  }

  lemma ForgetOthers(cols: Cols, upd: map<(RowId, nat), ColVal>, r: RowId, q: RowId)
    requires q != r
    ensures Patch(cols, Forget(upd, r), q) == Patch(cols, upd, q)
  {
  }

  lemma RemoveStages(base: Shown, rows: map<RowId, Cols>, st: Stage, t: TableId, r: RowId)
    requires StageOk(base, rows, st) && r in Overlay(base, rows, st) && Overlay(base, rows, st)[r].table == t
    ensures StageOk(base, rows, StageRemove(st, t, r))
    ensures r in base && (t, r) !in st.rem ==> base[r].table == t
    ensures r in st.ins ==> r !in base
  {
  }

  lemma RemoveBuffered(base: Shown, rows: map<RowId, Cols>, st: Stage, t: TableId, r: RowId)
    requires StageOk(base, rows, st) && r in Overlay(base, rows, st) && Overlay(base, rows, st)[r].table == t
    ensures StageOk(base, rows, StageRemove(st, t, r))
    ensures Overlay(base, rows, StageRemove(st, t, r)) == RefRemove(Overlay(base, rows, st), r)
  {
    hide StageOk, Patch, Forget;
    var v, st' := Overlay(base, rows, st), StageRemove(st, t, r);
    RemoveStages(base, rows, st, t, r);
    forall q | q in Overlay(base, rows, st') && q in RefRemove(v, r)
      ensures Overlay(base, rows, st')[q] == RefRemove(v, r)[q]
    {
      if q !in st.ins {
        ForgetOthers(base[q].cols, st.upd, r, q);
      }
    }
    SameShown(Overlay(base, rows, st'), RefRemove(v, r));
  }

  /** A row that is not staged here may change without notice. */
  lemma UnstagedRow(base: Shown, rows: map<RowId, Cols>, st: Stage, r: RowId, cols: Cols)
    requires StageOk(base, rows, st) && r !in st.ins
    ensures StageOk(base, rows[r := cols], st)
    ensures Overlay(base, rows[r := cols], st) == Overlay(base, rows, st)
  {
  }

  /** An empty buffer shows what lies below. */
  lemma NothingStaged(base: Shown, rows: map<RowId, Cols>)
    ensures StageOk(base, rows, NoStage) && Overlay(base, rows, NoStage) == base
  {
    forall r | r in base ensures Patch(base[r].cols, NoStage.upd, r) == base[r].cols {
    }
    SameShown(Overlay(base, rows, NoStage), base);
  }
}
