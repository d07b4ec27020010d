/** Secondary indices as values: base rows, index rows and the master index that links them. */
module IndexModel {
  import opened Keys
  import opened Multimap
  import opened TxnModel

  /** `master_index`: one index row per index, and the base row last. */
  datatype Master = Master(slots: seq<Option<RowId>>, back: RowId)

  /** All rows, the table each is in (index tables first, the base table last), the master indices,
      and the hidden pointer column by which a base or index row knows its master index. */
  datatype Ix = Ix(rows: map<RowId, Cols>, tbl: map<RowId, TableId>, masters: map<nat, Master>, ptr: map<RowId, nat>)

  type Indices = seq<seq<nat>>

  /** The row of index `i` that belongs to base row `r`. */
  predicate IndexRowOk(ix: Indices, s: Ix, r: RowId, m: nat, slot: Option<RowId>, i: nat)
    requires r in s.rows && i < |ix|
  {
    && slot.Some? && slot.value in s.tbl && s.tbl[slot.value] == i
    && slot.value in s.rows && s.rows[slot.value] == KeyOf(ix[i], s.rows[r])
    && slot.value in s.ptr && s.ptr[slot.value] == m
  }

  predicate SlotOk(ix: Indices, s: Ix, r: RowId, m: nat, slot: Option<RowId>, i: nat, gone: set<nat>)
    requires r in s.rows && i < |ix|
  {
    if i in gone then slot == None else IndexRowOk(ix, s, r, m, slot, i)
  }

  /** A base row and its master index; the rows of the indices in `gone` are missing. */
  predicate LiveOk(ix: Indices, s: Ix, r: RowId, gone: set<nat>)
  {
    && r in s.rows && r in s.ptr && s.ptr[r] in s.masters && (r in s.tbl ==> s.tbl[r] == |ix|)
    && var m := s.masters[s.ptr[r]];
       && m.back == r && |m.slots| == |ix|
       && forall i :: 0 <= i < |ix| ==> SlotOk(ix, s, r, s.ptr[r], m.slots[i], i, gone)
  }

  /** An index row leads back, through its master index, to a base row that knows it. */
  predicate OwnedOk(ix: Indices, s: Ix, live: set<RowId>, x: RowId)
    requires x in s.tbl
  {
    && x in s.ptr && s.ptr[x] in s.masters
    && var m := s.masters[s.ptr[x]];
       && m.back in live && m.back in s.ptr && s.ptr[m.back] == s.ptr[x]
       && s.tbl[x] < |m.slots| && m.slots[s.tbl[x]] == Some(x)
  }

  function GoneOf(r: RowId, f: RowId, gone: set<nat>): set<nat>
  {
    if r == f then gone else {}
  }

  /** Base rows and index rows agree, except that row `f` is being worked on. */
  ghost predicate Agree(ix: Indices, s: Ix, live: set<RowId>, f: RowId, gone: set<nat>)
  {
    && (forall r :: r in live ==> LiveOk(ix, s, r, GoneOf(r, f, gone)))
    && (forall x :: x in s.tbl && s.tbl[x] < |ix| ==> OwnedOk(ix, s, live, x))
  }

  // ---------- the steps ----------

  function SetSlot(s: Ix, m: nat, i: nat, slot: Option<RowId>): map<nat, Master>
    requires m in s.masters && i < |s.masters[m].slots|
  {
    s.masters[m := s.masters[m].(slots := s.masters[m].slots[i := slot])]
  }

  /** Erase one index row and forget it in the master index. */
  function DropRow(s: Ix, m: nat, i: nat, x: RowId): Ix
    requires m in s.masters && i < |s.masters[m].slots|
  {
    s.(tbl := s.tbl - {x}, masters := SetSlot(s, m, i, None))
  }

  lemma DropRowLive(ix: Indices, s: Ix, live: set<RowId>, f: RowId, gone: set<nat>, i: nat, x: RowId, r: RowId)
    requires Agree(ix, s, live, f, gone) && f in live && i < |ix| && i !in gone && r in live
    requires s.masters[s.ptr[f]].slots[i] == Some(x)
    ensures LiveOk(ix, DropRow(s, s.ptr[f], i, x), r, GoneOf(r, f, gone + {i}))
  {
  }

  lemma DropRowOwned(ix: Indices, s: Ix, live: set<RowId>, f: RowId, gone: set<nat>, i: nat, x: RowId, y: RowId)
    requires Agree(ix, s, live, f, gone) && f in live && i < |ix| && i !in gone
    requires s.masters[s.ptr[f]].slots[i] == Some(x) && y in s.tbl && s.tbl[y] < |ix| && y != x
    ensures OwnedOk(ix, DropRow(s, s.ptr[f], i, x), live, y)
  {
  }

  lemma DropRowAgree(ix: Indices, s: Ix, live: set<RowId>, f: RowId, gone: set<nat>, i: nat, x: RowId)
    requires Agree(ix, s, live, f, gone) && f in live && i < |ix| && i !in gone
    requires s.masters[s.ptr[f]].slots[i] == Some(x)
    ensures Agree(ix, DropRow(s, s.ptr[f], i, x), live, f, gone + {i})
  {
    assert LiveOk(ix, s, f, gone);
    var s' := DropRow(s, s.ptr[f], i, x);
    hide LiveOk, OwnedOk;
    forall r | r in live ensures LiveOk(ix, s', r, GoneOf(r, f, gone + {i})) {
      DropRowLive(ix, s, live, f, gone, i, x, r);
    }
    forall y | y in s'.tbl && s'.tbl[y] < |ix| ensures OwnedOk(ix, s', live, y) {
      DropRowOwned(ix, s, live, f, gone, i, x, y);
    }
  }

  /** Create the row of index `i` for base row `f`. */
  function AddRow(ix: Indices, s: Ix, f: RowId, i: nat, x: RowId): Ix
    requires f in s.rows && f in s.ptr && s.ptr[f] in s.masters && i < |ix| && i < |s.masters[s.ptr[f]].slots|
  {
    Ix(s.rows[x := KeyOf(ix[i], s.rows[f])], s.tbl[x := i], SetSlot(s, s.ptr[f], i, Some(x)), s.ptr[x := s.ptr[f]])
  }

  /** An identity no row, table or pointer knows. */
  predicate Unused(s: Ix, x: RowId)
  {
    x !in s.rows && x !in s.tbl && x !in s.ptr
  }

  lemma AddRowLive(ix: Indices, s: Ix, live: set<RowId>, f: RowId, gone: set<nat>, i: nat, x: RowId, r: RowId)
    requires Agree(ix, s, live, f, gone) && f in live && i < |ix| && i in gone && Unused(s, x) && r in live
    requires LiveOk(ix, s, f, gone)
    ensures LiveOk(ix, AddRow(ix, s, f, i, x), r, GoneOf(r, f, gone - {i}))
  {
  }

  lemma AddRowOwned(ix: Indices, s: Ix, live: set<RowId>, f: RowId, gone: set<nat>, i: nat, x: RowId, y: RowId)
    requires Agree(ix, s, live, f, gone) && f in live && i < |ix| && i in gone && Unused(s, x)
    requires LiveOk(ix, s, f, gone) && AddRow(ix, s, f, i, x).tbl.Keys == s.tbl.Keys + {x}
    requires y in s.tbl + map[x := i] && (s.tbl + map[x := i])[y] < |ix|
    ensures OwnedOk(ix, AddRow(ix, s, f, i, x), live, y)
  {
  }

  lemma AddRowAgree(ix: Indices, s: Ix, live: set<RowId>, f: RowId, gone: set<nat>, i: nat, x: RowId)
    requires Agree(ix, s, live, f, gone) && f in live && i < |ix| && i in gone && Unused(s, x)
    requires LiveOk(ix, s, f, gone)
    ensures Agree(ix, AddRow(ix, s, f, i, x), live, f, gone - {i})
  {
    var s' := AddRow(ix, s, f, i, x);
    hide LiveOk, OwnedOk;
    forall r | r in live ensures LiveOk(ix, s', r, GoneOf(r, f, gone - {i})) {
      AddRowLive(ix, s, live, f, gone, i, x, r);
    }
    forall y | y in s'.tbl && s'.tbl[y] < |ix| ensures OwnedOk(ix, s', live, y) {
      AddRowOwned(ix, s, live, f, gone, i, x, y);
    }
  }

  /** The base row leaves the base table, or comes back to it. */
  lemma BaseMoves(ix: Indices, s: Ix, live: set<RowId>, f: RowId, gone: set<nat>)
    requires Agree(ix, s, live, f, gone) && f in live
    ensures Agree(ix, s.(tbl := s.tbl - {f}), live, f, gone)
    ensures Agree(ix, s.(tbl := s.tbl[f := |ix|]), live, f, gone)
  {
    var a, b := s.(tbl := s.tbl - {f}), s.(tbl := s.tbl[f := |ix|]);
    assert LiveOk(ix, s, f, gone);
    forall r | r in live ensures LiveOk(ix, a, r, GoneOf(r, f, gone)) && LiveOk(ix, b, r, GoneOf(r, f, gone)) {
      BaseMovesLive(ix, s, live, f, gone, r);
    }
    hide LiveOk;
    forall y | y in s.tbl && s.tbl[y] < |ix| && y != f ensures OwnedOk(ix, a, live, y) && OwnedOk(ix, b, live, y) {
      assert OwnedOk(ix, s, live, y);
    }
  }

  lemma BaseMovesLive(ix: Indices, s: Ix, live: set<RowId>, f: RowId, gone: set<nat>, r: RowId)
    requires LiveOk(ix, s, f, gone) && LiveOk(ix, s, r, GoneOf(r, f, gone))
    ensures LiveOk(ix, s.(tbl := s.tbl - {f}), r, GoneOf(r, f, gone))
    ensures LiveOk(ix, s.(tbl := s.tbl[f := |ix|]), r, GoneOf(r, f, gone))
  {
  }

  /** Writing a column that no present index picks. */
  lemma WriteLive(ix: Indices, s: Ix, f: RowId, gone: set<nat>, c: nat, v: ColVal, r: RowId)
    requires LiveOk(ix, s, f, gone) && LiveOk(ix, s, r, GoneOf(r, f, gone)) && c < |s.rows[f]|
    requires forall i :: 0 <= i < |ix| && c in ix[i] ==> i in gone
    ensures LiveOk(ix, s.(rows := s.rows[f := s.rows[f][c := v]]), r, GoneOf(r, f, gone))
  {
    var s' := s.(rows := s.rows[f := s.rows[f][c := v]]);
    var slots := s.masters[s.ptr[r]].slots;
    forall j | 0 <= j < |ix| ensures SlotOk(ix, s', r, s.ptr[r], slots[j], j, GoneOf(r, f, gone)) {
      assert SlotOk(ix, s, r, s.ptr[r], slots[j], j, GoneOf(r, f, gone));
      if r == f && j !in gone {
        KeyKept(ix[j], s.rows[f], c, v);
      }
    }
  }

  lemma WriteAgree(ix: Indices, s: Ix, live: set<RowId>, f: RowId, gone: set<nat>, c: nat, v: ColVal)
    requires Agree(ix, s, live, f, gone) && f in live && f in s.rows && c < |s.rows[f]|
    requires forall i :: 0 <= i < |ix| && c in ix[i] ==> i in gone
    ensures Agree(ix, s.(rows := s.rows[f := s.rows[f][c := v]]), live, f, gone)
  {
    var s' := s.(rows := s.rows[f := s.rows[f][c := v]]);
    hide LiveOk;
    assert LiveOk(ix, s, f, GoneOf(f, f, gone));
    forall r | r in live ensures LiveOk(ix, s', r, GoneOf(r, f, gone)) {
      WriteLive(ix, s, f, gone, c, v, r);
    }
    forall y | y in s'.tbl && s'.tbl[y] < |ix| ensures OwnedOk(ix, s', live, y) {
      assert OwnedOk(ix, s, live, y);
    }
  }

  function AllOf(n: nat): (all: set<nat>)
    ensures forall i: nat :: i in all <==> i < n
  {
    if n == 0 then {} else AllOf(n - 1) + {n - 1}
  }

  /** A new base row gets an empty master index. */
  function NewMaster(ix: Indices, s: Ix, f: RowId, m: nat): Ix
  {
    s.(masters := s.masters[m := Master(seq(|ix|, i => None), f)], ptr := s.ptr[f := m])
  }

  lemma NewMasterLive(ix: Indices, s: Ix, f: RowId, m: nat, r: RowId)
    requires LiveOk(ix, s, r, {}) && r != f && m !in s.masters && f !in s.ptr
    ensures LiveOk(ix, NewMaster(ix, s, f, m), r, {})
  {
  }

  lemma NewMasterOwn(ix: Indices, s: Ix, f: RowId, m: nat)
    requires f in s.rows && f !in s.tbl
    ensures LiveOk(ix, NewMaster(ix, s, f, m), f, AllOf(|ix|))
  {
  }

  lemma NewMasterAgree(ix: Indices, s: Ix, live: set<RowId>, f: RowId, m: nat)
    requires Agree(ix, s, live, f, {}) && f !in live && f in s.rows && f !in s.ptr && f !in s.tbl && m !in s.masters
    ensures Agree(ix, NewMaster(ix, s, f, m), live + {f}, f, AllOf(|ix|))
  {
    var s' := NewMaster(ix, s, f, m);
    NewMasterOwn(ix, s, f, m);
    hide LiveOk, AllOf;
    forall r | r in live ensures LiveOk(ix, s', r, {}) {
      assert LiveOk(ix, s, r, GoneOf(r, f, {}));
      NewMasterLive(ix, s, f, m, r);
    }
    forall y | y in s'.tbl && s'.tbl[y] < |ix| ensures OwnedOk(ix, s', live + {f}, y) {
      assert OwnedOk(ix, s, live, y);
    }
  }

  /** A base row without index rows gives its master index up. */
  lemma DropMasterAgree(ix: Indices, s: Ix, live: set<RowId>, f: RowId)
    requires Agree(ix, s, live, f, AllOf(|ix|)) && f in live && LiveOk(ix, s, f, AllOf(|ix|))
    ensures Agree(ix, s.(masters := s.masters - {s.ptr[f]}), live - {f}, f, {})
  {
    var s' := s.(masters := s.masters - {s.ptr[f]});
    forall r | r in live - {f} ensures LiveOk(ix, s', r, GoneOf(r, f, {})) {
      DropMasterLive(ix, s, f, r);
    }
    forall y | y in s'.tbl && s'.tbl[y] < |ix| ensures OwnedOk(ix, s', live - {f}, y) {
      assert OwnedOk(ix, s, live, y);
      var m := s.ptr[f];
      assert SlotOk(ix, s, f, m, s.masters[m].slots[s.tbl[y]], s.tbl[y], AllOf(|ix|));
    }
  }

  lemma DropMasterLive(ix: Indices, s: Ix, f: RowId, r: RowId)
    requires LiveOk(ix, s, f, AllOf(|ix|)) && LiveOk(ix, s, r, {}) && r != f
    ensures LiveOk(ix, s.(masters := s.masters - {s.ptr[f]}), r, {})
  {
  }

  /** Nothing is missing: it does not matter which row was worked on. */
  lemma NothingGone(ix: Indices, s: Ix, live: set<RowId>, f: RowId, g: RowId)
    requires Agree(ix, s, live, f, {})
    ensures Agree(ix, s, live, g, {})
  {
  }

  /** A row created outside all tables. */
  lemma CreateAgree(ix: Indices, s: Ix, live: set<RowId>, f: RowId, x: RowId, cols: Cols)
    requires Agree(ix, s, live, f, {}) && x !in s.rows
    ensures Agree(ix, s.(rows := s.rows[x := cols]), live, f, {})
  {
  }

  // ---------- what the base table holds ----------

  function BaseOf(ix: Indices, s: Ix): map<RowId, Cols>
  {
    map r | r in BaseRows(ix, s) :: Memory(s.rows, r)
  }

  function BaseRows(ix: Indices, s: Ix): set<RowId>
  {
    set r | r in s.tbl && s.tbl[r] == |ix|
  }

  /** The same base rows with the same columns. */
  predicate SameBase(ix: Indices, s': Ix, s: Ix, live: set<RowId>)
  {
    && BaseRows(ix, s') == BaseRows(ix, s)
    && (forall r :: r in live && r in s.rows ==> r in s'.rows && s'.rows[r] == s.rows[r])
  }

  lemma DropRowSameBase(ix: Indices, s: Ix, live: set<RowId>, f: RowId, gone: set<nat>, i: nat, x: RowId)
    requires LiveOk(ix, s, f, gone) && i < |ix| && i !in gone && s.masters[s.ptr[f]].slots[i] == Some(x)
    ensures x in s.tbl && s.tbl[x] == i && x != f && SameBase(ix, DropRow(s, s.ptr[f], i, x), s, live)
  {
  }

  lemma AddRowSameBase(ix: Indices, s: Ix, live: set<RowId>, f: RowId, gone: set<nat>, i: nat, x: RowId)
    requires LiveOk(ix, s, f, gone) && i < |ix| && Unused(s, x)
    ensures x != f && SameBase(ix, AddRow(ix, s, f, i, x), s, live)
  {
  }

  lemma SameBaseItself(ix: Indices, s: Ix, live: set<RowId>)
    ensures SameBase(ix, s, s, live)
  {
  }

  lemma SameBaseRow(ix: Indices, s': Ix, s: Ix, live: set<RowId>, f: RowId)
    requires SameBase(ix, s', s, live) && f in live && f in s.rows
    ensures f in s'.rows && s'.rows[f] == s.rows[f]
  {
  }

  lemma SameBaseTwice(ix: Indices, s2: Ix, s1: Ix, s: Ix, live: set<RowId>)
    requires SameBase(ix, s2, s1, live) && SameBase(ix, s1, s, live)
    ensures SameBase(ix, s2, s, live)
  {
  }

  // ---------- index queries ----------

  /** From an index row to its base row: `Index::Cursor::next`. */
  function Owner(s: Ix, x: RowId): RowId
    requires x in s.ptr && s.ptr[x] in s.masters
  {
    s.masters[s.ptr[x]].back
  }

  /** The index row of a base row. */
  function RowIn(s: Ix, r: RowId, i: nat): RowId
    requires r in s.ptr && s.ptr[r] in s.masters && i < |s.masters[s.ptr[r]].slots|
    requires s.masters[s.ptr[r]].slots[i].Some?
  {
    s.masters[s.ptr[r]].slots[i].value
  }

  /** Index rows and base rows correspond one to one, and the index row shows the projection. */
  lemma OwnerExact(ix: Indices, s: Ix, f: RowId, i: nat, x: RowId)
    requires Agree(ix, s, BaseRows(ix, s), f, {}) && i < |ix| && x in s.tbl && s.tbl[x] == i
    ensures x in s.ptr && s.ptr[x] in s.masters
    ensures var r := Owner(s, x);
      && r in BaseRows(ix, s) && r in s.rows && x in s.rows && s.rows[x] == KeyOf(ix[i], s.rows[r])
      && r in s.ptr && s.ptr[r] in s.masters && i < |s.masters[s.ptr[r]].slots|
      && s.masters[s.ptr[r]].slots[i] == Some(x)
  {
  }

  lemma RowInExact(ix: Indices, s: Ix, f: RowId, i: nat, r: RowId)
    requires Agree(ix, s, BaseRows(ix, s), f, {}) && i < |ix| && r in BaseRows(ix, s)
    ensures r in s.rows && r in s.ptr && s.ptr[r] in s.masters && i < |s.masters[s.ptr[r]].slots|
    ensures s.masters[s.ptr[r]].slots[i].Some?
    ensures var x := RowIn(s, r, i);
      x in s.tbl && s.tbl[x] == i && x in s.rows && s.rows[x] == KeyOf(ix[i], s.rows[r])
      && x in s.ptr && s.ptr[x] == s.ptr[r] && Owner(s, x) == r
  {
  }
}
