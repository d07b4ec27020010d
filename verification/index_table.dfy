/** `IndexedTable`: a sorted table with secondary indices, kept through inserts, removals and updates. */
module IndexTable {
  import opened Keys
  import opened Bounds
  import opened Multimap
  import opened TxnModel
  import opened TxnStack
  import opened TxnCursor
  import opened TxnSlots
  import opened TxnStore
  import opened IndexModel

  /** The key columns of an index row: all but the hidden pointer. */
  function Upto(n: nat): (cs: seq<nat>)
    ensures |cs| == n && forall i :: 0 <= i < n ==> cs[i] == i
  {
    seq(n, i => i)
  }

  lemma {:induction false} SliceKey(cols: Cols, from: nat)
    requires from <= |cols|
    ensures KeyOf(Upto(|cols|)[from..], cols) == cols[from..]
    decreases |cols| - from
  {
    if from < |cols| {
      SliceKey(cols, from + 1);
      assert Upto(|cols|)[from..][1..] == Upto(|cols|)[from + 1..];
    }
  }

  /** An index row's key is the row. */
  lemma WholeKey(cols: Cols)
    ensures KeyOf(Upto(|cols|), cols) == cols
  {
    SliceKey(cols, 0);
    assert Upto(|cols|)[0..] == Upto(|cols|) && cols[0..] == cols;
  }

  function SchemaFor(ix: Indices, keyCols: seq<nat>): TableId -> seq<nat>
  {
    (t: TableId) => if t < |ix| then Upto(|ix[t]|) else keyCols
  }

  /** The indices that pick a column. */
  function Affected(ix: Indices, c: nat, n: nat): (a: set<nat>)
    requires n <= |ix|
    ensures forall i :: i in a <==> 0 <= i < n && c in ix[i]
  {
    if n == 0 then {}
    else if c in ix[n - 1] then Affected(ix, c, n - 1) + {n - 1} else Affected(ix, c, n - 1)
  }

  /** The search loop that decides whether an index picks a column. */
  method Picks(cols: seq<nat>, c: nat) returns (affected: bool)
    ensures affected <==> c in cols
  {
    for j := 0 to |cols|
      invariant c !in cols[..j]
    {
      if cols[j] == c {
        return true;
      }
    }
    assert cols[..|cols|] == cols;
    return false;
  }

  lemma {:induction false} KeySnoc(keyCols: seq<nat>, c: nat, cols: Cols)
    ensures KeyOf(keyCols + [c], cols) == KeyOf(keyCols, cols) + [if c < |cols| then cols[c] else I32(0)]
  {
    if keyCols != [] {
      KeySnoc(keyCols[1..], c, cols);
      assert (keyCols + [c])[1..] == keyCols[1..] + [c];
    }
  }

  /** The loop of `make_index_row` that picks columns from the base row. */
  method PickColumns(picked: seq<nat>, cols: Cols) returns (key: Cols)
    requires forall j :: 0 <= j < |picked| ==> picked[j] < |cols|
    ensures key == KeyOf(picked, cols)
    ensures |key| == |picked| && forall j :: 0 <= j < |picked| ==> key[j] == cols[picked[j]]
  {
    key := [];
    for j := 0 to |picked|
      invariant key == KeyOf(picked[..j], cols)
      invariant |key| == j && forall i :: 0 <= i < j ==> key[i] == cols[picked[i]]
    {
      KeySnoc(picked[..j], picked[j], cols);
      assert picked[..j + 1] == picked[..j] + [picked[j]];
      key := key + [cols[picked[j]]];
    }
    assert picked[..|picked|] == picked;
  }

  // ---------- index queries ----------

  /** What a scan of the base table would select by the columns of index `i`. */
  function Selected(ix: Indices, s: Ix, i: nat, iv: Interval): set<RowId>
    requires i < |ix|
  {
    set r | r in BaseRows(ix, s) && iv.Contains(KeyOf(ix[i], Memory(s.rows, r)))
  }

  /** The index rows that a query of index table `i` selects. */
  function Hits(ix: Indices, s: Ix, i: nat, iv: Interval): set<RowId>
    requires i < |ix|
  {
    RefQuery(TableRows(s.rows, s.tbl), Upto(|ix[i]|), i, iv)
  }

  /** A hit leads to a selected row, and to a different one for each hit. */
  lemma HitIsSelected(ix: Indices, s: Ix, i: nat, iv: Interval, x: RowId)
    requires Agree(ix, s, BaseRows(ix, s), 0, {}) && i < |ix| && x in Hits(ix, s, i, iv)
    ensures x in s.ptr && s.ptr[x] in s.masters && Owner(s, x) in Selected(ix, s, i, iv)
    ensures s.masters[s.ptr[x]].back in s.ptr && s.ptr[s.masters[s.ptr[x]].back] in s.masters
    ensures i < |s.masters[s.ptr[Owner(s, x)]].slots| && s.masters[s.ptr[Owner(s, x)]].slots[i] == Some(x)
  {
    OwnerExact(ix, s, 0, i, x);
    KeyAt(ix[i], s.rows[Owner(s, x)]);
    WholeKey(s.rows[x]);
  }

  lemma SelectedIsHit(ix: Indices, s: Ix, i: nat, iv: Interval, r: RowId) returns (x: RowId)
    requires Agree(ix, s, BaseRows(ix, s), 0, {}) && i < |ix| && r in Selected(ix, s, i, iv)
    ensures x in Hits(ix, s, i, iv) && x in s.ptr && s.ptr[x] in s.masters && Owner(s, x) == r
  {
    RowInExact(ix, s, 0, i, r);
    x := RowIn(s, r, i);
    KeyAt(ix[i], s.rows[r]);
    WholeKey(s.rows[x]);
  }

  lemma {:induction false} SetOnce(xs: seq<RowId>, of: set<RowId>)
    requires multiset(xs) == multiset(of)
    ensures forall x :: x in xs <==> x in of
    ensures forall a, b :: 0 <= a < b < |xs| ==> xs[a] != xs[b]
  {
    forall x ensures x in xs <==> x in of {
      assert x in multiset(xs) <==> x in multiset(of);
    }
    forall a, b | 0 <= a < b < |xs| ensures xs[a] != xs[b] {
      assert xs == xs[..a] + [xs[a]] + xs[a + 1..b] + [xs[b]] + xs[b + 1..];
      assert multiset(of)[xs[a]] <= 1;
    }
  }

  /** Part of the way through the hits `xs`. */
  ghost predicate Draining(ix: Indices, s: Ix, i: nat, iv: Interval, xs: seq<RowId>, rest: seq<RowId>, q: seq<RowId>)
    requires i < |ix|
  {
    && multiset(xs) == multiset(Hits(ix, s, i, iv)) && |q| <= |xs| && rest == xs[|q|..]
    && forall j :: 0 <= j < |q| ==> xs[j] in s.ptr && s.ptr[xs[j]] in s.masters && q[j] == Owner(s, xs[j])
  }

  lemma DrainingStart(ix: Indices, s: Ix, i: nat, iv: Interval, xs: seq<RowId>)
    requires i < |ix| && multiset(xs) == multiset(Hits(ix, s, i, iv))
    ensures Draining(ix, s, i, iv, xs, xs, [])
  {
  }

  lemma DrainingHead(ix: Indices, s: Ix, i: nat, iv: Interval, xs: seq<RowId>, rest: seq<RowId>, q: seq<RowId>)
    requires i < |ix| && Draining(ix, s, i, iv, xs, rest, q) && rest != []
    ensures rest[0] in Hits(ix, s, i, iv)
  {
    SetOnce(xs, Hits(ix, s, i, iv));
    assert rest[0] == xs[|q|];
  }

  lemma DrainingStep(ix: Indices, s: Ix, i: nat, iv: Interval, xs: seq<RowId>, rest: seq<RowId>, q: seq<RowId>,
      x: RowId, rest': seq<RowId>)
    requires i < |ix| && Draining(ix, s, i, iv, xs, rest, q) && rest == [x] + rest' && x in s.ptr
    requires s.ptr[x] in s.masters
    ensures Draining(ix, s, i, iv, xs, rest', q + [Owner(s, x)])
  {
  }

  /** `Index::Cursor::next` over all hits yields the selected rows, each once. */
  lemma OwnersOfHits(ix: Indices, s: Ix, i: nat, iv: Interval, xs: seq<RowId>, q: seq<RowId>)
    requires Agree(ix, s, BaseRows(ix, s), 0, {}) && i < |ix| && multiset(xs) == multiset(Hits(ix, s, i, iv))
    requires |q| == |xs|
    requires forall j :: 0 <= j < |q| ==> xs[j] in s.ptr && s.ptr[xs[j]] in s.masters && q[j] == Owner(s, xs[j])
    ensures multiset(q) == multiset(Selected(ix, s, i, iv))
  {
    hide Agree, Hits, Selected;
    SetOnce(xs, Hits(ix, s, i, iv));
    forall j | 0 <= j < |q| ensures q[j] in Selected(ix, s, i, iv) {
      HitIsSelected(ix, s, i, iv, xs[j]);
    }
    forall r | r in Selected(ix, s, i, iv) ensures r in q {
      var x := SelectedIsHit(ix, s, i, iv, r);
      var j :| 0 <= j < |xs| && xs[j] == x;
      assert q[j] == r;
    }
    forall a, b | 0 <= a < b < |q| ensures q[a] != q[b] {
      HitIsSelected(ix, s, i, iv, xs[a]);
      HitIsSelected(ix, s, i, iv, xs[b]);
    }
    DistinctCounts(q, Selected(ix, s, i, iv));
  }

  /** The projections rise along the rows, or fall. */
  predicate InProjectionOrder(ix: Indices, s: Ix, i: nat, q: seq<RowId>, descending: bool)
    requires i < |ix|
  {
    forall a, b :: 0 <= a < b < |q| ==>
      var x, y := KeyOf(ix[i], Memory(s.rows, q[a])), KeyOf(ix[i], Memory(s.rows, q[b]));
      if descending then !Less(x, y) else !Less(y, x)
  }

  /** The key of an index row is the projection of its base row. */
  lemma HitKey(ix: Indices, keyCols: seq<nat>, s: Ix, i: nat, iv: Interval, x: RowId)
    requires Agree(ix, s, BaseRows(ix, s), 0, {}) && i < |ix| && x in Hits(ix, s, i, iv)
    ensures x in s.ptr && s.ptr[x] in s.masters
    ensures KeyIn(SchemaFor(ix, keyCols), s.rows, i, x) == KeyOf(ix[i], Memory(s.rows, Owner(s, x)))
  {
    OwnerExact(ix, s, 0, i, x);
    KeyAt(ix[i], s.rows[Owner(s, x)]);
    WholeKey(s.rows[x]);
  }

  lemma HitsInOrder(ix: Indices, keyCols: seq<nat>, s: Ix, i: nat, iv: Interval, xs: seq<RowId>, q: seq<RowId>,
      descending: bool)
    requires Agree(ix, s, BaseRows(ix, s), 0, {}) && i < |ix| && Draining(ix, s, i, iv, xs, [], q)
    requires InKeyOrder(SchemaFor(ix, keyCols), s.rows, i, xs, descending)
    ensures InProjectionOrder(ix, s, i, q, descending)
  {
    SetOnce(xs, Hits(ix, s, i, iv));
    assert |xs[|q|..]| == |xs| - |q|;
    hide Agree, Hits, KeyOf, KeyIn, Less;
    forall j | 0 <= j < |q|
      ensures KeyIn(SchemaFor(ix, keyCols), s.rows, i, xs[j]) == KeyOf(ix[i], Memory(s.rows, q[j]))
    {
      HitKey(ix, keyCols, s, i, iv, xs[j]);
    }
  }

  lemma Drained(ix: Indices, s: Ix, i: nat, iv: Interval, xs: seq<RowId>, q: seq<RowId>)
    requires Agree(ix, s, BaseRows(ix, s), 0, {}) && i < |ix| && Draining(ix, s, i, iv, xs, [], q)
    ensures multiset(q) == multiset(Selected(ix, s, i, iv))
  {
    assert |xs[|q|..]| == |xs| - |q|;
    OwnersOfHits(ix, s, i, iv, xs, q);
  }

  /** The row has every column that an index picks. */
  predicate Fits(ix: Indices, cols: Cols)
  {
    forall i, j :: 0 <= i < |ix| && 0 <= j < |ix[i]| ==> ix[i][j] < |cols|
  }

  lemma Inserted(ix: Indices, s: Ix, f: RowId)
    requires f !in s.tbl
    ensures f !in BaseRows(ix, s)
  {
  }

  /** What the steps of an insertion leave in the base table. */
  lemma InsertedBase(ix: Indices, s3: Ix, s2: Ix, s1: Ix, s: Ix, f: RowId)
    requires s1.rows == s.rows && s1.tbl == s.tbl && SameBase(ix, s2, s1, BaseRows(ix, s) + {f})
    requires s3.rows == s2.rows && s3.tbl == s2.tbl[f := |ix|]
    requires f in s.rows && forall r :: r in s.tbl ==> r in s.rows
    ensures BaseRows(ix, s3) == BaseRows(ix, s) + {f}
    ensures BaseOf(ix, s3) == BaseOf(ix, s)[f := s.rows[f]]
  {
  }

  lemma RemovedBase(ix: Indices, s2: Ix, s1: Ix, s: Ix, f: RowId)
    requires s1.rows == s.rows && s1.tbl == s.tbl - {f} && forall r :: r in s.tbl ==> r in s.rows
    requires SameBase(ix, s2, s1, BaseRows(ix, s))
    ensures BaseRows(ix, s2) == BaseRows(ix, s) - {f} && BaseOf(ix, s2) == BaseOf(ix, s) - {f}
  {
  }

  lemma Unchanged(ix: Indices, s: Ix, f: RowId, c: nat, v: ColVal)
    requires f in BaseRows(ix, s) && f in s.rows && c < |s.rows[f]| && s.rows[f][c] == v
    ensures BaseOf(ix, s) == BaseOf(ix, s)[f := BaseOf(ix, s)[f][c := v]]
  {
    assert s.rows[f][c := v] == s.rows[f];
  }

  lemma UpdatedBase(ix: Indices, s3: Ix, s2: Ix, s1: Ix, s: Ix, f: RowId, c: nat, v: ColVal)
    requires f in BaseRows(ix, s) && forall r :: r in s.tbl ==> r in s.rows
    requires SameBase(ix, s1, s, BaseRows(ix, s)) && SameBase(ix, s3, s2, BaseRows(ix, s))
    requires f in s1.rows && c < |s1.rows[f]| && s2.tbl == s1.tbl && s2.rows == s1.rows[f := s1.rows[f][c := v]]
    ensures BaseRows(ix, s3) == BaseRows(ix, s) && c < |s.rows[f]|
    ensures BaseOf(ix, s3) == BaseOf(ix, s)[f := BaseOf(ix, s)[f][c := v]]
  {
  }

  class IndexedTable {
    const ix: Indices
    const keyCols: seq<nat>
    const store: Store                 // tables 0 .. |ix|-1 are the index tables, table |ix| the base
    var masters: map<nat, Master>
    var ptr: map<RowId, nat>
    var nextId: nat                    // identities handed out by `new`

    ghost function State(): Ix
      reads this, store
    {
      Ix(store.rows, store.tbl, masters, ptr)
    }

    ghost predicate Room()
      reads this, store
    {
      && (forall r :: r in store.rows ==> r < nextId)
      && (forall r :: r in ptr ==> r < nextId)
      && (forall m :: m in masters ==> m < nextId)
    }

    /** Sound, with row `f` being worked on. */
    ghost predicate Working(live: set<RowId>, f: RowId, gone: set<nat>)
      reads this, store
    {
      && store.Valid() && store.sch == SchemaFor(ix, keyCols) && Room()
      && Agree(ix, State(), live, f, gone)
    }

    ghost predicate Valid()
      reads this, store
    {
      Working(BaseRows(ix, State()), 0, {})
    }

    /** The base rows and their columns. */
    ghost function Base(): map<RowId, Cols>
      reads this, store
    {
      BaseOf(ix, State())
    }

    constructor (indices: Indices, key: seq<nat>)
      ensures Valid() && ix == indices && keyCols == key && Base() == map[]
    {
      ix, keyCols := indices, key;
      store := new Store(SchemaFor(indices, key));
      masters, ptr, nextId := map[], map[], 0;
    }

    lemma Parts(live: set<RowId>, f: RowId, gone: set<nat>)
      requires Working(live, f, gone) && f in live
      ensures LiveOk(ix, State(), f, gone)
      ensures Unused(State(), nextId) && nextId !in masters
    {
    }

    /** `make_index_row`, and the insertion into the index table. */
    method MakeIndexRow(f: RowId, i: nat, ghost live: set<RowId>, ghost gone: set<nat>)
      requires Working(live, f, gone) && f in live && i < |ix| && i in gone
      requires f in store.rows && Fits(ix, store.rows[f])
      modifies this, store
      ensures Working(live, f, gone - {i}) && SameBase(ix, State(), old(State()), live)
    {
      ghost var s := State();
      Parts(live, f, gone);
      hide Agree, Store.Valid, SameBase;
      var x := nextId;
      AddRowAgree(ix, s, live, f, gone, i, x);
      AddRowSameBase(ix, s, live, f, gone, i, x);
      var key := PickColumns(ix[i], store.rows[f]);
      store.CreateRow(x, key);
      ptr := ptr[x := ptr[f]];
      masters := masters[ptr[f] := masters[ptr[f]].(slots := masters[ptr[f]].slots[i := Some(x)])];
      store.InsertRow(i, x);
      nextId := nextId + 1;
      assert State() == AddRow(ix, s, f, i, x);
    }

    /** Erase the row of one index, and the pointer to it. */
    method EraseIndexRow(f: RowId, i: nat, ghost live: set<RowId>, ghost gone: set<nat>)
      requires Working(live, f, gone) && f in live && i < |ix| && i !in gone
      modifies this, store
      ensures Working(live, f, gone + {i}) && SameBase(ix, State(), old(State()), live)
    {
      ghost var s := State();
      Parts(live, f, gone);
      var m := ptr[f];
      assert SlotOk(ix, s, f, m, masters[m].slots[i], i, gone);
      var x := masters[m].slots[i].value;
      DropRowSameBase(ix, s, live, f, gone, i, x);
      DropRowAgree(ix, s, live, f, gone, i, x);
      hide Agree, Store.Valid, SameBase, LiveOk;
      store.RemoveRow(i, x);
      masters := masters[m := masters[m].(slots := masters[m].slots[i := None])];
      assert State() == DropRow(s, m, i, x);
    }

    /** `notify_before_update`: erase the index rows that the column shows in. */
    method NotifyBeforeUpdate(f: RowId, c: nat, ghost live: set<RowId>)
      requires Working(live, f, {}) && f in live
      modifies this, store
      ensures Working(live, f, Affected(ix, c, |ix|)) && SameBase(ix, State(), old(State()), live)
    {
      hide Agree, Store.Valid, SameBase;
      ghost var s := State();
      assert SameBase(ix, s, s, live) by { SameBaseItself(ix, s, live); }
      for i := 0 to |ix|
        invariant Working(live, f, Affected(ix, c, i)) && SameBase(ix, State(), s, live)
      {
        var affected := Picks(ix[i], c);
        if affected {
          ghost var s1 := State();
          EraseIndexRow(f, i, live, Affected(ix, c, i));
          SameBaseTwice(ix, State(), s1, s, live);
        }
      }
    }

    /** `notify_after_update`: put them back, with the new value. */
    method NotifyAfterUpdate(f: RowId, c: nat, ghost live: set<RowId>)
      requires Working(live, f, Affected(ix, c, |ix|)) && f in live
      requires f in store.rows && Fits(ix, store.rows[f])
      modifies this, store
      ensures Working(live, f, {}) && SameBase(ix, State(), old(State()), live)
    {
      hide Agree, Store.Valid, SameBase;
      ghost var s, all := State(), Affected(ix, c, |ix|);
      assert SameBase(ix, s, s, live) by { SameBaseItself(ix, s, live); }
      assert all - Affected(ix, c, 0) == all;
      for i := 0 to |ix|
        invariant Working(live, f, all - Affected(ix, c, i)) && SameBase(ix, State(), s, live)
      {
        var affected := Picks(ix[i], c);
        if affected {
          ghost var s1 := State();
          SameBaseRow(ix, s1, s, live, f);
          MakeIndexRow(f, i, live, all - Affected(ix, c, i));
          SameBaseTwice(ix, State(), s1, s, live);
          assert all - Affected(ix, c, i) - {i} == all - Affected(ix, c, i + 1);
        } else {
          assert all - Affected(ix, c, i) == all - Affected(ix, c, i + 1);
        }
      }
      assert all - Affected(ix, c, |ix|) == {};
    }

    /** `column_info::indexed`. */
    method IsIndexed(c: nat) returns (indexed: bool)
      ensures indexed <==> c in keyCols || exists i :: 0 <= i < |ix| && c in ix[i]
    {
      indexed := Picks(keyCols, c);
      for i := 0 to |ix|
        invariant indexed <==> c in keyCols || exists j :: 0 <= j < i && c in ix[j]
      {
        var picks := Picks(ix[i], c);
        indexed := indexed || picks;
      }
    }

    /** A row outside all tables. */
    method CreateRow(cols: Cols) returns (r: RowId)
      requires Valid()
      modifies this`nextId, store
      ensures Valid() && Base() == old(Base())
      ensures r in store.rows && store.rows[r] == cols && r !in store.tbl && r !in ptr
    {
      r := nextId;
      CreateAgree(ix, State(), BaseRows(ix, State()), 0, r, cols);
      hide Agree;
      ghost var live := BaseRows(ix, State());
      store.CreateRow(r, cols);
      nextId := nextId + 1;
      assert BaseRows(ix, State()) == live;
    }

    /** The base row enters the base table. */
    method FileBase(f: RowId, ghost live: set<RowId>, ghost gone: set<nat>)
      requires Working(live, f, gone) && f in live && f in store.rows && f !in store.tbl
      modifies store`tbl, store`tables
      ensures Working(live, f, gone) && store.tbl == old(store.tbl)[f := |ix|]
    {
      BaseMoves(ix, State(), live, f, gone);
      hide Agree, Store.Valid;
      ghost var s := State();
      store.InsertRow(|ix|, f);
      assert State() == s.(tbl := s.tbl[f := |ix|]);
    }

    /** The base row leaves the base table: `SortedTable::remove` without freeing. */
    method UnfileBase(f: RowId, ghost live: set<RowId>, ghost gone: set<nat>)
      requires Working(live, f, gone) && f in live && f in store.tbl && store.tbl[f] == |ix|
      modifies store`tbl, store`tables
      ensures Working(live, f, gone) && store.tbl == old(store.tbl) - {f}
    {
      BaseMoves(ix, State(), live, f, gone);
      hide Agree, Store.Valid;
      ghost var s := State();
      store.RemoveRow(|ix|, f);
      assert State() == s.(tbl := s.tbl - {f});
    }

    /** A new row gets its master index. */
    method StartMaster(f: RowId)
      requires Valid() && f in store.rows && f !in store.tbl && f !in ptr
      modifies this
      ensures Working(BaseRows(ix, old(State())) + {f}, f, AllOf(|ix|))
    {
      ghost var s, live := State(), BaseRows(ix, State());
      NothingGone(ix, s, live, 0, f);
      NewMasterAgree(ix, s, live, f, nextId);
      hide Agree, Store.Valid;
      masters := masters[nextId := Master(seq(|ix|, i => None), f)];
      ptr := ptr[f := nextId];
      assert State() == NewMaster(ix, s, f, nextId);
      nextId := nextId + 1;
    }

    method BuildIndexRows(f: RowId, ghost live: set<RowId>)
      requires Working(live, f, AllOf(|ix|)) && f in live && f in store.rows && Fits(ix, store.rows[f])
      modifies this, store
      ensures Working(live, f, {}) && SameBase(ix, State(), old(State()), live)
    {
      hide Agree, Store.Valid, SameBase;
      ghost var s, all := State(), AllOf(|ix|);
      SameBaseItself(ix, s, live);
      assert all - AllOf(0) == all;
      for i := 0 to |ix|
        invariant Working(live, f, all - AllOf(i)) && SameBase(ix, State(), s, live)
      {
        ghost var s1 := State();
        SameBaseRow(ix, s1, s, live, f);
        MakeIndexRow(f, i, live, all - AllOf(i));
        SameBaseTwice(ix, State(), s1, s, live);
        assert all - AllOf(i) - {i} == all - AllOf(i + 1);
      }
      assert all - AllOf(|ix|) == {};
    }

    /** The loop of `destroy_secondary_indices`. */
    method DestroyIndexRows(f: RowId, ghost live: set<RowId>)
      requires Working(live, f, {}) && f in live
      modifies this, store
      ensures Working(live, f, AllOf(|ix|)) && SameBase(ix, State(), old(State()), live)
    {
      hide Agree, Store.Valid, SameBase;
      ghost var s := State();
      SameBaseItself(ix, s, live);
      for i := 0 to |ix|
        invariant Working(live, f, AllOf(i)) && SameBase(ix, State(), s, live)
      {
        ghost var s1 := State();
        EraseIndexRow(f, i, live, AllOf(i));
        SameBaseTwice(ix, State(), s1, s, live);
      }
    }

    /** A row that is worked on is in the base table or in none. */
    lemma Outside(live: set<RowId>, f: RowId, gone: set<nat>)
      requires Working(live, f, gone) && f in live
      ensures f in store.rows && (f in store.tbl <==> f in BaseRows(ix, State()))
    {
    }

    lemma HasMaster(live: set<RowId>, f: RowId, gone: set<nat>)
      requires Working(live, f, gone) && f in live
      ensures f in ptr
    {
    }

    /** The work is done. */
    lemma Done(f: RowId)
      requires Working(BaseRows(ix, State()), f, {})
      ensures Valid()
    {
    }

    /** `IndexedTable::insert`: a new row gets its master index and index rows; a row that has its
        master index from before, because it was taken out to be changed, only goes back into the
        base table. */
    method Insert(f: RowId, ghost live: set<RowId>, ghost gone: set<nat>)
      requires f in store.rows && f !in store.tbl
      requires if f in ptr then Working(live, f, gone) && f in live else Valid() && Fits(ix, store.rows[f])
      modifies this, store
      ensures old(f in ptr) ==>
        Working(live, f, gone) && store.tbl == old(store.tbl)[f := |ix|] && store.rows == old(store.rows)
      ensures old(f !in ptr) ==> Valid() && Base() == old(Base())[f := old(store.rows[f])]
    {
      if f !in ptr {
        InsertNew(f);
      } else {
        FileBase(f, live, gone);
      }
    }

    method InsertNew(f: RowId)
      requires Valid() && f in store.rows && f !in store.tbl && f !in ptr && Fits(ix, store.rows[f])
      modifies this, store
      ensures Valid() && Base() == old(Base())[f := old(store.rows[f])]
    {
      ghost var s := State();
      ghost var live := BaseRows(ix, s) + {f};
      Inserted(ix, s, f);
      hide Agree, Store.Valid, SameBase, BaseRows, BaseOf;
      StartMaster(f);
      ghost var s1 := State();
      BuildIndexRows(f, live);
      ghost var s2 := State();
      Outside(live, f, {});
      FileBase(f, live, {});
      InsertedBase(ix, State(), s2, s1, s, f);
      Done(f);
    }

    /** `IndexedTable::remove` of a row that is freed. */
    method Remove(f: RowId)
      requires Valid() && f in Base()
      modifies this, store
      ensures Valid() && Base() == old(Base()) - {f}
    {
      ghost var s := State();
      ghost var live := BaseRows(ix, s);
      NothingGone(ix, s, live, 0, f);
      Parts(live, f, {});
      hide Agree, Store.Valid, SameBase, LiveOk;
      UnfileBase(f, live, {});
      ghost var s1 := State();
      DestroyIndexRows(f, live);
      DropMaster(f, live);
      RemovedBase(ix, State(), s1, s, f);
      Done(f);
    }

    method DropMaster(f: RowId, ghost live: set<RowId>)
      requires Working(live, f, AllOf(|ix|)) && f in live && f !in BaseRows(ix, State())
      modifies this`masters
      ensures Working(live - {f}, f, {})
    {
      Parts(live, f, AllOf(|ix|));
      DropMasterAgree(ix, State(), live, f);
      hide Agree, Store.Valid;
      ghost var s := State();
      masters := masters - {ptr[f]};
      assert State() == s.(masters := s.masters - {s.ptr[f]});
    }

    /** `Row::update` of a row in the table. */
    method Update(f: RowId, c: nat, v: ColVal)
      requires Valid() && f in Base() && c < |Base()[f]| && Fits(ix, Base()[f])
      modifies this, store
      ensures Valid() && Base() == old(Base())[f := old(Base())[f][c := v]]
    {
      ghost var s := State();
      ghost var live := BaseRows(ix, s);
      NothingGone(ix, s, live, 0, f);
      Parts(live, f, {});
      assert f in store.rows && store.rows[f] == Base()[f];
      hide Agree, Store.Valid, SameBase, LiveOk;
      if store.rows[f][c] == v {
        Unchanged(ix, s, f, c, v);
        return;
      }
      var indexed := IsIndexed(c);
      if indexed {
        UpdateIndexed(f, c, v);
      } else {
        UpdatePlain(f, c, v);
      }
    }

    method UpdatePlain(f: RowId, c: nat, v: ColVal)
      requires Valid() && f in Base() && f in store.rows && c < |store.rows[f]|
      requires c !in keyCols && forall i :: 0 <= i < |ix| ==> c !in ix[i]
      modifies store`rows
      ensures Valid() && Base() == old(Base())[f := old(Base())[f][c := v]]
    {
      ghost var s := State();
      ghost var live := BaseRows(ix, s);
      NothingGone(ix, s, live, 0, f);
      WriteAgree(ix, s, live, f, {}, c, v);
      hide Agree, Store.Valid;
      store.SetColumn(f, c, v);
      ghost var s' := s.(rows := s.rows[f := s.rows[f][c := v]]);
      assert State() == s' && BaseRows(ix, s') == live;
      Done(f);
    }

    /** The protocol around the write of an indexed column. */
    method UpdateIndexed(f: RowId, c: nat, v: ColVal)
      requires Valid() && f in Base() && f in store.rows && c < |store.rows[f]| && Fits(ix, store.rows[f])
      modifies this, store
      ensures Valid() && Base() == old(Base())[f := old(Base())[f][c := v]]
    {
      ghost var s := State();
      ghost var live, gone := BaseRows(ix, s), Affected(ix, c, |ix|);
      NothingGone(ix, s, live, 0, f);
      hide Agree, Store.Valid, SameBase, LiveOk;
      NotifyBeforeUpdate(f, c, live);
      ghost var s1 := State();
      SameBaseRow(ix, s1, s, live, f);
      UpdateBase(f, c, v, live, gone);
      ghost var s2 := State();
      NotifyAfterUpdate(f, c, live);
      UpdatedBase(ix, State(), s2, s1, s, f, c, v);
      Done(f);
    }

    /** Remove, write, re-insert. */
    method UpdateBase(f: RowId, c: nat, v: ColVal, ghost live: set<RowId>, ghost gone: set<nat>)
      requires Working(live, f, gone) && f in live && f in BaseRows(ix, State()) && f in store.rows
      requires c < |store.rows[f]|
      requires forall i :: 0 <= i < |ix| && c in ix[i] ==> i in gone
      modifies this, store
      ensures Working(live, f, gone) && store.tbl == old(store.tbl)
      ensures store.rows == old(store.rows)[f := old(store.rows)[f][c := v]]
    {
      hide Store.Valid, Agree, LiveOk;
      HasMaster(live, f, gone);
      UnfileBase(f, live, gone);
      WriteAgree(ix, State(), live, f, gone, c, v);
      ghost var s := State();
      store.SetColumn(f, c, v);
      assert State() == s.(rows := s.rows[f := s.rows[f][c := v]]);
      Insert(f, live, gone);
      assert store.tbl == old(store.tbl);
    }

    /** `Index::Cursor::next`: from the index row through its master index to the base row. */
    method NextBase(c: Cursor, ghost i: nat, ghost iv: Interval) returns (r: RowId, ghost x: RowId)
      requires Valid() && i < |ix| && c.Valid() && c.Remaining() != [] && c.Remaining()[0] in Hits(ix, State(), i, iv)
      modifies c, c.below
      ensures c.Valid() && [x] + c.Remaining() == old(c.Remaining())
      ensures x in ptr && ptr[x] in masters && r == Owner(State(), x)
    {
      hide Agree, Store.Valid, Hits, Cursor.Valid, Cursor.Remaining;
      HitIsSelected(ix, State(), i, iv, c.Remaining()[0]);
      var row := c.Next();
      x := row;
      return masters[ptr[row]].back, x;
    }

    /** The query forms of `Index`, drained: exactly the rows that a scan of the base table selects. */
    method Find(i: nat, iv: Interval, descending: bool) returns (q: seq<RowId>)
      requires Valid() && i < |ix| && iv.Proper()
      ensures multiset(q) == multiset(Selected(ix, State(), i, iv))
      ensures InProjectionOrder(ix, State(), i, q, descending)
    {
      hide InKeyOrder, InProjectionOrder, Agree, Store.Valid, Selected, Hits, Cursor.Valid, Cursor.Remaining, Draining;
      ghost var s := State();
      var c := StartFind(i, iv, descending);
      ghost var xs := c.Remaining();
      q := [];
      DrainingStart(ix, s, i, iv, xs);
      var more := c.HasNext();
      while more
        invariant c.Valid() && fresh(c) && c.below == {} && State() == s && Valid()
        invariant Draining(ix, s, i, iv, xs, c.Remaining(), q) && (more <==> c.Remaining() != [])
        decreases |c.Remaining()|
      {
        ghost var rest := c.Remaining();
        DrainingHead(ix, s, i, iv, xs, rest, q);
        ghost var x;
        var r;
        r, x := NextBase(c, i, iv);
        DrainingStep(ix, s, i, iv, xs, rest, q, x, c.Remaining());
        q := q + [r];
        more := c.HasNext();
      }
      Drained(ix, s, i, iv, xs, q);
      HitsInOrder(ix, keyCols, s, i, iv, xs, q, descending);
    }

    method StartFind(i: nat, iv: Interval, descending: bool) returns (c: Cursor)
      requires Valid() && i < |ix| && iv.Proper()
      ensures c.Valid() && fresh(c) && c.below == {}
      ensures multiset(c.Remaining()) == multiset(Hits(ix, State(), i, iv))
      ensures InKeyOrder(SchemaFor(ix, keyCols), store.rows, i, c.Remaining(), descending)
    {
      hide Agree, Store.Valid, RefQuery, InKeyOrder;
      c := store.Query(i, iv, descending);
    }
  }
}
