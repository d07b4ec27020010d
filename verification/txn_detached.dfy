/** Three uses that a staged transaction does not survive: writing a row before inserting it, and
    writing a key column of a row from below or of a staged row. */
module TxnDetached {
  import opened Keys
  import opened Bounds
  import opened TxnModel
  import opened TxnStack
  import opened TxnSlots
  import opened TxnQuery
  import opened TxnRun

  /** `StageOk`, except that a staged row may have pending updates: they were written before the row
      was inserted, when the buffer could not know it. */
  ghost predicate LooseStage(base: Shown, rows: map<RowId, Cols>, st: Stage)
  {
    && (forall r :: r in st.ins ==> r !in base && r in rows)
    && (forall k :: k in st.upd && k.0 !in st.ins ==> k.0 in base && !Removed(base, st, k.0) && k.1 < |base[k.0].cols|)
    && (forall k :: k in st.upd && k.0 in st.ins ==> k.1 < |rows[k.0]|)
    && (forall k :: k in st.rem ==> k.1 in base && base[k.1].table == k.0)
  }

  /** Pending updates of staged rows agree with the rows. */
  predicate NothingStale(rows: map<RowId, Cols>, st: Stage)
  {
    forall k :: k in st.upd && k.0 in st.ins && k.1 < |Memory(rows, k.0)| ==> Memory(rows, k.0)[k.1] == st.upd[k]
  }

  /** What the base shows after the three loops of `commit`. */
  function Committed(v: Shown, rows: map<RowId, Cols>, st: Stage): Shown
  {
    Overlay(Overlay(Overlay(v, rows, OnlyInserts(st.ins)), rows, OnlyUpdates(st.upd)), rows, OnlyRemoves(st.rem))
  }

  lemma CommittedRow(v: Shown, rows: map<RowId, Cols>, st: Stage, q: RowId)
    requires LooseStage(v, rows, st)
    ensures q in Committed(v, rows, st) <==> Visible(v, st, q)
    ensures q in Committed(v, rows, st) ==>
      Committed(v, rows, st)[q] == if q in st.ins then Rec(st.ins[q], Patch(Memory(rows, q), st.upd, q))
                                   else Through(v, rows, st, q)
  {
    var a := Overlay(v, rows, OnlyInserts(st.ins));
    if q in a {
      assert Patch(Patch(a[q].cols, st.upd, q), map[], q) == Patch(a[q].cols, st.upd, q);
      if q !in st.ins {
        assert Patch(v[q].cols, map[], q) == v[q].cols;
      }
    }
  }

  lemma PatchIsNothing(cols: Cols, upd: map<(RowId, nat), ColVal>, q: RowId)
    ensures Patch(cols, upd, q) == cols <==> forall c :: 0 <= c < |cols| && (q, c) in upd ==> cols[c] == upd[(q, c)]
  {
  }

  lemma CommittedAllowed(v: Shown, rows: map<RowId, Cols>, st: Stage)
    requires LooseStage(v, rows, st)
    ensures var a := Overlay(v, rows, OnlyInserts(st.ins));
            var b := Overlay(a, rows, OnlyUpdates(st.upd));
      && (forall k :: k in st.upd ==> k.0 in a && k.1 < |a[k.0].cols|)
      && (forall k :: k in st.rem ==> k.1 in b && b[k.1].table == k.0)
  {
  }

  lemma CommitShows(k: Stack)
    requires k.stages != [] && StackOk(k.Below()) && LooseStage(ShownBy(k.Below()), k.rows, k.Top())
    requires forall r :: r in k.Top().ins ==> r !in Known(k.Below())
    ensures ShownBy(Commit(k)) == Committed(ShownBy(k.Below()), k.rows, k.Top())
  {
    var b, st := k.Below(), k.Top();
    CommittedAllowed(ShownBy(b), k.rows, st);
    assert forall r :: r in st.ins ==> r in b.rows;
    hide StackOk, ShownBy, Levels, Overlay, LooseStage;
    FlushInsertsCorrect(b, st.ins);
    var b1 := FlushInserts(b, st.ins);
    FlushUpdatesCorrect(b1, st.upd);
    var b2 := FlushUpdates(b1, st.upd);
    FlushRemovesCorrect(b2, st.rem);
    RowsMatterNot(ShownBy(b2), b2.rows, k.rows, OnlyRemoves(st.rem));
  }

  lemma StaleShows(v: Shown, rows: map<RowId, Cols>, st: Stage)
    requires LooseStage(v, rows, st)
    ensures Committed(v, rows, st) == Overlay(v, rows, st) <==> NothingStale(rows, st)
  {
    var c, d := Committed(v, rows, st), Overlay(v, rows, st);
    assert forall u :: u in st.upd && u.0 in st.ins ==> u.1 < |rows[u.0]|;
    assert forall q :: q in d && q in st.ins ==> d[q] == Rec(st.ins[q], Memory(rows, q));
    assert forall q :: q in st.ins ==> q in d && q in rows;
    if NothingStale(rows, st) {
      forall q ensures (q in c <==> q in d) && (q in c ==> c[q] == d[q]) {
        CommittedRow(v, rows, st, q);
        PatchIsNothing(Memory(rows, q), st.upd, q);
      }
      SameShown(c, d);
    } else {
      var u :| u in st.upd && u.0 in st.ins && u.1 < |Memory(rows, u.0)| && Memory(rows, u.0)[u.1] != st.upd[u];
      CommittedRow(v, rows, st, u.0);
      assert Patch(Memory(rows, u.0), st.upd, u.0)[u.1] == st.upd[(u.0, u.1)];
    }
  }

  /** Committing shows below what was shown above exactly when no staged row carries an older pending
      update that disagrees with it. */
  lemma CommitExact(k: Stack)
    requires k.stages != [] && StackOk(k.Below()) && LooseStage(ShownBy(k.Below()), k.rows, k.Top())
    requires forall r :: r in k.Top().ins ==> r !in Known(k.Below())
    ensures ShownBy(Commit(k)) == ShownBy(k) <==> NothingStale(k.rows, k.Top())
  {
    CommitShows(k);
    StaleShows(ShownBy(k.Below()), k.rows, k.Top());
  }

  /** `TxnNested` over a buffer: row 7 is written before it is inserted and again afterwards. Inside, the
      second write counts; after the commit, the first one does. */
  lemma DetachedWriteComesBack(first: ColVal, second: ColVal)
    requires first != second
    ensures var st := StageInsert(StageUpdate(NoStage, 7, 0, first), 0, 7);
            var k := Stack(map[7 := [second]], map[], [NoStage, st]);
      && ShownBy(k) == map[7 := Rec(0, [second])]
      && ShownBy(Commit(k)) == map[7 := Rec(0, [first])]
  {
    var st := StageInsert(StageUpdate(NoStage, 7, 0, first), 0, 7);
    var k := Stack(map[7 := [second]], map[], [NoStage, st]);
    assert k.Below() == Stack(map[7 := [second]], map[], [NoStage]) && k.Top() == st;
    EmptyBelow(second);
    DetachedShown(first, second);
    hide StackOk, Known, Commit, Committed, Overlay;
    CommitShows(k);
  }

  lemma DetachedShown(first: ColVal, second: ColVal)
    ensures var st := StageInsert(StageUpdate(NoStage, 7, 0, first), 0, 7);
      && Overlay(map[], map[7 := [second]], st) == map[7 := Rec(0, [second])]
      && Committed(map[], map[7 := [second]], st) == map[7 := Rec(0, [first])]
      && LooseStage(map[], map[7 := [second]], st)
  {
    var st, rows := StageInsert(StageUpdate(NoStage, 7, 0, first), 0, 7), map[7 := [second]];
    SameShown(Overlay(map[], rows, st), map[7 := Rec(0, [second])]);
    var c := Committed(map[], rows, st);
    hide Committed, Overlay;
    forall q ensures q in c <==> q == 7 {
      CommittedRow(map[], rows, st, q);
    }
    CommittedRow(map[], rows, st, 7);
    assert Patch([second], st.upd, 7) == [first];
    SameShown(c, map[7 := Rec(0, [first])]);
  }

  lemma EmptyBelow(x: ColVal)
    ensures var b := Stack(map[7 := [x]], map[], [NoStage]);
      StackOk(b) && ShownBy(b) == map[] && Known(b) == {}
  {
    var t := Stack(map[7 := [x]], map[], []);
    var b := Stack(map[7 := [x]], map[], [NoStage]);
    assert b.Below() == t && ShownBy(t) == map[];
    NothingStaged(map[], b.rows);
  }

  /** Every table has its first column for a key. */
  function FirstColumn(): Schema
  {
    (t: TableId) => [0]
  }

  lemma OneColumnKey(x: ColVal)
    ensures KeyOf([0], [x]) == [x]
  {
  }

  /** A pending write of a key column is read back, but the query for the new key misses the row. */
  lemma KeyWriteMisleadsQuery(was: ColVal, now: ColVal)
    requires was != now
    ensures var sch := FirstColumn();
            var k := Stack(map[7 := [was]], map[7 := 0], [StageUpdate(NoStage, 7, 0, now)]);
      && StackOk(k) && BagsList(sch, k, [Nil]) && RefQuery(ShownBy(k), sch(0), 0, Exactly([now])) == {7}
      && Answer(sch, k, [Nil], 0, Exactly([now])) == []
  {
    hide KeyOf, StackOk, ShownBy, Answer;
    var sch := FirstColumn();
    var k := Stack(map[7 := [was]], map[7 := 0], [StageUpdate(NoStage, 7, 0, now)]);
    PendingKey(was, now);
    OneColumnKey(was);
    OneColumnKey(now);
    assert [was][0] != [now][0];
    AnswerByMemory(sch, k, [Nil], 0, Exactly([now]));
    assert ByMemory(sch, k, 0, Exactly([now])) == {};
    assert |multiset(Answer(sch, k, [Nil], 0, Exactly([now])))| == 0;
  }

  /** Rows 1, 2 and 3 with these first columns, all staged in one buffer of table 0. */
  function ThreeStaged(x: ColVal): Stack
  {
    Stack(map[1 := [x], 2 := [I32(2)], 3 := [I32(3)]], map[], [Stage(map[1 := 0, 2 := 0, 3 := 0], map[], {})])
  }

  /** Their bag, the tree that a balanced insertion of 1, 2, 3 gives. */
  function ThreeBag(): Bag
  {
    Node(Node(Nil, Staged(0, 1), Nil), Staged(0, 2), Node(Nil, Staged(0, 3), Nil))
  }

  /** Writing the key of a staged row changes the row under its bag. The row is read back with its new
      key, no pending update disagrees with anything, and yet the query for the new key misses it. */
  lemma RekeyedRowIsMissed()
    ensures var sch, k0, bags := FirstColumn(), ThreeStaged(I32(1)), [ThreeBag()];
      && StackOk(k0) && BagsList(sch, k0, bags) && BagsRise(sch, k0, bags, 0)
      && 1 in ShownBy(k0) && 0 < |ShownBy(k0)[1].cols|
      && var k := Write(k0, 1, 0, I32(9));
         && StackOk(k) && KeysAgree(sch, k, 0) && BagsList(sch, k, bags)
         && RefQuery(ShownBy(k), sch(0), 0, Exactly([I32(9)])) == {1}
         && Answer(sch, k, bags, 0, Exactly([I32(9)])) == []
  {
    hide StackOk, ShownBy, BagsList, BagsRise, Answer, KeysAgree, RefQuery;
    ThreeOk(1);
    ThreeOk(9);
    ThreeListed(1);
    ThreeListed(9);
    ThreeRise();
    ThreeAgree(9);
    ThreeAsked();
    RekeyedNotFound();
    ThreeWritten();
  }

  lemma ThreeWritten()
    requires 1 in ShownBy(ThreeStaged(I32(1))) && 0 < |ShownBy(ThreeStaged(I32(1)))[1].cols|
    ensures Write(ThreeStaged(I32(1)), 1, 0, I32(9)) == ThreeStaged(I32(9))
  {
    hide ShownBy;
    var k := ThreeStaged(I32(1));
    assert [I32(1)][0 := I32(9)] == [I32(9)];
    assert k.rows[1 := [I32(9)]] == ThreeStaged(I32(9)).rows;
  }

  lemma ThreeOk(n: int)
    ensures StackOk(ThreeStaged(I32(n)))
    ensures ShownBy(ThreeStaged(I32(n))) == map[1 := Rec(0, [I32(n)]), 2 := Rec(0, [I32(2)]), 3 := Rec(0, [I32(3)])]
  {
    var k := ThreeStaged(I32(n));
    var b := Stack(k.rows, map[], []);
    assert k.Below() == b && ShownBy(b) == map[];
    SameShown(ShownBy(k), map[1 := Rec(0, [I32(n)]), 2 := Rec(0, [I32(2)]), 3 := Rec(0, [I32(3)])]);
  }

  /** The slots as a search sees them. */
  function ThreeSlots(n: int): seq<Slot>
  {
    [Slot(0, [I32(n)], 1), Slot(0, [I32(2)], 2), Slot(0, [I32(3)], 3)]
  }

  lemma ThreeKeyed(n: int)
    ensures var rows := ThreeStaged(I32(n)).rows; var x := ThreeSlots(n);
      && Keyed(FirstColumn(), rows, ThreeBag()) == Node(Node(Nil, x[0], Nil), x[1], Node(Nil, x[2], Nil))
      && Slots(FirstColumn(), rows, ThreeBag()) == x
  {
    var sch, rows, x := FirstColumn(), ThreeStaged(I32(n)).rows, ThreeSlots(n);
    OneColumnKey(I32(n));
    OneColumnKey(I32(2));
    OneColumnKey(I32(3));
    hide KeyOf;
    assert Keyed(sch, rows, Node(Nil, Staged(0, 1), Nil)) == Node(Nil, x[0], Nil);
    assert Keyed(sch, rows, Node(Nil, Staged(0, 3), Nil)) == Node(Nil, x[2], Nil);
    assert Flat(Node(Nil, x[0], Nil)) == [x[0]] && Flat(Node(Nil, x[2], Nil)) == [x[2]];
    assert [x[0]] + [x[1]] + [x[2]] == x;
  }

  lemma ThreeListed(n: int)
    ensures BagsList(FirstColumn(), ThreeStaged(I32(n)), [ThreeBag()])
  {
    var k := ThreeStaged(I32(n));
    ThreeKeyed(n);
    OneColumnKey(I32(n));
    OneColumnKey(I32(2));
    OneColumnKey(I32(3));
    hide KeyOf, Slots;
    var s := ThreeSlots(n);
    assert s[0] in s && s[1] in s && s[2] in s;
  }

  lemma ThreeRise()
    ensures BagsRise(FirstColumn(), ThreeStaged(I32(1)), [ThreeBag()], 0)
  {
    ThreeKeyed(1);
    hide Slots;
  }

  lemma ThreeAgree(n: int)
    ensures KeysAgree(FirstColumn(), ThreeStaged(I32(n)), 0)
  {
    ThreeOk(n);
    hide ShownBy, KeyOf;
  }

  lemma ThreeAsked()
    ensures RefQuery(ShownBy(ThreeStaged(I32(9))), FirstColumn()(0), 0, Exactly([I32(9)])) == {1}
  {
    ThreeOk(9);
    OneColumnKey(I32(9));
    OneColumnKey(I32(2));
    OneColumnKey(I32(3));
    hide ShownBy, KeyOf;
  }

  /** Both descents for key 9 go right at 2 and at 3. */
  lemma RekeyedNotFound()
    ensures Answer(FirstColumn(), ThreeStaged(I32(9)), [ThreeBag()], 0, Exactly([I32(9)])) == []
  {
    var sch, k, iv := FirstColumn(), ThreeStaged(I32(9)), Exactly([I32(9)]);
    var tree := Keyed(sch, k.rows, ThreeBag());
    ThreeKeyed(9);
    assert Less([I32(2)], [I32(9)]) && Less([I32(3)], [I32(9)]);
    assert !Less([I32(9)], [I32(2)]) && !Less([I32(9)], [I32(3)]);
    var x := ThreeSlots(9);
    var right := Node(Nil, x[2], Nil);
    assert Descend(right, BeforeRange(0, iv)) == 1 && Descend(right, BeforeRangeEnd(0, iv)) == 1;
    assert Descend(tree, BeforeRange(0, iv)) == 3 && Descend(tree, BeforeRangeEnd(0, iv)) == 3;
    assert Found(tree, 0, iv) == [];
    hide Found, Keyed;
    assert Matching(sch, k.rows, map[], 0, iv) == {};
    assert k.Below() == Stack(k.rows, map[], []);
    assert Answer(sch, k.Below(), [], 0, iv) == [];
  }

  lemma PendingKey(was: ColVal, now: ColVal)
    ensures var k := Stack(map[7 := [was]], map[7 := 0], [StageUpdate(NoStage, 7, 0, now)]);
      StackOk(k) && ShownBy(k) == map[7 := Rec(0, [now])]
  {
    var st := StageUpdate(NoStage, 7, 0, now);
    var k, b := Stack(map[7 := [was]], map[7 := 0], [st]), Stack(map[7 := [was]], map[7 := 0], []);
    assert k.Below() == b && k.Top() == st && ShownBy(b) == map[7 := Rec(0, [was])];
    assert Patch([was], st.upd, 7) == [now];
    SameShown(ShownBy(k), map[7 := Rec(0, [now])]);
  }
}
