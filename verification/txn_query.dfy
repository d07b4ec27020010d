/** Queries through a stack of write buffers, and the condition under which they are right: shown rows
    have the keys of their memory, and staged rows stand where those keys belong. */
module TxnQuery {
  import opened Keys
  import opened Bounds
  import opened TxnModel
  import opened TxnStack
  import opened TxnCursor
  import opened TxnSlots

  /** The elements of a set in some order. */
  ghost function InSomeOrder(s: set<RowId>): (q: seq<RowId>)
    ensures multiset(q) == multiset(s)
  {
    if s == {} then []
    else
      var r :| r in s;
      assert multiset(s) == multiset(s - {r}) + multiset{r};
      [r] + InSomeOrder(s - {r})
  }

  /** `table_row_pair`: a staged row names its table; its key is in its memory. */
  datatype Staged = Staged(table: TableId, row: RowId)

  /** `inserts_`. */
  type Bag = Tree<Staged>

  /** The bag as a search sees it now. Writing a row changes its key here, not its place. */
  function Keyed(sch: Schema, rows: map<RowId, Cols>, bag: Bag): Tree<Slot>
  {
    match bag
    case Nil => Nil
    case Node(l, x, r) => Node(Keyed(sch, rows, l), Filed(sch, rows, x.table, x.row), Keyed(sch, rows, r))
  }

  /** The slots of a bag in the order of iteration. */
  function Slots(sch: Schema, rows: map<RowId, Cols>, bag: Bag): seq<Slot>
  {
    Flat(Keyed(sch, rows, bag))
  }

  /** Every buffer's bag holds the rows staged there, in any order of keys. */
  ghost predicate BagsList(sch: Schema, k: Stack, bags: seq<Bag>)
  {
    |bags| == |k.stages| &&
    forall i :: 0 <= i < |bags| ==> Lists(sch, k.rows, k.stages[i].ins, Slots(sch, k.rows, bags[i]))
  }

  /** In every bag the rows of the table are in key order. */
  ghost predicate BagsRise(sch: Schema, k: Stack, bags: seq<Bag>, t: TableId)
  {
    forall i :: 0 <= i < |bags| ==> KeysRise(Slots(sch, k.rows, bags[i]), t)
  }

  /** A query: at the tables, their rows; further up, what comes from below without the removed rows,
      merged with the staged rows that the search finds. */
  ghost function Answer(sch: Schema, k: Stack, bags: seq<Bag>, t: TableId, iv: Interval): seq<RowId>
    requires |bags| == |k.stages|
    decreases |k.stages|
  {
    if k.stages == [] then InSomeOrder(Matching(sch, k.rows, k.tbl, t, iv))
    else
      var n := |bags| - 1;
      Merge(Kept(Answer(sch, k.Below(), bags[..n], t, iv), t, k.Top().rem), Found(Keyed(sch, k.rows, bags[n]), t, iv))
  }

  predicate StageKeysKept(sch: Schema, base: Shown, st: Stage)
  {
    forall u :: u in st.upd && u.0 in base ==> u.1 !in sch(base[u.0].table)
  }

  /** No pending update touches a key column. */
  predicate KeysKept(sch: Schema, k: Stack)
    decreases |k.stages|
  {
    k.stages == [] || (KeysKept(sch, k.Below()) && StageKeysKept(sch, ShownBy(k.Below()), k.Top()))
  }

  lemma {:induction false} PatchedKey(keyCols: seq<nat>, cols: Cols, upd: map<(RowId, nat), ColVal>, r: RowId)
    requires forall c :: c in keyCols ==> (r, c) !in upd
    ensures KeyOf(keyCols, Patch(cols, upd, r)) == KeyOf(keyCols, cols)
  {
    if keyCols != [] {
      PatchedKey(keyCols[1..], cols, upd, r);
    }
  }

  // ---------- exactly when queries are right ----------

  lemma BagsBelow(sch: Schema, k: Stack, bags: seq<Bag>)
    requires BagsList(sch, k, bags) && k.stages != []
    ensures |bags| == |k.stages| && BagsList(sch, k.Below(), bags[..|bags| - 1])
    ensures Lists(sch, k.rows, k.Top().ins, Slots(sch, k.rows, bags[|bags| - 1]))
    ensures forall t :: BagsRise(sch, k, bags, t) <==>
      BagsRise(sch, k.Below(), bags[..|bags| - 1], t) && KeysRise(Slots(sch, k.rows, bags[|bags| - 1]), t)
  {
    hide Lists, KeysRise, Slots;
  }

  /** In a bag in key order the search finds the staged rows that match. */
  lemma FoundMatching(sch: Schema, rows: map<RowId, Cols>, among: map<RowId, TableId>, bag: Bag, t: TableId,
      iv: Interval)
    requires Lists(sch, rows, among, Slots(sch, rows, bag)) && KeysRise(Slots(sch, rows, bag), t)
    ensures multiset(Found(Keyed(sch, rows, bag), t, iv)) == multiset(Matching(sch, rows, among, t, iv))
  {
    hide Found, Wanted, Matching, KeysRise, Keyed;
    FoundRight(Keyed(sch, rows, bag), t, iv);
    ListedRows(sch, rows, among, Slots(sch, rows, bag), t, iv);
  }

  /** With bags in key order, a query at any depth selects by the rows' own memory, whatever is pending. */
  lemma {:induction false} AnswerByMemory(sch: Schema, k: Stack, bags: seq<Bag>, t: TableId, iv: Interval)
    requires StackOk(k) && BagsList(sch, k, bags) && BagsRise(sch, k, bags, t)
    ensures multiset(Answer(sch, k, bags, t, iv)) == multiset(ByMemory(sch, k, t, iv))
    decreases |k.stages|
  {
    if k.stages == [] {
      assert Matching(sch, k.rows, k.tbl, t, iv) == ByMemory(sch, k, t, iv);
    } else {
      hide BagsList, BagsRise, ByMemory, Matching, Lists, KeysRise, Kept, Merge, Found, Keyed, ShownBy, StackOk;
      var n := |bags| - 1;
      StackParts(k);
      BagsBelow(sch, k, bags);
      AnswerByMemory(sch, k.Below(), bags[..n], t, iv);
      FoundMatching(sch, k.rows, k.Top().ins, bags[n], t, iv);
      var below := Answer(sch, k.Below(), bags[..n], t, iv);
      MergeIsBoth(Kept(below, t, k.Top().rem), Found(Keyed(sch, k.rows, bags[n]), t, iv));
      LevelByMemory(sch, k, t, iv, below);
    }
  }

  /** The shown rows of a table whose memory has its key in the interval. */
  function ByMemory(sch: Schema, k: Stack, t: TableId, iv: Interval): set<RowId>
  {
    set r | r in ShownBy(k) && ShownBy(k)[r].table == t && iv.Contains(KeyOf(sch(t), Memory(k.rows, r)))
  }

  lemma LevelByMemory(sch: Schema, k: Stack, t: TableId, iv: Interval, below: seq<RowId>)
    requires StackOk(k) && k.stages != [] && multiset(below) == multiset(ByMemory(sch, k.Below(), t, iv))
    ensures multiset(Kept(below, t, k.Top().rem)) + multiset(Matching(sch, k.rows, k.Top().ins, t, iv))
         == multiset(ByMemory(sch, k, t, iv))
  {
    var kept, staged, shown :=
      Kept(below, t, k.Top().rem), Matching(sch, k.rows, k.Top().ins, t, iv), ByMemory(sch, k, t, iv);
    forall r ensures (multiset(kept) + multiset(staged))[r] == multiset(shown)[r] {
      RowByMemory(sch, k, t, iv, r);
      KeptCount(below, t, k.Top().rem, r);
    }
  }

  lemma RowByMemory(sch: Schema, k: Stack, t: TableId, iv: Interval, r: RowId)
    requires StackOk(k) && k.stages != []
    ensures r in ByMemory(sch, k, t, iv) <==>
      (r in ByMemory(sch, k.Below(), t, iv) && (t, r) !in k.Top().rem) || r in Matching(sch, k.rows, k.Top().ins, t, iv)
    ensures !(r in ByMemory(sch, k.Below(), t, iv) && r in Matching(sch, k.rows, k.Top().ins, t, iv))
  {
    StackParts(k);
    hide StackOk, ShownBy, KeyOf;
  }

  /** Every shown row of the table has the key it is filed under. */
  predicate KeysAgree(sch: Schema, k: Stack, t: TableId)
  {
    forall r :: r in ShownBy(k) && ShownBy(k)[r].table == t ==>
      KeyOf(sch(t), ShownBy(k)[r].cols) == KeyOf(sch(t), Memory(k.rows, r))
  }

  /** All queries of a table at this level are right. */
  ghost predicate Right(sch: Schema, k: Stack, bags: seq<Bag>, t: TableId)
    requires |bags| == |k.stages|
  {
    forall iv :: multiset(Answer(sch, k, bags, t, iv)) == multiset(RefQuery(ShownBy(k), sch(t), t, iv))
  }

  /** With bags in key order, all queries of a table are right if and only if no pending update changes
      a shown row's key. */
  lemma QueriesExact(sch: Schema, k: Stack, bags: seq<Bag>, t: TableId)
    requires StackOk(k) && BagsList(sch, k, bags) && BagsRise(sch, k, bags, t)
    ensures Right(sch, k, bags, t) <==> KeysAgree(sch, k, t)
  {
    hide StackOk, BagsRise, ShownBy, Answer, KeyOf, KeysAgree, ByMemory, RefQuery;
    forall iv ensures multiset(Answer(sch, k, bags, t, iv)) == multiset(ByMemory(sch, k, t, iv)) {
      AnswerByMemory(sch, k, bags, t, iv);
    }
    if KeysAgree(sch, k, t) {
      forall iv ensures ByMemory(sch, k, t, iv) == RefQuery(ShownBy(k), sch(t), t, iv) {
        AgreeingKeys(sch, k, t, iv);
      }
    } else {
      var r, iv := MisfiledRow(sch, k, t);
      assert r in multiset(RefQuery(ShownBy(k), sch(t), t, iv)) && r !in multiset(ByMemory(sch, k, t, iv));
    }
  }

  /** All queries of a table are right, at this level and at every level below. */
  ghost predicate RightThroughout(sch: Schema, k: Stack, bags: seq<Bag>, t: TableId)
    requires |bags| == |k.stages|
    decreases |k.stages|
  {
    Right(sch, k, bags, t) && (k.stages != [] ==> RightThroughout(sch, k.Below(), bags[..|bags| - 1], t))
  }

  /** At every level the shown rows have the keys in their memory. */
  ghost predicate AgreeThroughout(sch: Schema, k: Stack, t: TableId)
    decreases |k.stages|
  {
    KeysAgree(sch, k, t) && (k.stages != [] ==> AgreeThroughout(sch, k.Below(), t))
  }

  /** All queries of a table are right at every level if and only if at every level shown rows have the
      keys in their memory, and in every bag those keys are still in order. */
  lemma {:induction false} LevelsExact(sch: Schema, k: Stack, bags: seq<Bag>, t: TableId)
    requires StackOk(k) && BagsList(sch, k, bags)
    ensures RightThroughout(sch, k, bags, t) <==> AgreeThroughout(sch, k, t) && BagsRise(sch, k, bags, t)
    decreases |k.stages|
  {
    hide StackOk, KeysAgree, KeysRise, Lists, Slots, Right;
    if k.stages == [] {
      QueriesExact(sch, k, bags, t);
    } else {
      var n := |bags| - 1;
      StackParts(k);
      BagsBelow(sch, k, bags);
      hide BagsList, BagsRise;
      LevelsExact(sch, k.Below(), bags[..n], t);
      if BagsRise(sch, k, bags, t) {
        QueriesExact(sch, k, bags, t);
      } else if BagsRise(sch, k.Below(), bags[..n], t) {
        MisplacedRow(sch, k, bags, t);
      }
    }
  }

  /** The bag on top is out of order: some query at this level is wrong. */
  lemma MisplacedRow(sch: Schema, k: Stack, bags: seq<Bag>, t: TableId)
    requires StackOk(k) && BagsList(sch, k, bags) && k.stages != []
    requires BagsRise(sch, k.Below(), bags[..|bags| - 1], t) && !KeysRise(Slots(sch, k.rows, bags[|bags| - 1]), t)
    ensures !Right(sch, k, bags, t)
  {
    hide StackOk, BagsList, BagsRise, KeysRise, Keyed, Flat, Lists, Answer, Found, Wanted, Matching, RefQuery, ShownBy;
    BagsBelow(sch, k, bags);
    var tree := Keyed(sch, k.rows, bags[|bags| - 1]);
    var s, ins := Flat(tree), k.Top().ins;
    var i, j := OutOfOrder(s, t);
    ListsIs(sch, k.rows, ins, s);
    FoundWrong(tree, t, i, j);
    var iv := Below(s[i].key);
    ListedRows(sch, k.rows, ins, s, t, iv);
    StagedAnswer(sch, k, bags, t, iv, s[i].row);
    StagedAnswer(sch, k, bags, t, iv, s[j].row);
  }

  /** Of the staged rows a query yields those that the search finds, and should yield those that match. */
  lemma StagedAnswer(sch: Schema, k: Stack, bags: seq<Bag>, t: TableId, iv: Interval, r: RowId)
    requires StackOk(k) && BagsList(sch, k, bags) && k.stages != [] && r in k.Top().ins
    requires BagsRise(sch, k.Below(), bags[..|bags| - 1], t)
    ensures r in multiset(Answer(sch, k, bags, t, iv)) <==> r in Found(Keyed(sch, k.rows, bags[|bags| - 1]), t, iv)
    ensures r in multiset(RefQuery(ShownBy(k), sch(t), t, iv)) <==> r in Matching(sch, k.rows, k.Top().ins, t, iv)
  {
    hide BagsRise, BagsList, StackOk, ShownBy, ByMemory, RefQuery, Matching, Found, Keyed, Kept, Merge;
    BagsBelow(sch, k, bags);
    var n := |bags| - 1;
    var below, found := Answer(sch, k.Below(), bags[..n], t, iv), Found(Keyed(sch, k.rows, bags[n]), t, iv);
    StackParts(k);
    AnswerByMemory(sch, k.Below(), bags[..n], t, iv);
    StagedShown(sch, k, t, iv, r);
    KeptCount(below, t, k.Top().rem, r);
    MergeIsBoth(Kept(below, t, k.Top().rem), found);
    assert r in multiset(found) <==> r in found;
  }

  lemma StagedShown(sch: Schema, k: Stack, t: TableId, iv: Interval, r: RowId)
    requires StackOk(k) && k.stages != [] && r in k.Top().ins
    ensures r !in ByMemory(sch, k.Below(), t, iv)
    ensures r in RefQuery(ShownBy(k), sch(t), t, iv) <==> r in Matching(sch, k.rows, k.Top().ins, t, iv)
  {
    StackParts(k);
    hide StackOk, ShownBy, KeyOf;
  }

  /** A query at any depth yields exactly the rows that are shown and match, each once. */
  lemma AnswerCorrect(sch: Schema, k: Stack, bags: seq<Bag>, t: TableId, iv: Interval)
    requires StackOk(k) && KeysAgree(sch, k, t) && BagsList(sch, k, bags) && BagsRise(sch, k, bags, t)
    ensures multiset(Answer(sch, k, bags, t, iv)) == multiset(RefQuery(ShownBy(k), sch(t), t, iv))
  {
    hide StackOk, ShownBy, Answer, KeysAgree, ByMemory, RefQuery, BagsRise;
    AnswerByMemory(sch, k, bags, t, iv);
    AgreeingKeys(sch, k, t, iv);
  }

  /** Updates that stay away from key columns leave every row with the key it is filed under. */
  lemma {:induction false} KeptKeysAgree(sch: Schema, k: Stack, t: TableId)
    requires StackOk(k) && KeysKept(sch, k)
    ensures KeysAgree(sch, k, t)
    decreases |k.stages|
  {
    if k.stages != [] {
      KeptKeysAgree(sch, k.Below(), t);
      forall r | r in ShownBy(k) && ShownBy(k)[r].table == t
        ensures KeyOf(sch(t), ShownBy(k)[r].cols) == KeyOf(sch(t), Memory(k.rows, r))
      {
        KeptKeyAgrees(sch, k, t, r);
      }
    }
  }

  lemma KeptKeyAgrees(sch: Schema, k: Stack, t: TableId, r: RowId)
    requires StackOk(k) && KeysKept(sch, k) && k.stages != [] && KeysAgree(sch, k.Below(), t)
    requires r in ShownBy(k) && ShownBy(k)[r].table == t
    ensures KeyOf(sch(t), ShownBy(k)[r].cols) == KeyOf(sch(t), Memory(k.rows, r))
  {
    StackParts(k);
    hide StackOk, ShownBy, KeyOf, Patch;
    if r !in k.Top().ins {
      PatchedKey(sch(t), ShownBy(k.Below())[r].cols, k.Top().upd, r);
    }
  }

  lemma AgreeingKeys(sch: Schema, k: Stack, t: TableId, iv: Interval)
    requires KeysAgree(sch, k, t)
    ensures ByMemory(sch, k, t, iv) == RefQuery(ShownBy(k), sch(t), t, iv)
  {
    hide ShownBy, KeyOf;
  }

  /** The query for the key that a misfiled row shows does not find it. */
  lemma MisfiledRow(sch: Schema, k: Stack, t: TableId) returns (r: RowId, iv: Interval)
    requires !KeysAgree(sch, k, t)
    ensures r in RefQuery(ShownBy(k), sch(t), t, iv) && r !in ByMemory(sch, k, t, iv)
  {
    hide ShownBy, KeyOf;
    r :| r in ShownBy(k) && ShownBy(k)[r].table == t &&
      KeyOf(sch(t), ShownBy(k)[r].cols) != KeyOf(sch(t), Memory(k.rows, r));
    iv := Exactly(KeyOf(sch(t), ShownBy(k)[r].cols));
  }

  // ---------- bags that were filled by inserting ----------

  /** The staged rows filed one after the other, in some order. */
  ghost function FiledAll(sch: Schema, rows: map<RowId, Cols>, ins: map<RowId, TableId>): (s: seq<Slot>)
    ensures Files(sch, rows, ins, s)
    decreases ins.Keys
  {
    if ins == map[] then []
    else
      var r :| r in ins;
      assert (ins - {r})[r := ins[r]] == ins;
      FileKeeps(sch, rows, ins - {r}, FiledAll(sch, rows, ins - {r}), ins[r], r);
      FileSlot(FiledAll(sch, rows, ins - {r}), Filed(sch, rows, ins[r], r))
  }

  /** A tree with this order of iteration. */
  function Spine(s: seq<Slot>): Bag
  {
    if s == [] then Nil else Node(Nil, Staged(s[0].table, s[0].row), Spine(s[1..]))
  }

  lemma {:induction false} SpineSlots(sch: Schema, rows: map<RowId, Cols>, s: seq<Slot>)
    requires forall i :: 0 <= i < |s| ==> s[i] == Filed(sch, rows, s[i].table, s[i].row)
    ensures Slots(sch, rows, Spine(s)) == s
  {
    if s != [] {
      hide Filed;
      SpineSlots(sch, rows, s[1..]);
      assert s[0] == Filed(sch, rows, s[0].table, s[0].row);
      assert Keyed(sch, rows, Spine(s)) == Node(Nil, s[0], Keyed(sch, rows, Spine(s[1..])));
      assert Flat(Keyed(sch, rows, Spine(s))) == [] + [s[0]] + s[1..];
    }
  }

  /** Bags of all buffers, filled by inserting. */
  ghost function Filing(sch: Schema, k: Stack): (bags: seq<Bag>)
    ensures BagsList(sch, k, bags) && forall t :: BagsRise(sch, k, bags, t)
  {
    FilingWorks(sch, k);
    seq(|k.stages|, i requires 0 <= i < |k.stages| => Spine(FiledAll(sch, k.rows, k.stages[i].ins)))
  }

  lemma FilingWorks(sch: Schema, k: Stack)
    ensures forall i :: 0 <= i < |k.stages| ==>
      var s := Slots(sch, k.rows, Spine(FiledAll(sch, k.rows, k.stages[i].ins)));
      Lists(sch, k.rows, k.stages[i].ins, s) && forall t :: KeysRise(s, t)
  {
    hide Lists, KeysRise, Slots, Spine, Files, FiledAll;
    forall i | 0 <= i < |k.stages| ensures
      var s := Slots(sch, k.rows, Spine(FiledAll(sch, k.rows, k.stages[i].ins)));
      Lists(sch, k.rows, k.stages[i].ins, s) && forall t :: KeysRise(s, t)
    {
      var ins := k.stages[i].ins;
      var s := FiledAll(sch, k.rows, ins);
      FilesLists(sch, k.rows, ins, s);
      FiledSlots(sch, k.rows, ins, s);
      SpineSlots(sch, k.rows, s);
    }
  }

  lemma FiledSlots(sch: Schema, rows: map<RowId, Cols>, ins: map<RowId, TableId>, s: seq<Slot>)
    requires Files(sch, rows, ins, s)
    ensures forall i :: 0 <= i < |s| ==> s[i] == Filed(sch, rows, s[i].table, s[i].row)
  {
  }

  /** Any bags in key order answer alike. */
  lemma AnswersAlike(sch: Schema, k: Stack, bags: seq<Bag>, t: TableId, iv: Interval)
    requires StackOk(k) && BagsList(sch, k, bags) && BagsRise(sch, k, bags, t)
    ensures multiset(Answer(sch, k, bags, t, iv)) == multiset(Answer(sch, k, Filing(sch, k), t, iv))
  {
    hide StackOk, BagsRise, Answer, ByMemory;
    AnswerByMemory(sch, k, bags, t, iv);
    AnswerByMemory(sch, k, Filing(sch, k), t, iv);
  }

  // ---------- operations keep pending updates away from keys ----------

  /** The condition depends on the buffers and on what each level shows, not on row memory. */
  lemma {:induction false} KeysDepend(sch: Schema, a: Stack, b: Stack)
    requires a.stages == b.stages && Levels(a) == Levels(b) && KeysKept(sch, a)
    ensures KeysKept(sch, b)
    decreases |a.stages|
  {
    if a.stages != [] {
      LevelsBelow(a);
      LevelsBelow(b);
      KeysDepend(sch, a.Below(), b.Below());
    }
  }

  lemma LevelsBelow(k: Stack)
    requires k.stages != []
    ensures Levels(k.Below()) == Levels(k)[..|Levels(k)| - 1]
    ensures ShownBy(k.Below()) == Levels(k)[|Levels(k)| - 2]
  {
  }

  /** What an operation must not do: stage an update of a key column. */
  lemma OperationKeepsKeys(sch: Schema, k': Stack, k: Stack, v: Shown)
    requires Changes(k', k, v) && KeysKept(sch, k)
    requires k.stages != [] ==> StageKeysKept(sch, ShownBy(k.Below()), k'.Top())
    ensures KeysKept(sch, k')
  {
    if k.stages != [] {
      var n := |k.stages| - 1;
      assert Levels(k.Below())[n] == Levels(k'.Below())[n];
      KeysDepend(sch, k.Below(), k'.Below());
    }
  }

  lemma WriteKeepsKeys(sch: Schema, k: Stack, r: RowId, c: nat, x: ColVal)
    requires StackOk(k) && KeysKept(sch, k)
    requires r in ShownBy(k) && c < |ShownBy(k)[r].cols| && c !in sch(ShownBy(k)[r].table)
    ensures KeysKept(sch, Write(k, r, c, x))
  {
    WriteCorrect(k, r, c, x);
    if k.stages != [] && r !in k.Top().ins {
      SetTopParts(k, StageUpdate(k.Top(), r, c, x));
    }
    OperationKeepsKeys(sch, Write(k, r, c, x), k, RefWrite(ShownBy(k), r, c, x));
  }

  lemma InsertKeepsKeys(sch: Schema, k: Stack, t: TableId, r: RowId)
    requires StackOk(k) && KeysKept(sch, k) && r in k.rows && r !in Known(k)
    ensures KeysKept(sch, InsertRow(k, t, r))
  {
  }

  lemma RemoveKeepsKeys(sch: Schema, k: Stack, t: TableId, r: RowId)
    requires StackOk(k) && KeysKept(sch, k) && r in ShownBy(k) && ShownBy(k)[r].table == t
    ensures KeysKept(sch, RemoveRow(k, t, r))
  {
  }
}
