/** In which order a query through write buffers yields its rows: the merge goes by address, so what comes
    from the tables, and what comes from each buffer, keeps the key order that was asked for. */
module TxnOrder {
  import opened Keys
  import opened TxnModel
  import opened TxnStack
  import opened TxnCursor
  import opened TxnStore

  /** The rows that come from one source, in the order of the answer. */
  function Pick(q: seq<RowId>, from: set<RowId>): seq<RowId>
  {
    if q == [] then []
    else if q[0] in from then [q[0]] + Pick(q[1..], from)
    else Pick(q[1..], from)
  }

  lemma {:induction false} PickAll(q: seq<RowId>, from: set<RowId>)
    requires forall r :: r in q ==> r in from
    ensures Pick(q, from) == q
  {
    if q != [] {
      assert q == [q[0]] + q[1..];
      PickAll(q[1..], from);
    }
  }

  lemma {:induction false} PickNone(q: seq<RowId>, from: set<RowId>)
    requires forall r :: r in q ==> r !in from
    ensures Pick(q, from) == []
  {
    if q != [] {
      PickNone(q[1..], from);
    }
  }

  lemma PickCons(r: RowId, q: seq<RowId>, from: set<RowId>)
    ensures Pick([r] + q, from) == (if r in from then [r] else []) + Pick(q, from)
  {
    assert ([r] + q)[1..] == q;
  }

  /** A merge shows the rows from below in their order ... */
  lemma {:induction false} PickBelow(below: seq<RowId>, staged: seq<RowId>, from: set<RowId>)
    requires forall r :: r in staged ==> r !in from
    ensures Pick(Merge(below, staged), from) == Pick(below, from)
  {
    if below == [] {
      PickNone(staged, from);
    } else if staged != [] {
      if below[0] < staged[0] {
        PickBelow(below[1..], staged, from);
        PickCons(below[0], Merge(below[1..], staged), from);
      } else {
        PickBelow(below, staged[1..], from);
        PickCons(staged[0], Merge(below, staged[1..]), from);
      }
    }
  }

  /** ... and the staged rows in theirs. */
  lemma {:induction false} PickStaged(below: seq<RowId>, staged: seq<RowId>, from: set<RowId>)
    requires forall r :: r in below ==> r !in from
    ensures Pick(Merge(below, staged), from) == Pick(staged, from)
  {
    if staged == [] {
      PickNone(below, from);
    } else if below != [] {
      if below[0] < staged[0] {
        PickStaged(below[1..], staged, from);
        PickCons(below[0], Merge(below[1..], staged), from);
      } else {
        PickStaged(below, staged[1..], from);
        PickCons(staged[0], Merge(below, staged[1..]), from);
      }
    }
  }

  lemma {:induction false} PickKept(q: seq<RowId>, t: TableId, removes: set<(TableId, RowId)>, from: set<RowId>)
    ensures Pick(Kept(q, t, removes), from) == Kept(Pick(q, from), t, removes)
  {
    if q != [] {
      PickKept(q[1..], t, removes, from);
      PickCons(q[0], Kept(q[1..], t, removes), from);
      KeptHead(q[0], Pick(q[1..], from), t, removes);
    }
  }

  lemma {:induction false} KeptMember(q: seq<RowId>, t: TableId, removes: set<(TableId, RowId)>)
    ensures forall r :: r in Kept(q, t, removes) ==> r in q
  {
    if q != [] {
      KeptMember(q[1..], t, removes);
    }
  }

  lemma {:induction false} KeptInOrder(sch: Schema, rows: map<RowId, Cols>, t: TableId, q: seq<RowId>,
      removes: set<(TableId, RowId)>, descending: bool)
    requires InKeyOrder(sch, rows, t, q, descending)
    ensures InKeyOrder(sch, rows, t, Kept(q, t, removes), descending)
  {
    hide KeyIn, Less;
    if q != [] {
      var rest := q[1..];
      forall i, j | 0 <= i < j < |rest| ensures rest[i] == q[i + 1] && rest[j] == q[j + 1] {
      }
      KeptInOrder(sch, rows, t, rest, removes, descending);
      KeptMember(rest, t, removes);
      FirstInOrder(sch, rows, t, q[0], Kept(rest, t, removes), q, descending);
    }
  }

  lemma FirstInOrder(sch: Schema, rows: map<RowId, Cols>, t: TableId, r: RowId, rest: seq<RowId>, q: seq<RowId>,
      descending: bool)
    requires q != [] && r == q[0] && InKeyOrder(sch, rows, t, q, descending)
    requires InKeyOrder(sch, rows, t, rest, descending)
    requires forall x :: x in rest ==> x in q[1..]
    ensures InKeyOrder(sch, rows, t, [r] + rest, descending)
  {
    hide KeyIn, Less;
    forall j | 0 <= j < |rest| ensures exists m :: 0 < m < |q| && q[m] == rest[j] {
      assert rest[j] in rest;
      var m :| 0 <= m < |q[1..]| && q[1..][m] == rest[j];
      assert q[m + 1] == rest[j];
    }
  }

  /** The rows of the tables, and of every buffer, each come in the order asked for. */
  ghost predicate OrderedBySource(sch: Schema, k: Stack, t: TableId, q: seq<RowId>, descending: bool)
  {
    && InKeyOrder(sch, k.rows, t, Pick(q, k.tbl.Keys), descending)
    && forall i :: 0 <= i < |k.stages| ==> InKeyOrder(sch, k.rows, t, Pick(q, k.stages[i].ins.Keys), descending)
  }

  /** Rows that all come from the tables, or all from one buffer, come in key order. */
  lemma OneSource(sch: Schema, k: Stack, t: TableId, q: seq<RowId>, descending: bool)
    requires OrderedBySource(sch, k, t, q, descending)
    ensures (forall r :: r in q ==> r in k.tbl) ==> InKeyOrder(sch, k.rows, t, q, descending)
    ensures forall i :: 0 <= i < |k.stages| && (forall r :: r in q ==> r in k.stages[i].ins) ==>
      InKeyOrder(sch, k.rows, t, q, descending)
  {
    hide InKeyOrder;
    if forall r :: r in q ==> r in k.tbl {
      PickAll(q, k.tbl.Keys);
    }
    forall i | 0 <= i < |k.stages| && (forall r :: r in q ==> r in k.stages[i].ins)
      ensures InKeyOrder(sch, k.rows, t, q, descending)
    {
      PickAll(q, k.stages[i].ins.Keys);
    }
  }

  /** Rows of the tables in order. */
  lemma TableOrder(sch: Schema, k: Stack, t: TableId, q: seq<RowId>, descending: bool)
    requires k.stages == [] && InKeyOrder(sch, k.rows, t, q, descending) && forall r :: r in q ==> r in k.tbl
    ensures OrderedBySource(sch, k, t, q, descending)
  {
    hide InKeyOrder;
    PickAll(q, k.tbl.Keys);
  }

  /** One buffer more. */
  lemma MergedOrder(sch: Schema, k: Stack, t: TableId, below: seq<RowId>, staged: seq<RowId>, descending: bool)
    requires StackOk(k) && k.stages != []
    requires OrderedBySource(sch, k.Below(), t, below, descending) && forall r :: r in below ==> r in Known(k.Below())
    requires InKeyOrder(sch, k.rows, t, staged, descending) && forall r :: r in staged ==> r in k.Top().ins
    ensures OrderedBySource(sch, k, t, Merge(Kept(below, t, k.Top().rem), staged), descending)
  {
    StackParts(k);
    var q := Merge(Kept(below, t, k.Top().rem), staged);
    hide StackOk, InKeyOrder, Merge, Kept, Known, Pick, ShownBy, StageOk, Overlay;
    FromTables(sch, k, t, below, staged, descending);
    FromTop(sch, k, t, below, staged, descending);
    forall i | 0 <= i < |k.stages| ensures InKeyOrder(sch, k.rows, t, Pick(q, k.stages[i].ins.Keys), descending) {
      if i < |k.stages| - 1 {
        FromBuffer(sch, k, t, below, staged, i, descending);
      }
    }
  }

  lemma FromTables(sch: Schema, k: Stack, t: TableId, below: seq<RowId>, staged: seq<RowId>, descending: bool)
    requires k.stages != [] && OrderedBySource(sch, k.Below(), t, below, descending)
    requires forall r :: r in k.Top().ins ==> r !in Known(k.Below())
    requires forall r :: r in staged ==> r in k.Top().ins
    ensures InKeyOrder(sch, k.rows, t, Pick(Merge(Kept(below, t, k.Top().rem), staged), k.tbl.Keys), descending)
  {
    hide InKeyOrder, Merge, Kept, Known, Pick;
    TablesKnown(k.Below());
    FromBelow(sch, k, t, below, staged, k.tbl.Keys, descending);
  }

  lemma FromBuffer(sch: Schema, k: Stack, t: TableId, below: seq<RowId>, staged: seq<RowId>, i: nat, descending: bool)
    requires i < |k.stages| - 1 && OrderedBySource(sch, k.Below(), t, below, descending)
    requires forall r :: r in k.Top().ins ==> r !in Known(k.Below())
    requires forall r :: r in staged ==> r in k.Top().ins
    ensures InKeyOrder(sch, k.rows, t, Pick(Merge(Kept(below, t, k.Top().rem), staged), k.stages[i].ins.Keys),
      descending)
  {
    hide InKeyOrder, Merge, Kept, Known, Pick;
    assert k.Below().stages[i] == k.stages[i];
    StagedIsKnown(k.Below(), i);
    FromBelow(sch, k, t, below, staged, k.stages[i].ins.Keys, descending);
  }

  lemma FromTop(sch: Schema, k: Stack, t: TableId, below: seq<RowId>, staged: seq<RowId>, descending: bool)
    requires k.stages != [] && InKeyOrder(sch, k.rows, t, staged, descending)
    requires forall r :: r in k.Top().ins ==> r !in Known(k.Below())
    requires forall r :: r in below ==> r in Known(k.Below())
    requires forall r :: r in staged ==> r in k.Top().ins
    ensures InKeyOrder(sch, k.rows, t, Pick(Merge(Kept(below, t, k.Top().rem), staged), k.Top().ins.Keys), descending)
  {
    hide InKeyOrder, Merge, Kept, Known, Pick;
    KeptMember(below, t, k.Top().rem);
    PickStaged(Kept(below, t, k.Top().rem), staged, k.Top().ins.Keys);
    PickAll(staged, k.Top().ins.Keys);
  }

  lemma FromBelow(sch: Schema, k: Stack, t: TableId, below: seq<RowId>, staged: seq<RowId>, from: set<RowId>,
      descending: bool)
    requires k.stages != [] && InKeyOrder(sch, k.rows, t, Pick(below, from), descending)
    requires forall r :: r in k.Top().ins ==> r !in Known(k.Below())
    requires from <= Known(k.Below()) && forall r :: r in staged ==> r in k.Top().ins
    ensures InKeyOrder(sch, k.rows, t, Pick(Merge(Kept(below, t, k.Top().rem), staged), from), descending)
  {
    hide InKeyOrder, Merge, Kept, Known, Pick;
    PickBelow(Kept(below, t, k.Top().rem), staged, from);
    PickKept(below, t, k.Top().rem, from);
    KeptInOrder(sch, k.rows, t, Pick(below, from), k.Top().rem, descending);
  }
}
