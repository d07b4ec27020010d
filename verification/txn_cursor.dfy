/** `MergedCursor`: the rows of the transaction below without the removed ones, merged with the rows
    staged here. Cursors nest as deep as transactions do. */
module TxnCursor {
  import opened Keys
  import opened Multimap

  // ---------- what a merged cursor yields ----------

  /** The rows that are not staged for removal. */
  function Kept(rows: seq<RowId>, t: TableId, removes: set<(TableId, RowId)>): seq<RowId>
  {
    if rows == [] then []
    else if (t, rows[0]) in removes then Kept(rows[1..], t, removes)
    else [rows[0]] + Kept(rows[1..], t, removes)
  }

  /** The interleaving: the lower address first. */
  function Merge(below: seq<RowId>, staged: seq<RowId>): seq<RowId>
  {
    if below == [] then staged
    else if staged == [] then below
    else if below[0] < staged[0] then [below[0]] + Merge(below[1..], staged)
    else [staged[0]] + Merge(below, staged[1..])
  }

  /** Whatever the order, both sides come out completely and once. */
  lemma {:induction false} MergeIsBoth(below: seq<RowId>, staged: seq<RowId>)
    ensures multiset(Merge(below, staged)) == multiset(below) + multiset(staged)
  {
    if below != [] && staged != [] {
      if below[0] < staged[0] {
        MergeIsBoth(below[1..], staged);
        assert below == [below[0]] + below[1..];
      } else {
        MergeIsBoth(below, staged[1..]);
        assert staged == [staged[0]] + staged[1..];
      }
    }
  }

  /** Rows in the order of their addresses stay so. */
  lemma {:induction false} MergeByAddress(below: seq<RowId>, staged: seq<RowId>)
    requires Rising(below) && Rising(staged)
    ensures Rising(Merge(below, staged))
  {
    if below != [] && staged != [] {
      MergeIsBoth(below, staged);
      if below[0] < staged[0] {
        MergeByAddress(below[1..], staged);
        MergeIsBoth(below[1..], staged);
        RisingCons(below[0], Merge(below[1..], staged), below, staged);
      } else {
        MergeByAddress(below, staged[1..]);
        MergeIsBoth(below, staged[1..]);
        RisingCons(staged[0], Merge(below, staged[1..]), below, staged);
      }
    }
  }

  predicate Rising(q: seq<RowId>)
  {
    forall i, j :: 0 <= i < j < |q| ==> q[i] <= q[j]
  }

  lemma RisingCons(r: RowId, q: seq<RowId>, below: seq<RowId>, staged: seq<RowId>)
    requires Rising(q) && Rising(below) && Rising(staged)
    requires below != [] ==> r <= below[0]
    requires staged != [] ==> r <= staged[0]
    requires multiset(q) <= multiset(below) + multiset(staged)
    ensures Rising([r] + q)
  {
    forall j | 0 <= j < |q| ensures r <= q[j] {
      assert q[j] in multiset(q);
      assert q[j] in multiset(below) || q[j] in multiset(staged);
    }
  }

  lemma {:induction false} KeptCount(rows: seq<RowId>, t: TableId, removes: set<(TableId, RowId)>, r: RowId)
    ensures multiset(Kept(rows, t, removes))[r] == if (t, r) in removes then 0 else multiset(rows)[r]
  {
    if rows != [] {
      KeptCount(rows[1..], t, removes, r);
      assert rows == [rows[0]] + rows[1..];
    }
  }

  function Maybe(c: Option<RowId>): seq<RowId>
  {
    if c.Some? then [c.value] else []
  }

  lemma KeptHead(r: RowId, rest: seq<RowId>, t: TableId, removes: set<(TableId, RowId)>)
    ensures Kept([r] + rest, t, removes) == (if (t, r) in removes then [] else [r]) + Kept(rest, t, removes)
  {
  }

  /** A row from below becomes the candidate, unless it was removed. */
  lemma Tried(r: RowId, rest: seq<RowId>, t: TableId, removes: set<(TableId, RowId)>)
    ensures Maybe(None) + Kept([r] + rest, t, removes) ==
      Maybe(if (t, r) in removes then None else Some(r)) + Kept(rest, t, removes)
  {
    KeptHead(r, rest, t, removes);
  }

  lemma KeptNone(t: TableId, removes: set<(TableId, RowId)>)
    ensures Kept([], t, removes) == []
  {
  }

  /** What a merged cursor with these fields has still to yield. */
  function Coming(cached: Option<RowId>, candidate: Option<RowId>, rest: seq<RowId>, staged: seq<RowId>): seq<RowId>
  {
    Maybe(cached) + Merge(Maybe(candidate) + rest, staged)
  }

  lemma ComingFromBelow(candidate: Option<RowId>, rest: seq<RowId>, staged: seq<RowId>)
    requires candidate.Some? && (staged != [] ==> candidate.value < staged[0])
    ensures Coming(None, candidate, rest, staged) == Coming(candidate, None, rest, staged)
  {
    assert ([candidate.value] + rest)[1..] == rest;
    assert [] + rest == rest && Merge(rest, []) == rest;
  }

  lemma ComingStaged(candidate: Option<RowId>, rest: seq<RowId>, staged: seq<RowId>)
    requires staged != [] && (candidate.Some? ==> staged[0] <= candidate.value) && (candidate == None ==> rest == [])
    ensures Coming(None, candidate, rest, staged) == Coming(Some(staged[0]), candidate, rest, staged[1..])
  {
  }

  lemma ComingNothing()
    ensures Coming(None, None, [], []) == []
  {
  }

  // ---------- cursors ----------

  /** A table cursor, or a merged cursor around another cursor. */
  class Cursor {
    const inner: Cursor?
    const table: TableId
    const removes: set<(TableId, RowId)>
    const rows: seq<RowId>               // the table's rows, or the staged rows in range
    var next: nat
    var cached: Option<RowId>
    var candidate: Option<RowId>

    ghost const below: set<Cursor>
    ghost const depth: nat

    ghost predicate Valid()
      reads this, below
      decreases depth
    {
      && next <= |rows|
      && if inner == null then below == {} && cached == None && candidate == None
         else
           && inner in below && inner.below <= below && below == inner.below + {inner}
           && this !in below && inner !in inner.below
           && inner.depth < depth && inner.Valid()
    }

    /** What is still to come. */
    ghost function Remaining(): seq<RowId>
      requires Valid()
      reads this, below
      decreases depth
    {
      if inner == null then rows[next..]
      else Coming(cached, candidate, Kept(inner.Remaining(), table, removes), rows[next..])
    }

    constructor OfTable(rs: seq<RowId>)
      ensures Valid() && fresh(this) && below == {} && Remaining() == rs
    {
      inner, table, removes, rows, next, cached, candidate := null, 0, {}, rs, 0, None, None;
      below, depth := {}, 0;
    }

    constructor Merged(t: TableId, c: Cursor, staged: seq<RowId>, removed: set<(TableId, RowId)>)
      requires c.Valid() && c !in c.below
      ensures Valid() && fresh(this) && below == c.below + {c}
      ensures Remaining() == Merge(Kept(c.Remaining(), t, removed), staged)
    {
      inner, table, removes, rows, next, cached, candidate := c, t, removed, staged, 0, None, None;
      below, depth := c.below + {c}, c.depth + 1;
      new;
      assert Maybe(candidate) + Kept(c.Remaining(), t, removed) == Kept(c.Remaining(), t, removed);
    }

    /** What is still to come from below. */
    ghost function FromBelow(): seq<RowId>
      requires Valid() && inner != null
      reads this, below
    {
      Maybe(candidate) + Kept(inner.Remaining(), table, removes)
    }

    /** One round of the search for a row from below. */
    method TryNext()
      requires Valid() && inner != null && candidate == None && inner.Remaining() != []
      modifies this`candidate, below
      ensures Valid() && FromBelow() == old(FromBelow())
      ensures |inner.Remaining()| < old(|inner.Remaining()|)
      decreases depth, 0
    {
      hide Kept, Coming, Maybe;
      var r := inner.Next();
      ghost var rest := inner.Remaining();
      Tried(r, rest, table, removes);
      if (table, r) !in removes {
        Propose(r);
      }
    }

    /** A row from below, kept for the choice. */
    method Propose(r: RowId)
      requires Valid() && inner != null
      modifies this`candidate
      ensures Valid() && candidate == Some(r) && inner.Remaining() == old(inner.Remaining())
      decreases depth, 0
    {
      candidate := Some(r);
    }

    /** The loop of `prefetch_next` that looks for a row from below. */
    method FindCandidate()
      requires Valid() && inner != null
      modifies this`candidate, below
      ensures Valid() && FromBelow() == old(FromBelow())
      ensures candidate == None ==> inner.Remaining() == []
      decreases depth, 1
    {
      hide Kept;
      while candidate == None
        invariant Valid() && FromBelow() == old(FromBelow())
        decreases candidate == None, |inner.Remaining()|
      {
        var more := inner.HasNext();
        if !more {
          break;
        }
        TryNext();
      }
    }

    /** `prefetch_next`. */
    method PrefetchNext()
      requires Valid() && inner != null && cached == None
      modifies this, below
      ensures Valid() && Remaining() == old(Remaining())
      ensures cached == None ==> Remaining() == []
      decreases depth, 2
    {
      FindCandidate();
      Choose();
    }

    /** The choice between the row from below and the next staged row. */
    method Choose()
      requires Valid() && inner != null && cached == None
      requires candidate == None ==> inner.Remaining() == []
      modifies this
      ensures Valid() && Remaining() == old(Remaining())
      ensures cached == None ==> Remaining() == []
      decreases depth, 0
    {
      hide Kept, Coming;
      ghost var rest, staged := Kept(inner.Remaining(), table, removes), rows[next..];
      KeptNone(table, removes);
      if candidate == None {
        if next < |rows| {
          ComingStaged(candidate, rest, staged);
          cached, next := Some(rows[next]), next + 1;
        } else {
          ComingNothing();
        }
      } else if next < |rows| {
        if candidate.value < rows[next] {
          ComingFromBelow(candidate, rest, staged);
          cached, candidate := candidate, None;
        } else {
          ComingStaged(candidate, rest, staged);
          cached, next := Some(rows[next]), next + 1;
        }
      } else {
        ComingFromBelow(candidate, rest, staged);
        cached, candidate := candidate, None;
      }
      assert Kept(inner.Remaining(), table, removes) == rest;
      assert staged != [] ==> staged[1..] == rows[old(next) + 1..];
    }

    /** `has_next`. */
    method HasNext() returns (r: bool)
      requires Valid()
      modifies this, below
      ensures Valid() && Remaining() == old(Remaining())
      ensures r <==> Remaining() != []
      decreases depth, 3
    {
      if inner == null {
        return next < |rows|;
      }
      if cached == None {
        PrefetchNext();
      }
      return cached != None;
    }

    /** `next`. */
    method Next() returns (r: RowId)
      requires Valid() && Remaining() != []
      modifies this, below
      ensures Valid() && [r] + Remaining() == old(Remaining())
      decreases depth, 3
    {
      if inner == null {
        r, next := rows[next], next + 1;
        return;
      }
      if cached == None {
        PrefetchNext();
      }
      r := TakeCached();
    }

    method TakeCached() returns (r: RowId)
      requires Valid() && inner != null && cached != None
      modifies this
      ensures Valid() && [r] + Remaining() == old(Remaining())
      decreases depth, 0
    {
      hide Kept, Merge;
      r := cached.value;
      cached := None;
      assert inner.Remaining() == old(inner.Remaining());
    }
  }
}
