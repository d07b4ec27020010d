/** The snapshot map as the code builds it: member objects linked in a ring around a shared group. */
module SnapshotMap {
  import opened Keys
  import opened Bounds
  import opened Ring
  import opened Multimap
  import opened SnapshotCells
  import opened SnapshotRange
  import opened SnapshotGroup
  import opened SnapshotCursor
  import opened Sequences

  /** The members' link fields are `links`. */
  ghost predicate Linking(g: SharedGroup, links: map<SortedMap, Link<SortedMap>>)
    reads links.Keys
  {
    forall m :: m in links ==> m.ssg == g && m.prev == links[m].prev && m.next == links[m].next
  }

  /** The members' versions are `ver`. */
  ghost predicate Versions(ver: map<SortedMap, nat>)
    reads ver.Keys
  {
    forall m :: m in ver ==> m.ver == Some(ver[m])
  }

  /** `snapshot_group`. */
  class SharedGroup {
    var data: seq<Cell>
    var writer: SortedMap?
    var gcInserts: nat
    var gcErases: nat
    var nextNode: nat

    /** The group as a value, its members, and their links. */
    ghost var abs: Group<SortedMap>
    ghost var links: map<SortedMap, Link<SortedMap>>

    /** The plain fields show the abstract state. */
    ghost predicate Shows()
      reads this
    {
      && abs.cells == data && abs.inserts == gcInserts && abs.erases == gcErases && abs.nextNode == nextNode
      && abs.writer == (if writer == null then None else Some(writer))
    }

    ghost predicate Valid()
      reads this, links.Keys
    {
      && Shows()
      && Inv(abs)
      && Linked(abs.ring, links)
      && links.Keys == abs.ver.Keys
      && Linking(this, links)
      && Versions(abs.ver)
    }

    constructor (w: SortedMap)
      ensures Shows() && abs == Open(w) && links == map[w := Link(w, w)]
    {
      data := [];
      writer := w;
      gcInserts, gcErases, nextNode := 0, 0, 0;
      abs := Open(w);
      links := map[w := Link(w, w)];
    }

    /** One node of a batch, created at the batch's version. */
    method AppendCell(e: Entry, v: nat)
      requires Shows() && abs.writer.Some? && abs.writer.value in abs.ver && v == abs.ver[abs.writer.value]
      modifies this
      ensures Shows() && links == old(links)
      ensures abs == old(abs).(cells := InsertCell(old(abs).cells, Cell(old(abs).nextNode, e, v, None)),
                               inserts := old(abs).inserts + 1, nextNode := old(abs).nextNode + 1)
    {
      data := InsertCell(data, Cell(nextNode, e, v, None));
      nextNode := nextNode + 1;
      gcInserts := gcInserts + 1;
      abs := abs.(cells := data, inserts := gcInserts, nextNode := nextNode);
    }

    /** The bookkeeping of a writer's new version. */
    ghost method Bumped()
      requires Shows() && abs.writer.Some? && abs.writer.value in abs.ver
      modifies this`abs
      ensures Shows() && abs == BumpVersion(old(abs))
    {
      abs := BumpVersion(abs);
    }

    /** A writer that goes away leaves nobody who may write; decide whether to collect. */
    method Retire(m: SortedMap) returns (autoGc: bool)
      requires Shows()
      modifies this`writer, this`abs
      ensures Shows() && autoGc == (old(abs).writer == Some(m) && AutoGc(old(abs)))
      ensures abs == if old(abs).writer == Some(m) then old(abs).(writer := None) else old(abs)
    {
      autoGc := false;
      if writer == m {
        if gcInserts + gcErases >= 16 && gcInserts + gcErases >= |data| / 2 {
          autoGc := true;
        }
        writer := null;
        abs := abs.(writer := None);
      }
    }

    /** One new multimap node, created at the writer's new version. */
    method AddCell(e: Entry, v: nat)
      requires Shows() && abs.writer.Some? && abs.writer.value in abs.ver && v == abs.ver[abs.writer.value] + 1
      modifies this
      ensures Shows() && abs == SnapshotGroup.Insert(old(abs), e) && links == old(links)
    {
      data := InsertCell(data, Cell(nextNode, e, v, None));
      nextNode := nextNode + 1;
      gcInserts := gcInserts + 1;
      abs := SnapshotGroup.Insert(abs, e);
    }

    /** The tombstone loop of `erase(key)` and `erase(key, value)`: walk the equal range, skip what
        the writer no longer sees, mark the matches. */
    method MarkMatches(k: Key, row: Option<RowId>, firstOnly: bool, v: nat)
      requires Sorted(data)
      modifies this`data, this`gcErases
      ensures data == (if firstOnly then TombstoneFirst(old(data), MatchOf(k, row), v, v + 1)
                       else Tombstone(old(data), MatchOf(k, row), v, v + 1))
      ensures gcErases == old(gcErases) +
        (if !firstOnly then VisibleCount(old(data), MatchOf(k, row), v)
         else if VisibleCount(old(data), MatchOf(k, row), v) > 0 then 1 else 0)
    {
      hide Sorted, MatchOf, Tombstone, TombstoneFirst, VisibleCount, Begin, End, Marking;
      ghost var was, pick := data, MatchOf(k, row);
      var i, hi := Begin(data, Exactly(k)), End(data, Exactly(k));
      EqualRange(was, k, row);
      MarkingStarts(was, i, pick, v, v + 1);
      while i < hi
        invariant Begin(was, Exactly(k)) <= i <= hi && hi == End(was, Exactly(k))
        invariant Marking(was, i, pick, v, v + 1, data, gcErases - old(gcErases))
        invariant firstOnly ==> gcErases == old(gcErases)
      {
        MarkingNext(was, i, pick, v, v + 1, data, gcErases - old(gcErases));
        if data[i].ValidAt(v) && (row.None? || row.value == data[i].entry.row) {
          data := data[i := data[i].(removed := Some(v + 1))];
          gcErases := gcErases + 1;
          if firstOnly {
            return;
          }
        }
        i := i + 1;
      }
      MarkingEnds(was, i, pick, v, v + 1, data, gcErases - old(gcErases));
    }

    /** The direct branch of `erase(key)`: the whole equal range goes, or, for a first match, the
        node at the lower bound. */
    method DropKey(k: Key, firstOnly: bool)
      requires Sorted(data)
      requires firstOnly ==> AtLowerBound(data, k).Some?
      modifies this`data
      ensures data == if firstOnly then DropFirst(old(data), NotBelow(k)) else Drop(old(data), KeyIs(k))
    {
      ghost var was := data;
      var lo, hi := Begin(data, Exactly(k)), End(data, Exactly(k));
      EqualRange(was, k, None);
      if firstOnly {
        LowerBoundIsFirst(was, k);
        data := data[..lo] + data[lo + 1..];
      } else {
        data := data[..lo] + data[hi..];
        DropMiddle(was, lo, hi, KeyIs(k));
      }
    }

    /** The direct loop of `erase(key, value)`: it compares values without looking at visibility.
        `hi` is the node at the upper bound; it moves up with every erased node. */
    method DropRow(k: Key, r: RowId, firstOnly: bool)
      requires Sorted(data)
      modifies this`data
      ensures data == if firstOnly then DropFirst(old(data), KeyAndRow(k, r)) else Drop(old(data), KeyAndRow(k, r))
    {
      hide Sorted, Drop, DropFirst, Begin, End, KeyAndRow;
      ghost var was, pick := data, KeyAndRow(k, r);
      var it, hi := Begin(data, Exactly(k)), End(data, Exactly(k));
      ghost var i, end := it, hi;
      EqualRange(was, k, Some(r));
      NoneDropped(was[..it], pick);
      while it < hi
        invariant Begin(was, Exactly(k)) <= i <= end <= |was|
        invariant data == Drop(was[..i], pick) + was[i..]
        invariant it == |Drop(was[..i], pick)| && hi - it == end - i
        invariant firstOnly ==> Drop(was[..i], pick) == was[..i]
        decreases hi - it
      {
        DropStep(was, i, pick);
        if r == data[it].entry.row {
          data := data[..it] + data[it + 1..];
          if firstOnly {
            FirstDropped(was, i, pick);
            return;
          }
          hi := hi - 1;
        } else {
          it := it + 1;
        }
        i := i + 1;
      }
      RestDropped(was, i, pick);
    }

    /** Both branches of the keyed erases, for a writer that has just moved past version `v`. */
    method EraseCells(k: Key, row: Option<RowId>, firstOnly: bool, shared: bool, v: nat)
      requires Shows() && Sorted(data)
      requires abs.writer.Some? && abs.writer.value in abs.ver && v == abs.ver[abs.writer.value]
      requires shared == Shared(abs)
      requires firstOnly && row.None? && !shared ==> AtLowerBound(data, k).Some?
      modifies this
      ensures Shows() && links == old(links)
      ensures abs == if firstOnly then EraseFirst(old(abs), k, row) else Erase(old(abs), MatchOf(k, row))
    {
      hide Sorted, Tombstone, TombstoneFirst, VisibleCount, Drop, DropFirst;
      if shared {
        MarkMatches(k, row, firstOnly, v);
      } else if row.None? {
        DropKey(k, firstOnly);
      } else {
        DropRow(k, row.value, firstOnly);
      }
      abs := if firstOnly then EraseFirst(abs, k, row) else Erase(abs, MatchOf(k, row));
    }

    /** `erase(range)` for a writer that has just moved past version `v`. */
    method EraseSpan(b: nat, e: nat, v: nat)
      requires Shows() && b <= e <= |data|
      requires abs.writer.Some? && abs.writer.value in abs.ver && v == abs.ver[abs.writer.value]
      modifies this
      ensures Shows() && links == old(links) && abs == EraseBetween(old(abs), b, e)
    {
      MarkSpan(b, e, v);
      abs := EraseBetween(abs, b, e);
    }

    /** The marking loop of `erase(range)`, between two positions. */
    method MarkSpan(b: nat, e: nat, v: nat)
      requires b <= e <= |data|
      modifies this`data
      ensures data == MarkBetween(old(data), b, e, v)
    {
      ghost var was := data;
      var i := b;
      assert was[b..b] == [];
      while i < e
        invariant b <= i <= e && data == MarkBetween(was, b, i, v)
      {
        SpanNext(was, b, i, v);
        if data[i].ValidAt(v) {
          data := data[i := data[i].(removed := Some(v + 1))];
        }
        i := i + 1;
      }
    }

    /** The second loop of `gc_run`: erase the garbage in place. */
    method SweepCells(low: nat)
      modifies this`data
      ensures data == Collect(old(data), low)
    {
      hide Collect, Garbage;
      ghost var was := data;
      ghost var i := 0;
      var it := 0;
      CollectNext(was, 0, low);
      while it < |data|
        invariant 0 <= i <= |was| && data == Collect(was[..i], low) + was[i..]
        invariant it == |Collect(was[..i], low)|
        decreases |was| - i
      {
        SweepStep(was, i, low);
        if Garbage(data[it], low) {
          data := data[..it] + data[it + 1..];
        } else {
          it := it + 1;
        }
        i := i + 1;
      }
      assert was[..i] == was && was[i..] == [];
    }

    method Sweep(low: nat)
      requires Shows() && |abs.ring| > 0 && abs.ring[0] in abs.ver && low == Lowest(abs)
      modifies this
      ensures Shows() && abs == Gc(old(abs)) && links == old(links) && writer == old(writer)
    {
      SweepCells(low);
      gcInserts, gcErases := 0, 0;
      abs := Gc(abs);
    }

    /** The bookkeeping of a leave. */
    ghost method Left(x: SortedMap, i: nat)
      requires Shows() && i < |abs.ring| && abs.ring[i] == x && abs.writer != Some(x)
      requires x in links && links[x].prev in links && links[x].next in links
      modifies this`abs, this`links
      ensures Shows() && abs == Unlink(old(abs), i) && links == LeaveLinks(old(links), x) - {x}
    {
      abs, links := Unlink(abs, i), LeaveLinks(links, x) - {x};
    }

    /** The bookkeeping of a join: a snapshot of the writer restarts the garbage counters. */
    method Joined(src: SortedMap, x: SortedMap, ghost i: nat)
      requires Shows() && i < |abs.ring| && abs.ring[i] == src && src in abs.ver
      requires src in links && links[src].prev in links
      modifies this
      ensures Shows() && abs == Join(old(abs), i, x) && links == JoinLinks(old(links), src, x)
    {
      if writer == src {
        gcInserts, gcErases := 0, 0;
      }
      abs := Join(abs, i, x);
      links := JoinLinks(links, src, x);
    }
  }

  /** The facts behind a join at the left of `src`. */
  lemma JoinPrepared(a: Group<SortedMap>, links: map<SortedMap, Link<SortedMap>>, src: SortedMap, x: SortedMap)
    returns (i: nat)
    requires Inv(a) && Linked(a.ring, links) && links.Keys == a.ver.Keys
    requires src in links && x !in links
    ensures i < |a.ring| && a.ring[i] == src && links[src].prev in links
    ensures Inv(Join(a, i, x)) && Linked(Join(a, i, x).ring, JoinLinks(links, src, x))
    ensures JoinLinks(links, src, x).Keys == Join(a, i, x).ver.Keys == links.Keys + {x}
  {
    hide Inv, Linked, InsertAt;
    i := MemberIndex(a, src);
    NotInRing(a, x);
    LinkedJoin(a.ring, links, i, x);
    JoinCorrect(a, i, x);
  }

  /** The order in which a walk from `m` meets the members. */
  lemma WalkPrepared(a: Group<SortedMap>, links: map<SortedMap, Link<SortedMap>>, m: SortedMap)
    returns (r: seq<SortedMap>)
    requires Inv(a) && Linked(a.ring, links) && links.Keys == a.ver.Keys && m in links
    ensures |r| == |a.ring| > 0 && r[0] == m && Linked(r, links)
    ensures forall x :: x in r <==> x in links
    ensures forall x :: x in a.ring <==> x in links
  {
    var i :| 0 <= i < |a.ring| && a.ring[i] == m;
    r := Rotate(a.ring, i);
    LinkedRotate(a.ring, links, i);
    RotateMember(a.ring, i);
  }

  /** One step of a walk: it is back at the start exactly after the last member. */
  lemma WalkStep(r: seq<SortedMap>, links: map<SortedMap, Link<SortedMap>>, t: nat)
    requires Linked(r, links) && t < |r|
    ensures r[t] in links && links[r[t]].next == (if t + 1 < |r| then r[t + 1] else r[0])
    ensures links[r[t]].next == r[0] <==> t + 1 == |r|
  {
    assert LinkAt(r, links, t);
  }

  lemma LowestFound(a: Group<SortedMap>, r: seq<SortedMap>, low: nat)
    requires Inv(a) && (forall x :: x in r <==> x in a.ver)
    requires forall j :: 0 <= j < |r| ==> low <= a.ver[r[j]]
    requires exists j :: 0 <= j < |r| && low == a.ver[r[j]]
    ensures low == Lowest(a)
  {
    var j :| 0 <= j < |r| && low == a.ver[r[j]];
    assert r[j] in r && a.ring[0] in r;
    LowestIsLowest(a, r[j]);
  }

  lemma GcPrepared(a: Group<SortedMap>)
    requires Inv(a)
    ensures |a.ring| > 0 && a.ring[0] in a.ver && Inv(Gc(a))
  {
    GcCorrect(a);
  }

  lemma WritePrepared(a: Group<SortedMap>, w: SortedMap)
    requires Inv(a) && a.writer == Some(w)
    ensures w in a.ver
  {
  }

  ghost predicate Rises(r: seq<SortedMap>, ver: map<SortedMap, nat>, t: nat)
    requires t < |r|
  {
    r[t] in ver && Succ(r, t) in ver && ver[r[t]] <= ver[Succ(r, t)]
  }

  /** Where the versions may drop on a walk: only after the ring's tail. */
  lemma DropPrepared(a: Group<SortedMap>, links: map<SortedMap, Link<SortedMap>>, r: seq<SortedMap>)
    returns (drop: nat)
    requires Inv(a) && Linked(a.ring, links) && Linked(r, links) && |r| == |a.ring|
    requires forall x :: x in r ==> x in a.ver
    ensures forall t :: 0 <= t < |r| && t != drop ==> Rises(r, a.ver, t)
  {
    var n := |a.ring|;
    var tail := a.ring[n - 1];
    if tail in r {
      drop :| 0 <= drop < n && r[drop] == tail;
    } else {
      drop := 0;
    }
    forall t | 0 <= t < |r| && t != drop ensures Rises(r, a.ver, t) {
      assert r[t] in a.ver && Succ(r, t) in r;
      var c :| 0 <= c < n && a.ring[c] == r[t];
      assert LinkAt(a.ring, links, c) && LinkAt(r, links, t);
      assert c != n - 1;
    }
  }

  lemma WriterPrepared(a: Group<SortedMap>, links: map<SortedMap, Link<SortedMap>>)
    requires Inv(a) && Linked(a.ring, links) && a.writer.Some?
    ensures var w := a.writer.value;
      && w in links && w in a.ver && links[w].prev in a.ver && links[w].next in a.ver
      && a.ver[links[w].prev] <= a.ver[w] && a.ver[links[w].next] <= a.ver[w]
  {
    var n := |a.ring|;
    assert LinkAt(a.ring, links, n - 1);
    WriterIsTail(a, Pred(a.ring, n - 1));
    WriterIsTail(a, Succ(a.ring, n - 1));
  }

  lemma CollectNext(was: seq<Cell>, i: nat, low: nat)
    requires i <= |was|
    ensures Collect(was[..0], low) == []
    ensures i < |was| ==>
      was[i..] == [was[i]] + was[i + 1..] &&
      Collect(was[..i + 1], low) == Collect(was[..i], low) + (if Garbage(was[i], low) then [] else [was[i]])
  {
    if i < |was| {
      assert was[..i + 1] == was[..i] + [was[i]];
      CollectSplit(was[..i], [was[i]], low);
    }
  }

  /** One round of the sweep, with the part already swept in front. */
  lemma SweepStep(was: seq<Cell>, i: nat, low: nat)
    requires i <= |was|
    ensures var done := Collect(was[..i], low);
            var data := done + was[i..];
      |done| < |data| ==>
        && i < |was| && data[|done|] == was[i]
        && (Garbage(was[i], low) ==>
              && Collect(was[..i + 1], low) == done
              && data[..|done|] + data[|done| + 1..] == Collect(was[..i + 1], low) + was[i + 1..])
        && (!Garbage(was[i], low) ==>
              |Collect(was[..i + 1], low)| == |done| + 1 && data == Collect(was[..i + 1], low) + was[i + 1..])
  {
    CollectNext(was, i, low);
  }

  // ---------- loops over the equal range ----------

  lemma EqualRange(was: seq<Cell>, k: Key, row: Option<RowId>)
    requires Sorted(was)
    ensures Begin(was, Exactly(k)) <= End(was, Exactly(k))
    ensures forall i :: 0 <= i < |was| ==>
      (MatchOf(k, row)(was[i].entry) <==>
        Begin(was, Exactly(k)) <= i < End(was, Exactly(k)) && (row.None? || row.value == was[i].entry.row))
  {
    BracketOrdered(was, Exactly(k));
    forall i | 0 <= i < |was| ensures
      (MatchOf(k, row)(was[i].entry) <==>
        Begin(was, Exactly(k)) <= i < End(was, Exactly(k)) && (row.None? || row.value == was[i].entry.row))
    {
      BracketHolds(was, Exactly(k), i);
    }
  }

  lemma {:induction false} NoneMarked(cells: seq<Cell>, pick: Entry -> bool, v: nat, at: nat)
    requires forall i :: 0 <= i < |cells| ==> !pick(cells[i].entry)
    ensures Tombstone(cells, pick, v, at) == cells && VisibleCount(cells, pick, v) == 0
  {
    if cells != [] {
      NoneMarked(cells[1..], pick, v, at);
    }
  }

  lemma {:induction false} MarkConcat(a: seq<Cell>, b: seq<Cell>, pick: Entry -> bool, v: nat, at: nat)
    ensures Tombstone(a + b, pick, v, at) == Tombstone(a, pick, v, at) + Tombstone(b, pick, v, at)
    ensures VisibleCount(a + b, pick, v) == VisibleCount(a, pick, v) + VisibleCount(b, pick, v)
  {
    if a == [] {
      assert a + b == b;
    } else {
      assert (a + b)[1..] == a[1..] + b;
      MarkConcat(a[1..], b, pick, v, at);
    }
  }

  lemma MarkNext(was: seq<Cell>, i: nat, pick: Entry -> bool, v: nat, at: nat)
    requires i < |was|
    ensures |Tombstone(was[..i], pick, v, at)| == i
    ensures was[i..] == [was[i]] + was[i + 1..]
    ensures var hit := was[i].ValidAt(v) && pick(was[i].entry);
      && Tombstone(was[..i + 1], pick, v, at)
           == Tombstone(was[..i], pick, v, at) + [if hit then was[i].(removed := Some(at)) else was[i]]
      && VisibleCount(was[..i + 1], pick, v) == VisibleCount(was[..i], pick, v) + (if hit then 1 else 0)
  {
    TombstoneShape(was[..i], pick, v, at);
    assert was[..i + 1] == was[..i] + [was[i]];
    MarkConcat(was[..i], [was[i]], pick, v, at);
    assert [was[i]][1..] == [];
  }

  /** The marking loop at position `i`: what it has written and counted. */
  ghost predicate Marking(was: seq<Cell>, i: nat, pick: Entry -> bool, v: nat, at: nat, data: seq<Cell>, count: int)
  {
    i <= |was| && data == Tombstone(was[..i], pick, v, at) + was[i..] && count == VisibleCount(was[..i], pick, v)
  }

  lemma MarkingStarts(was: seq<Cell>, i: nat, pick: Entry -> bool, v: nat, at: nat)
    requires i <= |was| && forall j :: 0 <= j < i ==> !pick(was[j].entry)
    ensures Marking(was, i, pick, v, at, was, 0)
  {
    NoneMarked(was[..i], pick, v, at);
  }

  lemma MarkingNext(was: seq<Cell>, i: nat, pick: Entry -> bool, v: nat, at: nat, data: seq<Cell>, count: int)
    requires i < |was| && Marking(was, i, pick, v, at, data, count)
    ensures i < |data| && data[i] == was[i]
    ensures if was[i].ValidAt(v) && pick(was[i].entry)
            then Marking(was, i + 1, pick, v, at, data[i := was[i].(removed := Some(at))], count + 1)
            else Marking(was, i + 1, pick, v, at, data, count)
    ensures was[i].ValidAt(v) && pick(was[i].entry) && count == 0 ==>
      TombstoneFirst(was, pick, v, at) == data[i := was[i].(removed := Some(at))] && VisibleCount(was, pick, v) > 0
  {
    hide Tombstone, TombstoneFirst, VisibleCount;
    MarkNext(was, i, pick, v, at);
    if was[i].ValidAt(v) && pick(was[i].entry) && count == 0 {
      FirstMarked(was, i, pick, v, at);
      assert was[..i] + was[i..] == was;
    }
  }

  lemma MarkingEnds(was: seq<Cell>, i: nat, pick: Entry -> bool, v: nat, at: nat, data: seq<Cell>, count: int)
    requires Marking(was, i, pick, v, at, data, count) && forall j :: i <= j < |was| ==> !pick(was[j].entry)
    ensures data == Tombstone(was, pick, v, at) && count == VisibleCount(was, pick, v)
    ensures count == 0 ==> data == TombstoneFirst(was, pick, v, at)
  {
    RestUnmarked(was, i, pick, v, at);
  }

  lemma RestUnmarked(was: seq<Cell>, i: nat, pick: Entry -> bool, v: nat, at: nat)
    requires i <= |was| && forall j :: i <= j < |was| ==> !pick(was[j].entry)
    ensures Tombstone(was[..i], pick, v, at) + was[i..] == Tombstone(was, pick, v, at)
    ensures VisibleCount(was[..i], pick, v) == VisibleCount(was, pick, v)
    ensures VisibleCount(was, pick, v) == 0 ==> TombstoneFirst(was, pick, v, at) == Tombstone(was, pick, v, at)
  {
    assert was == was[..i] + was[i..];
    NoneMarked(was[i..], pick, v, at);
    MarkConcat(was[..i], was[i..], pick, v, at);
    NoFirst(was, pick, v, at);
  }

  lemma {:induction false} NoFirst(was: seq<Cell>, pick: Entry -> bool, v: nat, at: nat)
    ensures VisibleCount(was, pick, v) == 0 ==>
      TombstoneFirst(was, pick, v, at) == was && Tombstone(was, pick, v, at) == was
  {
    if was != [] {
      NoFirst(was[1..], pick, v, at);
    }
  }

  lemma {:induction false} FirstMarked(was: seq<Cell>, i: nat, pick: Entry -> bool, v: nat, at: nat)
    requires i < |was| && VisibleCount(was[..i], pick, v) == 0
    requires was[i].ValidAt(v) && pick(was[i].entry)
    ensures TombstoneFirst(was, pick, v, at) == was[i := was[i].(removed := Some(at))]
    ensures Tombstone(was[..i], pick, v, at) == was[..i]
    ensures VisibleCount(was, pick, v) > 0
  {
    NoFirst(was[..i], pick, v, at);
    if i > 0 {
      assert was[..i][1..] == was[1..][..i - 1];
      FirstMarked(was[1..], i - 1, pick, v, at);
    }
  }

  lemma {:induction false} NoneDropped(cells: seq<Cell>, pick: Entry -> bool)
    requires forall i :: 0 <= i < |cells| ==> !pick(cells[i].entry)
    ensures Drop(cells, pick) == cells && DropFirst(cells, pick) == cells
  {
    if cells != [] {
      NoneDropped(cells[1..], pick);
    }
  }

  lemma {:induction false} DropConcat(a: seq<Cell>, b: seq<Cell>, pick: Entry -> bool)
    ensures Drop(a + b, pick) == Drop(a, pick) + Drop(b, pick)
    ensures Drop(a, pick) == a ==> DropFirst(a + b, pick) == a + DropFirst(b, pick)
  {
    if a == [] {
      assert a + b == b;
    } else {
      assert (a + b)[1..] == a[1..] + b;
      DropConcat(a[1..], b, pick);
      DropShrinks(a[1..], pick);
    }
  }

  lemma {:induction false} DropShrinks(a: seq<Cell>, pick: Entry -> bool)
    ensures |Drop(a, pick)| <= |a|
  {
    if a != [] {
      DropShrinks(a[1..], pick);
    }
  }

  lemma {:induction false} DropMiddle(was: seq<Cell>, lo: nat, hi: nat, pick: Entry -> bool)
    requires lo <= hi <= |was|
    requires forall i :: 0 <= i < |was| ==> (pick(was[i].entry) <==> lo <= i < hi)
    ensures Drop(was, pick) == was[..lo] + was[hi..]
  {
    if hi == 0 {
      NoneDropped(was, pick);
    } else if lo == 0 {
      DropMiddle(was[1..], 0, hi - 1, pick);
    } else {
      DropMiddle(was[1..], lo - 1, hi - 1, pick);
    }
  }

  lemma {:induction false} LowerBoundIsFirst(was: seq<Cell>, k: Key)
    requires AtLowerBound(was, k).Some?
    ensures Begin(was, Exactly(k)) < |was|
    ensures DropFirst(was, NotBelow(k)) == was[..Begin(was, Exactly(k))] + was[Begin(was, Exactly(k)) + 1..]
  {
    var before := CellBeforeBegin(Exactly(k));
    assert before(was[0]) <==> Less(was[0].entry.key, k);
    if Less(was[0].entry.key, k) {
      LowerBoundIsFirst(was[1..], k);
      ConsCut(was, PartitionPoint(was[1..], before));
    }
  }

  lemma ConsCut(was: seq<Cell>, n: nat)
    requires was != [] && n < |was[1..]|
    ensures was[..n + 1] + was[n + 2..] == [was[0]] + (was[1..][..n] + was[1..][n + 1..])
  {
    assert was[..n + 1] == [was[0]] + was[1..][..n];
    assert was[n + 2..] == was[1..][n + 1..];
  }

  lemma DropNext(was: seq<Cell>, i: nat, pick: Entry -> bool)
    requires i < |was|
    ensures was[i..] == [was[i]] + was[i + 1..] && was[..i + 1] == was[..i] + [was[i]]
    ensures Drop(was[..i + 1], pick) == Drop(was[..i], pick) + (if pick(was[i].entry) then [] else [was[i]])
  {
    assert was[..i + 1] == was[..i] + [was[i]];
    DropConcat(was[..i], [was[i]], pick);
    assert [was[i]][1..] == [];
  }

  /** One round of the erase loop, with the part already erased in front. */
  lemma DropStep(was: seq<Cell>, i: nat, pick: Entry -> bool)
    requires i < |was|
    ensures var done := Drop(was[..i], pick);
            var data := done + was[i..];
      && data[|done|] == was[i]
      && data[..|done|] + data[|done| + 1..] == done + was[i + 1..]
      && (pick(was[i].entry) ==> Drop(was[..i + 1], pick) == done)
      && (!pick(was[i].entry) ==>
            && Drop(was[..i + 1], pick) == done + [was[i]]
            && data == Drop(was[..i + 1], pick) + was[i + 1..])
      && was[..i + 1] == was[..i] + [was[i]]
  {
    DropNext(was, i, pick);
  }

  lemma FirstDropped(was: seq<Cell>, i: nat, pick: Entry -> bool)
    requires i < |was| && Drop(was[..i], pick) == was[..i] && pick(was[i].entry)
    ensures DropFirst(was, pick) == was[..i] + was[i + 1..]
  {
    assert was == was[..i] + was[i..];
    DropConcat(was[..i], was[i..], pick);
  }

  lemma RestDropped(was: seq<Cell>, i: nat, pick: Entry -> bool)
    requires i <= |was| && forall j :: i <= j < |was| ==> !pick(was[j].entry)
    ensures Drop(was[..i], pick) + was[i..] == Drop(was, pick)
    ensures Drop(was[..i], pick) == was[..i] ==> DropFirst(was, pick) == was
  {
    assert was == was[..i] + was[i..];
    NoneDropped(was[i..], pick);
    DropConcat(was[..i], was[i..], pick);
  }

  lemma SpanNext(was: seq<Cell>, b: nat, i: nat, v: nat)
    requires b <= i < |was|
    ensures |MarkBetween(was, b, i, v)| == |was| && MarkBetween(was, b, i, v)[i] == was[i]
    ensures MarkBetween(was, b, i + 1, v) ==
      MarkBetween(was, b, i, v)[i := if was[i].ValidAt(v) then was[i].(removed := Some(v + 1)) else was[i]]
  {
    var all := Everything();
    TombstoneShape(was[b..i], all, v, v + 1);
    TombstoneShape(was[b..i + 1], all, v, v + 1);
    var x, y := MarkBetween(was, b, i, v), MarkBetween(was, b, i + 1, v);
    assert |x| == |was| && x[i] == was[i];
    forall k | 0 <= k < |was| && k != i ensures y[k] == x[k] {
    }
  }

  // ---------- facts the methods need about the group value ----------

  lemma AlonePrepared(a: Group<SortedMap>, links: map<SortedMap, Link<SortedMap>>, w: SortedMap)
    requires Inv(a) && Linked(a.ring, links) && links.Keys == a.ver.Keys && w in links
    ensures links[w].prev in links
    ensures links[w].prev != w <==> Shared(a)
  {
    var i :| 0 <= i < |a.ring| && a.ring[i] == w;
    Neighbours(a.ring, links, i);
  }

  lemma ErasePrepared(a: Group<SortedMap>, w: SortedMap, k: Key, row: Option<RowId>, firstOnly: bool)
    requires Inv(a) && a.writer == Some(w)
    ensures Sorted(a.cells) && w in a.ver
    ensures var a' := if firstOnly then EraseFirst(a, k, row) else Erase(a, MatchOf(k, row));
      Inv(a') && a'.ring == a.ring && a'.ver == a.ver[w := a.ver[w] + 1]
  {
    hide Inv, MatchOf;
    CellFacts(a);
    WritePrepared(a, w);
    EraseOneInv(a, k, row);
    EraseInv(a, MatchOf(k, row));
  }

  lemma NotInRing(a: Group<SortedMap>, x: SortedMap)
    requires Inv(a) && x !in a.ver
    ensures x !in a.ring
  {
  }

  lemma MemberIndex(a: Group<SortedMap>, x: SortedMap) returns (i: nat)
    requires Inv(a) && x in a.ver
    ensures i < |a.ring| && a.ring[i] == x
  {
    i :| 0 <= i < |a.ring| && a.ring[i] == x;
  }

  ghost predicate CanUnlink(a: Group<SortedMap>, i: nat)
  {
    i < |a.ring| && |a.ring| > 1 && Unlink(a, i).ring[0] in Unlink(a, i).ver
  }

  /** The facts behind a member's leaving. */
  lemma LeavePrepared(a: Group<SortedMap>, links: map<SortedMap, Link<SortedMap>>, x: SortedMap)
    returns (i: nat)
    requires Inv(a) && Linked(a.ring, links) && links.Keys == a.ver.Keys && x in links && Shared(a)
    ensures i < |a.ring| && a.ring[i] == x && CanUnlink(a, i)
    ensures links[x].prev in links && links[x].prev != x
    ensures links[x].next in links && links[x].next != x
    ensures Inv(Unlink(a, i)) && Linked(Unlink(a, i).ring, LeaveLinks(links, x) - {x})
    ensures (LeaveLinks(links, x) - {x}).Keys == Unlink(a, i).ver.Keys
  {
    hide Inv, Linked, RemoveAt;
    i := MemberIndex(a, x);
    LinkedLeave(a.ring, links, i);
    UnlinkInv(a, i);
    LeaveCorrect(a, i);
  }

  lemma RetirePrepared(a: Group<SortedMap>, x: SortedMap)
    requires Inv(a) && x in a.ver
    ensures a.writer == Some(x) ==> Inv(a.(writer := None))
    ensures Shared(a) ==> forall i :: 0 <= i < |a.ring| && a.ring[i] == x ==> CanUnlink(a, i)
  {
  }

  lemma StillMember(g: SharedGroup, a: Group<SortedMap>, i: nat, x: SortedMap)
    requires g.Valid() && Inv(a) && i < |a.ring| && |a.ring| > 1 && x in a.ring && x != a.ring[i]
    requires Unlink(a, i).ring[0] in Unlink(a, i).ver && g.abs == Leave(a, i)
    ensures x.ssg == g
  {
    hide Inv, Leave, Unlink;
    LeaveCorrect(a, i);
    MemberOf(g, x);
  }

  lemma MemberOf(g: SharedGroup, x: SortedMap)
    requires g.Valid() && x in g.abs.ring
    ensures x.ssg == g
  {
  }

  lemma OthersShare(a: Group<SortedMap>, x: SortedMap, y: SortedMap)
    requires Inv(a) && x in a.ver && y in a.ring && x != y
    ensures Shared(a)
  {
  }

  lemma CellFacts(a: Group<SortedMap>)
    requires Inv(a)
    ensures Sorted(a.cells) && NodesDistinct(a.cells)
  {
  }

  lemma EraseRangePrepared(a: Group<SortedMap>, w: SortedMap, s: SortedMap, b: nat, e: nat)
    requires Inv(a) && a.writer == Some(w) && s in a.ver && s != w && b <= e <= |a.cells|
    ensures w in a.ver && Shared(a)
    ensures var a' := EraseBetween(a, b, e);
      Inv(a') && a'.ring == a.ring && a'.ver == a.ver[w := a.ver[w] + 1]
  {
    EraseBetweenInv(a, b, e);
    assert s in a.ring;
  }

  lemma AloneLinked(w: SortedMap, r: seq<SortedMap>, links: map<SortedMap, Link<SortedMap>>)
    requires r == [w] && links == map[w := Link(w, w)]
    ensures Linked(r, links)
  {
  }

  /** A writer is there, and ahead of all others. */
  ghost predicate Ahead(a: Group<SortedMap>)
  {
    a.writer.Some? && a.writer.value in a.ver && WriterAhead(a)
  }

  /** One more node under the writer's present version. */
  function Appended(a: Group<SortedMap>, e: Entry): Group<SortedMap>
    requires a.writer.Some? && a.writer.value in a.ver
  {
    a.(cells := InsertCell(a.cells, Cell(a.nextNode, e, a.ver[a.writer.value], None)),
       inserts := a.inserts + 1, nextNode := a.nextNode + 1)
  }

  lemma AppendNone(a: Group<SortedMap>)
    requires a.writer.Some? && a.writer.value in a.ver
    ensures Append(a, []) == a
  {
  }

  lemma AppendMore(a: Group<SortedMap>, es: seq<Entry>, e: Entry)
    requires a.writer.Some? && a.writer.value in a.ver
    ensures Append(a, es).writer == a.writer && Append(a, es).ver == a.ver
    ensures Append(a, es + [e]) == Appended(Append(a, es), e)
  {
    AppendFrame(a, es);
    assert (es + [e])[..|es|] == es;
  }

  lemma AppendOnePrepared(a: Group<SortedMap>, w: SortedMap, e: Entry)
    requires Inv(a) && a.writer == Some(w) && Ahead(a)
    ensures Inv(Appended(a, e)) && Ahead(Appended(a, e))
  {
    AppendStep(a, e);
  }

  lemma SharedByTwo(a: Group<SortedMap>, x: SortedMap, y: SortedMap)
    requires Inv(a) && x in a.ver && y in a.ver && x != y
    ensures Shared(a)
  {
  }

  lemma LeaveSeenBy(a: Group<SortedMap>, i: nat, y: SortedMap)
    requires Inv(a) && CanUnlink(a, i) && y in a.ver && y != a.ring[i]
    ensures var a' := Leave(a, i);
      && a'.ver.Keys == a.ver.Keys - {a.ring[i]}
      && a'.writer == (if a.writer == Some(a.ring[i]) then None else a.writer)
      && y in a'.ver && Observe(a', y) == Observe(a, y)
  {
    LeaveCorrect(a, i);
  }

  lemma JoinSeenBy(a: Group<SortedMap>, i: nat, x: SortedMap, y: SortedMap)
    requires Inv(a) && i < |a.ring| && x !in a.ver && y in a.ver
    ensures a.ring[i] in a.ver && y in Join(a, i, x).ver && Observe(Join(a, i, x), y) == Observe(a, y)
  {
  }

  lemma CopyFacts(a: Group<SortedMap>, x: SortedMap)
    requires Inv(a) && x in a.ver
    ensures SortedEntries(Observe(a, x))
  {
    ViewSorted(a.cells, a.ver[x]);
  }

  lemma JoinedSees(a: Group<SortedMap>, i: nat, x: SortedMap)
    requires Inv(a) && i < |a.ring| && x !in a.ver
    ensures a.ring[i] in a.ver && x in Join(a, i, x).ver && Observe(Join(a, i, x), x) == Observe(a, a.ring[i])
    ensures Join(a, i, x).writer == a.writer != Some(x)
  {
  }

  /** A member belongs to one group. */
  lemma GroupsDisjoint(g: SharedGroup, h: SharedGroup)
    requires g.Valid() && h.Valid() && g != h
    ensures g.links.Keys !! h.links.Keys
  {
  }

  /** `snapshot_sortedmap`. */
  class SortedMap {
    var ver: Option<nat>
    var ssg: SharedGroup?
    var prev: SortedMap?
    var next: SortedMap?

    /** A member of a well-formed group. */
    ghost predicate Live()
      reads this, ssg, if ssg != null then ssg.links.Keys else {}
    {
      ssg != null && ssg.Valid() && this in ssg.links
    }

    /** What this map contains. */
    ghost function View(): seq<Entry>
      requires Live()
      reads this, ssg, if ssg != null then ssg.links.Keys else {}
    {
      Observe(ssg.abs, this)
    }

    /** The four link writes of `make_me_snapshot_of`. */
    method Splice(src: SortedMap, g: SharedGroup, ghost links: map<SortedMap, Link<SortedMap>>)
      requires Linking(g, links) && this !in links && src in links && links[src].prev in links
      modifies this`ssg, this`prev, this`next, links.Keys`prev, links.Keys`next
      ensures Linking(g, JoinLinks(links, src, this))
    {
      ssg := g;
      prev := src.prev;
      next := src;
      Relink(src, g, links[this := Link(src.prev, src)]);
    }

    /** The neighbours learn of the new member. */
    method Relink(src: SortedMap, g: SharedGroup, ghost links: map<SortedMap, Link<SortedMap>>)
      requires Linking(g, links) && this in links && src in links && links[src].prev in links && src != this
      modifies links.Keys`prev, links.Keys`next
      ensures var p := links[src].prev; var l := links[p := links[p].(next := this)];
        Linking(g, l[src := l[src].(prev := this)])
    {
      src.prev.next := this;
      src.prev := this;
    }

    /** `make_me_snapshot_of`. */
    method MakeMeSnapshotOf(src: SortedMap) returns (ghost i: nat)
      requires src.Live() && this !in src.ssg.links
      modifies this, src.ssg, src.ssg.links.Keys
      ensures Live() && ssg == old(src.ssg) && src.ssg == ssg
      ensures i < |old(src.ssg.abs.ring)| && old(src.ssg.abs.ring)[i] == src && src in old(src.ssg.abs.ver)
      ensures ssg.abs == Join(old(src.ssg.abs), i, this)
      ensures ssg.links.Keys == old(src.ssg.links.Keys) + {this}
    {
      hide Inv, Linked, InsertAt;
      var g: SharedGroup := src.ssg;
      i := JoinPrepared(g.abs, g.links, src, this);
      ghost var vs := g.abs.ver[this := g.abs.ver[src]];
      ver := src.ver;
      assert Versions(vs);
      Splice(src, g, g.links);
      assert Versions(vs);
      g.Joined(src, this, i);
      assert Linking(g, g.links) && Versions(g.abs.ver);
    }

    /** The first loop of `gc_run`: round the ring once for the lowest version. */
    method LowestVersion() returns (low: nat)
      requires Live()
      ensures low == Lowest(ssg.abs)
    {
      hide Inv, Linked;
      ghost var r := WalkPrepared(ssg.abs, ssg.links, this);
      ghost var vs := ssg.abs.ver;
      low := ver.value;
      var q: SortedMap := this;
      ghost var t := 0;
      while true
        invariant 0 <= t < |r| && q == r[t]
        invariant forall j :: 0 <= j < t ==> low <= vs[r[j]]
        invariant exists j :: 0 <= j < |r| && low == vs[r[j]]
        decreases |r| - t
      {
        WalkStep(r, ssg.links, t);
        if q.ver.value < low {
          low := q.ver.value;
        }
        q, t := q.next, t + 1;
        if q == this {
          break;
        }
      }
      LowestFound(ssg.abs, r, low);
    }

    /** `gc_run`. */
    method GcRun()
      requires Live()
      modifies ssg
      ensures Live() && ssg.abs == Gc(old(ssg.abs))
    {
      hide Inv, Linked;
      ghost var a := ssg.abs;
      GcPrepared(a);
      var low := LowestVersion();
      ssg.Sweep(low);
      assert Linking(ssg, ssg.links) && Versions(ssg.abs.ver);
    }

    /** `snapshot_count`. */
    method SnapshotCount() returns (count: nat)
      requires Live()
      ensures count == |ssg.abs.ring|
    {
      hide Inv, Linked;
      ghost var r := WalkPrepared(ssg.abs, ssg.links, this);
      count := 0;
      var q: SortedMap := this;
      while true
        invariant 0 <= count < |r| && q == r[count]
        decreases |r| - count
      {
        WalkStep(r, ssg.links, count);
        q, count := q.next, count + 1;
        if q == this {
          break;
        }
      }
    }

    /** `debug_group_sanity_check`: its three `verify` conditions. */
    method SanityCheck() returns (flips: nat, writerInGroup: bool)
      requires Live()
      ensures flips < 2
      ensures ssg.writer != null ==> writerInGroup
      ensures ssg.writer != null ==> ssg.writer in ssg.links && ssg.writer.Top()
    {
      hide Inv, Linked;
      ghost var r := WalkPrepared(ssg.abs, ssg.links, this);
      ghost var drop := DropPrepared(ssg.abs, ssg.links, r);
      flips, writerInGroup := 0, false;
      var q: SortedMap := this;
      ghost var t := 0;
      while true
        invariant 0 <= t < |r| && q == r[t]
        invariant flips == 0 || (flips == 1 && drop < t)
        invariant writerInGroup || forall j :: 0 <= j < t ==> r[j] != ssg.writer
        decreases |r| - t
      {
        WalkStep(r, ssg.links, t);
        assert t != drop ==> Rises(r, ssg.abs.ver, t);
        if q == ssg.writer {
          writerInGroup := true;
        }
        if q.ver.value > q.next.ver.value {
          flips := flips + 1;
        }
        q, t := q.next, t + 1;
        if q == this {
          break;
        }
      }
      if ssg.writer != null {
        WriterPrepared(ssg.abs, ssg.links);
        assert ssg.writer in r;
      }
    }

    /** No neighbour is newer. */
    ghost predicate Top()
      reads this, prev, next
    {
      && ver.Some? && prev != null && next != null && prev.ver.Some? && next.ver.Some?
      && ver.value >= prev.ver.value && ver.value >= next.ver.value
    }

    // ---------- writes ----------

    /** `insert(key, value)`. */
    method Insert(e: Entry)
      requires Live() && ssg.writer == this
      modifies this`ver, ssg
      ensures Live() && ssg.abs == SnapshotGroup.Insert(old(ssg.abs), e)
    {
      hide Inv, Linked;
      ghost var a := ssg.abs;
      WritePrepared(a, this);
      InsertCorrect(a, e);
      ver := Some(ver.value + 1);
      ssg.AddCell(e, ver.value);
      assert Linking(ssg, ssg.links) && Versions(ssg.abs.ver);
    }

    /** `has_readonly_snapshot`, asked by the writer: exactly when it is not alone. */
    method HasReadonlySnapshot() returns (r: bool)
      requires Live()
      ensures ssg.writer == this ==> (r <==> Shared(ssg.abs))
      ensures ssg.writer != this ==> r
    {
      hide Inv, Linked;
      if ssg.writer != this {
        return true;
      }
      WritePrepared(ssg.abs, this);
      AlonePrepared(ssg.abs, ssg.links, this);
      return prev.ssg.writer != prev;
    }

    /** `erase(key[, value][, first_match_only])`. Erasing a first match by key alone is undefined in
        the code when the lower bound is the end of the map. */
    method Erase(k: Key, row: Option<RowId>, firstOnly: bool)
      requires Live() && ssg.writer == this
      requires firstOnly && row.None? && !Shared(ssg.abs) ==> AtLowerBound(ssg.data, k).Some?
      modifies this`ver, ssg
      ensures Live()
      ensures ssg.abs == if firstOnly then EraseFirst(old(ssg.abs), k, row)
                         else SnapshotGroup.Erase(old(ssg.abs), MatchOf(k, row))
    {
      hide Inv, Linked, SnapshotGroup.Erase, EraseFirst, Shared;
      ghost var a := ssg.abs;
      ErasePrepared(a, this, k, row, firstOnly);
      var shared := HasReadonlySnapshot();
      var orig := ver.value;
      ver := Some(orig + 1);
      ssg.EraseCells(k, row, firstOnly, shared, orig);
      assert Linking(ssg, ssg.links) && Versions(ssg.abs.ver);
    }

    /** The two link writes of `destroy_me`, and this member's own fields. */
    method Unsplice(g: SharedGroup, ghost links: map<SortedMap, Link<SortedMap>>) returns (right: SortedMap)
      requires Linking(g, links) && this in links
      requires links[this].prev in links && links[this].next in links
      requires links[this].prev != this && links[this].next != this
      modifies this, links.Keys`prev, links.Keys`next
      ensures Linking(g, LeaveLinks(links, this) - {this})
      ensures right == links[this].next
      ensures ssg == null && prev == null && next == null && ver == None
    {
      right := next;
      ghost var p, n := prev, next;
      ghost var l1 := links[p := links[p].(next := n)];
      prev.next := next;
      assert Linking(g, l1);
      next.prev := prev;
      assert Linking(g, l1[n := l1[n].(prev := p)]);
      ver, ssg, prev, next := None, null, null, null;
    }

    /** Leave a ring that has other members. */
    method LeaveRing() returns (right: SortedMap, ghost i: nat)
      requires Live() && Shared(ssg.abs) && ssg.writer != this
      modifies this, ssg`abs, ssg`links, ssg.links.Keys`prev, ssg.links.Keys`next
      ensures ssg == null && prev == null && next == null && ver == None
      ensures right.Live() && right.ssg == old(ssg)
      ensures i < |old(ssg.abs.ring)| && old(ssg.abs.ring)[i] == this
      ensures old(ssg).abs == Unlink(old(ssg.abs), i)
    {
      hide Inv, Linked, RemoveAt, SharedGroup.Valid, SharedGroup.Shows, LeaveLinks, Linking, Versions;
      var g: SharedGroup := ssg;
      ghost var a, links := g.abs, g.links;
      GroupParts(g);
      WriterShown(g);
      i := LeavePrepared(a, links, this);
      right := UnspliceBeside(g, links, a.ver);
      g.Left(this, i);
      GroupWhole(g);
    }

    /** The same, as the members that stay see it. */
    method UnspliceBeside(g: SharedGroup, ghost links: map<SortedMap, Link<SortedMap>>, ghost vs: map<SortedMap, nat>)
      returns (right: SortedMap)
      requires Linking(g, links) && Versions(vs) && vs.Keys == links.Keys && this in links
      requires links[this].prev in links && links[this].next in links
      requires links[this].prev != this && links[this].next != this
      modifies this, links.Keys`prev, links.Keys`next
      ensures Linking(g, LeaveLinks(links, this) - {this}) && Versions(vs - {this})
      ensures right == links[this].next && right.ssg == g
      ensures ssg == null && prev == null && next == null && ver == None
    {
      right := Unsplice(g, links);
    }

    /** `destroy_me`: its group goes on as `Leave` says, unless this was the last member. */
    method DestroyMe() returns (ghost i: nat)
      requires Live()
      modifies this, ssg, ssg.links.Keys
      ensures ssg == null && prev == null && next == null && ver == None
      ensures Shared(old(ssg.abs)) ==>
        && CanUnlink(old(ssg.abs), i) && old(ssg.abs.ring)[i] == this
        && old(ssg).Valid() && old(ssg).abs == Leave(old(ssg.abs), i)
    {
      hide Inv, Linked, AutoGc, RemoveAt, SharedGroup.Valid, SharedGroup.Shows, Versions;
      var g: SharedGroup := ssg;
      ghost var a := g.abs;
      i := 0;
      GroupParts(g);
      AlonePrepared(a, g.links, this);
      RetirePrepared(a, this);
      var autoGc := g.Retire(this);
      if prev == this {
        ver, ssg, prev, next := None, null, null, null;
      } else {
        WriterShown(g);
        GroupWhole(g);
        i := LeaveOthers(autoGc);
      }
    }

    /** The part of `destroy_me` for a group with other members: the right neighbour may collect. */
    method LeaveOthers(autoGc: bool) returns (ghost i: nat)
      requires Live() && Shared(ssg.abs) && ssg.writer != this
      modifies this, ssg, ssg.links.Keys
      ensures ssg == null && prev == null && next == null && ver == None
      ensures i < |old(ssg.abs.ring)| && old(ssg.abs.ring)[i] == this && CanUnlink(old(ssg.abs), i)
      ensures old(ssg).Valid()
      ensures old(ssg).abs == if autoGc then Gc(Unlink(old(ssg.abs), i)) else Unlink(old(ssg.abs), i)
    {
      hide Inv, Linked, Unlink, SharedGroup.Valid, SharedGroup.Shows, Versions;
      GroupParts(ssg);
      RetirePrepared(ssg.abs, this);
      var right;
      right, i := LeaveRing();
      if autoGc {
        right.GcRun();
      }
    }

    // ---------- queries ----------

    /** What the queries at a key, and between two keys, answer together. */
    lemma AnswersTogether(k: Key, hi: Key)
      requires Live()
      ensures View() == Asked(View(), Below(k)) + Asked(View(), Exactly(k)) + Asked(View(), Above(k))
      ensures forall e :: e in Asked(View(), Exactly(k)) <==> e in View() && e.key == k
      ensures Asked(View(), Between(k, hi)) == Asked(Asked(View(), Above(k)), Below(hi))
      ensures Asked(View(), Interval.All) == View()
    {
      MemberFacts(this);
      CopyFacts(ssg.abs, this);
      hide Asked, SortedEntries, Observe;
      ThreeAnswers(View(), k);
      BothEnds(View(), k, hi);
    }

    /** `all`, `query`, `query_lt`, `query_gt`, `query_in` and their reverse forms: the range takes
        its own snapshot and yields exactly this map's entries of the interval. */
    method Query(iv: Interval, reverse: bool) returns (r: RangeCursor, ghost i: nat)
      requires Live() && iv.Proper()
      modifies ssg, ssg.links.Keys
      ensures Live() && ssg == old(ssg) && fresh(r) && fresh(r.snap)
      ensures i < |old(ssg.abs.ring)| && old(ssg.abs.ring)[i] == this && this in old(ssg.abs.ver)
      ensures ssg.abs == Join(old(ssg.abs), i, r.snap)
      ensures ssg.links.Keys == old(ssg.links.Keys) + {r.snap} && ssg.writer == old(ssg.writer)
      ensures r.Valid() && r.snap.ssg == ssg && r.reverse == reverse
      ensures var picked := Asked(old(View()), iv);
        r.Remaining() == (if reverse then Reversed(picked) else picked) && r.Spanned() == r.Remaining()
    {
      hide SharedGroup.Valid, Keep, Reversed, Observe, Join, RangeCursor.Valid, Rest, Whole;
      MemberFacts(this);
      ghost var a := ssg.abs;
      var s := new SortedMap;
      i := s.MakeMeSnapshotOf(this);
      MemberFacts(s);
      JoinFacts(a, i, s);
      JoinedSees(a, i, s);
      r := s.OpenRange(iv, reverse);
    }

    /** The range that a read-only member holds. */
    method OpenRange(iv: Interval, reverse: bool) returns (r: RangeCursor)
      requires Live() && ssg.writer != this && iv.Proper()
      ensures fresh(r) && r.snap == this && r.reverse == reverse && r.Valid()
      ensures r.Remaining() == if reverse then Reversed(Asked(View(), iv)) else Asked(View(), iv)
      ensures r.Spanned() == r.Remaining()
    {
      hide SharedGroup.Valid, NodesDistinct, Sorted, Pos, Held, Begin, End, Keep, Reversed, SnapshotCells.View;
      MemberFacts(this);
      var data := ssg.data;
      RangeView(data, iv, ver.value);
      r := new RangeCursor(this, data, Begin(data, iv), End(data, iv), reverse);
    }

    /** `erase(range)`. The range is itself a member of the group, so its writer is never alone and
        the direct branch is never taken. */
    method EraseRange(r: RangeCursor)
      requires Live() && ssg.writer == this
      requires r.Valid() && r.snap.ssg == ssg && r.snap != this
      modifies this`ver, ssg
      ensures Live()
      ensures ssg.abs == EraseBetween(old(ssg.abs), Pos(old(ssg.data), r.lo), Pos(old(ssg.data), r.hi))
    {
      hide Inv, Linked, EraseBetween, Pos;
      ghost var a := ssg.abs;
      var b, e := Pos(ssg.data, r.lo), Pos(ssg.data, r.hi);
      EraseRangePrepared(a, this, r.snap, b, e);
      var shared := HasReadonlySnapshot();
      var orig := ver.value;
      ver := Some(orig + 1);
      if shared {
        ssg.EraseSpan(b, e, orig);
      } else {
        assert false;
      }
      assert Linking(ssg, ssg.links) && Versions(ssg.abs.ver);
    }

    // ---------- what a live range of the group sees of this ----------

    /** Any live range goes on yielding what it did through an insert ... */
    method InsertBeside(e: Entry, ghost r: RangeCursor)
      requires Live() && ssg.writer == this && r.Valid() && r.snap.ssg == ssg
      modifies this`ver, ssg
      ensures Live() && ssg.abs == SnapshotGroup.Insert(old(ssg.abs), e)
      ensures r.Valid() && r.Remaining() == old(r.Remaining()) && r.Spanned() == old(r.Spanned())
    {
      hide SharedGroup.Valid, Rest, Whole, Backed, Placed, Kept, SnapshotGroup.Insert;
      ghost var a := ssg.abs;
      WriterOf(this);
      r.AsLive();
      RangeThroughInsert(a, r.AsRange(), e);
      Insert(e);
      r.StaysMember(a);
    }

    /** ... through the keyed erases, of all matches or the first ... */
    method EraseBeside(k: Key, row: Option<RowId>, firstOnly: bool, ghost r: RangeCursor)
      requires Live() && ssg.writer == this && r.Valid() && r.snap.ssg == ssg
      modifies this`ver, ssg
      ensures Live()
      ensures ssg.abs == if firstOnly then EraseFirst(old(ssg.abs), k, row)
                         else SnapshotGroup.Erase(old(ssg.abs), MatchOf(k, row))
      ensures r.Valid() && r.Remaining() == old(r.Remaining()) && r.Spanned() == old(r.Spanned())
    {
      hide SharedGroup.Valid, Rest, Whole, Backed, Placed, Kept, SnapshotGroup.Erase, EraseFirst;
      ghost var a := ssg.abs;
      WriterOf(this);
      r.AsLive();
      RangeKeepsWriterShared(a, r.AsRange());
      RangeThroughErase(a, r.AsRange(), MatchOf(k, row));
      RangeThroughEraseFirst(a, r.AsRange(), k, row);
      Erase(k, row, firstOnly);
      r.StaysMember(a);
    }

    /** ... and through the erase of a range, be it itself. */
    method EraseRangeBeside(q: RangeCursor, ghost r: RangeCursor)
      requires Live() && ssg.writer == this && q.Valid() && q.snap.ssg == ssg && r.Valid() && r.snap.ssg == ssg
      modifies this`ver, ssg
      ensures Live()
      ensures Pos(old(ssg.data), q.lo) <= Pos(old(ssg.data), q.hi)
      ensures ssg.abs == EraseBetween(old(ssg.abs), Pos(old(ssg.data), q.lo), Pos(old(ssg.data), q.hi))
      ensures r.Valid() && r.Remaining() == old(r.Remaining()) && r.Spanned() == old(r.Spanned())
    {
      hide SharedGroup.Valid, Rest, Whole, Backed, Kept, EraseBetween, Held;
      ghost var a := ssg.abs;
      MemberFacts(this);
      WriterOf(this);
      r.AsLive();
      RangeThroughEraseBetween(a, r.AsRange(), Pos(ssg.data, q.lo), Pos(ssg.data, q.hi));
      EraseRange(q);
      r.StaysMember(a);
    }

    /** ... and through a batch read from another range. */
    method InsertRangeBeside(q: RangeCursor, ghost r: RangeCursor)
      requires Live() && ssg.writer == this && q.Valid() && r.Valid() && r.snap.ssg == ssg && r != q
      modifies this`ver, ssg, q`next, q`cached, q`cachedNext
      ensures Live() && ssg.abs == InsertAll(old(ssg.abs), old(q.Remaining()))
      ensures r.Valid() && r.Remaining() == old(r.Remaining()) && r.Spanned() == old(r.Spanned())
    {
      hide SharedGroup.Valid, Rest, Whole, Backed, Placed, Kept, InsertAll;
      ghost var a := ssg.abs;
      WriterOf(this);
      r.AsLive();
      ghost var es := InsertRange(q);
      RangeThroughInsertAll(a, r.AsRange(), es);
      r.StaysMember(a);
    }

    /** A collection leaves it whole if and only if none of its iterators stands on garbage. */
    method GcRunBeside(ghost r: RangeCursor)
      requires Live() && r.Valid() && r.snap.ssg == ssg
      modifies ssg
      ensures Live() && |old(ssg.abs.ring)| > 0 && old(ssg.abs.ring)[0] in old(ssg.abs.ver)
      ensures ssg.abs == Gc(old(ssg.abs))
      ensures r.Valid() <==> !OnGarbage(old(ssg.data), r.AsSpan(), Lowest(old(ssg.abs)))
      ensures r.Valid() ==> r.Remaining() == old(r.Remaining()) && r.Spanned() == old(r.Spanned())
    {
      hide SharedGroup.Valid, Rest, Whole, Backed, Placed, Kept, SeenStay, Gc, OnGarbage;
      ghost var a := ssg.abs;
      MemberFacts(this);
      GcPrepared(a);
      r.AsLive();
      RangeThroughGc(a, r.AsRange());
      GcRun();
      if !OnGarbage(a.cells, r.AsSpan(), Lowest(a)) {
        r.StaysMember(a);
      } else if r.Valid() {
        r.AsLive();
        assert false;
      }
    }

    /** The end of another member leaves it whole, unless that was the writer, it collects on leaving,
        and an iterator stands on garbage. */
    method DestroyMeBeside(ghost r: RangeCursor) returns (ghost i: nat)
      requires Live() && r.Valid() && r.snap.ssg == ssg && r.snap != this
      modifies this, ssg, ssg.links.Keys
      ensures ssg == null && CanUnlink(old(ssg.abs), i) && old(ssg.abs.ring)[i] == this
      ensures old(ssg).Valid() && old(ssg).abs == Leave(old(ssg.abs), i)
      ensures !r.Valid() <==>
        (old(ssg.writer) == this && AutoGc(old(ssg.abs)) &&
          OnGarbage(old(ssg.data), r.AsSpan(), Lowest(Unlink(old(ssg.abs), i))))
      ensures r.Valid() ==> r.Remaining() == old(r.Remaining()) && r.Spanned() == old(r.Spanned())
    {
      hide SharedGroup.Valid, Rest, Whole, Backed, Placed, Kept, SeenStay, OnGarbage, AutoGc, Leave, Unlink, Inv;
      ghost var a, g := ssg.abs, ssg;
      MemberFacts(this);
      r.AsLive();
      OthersShare(a, this, r.snap);
      i := DestroyMe();
      RangeThroughLeave(a, r.AsRange(), i);
      StillMember(g, a, i, r.snap);
      if LiveRange(g.abs, r.AsRange()) {
        r.StaysMember(a);
      } else if r.Valid() {
        r.AsLive();
        assert false;
      }
    }

    // ---------- construction, copy, assignment ----------

    /** A group of one: the default constructor. */
    method BecomeAlone() returns (g: SharedGroup)
      modifies this
      ensures fresh(g) && ssg == g && g.writer == this && g.abs == Open(this)
      ensures g.links == map[this := Link(this, this)]
      ensures ver == Some(0) && Live()
    {
      hide Inv, Linked;
      g := new SharedGroup(this);
      ver, ssg, prev, next := Some(0), g, this, this;
      OpenInv(this);
      assert g.links.Keys == {this} && g.abs.ver.Keys == {this};
      assert Linking(g, g.links) && Versions(g.abs.ver);
      AloneLinked(this, g.abs.ring, g.links);
      assert g.Valid();
    }

    /** One entry of a batch, beside a range that may be of this very group. */
    method AppendOne(e: Entry, ghost r: RangeCursor)
      requires Live() && ssg.writer == this && Ahead(ssg.abs) && r.Valid()
      modifies ssg
      ensures Live() && Ahead(ssg.abs) && ssg.links == old(ssg.links) && ssg.writer == old(ssg.writer)
      ensures ssg.abs == Appended(old(ssg.abs), e)
      ensures r.Valid() && r.Remaining() == old(r.Remaining())
    {
      hide Inv, Linked, Rest, Whole, Backed, Placed, Kept, WriterAhead;
      ghost var a := ssg.abs;
      AppendOnePrepared(a, this, e);
      r.AsLive();
      if r.snap.ssg == ssg {
        RangeThroughAppend(a, r.AsRange(), e);
      }
      ssg.AppendCell(e, ver.value);
      assert Linking(ssg, ssg.links) && Versions(ssg.abs.ver);
      if r.snap.ssg == ssg {
        r.StaysValid(a);
      }
    }

    /** The writer takes a new version. */
    method TakeVersion()
      requires Live() && ssg.writer == this
      modifies this`ver, ssg`abs
      ensures Live() && Ahead(ssg.abs) && ssg.abs == BumpVersion(old(ssg.abs))
    {
      hide Inv, Linked, WriterAhead;
      WritePrepared(ssg.abs, this);
      BumpInv(ssg.abs);
      ver := Some(ver.value + 1);
      ssg.Bumped();
      assert Linking(ssg, ssg.links) && Versions(ssg.abs.ver);
    }

    method TakeVersionBeside(ghost r: RangeCursor)
      requires Live() && ssg.writer == this && r.Valid()
      modifies this`ver, ssg`abs
      ensures Live() && Ahead(ssg.abs) && ssg.abs == BumpVersion(old(ssg.abs))
      ensures r.Valid() && r.Remaining() == old(r.Remaining())
    {
      hide SharedGroup.Valid, Rest, Whole, Backed, Placed, Kept, WriterAhead;
      ghost var a := ssg.abs;
      ghost var own := r.snap.ssg == ssg;
      WriterOf(this);
      r.AsLive();
      if own {
        RangeThroughBump(a, r.AsRange());
      } else {
        GroupsDisjoint(ssg, r.snap.ssg);
      }
      TakeVersion();
      if own {
        r.StaysValid(a);
      }
    }

    /** `insert(range)`: one version for the whole batch. The range may be over this map's own group,
        which grows under it. */
    method InsertRange(r: RangeCursor) returns (ghost es: seq<Entry>)
      requires Live() && ssg.writer == this && r.Valid()
      modifies this`ver, ssg, r`next, r`cached, r`cachedNext
      ensures Live() && ssg.links == old(ssg.links) && r.Valid() && r.Remaining() == []
      ensures es == old(r.Remaining())
      ensures ssg.abs == InsertAll(old(ssg.abs), es)
    {
      hide SharedGroup.Valid, Append, RangeCursor.Valid, RangeCursor.Remaining, BumpVersion, WriterAhead, Appended;
      TakeVersionBeside(r);
      ghost var a := ssg.abs;
      es := [];
      AppendNone(a);
      while true
        invariant Live() && ssg == old(ssg) && ssg.writer == this && Ahead(ssg.abs) && ssg.links == old(ssg.links)
        invariant ssg.abs == Append(a, es)
        invariant r.Valid() && es + r.Remaining() == old(r.Remaining())
        decreases |r.Remaining()|
      {
        var more := r.HasNext();
        if !more {
          break;
        }
        var e := r.Next();
        AppendMore(a, es, e);
        AppendOne(e, r);
        es := es + [e];
      }
    }

    /** The destructor, as another member of the group sees it: nothing happens. */
    method Dispose(ghost other: SortedMap) returns (ghost i: nat)
      requires Live() && other.Live() && other.ssg == ssg && other != this
      modifies this, ssg, ssg.links.Keys
      ensures ssg == null && other.Live() && other.ssg == old(ssg)
      ensures other.View() == old(other.View())
      ensures old(ssg).writer == if old(ssg.writer) == this then null else old(ssg.writer)
      ensures old(ssg).links.Keys == old(ssg.links.Keys) - {this}
      ensures CanUnlink(old(ssg.abs), i) && old(ssg.abs.ring)[i] == this && old(ssg).abs == Leave(old(ssg.abs), i)
    {
      hide Inv, Linked, Observe, Leave;
      ghost var a := ssg.abs;
      var g: SharedGroup := ssg;
      SharedByTwo(a, this, other);
      i := DestroyMe();
      LeaveSeenBy(a, i, other);
    }

    /** A new group filled from a range over another one. */
    method FillAlone(r: RangeCursor)
      requires r.Valid() && this !in r.snap.ssg.links
      modifies this, r`next, r`cached, r`cachedNext
      ensures Live() && fresh(ssg) && ssg.links.Keys == {this}
      ensures ssg.abs == CopyGroup(this, old(r.Remaining()))
    {
      hide SharedGroup.Valid, Append, BumpVersion, Rest;
      ghost var todo := r.Remaining();
      var g := BecomeAlone();
      assert r.Valid() && r.Remaining() == todo;
      ghost var es := InsertRange(r);
    }

    /** `all()`, as the copied map sees it. */
    method All() returns (r: RangeCursor, ghost i: nat)
      requires Live()
      modifies ssg, ssg.links.Keys
      ensures Live() && ssg == old(ssg) && View() == old(View())
      ensures fresh(r) && fresh(r.snap) && r.snap.Live() && r.snap.ssg == ssg && ssg.writer != r.snap
      ensures ssg.links.Keys == old(ssg.links.Keys) + {r.snap}
      ensures i < |old(ssg.abs.ring)| && old(ssg.abs.ring)[i] == this && this in old(ssg.abs.ver)
      ensures ssg.abs == Join(old(ssg.abs), i, r.snap)
      ensures r.Valid() && r.Remaining() == View()
    {
      hide Inv, Linked, Observe, Rest, Join;
      r, i := Query(Interval.All, false);
      BothEnds(old(View()), [], []);
      JoinSeenBy(old(ssg.abs), i, r.snap, this);
    }

    /** The full-copy branch: a range over `src` fills a new group and goes away again. */
    method CopyWriter(src: SortedMap)
      requires src.Live() && src.ssg.writer == src && this !in src.ssg.links
      modifies this, src.ssg, src.ssg.links.Keys
      ensures Live() && fresh(ssg)
      ensures ssg.abs == CopyGroup(this, old(src.View()))
      ensures src.Live() && src.ssg == old(src.ssg) && src.View() == old(src.View())
      ensures src.ssg.abs == Rested(old(src.ssg.abs)) && src.ssg.links.Keys == old(src.ssg.links.Keys)
    {
      hide SharedGroup.Valid, Append, BumpVersion, Observe, RangeCursor.Valid, Rest, Join, Leave, CanUnlink;
      ghost var a := src.ssg.abs;
      WriterOf(src);
      MemberFacts(src);
      var r;
      ghost var i, j;
      r, i := src.All();
      FillAlone(r);
      ghost var x := r.snap;
      j := r.snap.Dispose(src);
      Visited(a, i, j, x);
    }

    /** `snapshot()`: a read-only member that sees what this map sees now. */
    method Snapshot() returns (s: SortedMap, ghost i: nat)
      requires Live()
      modifies ssg, ssg.links.Keys
      ensures fresh(s) && s.Live() && s.ssg == ssg && ssg.writer != s && s.View() == old(View())
      ensures Live() && ssg == old(ssg) && View() == old(View())
      ensures i < |old(ssg.abs.ring)| && old(ssg.abs.ring)[i] == this && this in old(ssg.abs.ver)
      ensures ssg.abs == Join(old(ssg.abs), i, s)
    {
      hide Inv, Linked, Linking, Versions, Observe, Join;
      s := new SortedMap;
      i := s.MakeMeSnapshotOf(this);
      JoinSeenBy(old(ssg.abs), i, s, this);
      JoinedSees(old(ssg.abs), i, s);
    }

    /** What both the copy constructor and assignment do with an unattached map: join a read-only
        source's group, or copy a writable source. A writable source is its group's writer, so the
        shortcut for a group without a writer is never taken. */
    method BecomeCopyOf(src: SortedMap) returns (ghost i: nat)
      requires src.Live() && this !in src.ssg.links
      modifies this, src.ssg, src.ssg.links.Keys
      ensures Live() && View() == old(src.View())
      ensures src.Live() && src.ssg == old(src.ssg) && src.View() == old(src.View())
      ensures (ssg.writer == this) == (old(src.ssg.writer) == src)
      ensures CopyStep(src, this, old(src.ssg.abs), src.ssg.abs, if ssg == src.ssg then None else Some(ssg.abs), i)
    {
      hide Inv, Linked, Linking, Versions, Append, BumpVersion, Observe, Join, CopyGroup;
      ghost var a := src.ssg.abs;
      CopyFacts(a, src);
      i := 0;
      if src.ssg.writer != src {
        i := MakeMeSnapshotOf(src);
        JoinSeenBy(a, i, this, src);
        JoinedSees(a, i, this);
      } else {
        CopyWriter(src);
        CopyGroupCorrect(this, old(src.View()));
      }
    }

    /** Assignment from a member of the same group. */
    method AssignWithin(src: SortedMap) returns (ghost i: nat, ghost j: nat)
      requires Live() && src.Live() && src.ssg == ssg && src != this
      modifies this, ssg, ssg.links.Keys
      ensures Live() && View() == old(src.View())
      ensures src.Live() && src.View() == old(src.View()) && src.ssg == old(src.ssg)
      ensures (ssg.writer == this) == (old(src.ssg.writer) == src)
      ensures Shared(old(ssg.abs)) && CanUnlink(old(ssg.abs), j) && old(ssg.abs.ring)[j] == this
      ensures CopyStep(src, this, Leave(old(ssg.abs), j), src.ssg.abs,
        if ssg == src.ssg then None else Some(ssg.abs), i)
    {
      hide SharedGroup.Valid, Observe, Leave, CopyStep;
      j := Dispose(src);
      i := BecomeCopyOf(src);
    }

    /** Assignment from a member of another group. */
    method AssignAcross(src: SortedMap) returns (ghost i: nat, ghost j: nat)
      requires Live() && src.Live() && src.ssg != ssg
      modifies this, ssg, ssg.links.Keys, src.ssg, src.ssg.links.Keys
      ensures Live() && View() == old(src.View())
      ensures src.Live() && src.View() == old(src.View()) && src.ssg == old(src.ssg)
      ensures (ssg.writer == this) == (old(src.ssg.writer) == src)
      ensures CopyStep(src, this, old(src.ssg.abs), src.ssg.abs, if ssg == src.ssg then None else Some(ssg.abs), i)
      ensures Shared(old(ssg.abs)) ==>
        && CanUnlink(old(ssg.abs), j) && old(ssg.abs.ring)[j] == this
        && old(ssg).Valid() && old(ssg).abs == Leave(old(ssg.abs), j)
    {
      hide SharedGroup.Valid, Observe, Leave, CopyStep, CanUnlink;
      GroupsDisjoint(ssg, src.ssg);
      ghost var g: SharedGroup := ssg;
      ghost var shared := Shared(g.abs);
      j := DestroyMe();
      assert src.Live() && src.View() == old(src.View());
      if shared {
        GroupsDisjoint(g, src.ssg);
        NotAMember(g, this);
      }
      i := BecomeCopyOf(src);
    }

    /** `operator=`: leave the old group, then become a copy of `src`. */
    method Assign(src: SortedMap) returns (ghost i: nat, ghost j: nat)
      requires Live() && src.Live()
      modifies this, ssg, ssg.links.Keys, src.ssg, src.ssg.links.Keys
      ensures Live() && View() == old(src.View())
      ensures src.Live() && src.View() == old(src.View()) && src.ssg == old(src.ssg)
      ensures src != this ==> (ssg.writer == this) == (old(src.ssg.writer) == src)
      ensures src == this ==> ssg == old(ssg) && ssg.abs == old(ssg.abs)
      ensures src != this && Shared(old(ssg.abs)) ==> CanUnlink(old(ssg.abs), j) && old(ssg.abs.ring)[j] == this
      ensures src != this && old(ssg) != src.ssg ==>
        && CopyStep(src, this, old(src.ssg.abs), src.ssg.abs, if ssg == src.ssg then None else Some(ssg.abs), i)
        && (Shared(old(ssg.abs)) ==> old(ssg).Valid() && old(ssg).abs == Leave(old(ssg.abs), j))
      ensures src != this && old(ssg) == src.ssg ==>
        && Shared(old(ssg.abs))
        && CopyStep(src, this, Leave(old(ssg.abs), j), src.ssg.abs, if ssg == src.ssg then None else Some(ssg.abs), i)
    {
      hide SharedGroup.Valid, Observe, Leave, CopyStep, CanUnlink;
      i, j := 0, 0;
      if src == this {
        return;
      }
      if src.ssg == ssg {
        i, j := AssignWithin(src);
      } else {
        i, j := AssignAcross(src);
      }
    }
  }

  /** A map of no group is a member of none. */
  lemma NotAMember(g: SharedGroup, m: SortedMap)
    requires g.Valid() && m.ssg != g
    ensures m !in g.links
  {
  }

  /** The step of the copy constructor on the source's group, and on the copy's own if it has one. */
  ghost predicate CopyStep(src: SortedMap, x: SortedMap, a: Group<SortedMap>, a': Group<SortedMap>,
      own: Option<Group<SortedMap>>, i: nat)
  {
    if a.writer == Some(src) then src in a.ver && a' == Rested(a) && own == Some(CopyGroup(x, Observe(a, src)))
    else i < |a.ring| && a.ring[i] == src && src in a.ver && a' == Join(a, i, x) && own == None
  }

  lemma Visited(a: Group<SortedMap>, i: nat, j: nat, x: SortedMap)
    requires Inv(a) && i < |a.ring| && a.ring[i] in a.ver && a.writer == Some(a.ring[i]) && x !in a.ver
    requires CanUnlink(Join(a, i, x), j) && Join(a, i, x).ring[j] == x
    ensures Leave(Join(a, i, x), j) == Rested(a)
  {
    VisitRests(a, i, x);
    JoinCorrect(a, i, x);
  }

  // ---------- ranges ----------

  lemma ViewFront(data: seq<Cell>, i: nat, hi: nat, v: nat)
    requires i < hi <= |data|
    ensures View(data[i..hi], v) == (if data[i].ValidAt(v) then [data[i].entry] else []) + View(data[i + 1..hi], v)
  {
  }

  lemma ViewBack(data: seq<Cell>, lo: nat, i: nat, v: nat)
    requires lo < i <= |data|
    ensures View(data[lo..i], v) ==
      View(data[lo..i - 1], v) + (if data[i - 1].ValidAt(v) then [data[i - 1].entry] else [])
  {
    assert data[lo..i] == data[lo..i - 1] + [data[i - 1]];
    ViewConcat(data[lo..i - 1], [data[i - 1]], v);
    assert [data[i - 1]][1..] == [];
  }

  /** The prefetch loop of a forward range: find the next visible cell and step past it. */
  method ScanForward(data: seq<Cell>, v: nat, from: nat, hi: nat) returns (i: nat, found: bool, e: Entry)
    requires from <= hi <= |data|
    ensures from <= i <= hi
    ensures View(data[from..hi], v) == (if found then [e] else []) + View(data[i..hi], v)
    ensures !found ==> i == hi
    ensures found ==> exists j :: 0 <= j < |data| && data[j].entry == e && data[j].ValidAt(v)
  {
    i, found, e := from, false, Entry([], 0);
    while !found && i != hi
      invariant from <= i <= hi
      invariant View(data[from..hi], v) == (if found then [e] else []) + View(data[i..hi], v)
      invariant found ==> 0 < i && data[i - 1].entry == e && data[i - 1].ValidAt(v)
      decreases hi - i, !found
    {
      ViewFront(data, i, hi, v);
      if data[i].ValidAt(v) {
        found, e := true, data[i].entry;
      }
      i := i + 1;
    }
  }

  /** The prefetch loop of a reverse range; a reverse iterator stands just above the cell it yields. */
  method ScanBackward(data: seq<Cell>, v: nat, from: nat, lo: nat) returns (i: nat, found: bool, e: Entry)
    requires lo <= from <= |data|
    ensures lo <= i <= from
    ensures View(data[lo..from], v) == View(data[lo..i], v) + (if found then [e] else [])
    ensures !found ==> i == lo
    ensures found ==> exists j :: 0 <= j < |data| && data[j].entry == e && data[j].ValidAt(v)
  {
    i, found, e := from, false, Entry([], 0);
    while !found && i != lo
      invariant lo <= i <= from
      invariant View(data[lo..from], v) == View(data[lo..i], v) + (if found then [e] else [])
      invariant found ==> i < |data| && data[i].entry == e && data[i].ValidAt(v)
      decreases i - lo, !found
    {
      ViewBack(data, lo, i, v);
      if data[i - 1].ValidAt(v) {
        found, e := true, data[i - 1].entry;
      }
      i := i - 1;
    }
  }

  /** The loop of `snapshot_range::count`. */
  method CountVisible(data: seq<Cell>, v: nat, lo: nat, hi: nat) returns (n: nat)
    requires lo <= hi <= |data|
    ensures n == |View(data[lo..hi], v)|
  {
    n := 0;
    var i := lo;
    assert data[lo..lo] == [];
    while i < hi
      invariant lo <= i <= hi && n == |View(data[lo..i], v)|
    {
      ViewBack(data, lo, i + 1, v);
      if data[i].ValidAt(v) {
        n := n + 1;
      }
      i := i + 1;
    }
  }

  /** `snapshot_range`, forward or reverse. `lo` and `hi` are positions in the map; a reverse range
      begins at `hi`. */
  class RangeCursor {
    const snap: SortedMap
    const reverse: bool
    const lo: Iter
    const hi: Iter
    var next: Iter
    var cached: bool
    var cachedNext: Entry
    var counted: Option<nat>

    /** The range as a value. */
    ghost function AsSpan(): Span
      reads this
    {
      Span(lo, next, hi, if cached then Some(cachedNext) else None, reverse)
    }

    ghost function AsRange(): Range<SortedMap>
      reads this
    {
      Range(snap, AsSpan())
    }

    ghost predicate Valid()
      reads this, snap, snap.ssg, if snap.ssg != null then snap.ssg.links.Keys else {}
    {
      && snap.Live() && snap.ver.Some? && snap.ssg.writer != snap
      && Placed(snap.ssg.data, AsSpan())
      && (counted.Some? ==> counted.value == |Whole(snap.ssg.data, AsSpan(), snap.ver.value)|)
      && Backed(snap.ssg.data, AsSpan(), snap.ver.value)
    }

    /** What it has not yielded yet. */
    ghost function Remaining(): seq<Entry>
      requires Valid()
      reads this, snap, snap.ssg, if snap.ssg != null then snap.ssg.links.Keys else {}
    {
      Rest(snap.ssg.data, AsSpan(), snap.ver.value)
    }

    /** All that it yields, from its first to its last entry. */
    ghost function Spanned(): seq<Entry>
      requires Valid()
      reads this, snap, snap.ssg, if snap.ssg != null then snap.ssg.links.Keys else {}
    {
      Whole(snap.ssg.data, AsSpan(), snap.ver.value)
    }

    /** A valid range is a live range of the group as a value. */
    lemma AsLive()
      requires Valid()
      ensures snap.ssg.Valid() && snap in snap.ssg.abs.ver && snap.ver == Some(snap.ssg.abs.ver[snap])
      ensures LiveRange(snap.ssg.abs, AsRange())
      ensures Remaining() == Rest(snap.ssg.abs.cells, AsSpan(), snap.ssg.abs.ver[snap])
      ensures Spanned() == Whole(snap.ssg.abs.cells, AsSpan(), snap.ssg.abs.ver[snap])
      ensures counted.Some? ==> counted.value == |Whole(snap.ssg.abs.cells, AsSpan(), snap.ssg.abs.ver[snap])|
      ensures Backed(snap.ssg.abs.cells, AsSpan(), snap.ssg.abs.ver[snap])
    {
      hide Rest, Whole, Placed, Backed;
    }

    /** A group that changed from `a` without hurting the range. */
    lemma StaysValid(a: Group<SortedMap>)
      requires snap.Live() && LiveRange(a, AsRange()) && RangeKept(snap.ssg.abs, a, AsRange())
      requires counted.Some? ==> counted.value == |Whole(a.cells, AsSpan(), a.ver[snap])|
      requires Backed(a.cells, AsSpan(), a.ver[snap])
      ensures Valid() && Remaining() == Rest(a.cells, AsSpan(), a.ver[snap])
      ensures Spanned() == Whole(a.cells, AsSpan(), a.ver[snap])
    {
      hide Rest, Whole, Inv, Linked, SeenStay, Backed;
      StaysBacked(snap.ssg.abs.cells, a.cells, AsSpan(), a.ver[snap]);
    }

    /** The same, when only the group is known to be sound. */
    lemma StaysMember(a: Group<SortedMap>)
      requires snap.ssg != null && snap.ssg.Valid() && LiveRange(a, AsRange()) && RangeKept(snap.ssg.abs, a, AsRange())
      requires counted.Some? ==> counted.value == |Whole(a.cells, AsSpan(), a.ver[snap])|
      requires Backed(a.cells, AsSpan(), a.ver[snap])
      ensures Valid() && Remaining() == Rest(a.cells, AsSpan(), a.ver[snap])
      ensures Spanned() == Whole(a.cells, AsSpan(), a.ver[snap])
    {
      hide Rest, Whole, Inv, Linked, Placed, Kept, Backed;
      StaysValid(a);
    }

    constructor (s: SortedMap, data: seq<Cell>, b: nat, e: nat, rev: bool)
      requires b <= e <= |data| && NodesDistinct(data)
      ensures snap == s && reverse == rev && !cached && counted == None
      ensures lo == IterAt(data, b) && hi == IterAt(data, e)
      ensures Placed(data, AsSpan()) && Pos(data, lo) == b && Pos(data, hi) == e
      ensures next == if rev then hi else lo
    {
      snap, reverse, cached, counted := s, rev, false, None;
      lo, hi := IterAt(data, b), IterAt(data, e);
      next := if rev then IterAt(data, e) else IterAt(data, b);
      cachedNext := Entry([], 0);
      new;
      PosUnique(data, lo, b);
      PosUnique(data, hi, e);
    }

    method PrefetchNext() returns (r: bool)
      requires Valid() && !cached
      modifies this`next, this`cached, this`cachedNext
      ensures Valid() && Remaining() == old(Remaining()) && Spanned() == old(Spanned())
      ensures r == cached && (!cached ==> Remaining() == [])
    {
      hide SharedGroup.Valid, Placed, Pos, View, NodesDistinct, Rest, Whole, Backed;
      var data, v := snap.ssg.data, snap.ver.value;
      ghost var s := AsSpan();
      NodesOf(snap);
      PlacedOrder(data, s);
      var i, found, e;
      if reverse {
        i, found, e := ScanBackward(data, v, Pos(data, next), Pos(data, lo));
        ScannedBackward(data, v, s, i, found, e);
      } else {
        i, found, e := ScanForward(data, v, Pos(data, next), Pos(data, hi));
        ScannedForward(data, v, s, i, found, e);
      }
      NowBacked(data, s.(next := IterAt(data, i), cached := if found then Some(e) else None), v);
      next, cached, cachedNext := IterAt(data, i), found, e;
      return found;
    }

    /** `has_next`: whether anything remains; asking loses nothing. */
    method HasNext() returns (r: bool)
      requires Valid()
      modifies this`next, this`cached, this`cachedNext
      ensures Valid() && Remaining() == old(Remaining()) && Spanned() == old(Spanned())
      ensures r == cached && (r <==> Remaining() != [])
    {
      hide SharedGroup.Valid, Placed, Whole, Backed;
      if cached {
        return true;
      }
      r := PrefetchNext();
    }

    /** `next`: the first remaining entry, once. */
    method Next() returns (e: Entry)
      requires Valid() && Remaining() != []
      modifies this`next, this`cached, this`cachedNext
      ensures Valid() && Spanned() == old(Spanned())
      ensures [e] + Remaining() == old(Remaining())
    {
      hide SharedGroup.Valid, Pos, View, Reversed;
      if !cached {
        var ok := PrefetchNext();
      }
      cached := false;
      return cachedNext;
    }

    /** `count`: the length of the whole enumeration, whatever has been yielded. */
    method Count() returns (n: nat)
      requires Valid()
      modifies this`counted
      ensures Valid() && Remaining() == old(Remaining()) && Spanned() == old(Spanned())
      ensures n == |Spanned()|
    {
      hide SharedGroup.Valid, Pos, View, Held;
      if counted.Some? {
        return counted.value;
      }
      var data := snap.ssg.data;
      n := CountVisible(data, snap.ver.value, Pos(data, lo), Pos(data, hi));
      counted := Some(n);
    }
  }

  lemma PlacedOrder(data: seq<Cell>, s: Span)
    requires Placed(data, s)
    ensures Pos(data, s.lo) <= Pos(data, s.next) <= Pos(data, s.hi)
  {
  }

  /** Where a scan leaves a forward range. */
  lemma ScannedForward(data: seq<Cell>, v: nat, s: Span, i: nat, found: bool, e: Entry)
    requires NodesDistinct(data) && Placed(data, s) && s.cached == None && !s.reverse
    requires Pos(data, s.next) <= i <= Pos(data, s.hi)
    requires View(data[Pos(data, s.next)..Pos(data, s.hi)], v) ==
      (if found then [e] else []) + View(data[i..Pos(data, s.hi)], v)
    requires !found ==> i == Pos(data, s.hi)
    ensures var t := s.(next := IterAt(data, i), cached := if found then Some(e) else None);
      && Placed(data, t) && Rest(data, t, v) == Rest(data, s, v) && Whole(data, t, v) == Whole(data, s, v)
      && (!found ==> Rest(data, t, v) == [])
  {
    PosUnique(data, IterAt(data, i), i);
    EmptySlice(data, i, v);
  }

  lemma ScannedBackward(data: seq<Cell>, v: nat, s: Span, i: nat, found: bool, e: Entry)
    requires NodesDistinct(data) && Placed(data, s) && s.cached == None && s.reverse
    requires Pos(data, s.lo) <= i <= Pos(data, s.next)
    requires View(data[Pos(data, s.lo)..Pos(data, s.next)], v) ==
      View(data[Pos(data, s.lo)..i], v) + (if found then [e] else [])
    requires !found ==> i == Pos(data, s.lo)
    ensures var t := s.(next := IterAt(data, i), cached := if found then Some(e) else None);
      && Placed(data, t) && Rest(data, t, v) == Rest(data, s, v) && Whole(data, t, v) == Whole(data, s, v)
      && (!found ==> Rest(data, t, v) == [])
  {
    PosUnique(data, IterAt(data, i), i);
    EmptySlice(data, i, v);
    ReversedAppend(View(data[Pos(data, s.lo)..i], v), e);
  }

  /** A valid group, part by part. */
  lemma GroupParts(g: SharedGroup)
    requires g.Valid()
    ensures g.Shows() && Inv(g.abs) && Linked(g.abs.ring, g.links) && g.links.Keys == g.abs.ver.Keys
    ensures Linking(g, g.links) && Versions(g.abs.ver)
  {
  }

  lemma WriterShown(g: SharedGroup)
    requires g.Shows()
    ensures g.abs.writer == if g.writer == null then None else Some(g.writer)
  {
  }

  lemma GroupWhole(g: SharedGroup)
    requires g.Shows() && Inv(g.abs) && Linked(g.abs.ring, g.links) && g.links.Keys == g.abs.ver.Keys
    requires Linking(g, g.links) && Versions(g.abs.ver)
    ensures g.Valid()
  {
  }

  lemma MemberFacts(m: SortedMap)
    requires m.Live()
    ensures m.ssg.abs.cells == m.ssg.data && Sorted(m.ssg.data) && NodesDistinct(m.ssg.data) && Inv(m.ssg.abs)
    ensures m in m.ssg.abs.ver && m.ver == Some(m.ssg.abs.ver[m]) && m.ssg.links.Keys == m.ssg.abs.ver.Keys
    ensures m.ssg.abs.writer == if m.ssg.writer == null then None else Some(m.ssg.writer)
  {
  }

  lemma JoinFacts(a: Group<SortedMap>, i: nat, x: SortedMap)
    requires i < |a.ring| && a.ring[i] in a.ver
    ensures Join(a, i, x).cells == a.cells && Join(a, i, x).writer == a.writer
    ensures Join(a, i, x).ver == a.ver[x := a.ver[a.ring[i]]]
  {
  }

  lemma WriterOf(m: SortedMap)
    requires m.Live() && m.ssg.writer == m
    ensures m.ssg.abs.writer == Some(m) && m in m.ssg.abs.ver && Inv(m.ssg.abs)
  {
  }

  lemma NodesOf(m: SortedMap)
    requires m.Live()
    ensures NodesDistinct(m.ssg.data)
  {
  }

  lemma EmptySlice(data: seq<Cell>, i: nat, v: nat)
    requires i <= |data|
    ensures View(data[i..i], v) == [] && Reversed(View(data[i..i], v)) == []
  {
  }
}
