/** A snapshot group as a value: its cells, its members in ring order, and its writer.
    `H` is the identity of a member. */
module SnapshotGroup {
  import opened Keys
  import opened Ring
  import opened Multimap
  import opened SnapshotCells

  datatype Group<H> = Group(
    cells: seq<Cell>,
    ring: seq<H>,
    ver: map<H, nat>,
    writer: Option<H>,
    inserts: nat,      // gc_insert_counter
    erases: nat,       // gc_erase_counter
    nextNode: nat      // identity of the next multimap node
  )

  ghost predicate Ascending<H>(ring: seq<H>, ver: map<H, nat>)
    requires forall h :: h in ring ==> h in ver
  {
    forall i, j :: 0 <= i < j < |ring| ==> ver[ring[i]] <= ver[ring[j]]
  }

  ghost predicate NodesDistinct(cells: seq<Cell>)
  {
    forall i, j :: 0 <= i < j < |cells| ==> cells[i].node != cells[j].node
  }

  ghost predicate NodesBelow(cells: seq<Cell>, n: nat)
  {
    forall c :: c in cells ==> c.node < n
  }

  /** The ring part of the invariant: versions rise along the ring and a writer is its tail. */
  ghost predicate RingOk<H>(ring: seq<H>, ver: map<H, nat>, writer: Option<H>)
  {
    && |ring| > 0 && Distinct(ring)
    && (forall h :: h in ring ==> h in ver) && (forall h :: h in ver ==> h in ring)
    && Ascending(ring, ver)
    && (writer.Some? ==> writer.value == ring[|ring| - 1])
  }

  /** The cell part: multimap order and unique nodes. */
  ghost predicate CellsOk(cells: seq<Cell>, nextNode: nat)
  {
    Sorted(cells) && NodesDistinct(cells) && NodesBelow(cells, nextNode)
  }

  /** Both, and no cell newer than a live writer. */
  ghost predicate Inv<H>(g: Group<H>)
  {
    && RingOk(g.ring, g.ver, g.writer)
    && CellsOk(g.cells, g.nextNode)
    && (g.writer.Some? ==> Bounded(g.cells, g.ver[g.writer.value]))
  }

  /** What member `h` observes. */
  function Observe<H(==)>(g: Group<H>, h: H): seq<Entry>
    requires h in g.ver
  {
    View(g.cells, g.ver[h])
  }

  predicate Writable<H(==)>(g: Group<H>, h: H)
  {
    g.writer == Some(h)
  }

  /** `has_readonly_snapshot`, asked by the writer: its left neighbour is somebody else. */
  predicate Shared<H>(g: Group<H>)
  {
    |g.ring| > 1
  }

  // ---------- operations ----------

  function Open<H(==)>(h: H): Group<H>
  {
    Group([], [h], map[h := 0], Some(h), 0, 0, 0)
  }

  function Insert<H(==)>(g: Group<H>, e: Entry): Group<H>
    requires g.writer.Some? && g.writer.value in g.ver
  {
    var w := g.writer.value;
    var v := g.ver[w] + 1;
    g.(cells := InsertCell(g.cells, Cell(g.nextNode, e, v, None)),
       ver := g.ver[w := v],
       inserts := g.inserts + 1,
       nextNode := g.nextNode + 1)
  }

  /** Insert a batch under the version the writer already has. */
  function Append<H(==)>(g: Group<H>, es: seq<Entry>): Group<H>
    requires g.writer.Some? && g.writer.value in g.ver
  {
    if es == [] then g
    else
      var n := |es| - 1;
      var p := Append(g, es[..n]);
      p.(cells := InsertCell(p.cells, Cell(p.nextNode, es[n], g.ver[g.writer.value], None)),
         inserts := p.inserts + 1,
         nextNode := p.nextNode + 1)
  }

  function BumpVersion<H(==)>(g: Group<H>): Group<H>
    requires g.writer.Some? && g.writer.value in g.ver
  {
    g.(ver := g.ver[g.writer.value := g.ver[g.writer.value] + 1])
  }

  function VisibleCount(cells: seq<Cell>, pick: Entry -> bool, v: nat): nat
  {
    if cells == [] then 0
    else (if cells[0].ValidAt(v) && pick(cells[0].entry) then 1 else 0) + VisibleCount(cells[1..], pick, v)
  }

  /** `erase(key)` and `erase(key, value)`: tombstones while anybody else may look, and physical
      erasure otherwise. */
  function Erase<H(==)>(g: Group<H>, pick: Entry -> bool): Group<H>
    requires g.writer.Some? && g.writer.value in g.ver
  {
    var v := g.ver[g.writer.value];
    var g' := BumpVersion(g);
    if Shared(g) then
      g'.(cells := Tombstone(g.cells, pick, v, v + 1), erases := g.erases + VisibleCount(g.cells, pick, v))
    else
      g'.(cells := Drop(g.cells, pick))
  }

  /** The tombstone branch of `erase(..., first_match_only = true)`. */
  function EraseFirstShared<H(==)>(g: Group<H>, pick: Entry -> bool): Group<H>
    requires g.writer.Some? && g.writer.value in g.ver
  {
    var v := g.ver[g.writer.value];
    BumpVersion(g).(
      cells := TombstoneFirst(g.cells, pick, v, v + 1),
      erases := g.erases + (if VisibleCount(g.cells, pick, v) > 0 then 1 else 0))
  }

  function MatchOf(k: Key, row: Option<RowId>): Entry -> bool
  {
    if row.None? then KeyIs(k) else KeyAndRow(k, row.value)
  }

  /** `erase(key[, value], first_match_only = true)`. Alone, the keyed form erases whatever
      `lower_bound(key)` points at, and the valued form the first equal value, tombstone or not. */
  function EraseFirst<H(==)>(g: Group<H>, k: Key, row: Option<RowId>): Group<H>
    requires g.writer.Some? && g.writer.value in g.ver
  {
    if Shared(g) then EraseFirstShared(g, MatchOf(k, row))
    else BumpVersion(g).(cells := DropFirst(g.cells, if row.None? then NotBelow(k) else MatchOf(k, row)))
  }

  /** The states in which a first-match erase is right. Erasing at the end of the map is undefined. */
  ghost predicate FirstMatchSafe<H>(g: Group<H>, k: Key, row: Option<RowId>)
    requires g.writer.Some? && g.writer.value in g.ver
  {
    var v, pick := g.ver[g.writer.value], MatchOf(k, row);
    || Shared(g)
    || (row.Some? && (FirstVisible(g.cells, pick, v) || !AnyVisible(g.cells, pick, v)))
    || (row.None? && AtLowerBound(g.cells, k).Some? &&
        var c := AtLowerBound(g.cells, k).value;
        if c.ValidAt(v) then c.entry.key == k else !AnyVisible(g.cells, pick, v))
  }

  /** `erase(range)` between two positions. The range itself is a member, so only tombstones. */
  function EraseBetween<H(==)>(g: Group<H>, b: nat, e: nat): Group<H>
    requires g.writer.Some? && g.writer.value in g.ver
    requires b <= e <= |g.cells|
  {
    var v := g.ver[g.writer.value];
    BumpVersion(g).(
      cells := MarkBetween(g.cells, b, e, v))
  }

  /** `make_me_snapshot_of(ring[i])`: join at its left with its version. */
  function Join<H(==)>(g: Group<H>, i: nat, h: H): Group<H>
    requires i < |g.ring| && g.ring[i] in g.ver
  {
    var g' := g.(ring := InsertAt(g.ring, i, h), ver := g.ver[h := g.ver[g.ring[i]]]);
    if Writable(g, g.ring[i]) then g'.(inserts := 0, erases := 0) else g'
  }

  function Lowest<H(==)>(g: Group<H>): nat
    requires |g.ring| > 0 && g.ring[0] in g.ver
  {
    g.ver[g.ring[0]]
  }

  function Gc<H(==)>(g: Group<H>): Group<H>
    requires |g.ring| > 0 && g.ring[0] in g.ver
  {
    g.(cells := Collect(g.cells, Lowest(g)), inserts := 0, erases := 0)
  }

  predicate AutoGc<H>(g: Group<H>)
  {
    g.inserts + g.erases >= 16 && g.inserts + g.erases >= |g.cells| / 2
  }

  function Unlink<H(==)>(g: Group<H>, i: nat): Group<H>
    requires i < |g.ring|
  {
    var h := g.ring[i];
    g.(ring := RemoveAt(g.ring, i), ver := g.ver - {h}, writer := if Writable(g, h) then None else g.writer)
  }

  /** Leave a group that has other members: unlink, retire the writer, collect if worthwhile. */
  function Leave<H(==)>(g: Group<H>, i: nat): Group<H>
    requires i < |g.ring| && |g.ring| > 1
    requires Unlink(g, i).ring[0] in Unlink(g, i).ver
  {
    if Writable(g, g.ring[i]) && AutoGc(g) then Gc(Unlink(g, i)) else Unlink(g, i)
  }

  // ---------- every operation keeps the invariant and the right views ----------

  lemma WriterIsTail<H>(g: Group<H>, h: H)
    requires RingOk(g.ring, g.ver, g.writer) && g.writer.Some? && h in g.ring
    ensures g.ver[h] <= g.ver[g.writer.value]
  {
    var i :| 0 <= i < |g.ring| && g.ring[i] == h;
  }

  lemma LowestIsLowest<H>(g: Group<H>, h: H)
    requires RingOk(g.ring, g.ver, g.writer) && h in g.ring
    ensures Lowest(g) <= g.ver[h]
  {
    var i :| 0 <= i < |g.ring| && g.ring[i] == h;
  }

  lemma BumpRing<H>(ring: seq<H>, ver: map<H, nat>, w: H, v: nat)
    requires RingOk(ring, ver, Some(w)) && ver[w] <= v
    ensures RingOk(ring, ver[w := v], Some(w))
  {
  }

  lemma {:induction false} InsertCellNodes(cells: seq<Cell>, c: Cell)
    requires NodesDistinct(cells) && NodesBelow(cells, c.node)
    ensures NodesDistinct(InsertCell(cells, c)) && NodesBelow(InsertCell(cells, c), c.node + 1)
  {
    InsertCellMember(cells, c);
    if cells != [] && !Less(c.entry.key, cells[0].entry.key) {
      assert cells == [cells[0]] + cells[1..];
      InsertCellNodes(cells[1..], c);
      InsertCellMember(cells[1..], c);
      var rest := InsertCell(cells[1..], c);
      forall j | 0 <= j < |rest| ensures rest[j].node != cells[0].node {
        assert rest[j] == c || rest[j] in cells[1..];
      }
    }
  }

  lemma OpenInv<H>(h: H)
    ensures Inv(Open(h)) && Observe(Open(h), h) == []
  {
  }

  lemma InsertOk(cells: seq<Cell>, c: Cell, v: nat)
    requires CellsOk(cells, c.node) && Bounded(cells, v) && c.created <= v && c.removed.None?
    ensures CellsOk(InsertCell(cells, c), c.node + 1) && Bounded(InsertCell(cells, c), v)
  {
    InsertCellSorted(cells, c);
    InsertCellNodes(cells, c);
    InsertCellMember(cells, c);
  }

  lemma BoundedUp(cells: seq<Cell>, v: nat, u: nat)
    requires Bounded(cells, v) && v <= u
    ensures Bounded(cells, u)
  {
  }

  lemma WriterListed<H>(g: Group<H>)
    requires Inv(g) && g.writer.Some?
    ensures g.writer.value in g.ver && g.writer.value in g.ring
  {
  }

  lemma InsertInv<H>(g: Group<H>, e: Entry)
    requires Inv(g) && g.writer.Some?
    ensures Inv(Insert(g, e))
  {
    WriterListed(g);
    hide RingOk, CellsOk, Bounded, InsertCell;
    var v := g.ver[g.writer.value];
    BumpRing(g.ring, g.ver, g.writer.value, v + 1);
    BoundedUp(g.cells, v, v + 1);
    InsertOk(g.cells, Cell(g.nextNode, e, v + 1, None), v + 1);
  }

  lemma InsertWriter<H>(g: Group<H>, e: Entry)
    requires g.writer.Some? && g.writer.value in g.ver
    requires Sorted(g.cells) && Bounded(g.cells, g.ver[g.writer.value])
    ensures Observe(Insert(g, e), g.writer.value) == InsertEntry(Observe(g, g.writer.value), e)
  {
    var v := g.ver[g.writer.value];
    InsertVisible(g.cells, Cell(g.nextNode, e, v + 1, None), v + 1);
    ViewAboveBound(g.cells, v, v + 1);
  }

  /** The writer gains the entry where a plain multimap puts it; nobody else notices. */
  lemma InsertCorrect<H>(g: Group<H>, e: Entry)
    requires Inv(g) && g.writer.Some?
    ensures Inv(Insert(g, e))
    ensures Observe(Insert(g, e), g.writer.value) == InsertEntry(Observe(g, g.writer.value), e)
    ensures forall h :: h in g.ring && h != g.writer.value ==> Observe(Insert(g, e), h) == Observe(g, h)
  {
    InsertInv(g, e);
    InsertWriter(g, e);
    forall h | h in g.ring && h != g.writer.value ensures Observe(Insert(g, e), h) == Observe(g, h) {
      WriterIsTail(g, h);
      InsertHidden(g.cells, Cell(g.nextNode, e, g.ver[g.writer.value] + 1, None), g.ver[h]);
    }
  }

  lemma {:induction false} AppendFrame<H>(g: Group<H>, es: seq<Entry>)
    requires g.writer.Some? && g.writer.value in g.ver
    ensures Append(g, es).ring == g.ring && Append(g, es).ver == g.ver && Append(g, es).writer == g.writer
  {
    if es != [] {
      AppendFrame(g, es[..|es| - 1]);
    }
  }

  /** No member but the writer has reached the writer's version. */
  ghost predicate WriterAhead<H>(g: Group<H>)
    requires g.writer.Some? && g.writer.value in g.ver
  {
    forall h :: h in g.ring && h in g.ver && h != g.writer.value ==> g.ver[h] < g.ver[g.writer.value]
  }

  /** One more node of a batch. */
  lemma AppendStep<H>(g: Group<H>, e: Entry)
    requires Inv(g) && g.writer.Some? && WriterAhead(g)
    ensures var v := g.ver[g.writer.value]; var c := Cell(g.nextNode, e, v, None);
            var g' := g.(cells := InsertCell(g.cells, c), inserts := g.inserts + 1, nextNode := g.nextNode + 1);
      && Inv(g') && WriterAhead(g')
      && Observe(g', g.writer.value) == InsertEntry(Observe(g, g.writer.value), e)
      && forall h :: h in g.ring && h != g.writer.value ==> Observe(g', h) == Observe(g, h)
  {
    WriterListed(g);
    var v := g.ver[g.writer.value];
    var c := Cell(g.nextNode, e, v, None);
    InsertOk(g.cells, c, v);
    InsertVisible(g.cells, c, v);
    hide RingOk, CellsOk, Bounded, InsertCell, View;
    forall h | h in g.ring && h != g.writer.value
      ensures h in g.ver && View(InsertCell(g.cells, c), g.ver[h]) == View(g.cells, g.ver[h])
    {
      InRing(g, h);
      InsertHidden(g.cells, c, g.ver[h]);
    }
  }

  lemma InRing<H>(g: Group<H>, h: H)
    requires Inv(g) && h in g.ring
    ensures h in g.ver
  {
  }

  /** A batch under one version is the same insertions one by one, and nobody else notices, as long as
      nobody else has that version. */
  lemma {:induction false} AppendCorrect<H>(g: Group<H>, es: seq<Entry>)
    requires Inv(g) && g.writer.Some? && WriterAhead(g)
    ensures Append(g, es).ring == g.ring && Append(g, es).ver == g.ver && Append(g, es).writer == g.writer
    ensures Inv(Append(g, es)) && WriterAhead(Append(g, es))
    ensures Observe(Append(g, es), g.writer.value) == InsertEach(Observe(g, g.writer.value), es)
    ensures forall h :: h in g.ring && h != g.writer.value ==> Observe(Append(g, es), h) == Observe(g, h)
  {
    hide Inv, Observe, WriterAhead;
    WriterListed(g);
    AppendFrame(g, es);
    forall h | h in g.ring ensures h in g.ver {
      InRing(g, h);
    }
    if es != [] {
      var n := |es| - 1;
      AppendCorrect(g, es[..n]);
      AppendStep(Append(g, es[..n]), es[n]);
    }
  }

  /** `insert(begin, end)` and `insert(range)`: the writer takes a new version, then the batch. */
  function InsertAll<H(==)>(g: Group<H>, es: seq<Entry>): Group<H>
    requires g.writer.Some? && g.writer.value in g.ver
  {
    Append(BumpVersion(g), es)
  }

  lemma BumpInv<H>(g: Group<H>)
    requires Inv(g) && g.writer.Some?
    ensures Inv(BumpVersion(g)) && WriterAhead(BumpVersion(g))
    ensures Observe(BumpVersion(g), g.writer.value) == Observe(g, g.writer.value)
    ensures forall h :: h in g.ring && h != g.writer.value ==> Observe(BumpVersion(g), h) == Observe(g, h)
  {
    WriterListed(g);
    var w := g.writer.value;
    var v := g.ver[w];
    BumpRing(g.ring, g.ver, w, v + 1);
    BoundedUp(g.cells, v, v + 1);
    ViewAboveBound(g.cells, v, v + 1);
    forall h | h in g.ring && h != w ensures g.ver[h] < v + 1 {
      WriterIsTail(g, h);
    }
  }

  /** Whoever else is a member, the writer gains the batch and nobody else notices. */
  lemma InsertAllCorrect<H>(g: Group<H>, es: seq<Entry>)
    requires Inv(g) && g.writer.Some?
    ensures Inv(InsertAll(g, es)) && InsertAll(g, es).ring == g.ring && InsertAll(g, es).writer == g.writer
    ensures Observe(InsertAll(g, es), g.writer.value) == InsertEach(Observe(g, g.writer.value), es)
    ensures forall h :: h in g.ring && h != g.writer.value ==> Observe(InsertAll(g, es), h) == Observe(g, h)
  {
    hide Inv, Observe, WriterAhead;
    WriterListed(g);
    BumpInv(g);
    AppendCorrect(BumpVersion(g), es);
    forall h | h in g.ring ensures h in g.ver {
      InRing(g, h);
    }
  }

  lemma {:induction false} DropMember(cells: seq<Cell>, pick: Entry -> bool)
    ensures forall c :: c in Drop(cells, pick) <==> c in cells && !pick(c.entry)
  {
    if cells != [] {
      assert cells == [cells[0]] + cells[1..];
      DropMember(cells[1..], pick);
    }
  }

  lemma {:induction false} DropOrder(cells: seq<Cell>, pick: Entry -> bool)
    requires Sorted(cells) && NodesDistinct(cells)
    ensures Sorted(Drop(cells, pick)) && NodesDistinct(Drop(cells, pick))
  {
    if cells != [] {
      DropOrder(cells[1..], pick);
      DropMember(cells[1..], pick);
      var rest := Drop(cells[1..], pick);
      forall j | 0 <= j < |rest|
        ensures !Less(rest[j].entry.key, cells[0].entry.key) && rest[j].node != cells[0].node
      {
        assert rest[j] in cells[1..];
      }
    }
  }

  /** Tombstones move no cell: order and node identities stay. */
  lemma TombstoneOk(cells: seq<Cell>, pick: Entry -> bool, v: nat, n: nat)
    requires CellsOk(cells, n) && Bounded(cells, v)
    ensures CellsOk(Tombstone(cells, pick, v, v + 1), n) && Bounded(Tombstone(cells, pick, v, v + 1), v + 1)
  {
    TombstoneShape(cells, pick, v, v + 1);
  }

  lemma DropOk(cells: seq<Cell>, pick: Entry -> bool, n: nat, v: nat)
    requires CellsOk(cells, n) && Bounded(cells, v)
    ensures CellsOk(Drop(cells, pick), n) && Bounded(Drop(cells, pick), v + 1)
  {
    DropOrder(cells, pick);
    DropMember(cells, pick);
  }

  lemma EraseInv<H>(g: Group<H>, pick: Entry -> bool)
    requires Inv(g) && g.writer.Some?
    ensures Inv(Erase(g, pick))
  {
    WriterListed(g);
    hide RingOk, CellsOk, Bounded, Tombstone, Drop, VisibleCount;
    var v := g.ver[g.writer.value];
    BumpRing(g.ring, g.ver, g.writer.value, v + 1);
    if Shared(g) {
      TombstoneOk(g.cells, pick, v, g.nextNode);
    } else {
      DropOk(g.cells, pick, g.nextNode, v);
    }
  }

  lemma EraseWriter<H>(g: Group<H>, pick: Entry -> bool)
    requires g.writer.Some? && g.writer.value in g.ver && Bounded(g.cells, g.ver[g.writer.value])
    ensures Observe(Erase(g, pick), g.writer.value) == Without(Observe(g, g.writer.value), pick)
  {
    var v := g.ver[g.writer.value];
    if Shared(g) {
      TombstoneNew(g.cells, pick, v);
    } else {
      DropView(g.cells, pick, v + 1);
      ViewAboveBound(g.cells, v, v + 1);
    }
  }

  /** The writer loses exactly the picked entries on either branch; nobody else notices. */
  lemma EraseCorrect<H>(g: Group<H>, pick: Entry -> bool)
    requires Inv(g) && g.writer.Some?
    ensures Inv(Erase(g, pick))
    ensures Observe(Erase(g, pick), g.writer.value) == Without(Observe(g, g.writer.value), pick)
    ensures forall h :: h in g.ring && h != g.writer.value ==> Observe(Erase(g, pick), h) == Observe(g, h)
  {
    EraseInv(g, pick);
    EraseWriter(g, pick);
    forall h | h in g.ring && h != g.writer.value ensures Observe(Erase(g, pick), h) == Observe(g, h) {
      assert Shared(g);
      WriterIsTail(g, h);
      var v := g.ver[g.writer.value];
      TombstoneOld(g.cells, pick, v, v + 1, g.ver[h]);
    }
  }

  /** `t` is `cells` with some removal marks changed to `at`. */
  ghost predicate Marked(t: seq<Cell>, cells: seq<Cell>, at: nat)
  {
    && |t| == |cells|
    && (forall i :: 0 <= i < |t| ==> t[i] == cells[i] || t[i] == cells[i].(removed := Some(at)))
  }

  lemma MarkedOk(t: seq<Cell>, cells: seq<Cell>, n: nat, v: nat)
    requires Marked(t, cells, v + 1) && CellsOk(cells, n) && Bounded(cells, v)
    ensures CellsOk(t, n) && Bounded(t, v + 1)
  {
    assert forall i :: 0 <= i < |t| ==> t[i].node == cells[i].node && t[i].entry == cells[i].entry;
  }

  lemma {:induction false} TombstoneFirstMarks(cells: seq<Cell>, pick: Entry -> bool, v: nat, at: nat)
    ensures Marked(TombstoneFirst(cells, pick, v, at), cells, at)
  {
    if cells != [] {
      TombstoneFirstMarks(cells[1..], pick, v, at);
    }
  }

  lemma EraseFirstInv<H>(g: Group<H>, pick: Entry -> bool)
    requires Inv(g) && g.writer.Some?
    ensures Inv(EraseFirstShared(g, pick))
  {
    WriterListed(g);
    hide RingOk, CellsOk, Bounded, Marked;
    var v := g.ver[g.writer.value];
    BumpRing(g.ring, g.ver, g.writer.value, v + 1);
    TombstoneFirstMarks(g.cells, pick, v, v + 1);
    MarkedOk(EraseFirstShared(g, pick).cells, g.cells, g.nextNode, v);
  }

  /** Likewise for the first match, while the group is shared. */
  lemma EraseFirstCorrect<H>(g: Group<H>, pick: Entry -> bool)
    requires Inv(g) && g.writer.Some?
    ensures Inv(EraseFirstShared(g, pick))
    ensures Observe(EraseFirstShared(g, pick), g.writer.value) == WithoutFirst(Observe(g, g.writer.value), pick)
    ensures forall h :: h in g.ring && h != g.writer.value ==>
      Observe(EraseFirstShared(g, pick), h) == Observe(g, h)
  {
    EraseFirstInv(g, pick);
    var w := g.writer.value;
    var v := g.ver[w];
    TombstoneFirstNew(g.cells, pick, v);
    forall h | h in g.ring && h != w ensures Observe(EraseFirstShared(g, pick), h) == Observe(g, h) {
      WriterIsTail(g, h);
      TombstoneFirstOld(g.cells, pick, v, g.ver[h]);
    }
  }

  lemma {:induction false} DropFirstMember(cells: seq<Cell>, pick: Entry -> bool)
    ensures forall c :: c in DropFirst(cells, pick) ==> c in cells
  {
    if cells != [] && !pick(cells[0].entry) {
      DropFirstMember(cells[1..], pick);
    }
  }

  lemma {:induction false} DropFirstOrder(cells: seq<Cell>, pick: Entry -> bool)
    requires Sorted(cells) && NodesDistinct(cells)
    ensures Sorted(DropFirst(cells, pick)) && NodesDistinct(DropFirst(cells, pick))
  {
    if cells != [] && !pick(cells[0].entry) {
      DropFirstOrder(cells[1..], pick);
      DropFirstMember(cells[1..], pick);
      var rest := DropFirst(cells[1..], pick);
      forall j | 0 <= j < |rest|
        ensures !Less(rest[j].entry.key, cells[0].entry.key) && rest[j].node != cells[0].node
      {
        assert rest[j] in cells[1..];
      }
    }
  }

  lemma EraseOneInv<H>(g: Group<H>, k: Key, row: Option<RowId>)
    requires Inv(g) && g.writer.Some?
    ensures Inv(EraseFirst(g, k, row))
  {
    if Shared(g) {
      EraseFirstInv(g, MatchOf(k, row));
    } else {
      DirectFirstInv(g, if row.None? then NotBelow(k) else MatchOf(k, row));
    }
  }

  /** A first-match erase takes the first visible match away exactly in the safe states. */
  lemma EraseFirstExact<H>(g: Group<H>, k: Key, row: Option<RowId>)
    requires g.writer.Some? && g.writer.value in g.ver
    requires Sorted(g.cells) && Bounded(g.cells, g.ver[g.writer.value])
    requires !Shared(g) && row.None? ==> AtLowerBound(g.cells, k).Some?
    ensures Observe(EraseFirst(g, k, row), g.writer.value)
              == WithoutFirst(Observe(g, g.writer.value), MatchOf(k, row))
            <==> FirstMatchSafe(g, k, row)
  {
    if Shared(g) {
      TombstoneFirstNew(g.cells, MatchOf(k, row), g.ver[g.writer.value]);
    } else {
      DirectFirstView(g.cells, k, row, g.ver[g.writer.value]);
    }
  }

  lemma DirectFirstView(cells: seq<Cell>, k: Key, row: Option<RowId>, v: nat)
    requires Sorted(cells) && Bounded(cells, v)
    requires row.None? ==> AtLowerBound(cells, k).Some?
    ensures var pick := MatchOf(k, row);
      View(DropFirst(cells, if row.None? then NotBelow(k) else pick), v + 1) == WithoutFirst(View(cells, v), pick)
      <==> if row.Some? then FirstVisible(cells, pick, v) || !AnyVisible(cells, pick, v)
           else var c := AtLowerBound(cells, k).value;
                if c.ValidAt(v) then c.entry.key == k else !AnyVisible(cells, pick, v)
  {
    var gone := if row.None? then NotBelow(k) else MatchOf(k, row);
    DropFirstMember(cells, gone);
    ViewAboveBound(DropFirst(cells, gone), v, v + 1);
    if row.None? {
      EraseLowerBoundView(cells, k, v);
    } else {
      DropFirstView(cells, MatchOf(k, row), v);
    }
  }

  lemma DirectFirstInv<H>(g: Group<H>, pick: Entry -> bool)
    requires Inv(g) && g.writer.Some?
    ensures Inv(BumpVersion(g).(cells := DropFirst(g.cells, pick)))
  {
    WriterListed(g);
    hide RingOk;
    BumpRing(g.ring, g.ver, g.writer.value, g.ver[g.writer.value] + 1);
    DropFirstMember(g.cells, pick);
    DropFirstOrder(g.cells, pick);
  }

  /** A leftover tombstone makes the lone writer's first-match erase miss a visible entry. */
  lemma FirstMatchMissesVisible(k: Key)
    ensures var g := Group([Cell(0, Entry(k, 1), 1, Some(3)), Cell(1, Entry(k, 2), 2, None)],
                           [7], map[7 := 3], Some(7), 0, 1, 2);
      && Inv(g)
      && Observe(g, 7) == [Entry(k, 2)]
      && WithoutFirst(Observe(g, 7), MatchOf(k, None)) == []
      && Observe(EraseFirst(g, k, None), 7) == [Entry(k, 2)]
  {
    LessTotal(k, k);
    var dead, live := Cell(0, Entry(k, 1), 1, Some(3)), Cell(1, Entry(k, 2), 2, None);
    assert [dead, live][1..] == [live];
    forall v: nat | v == 3 || v == 4 ensures View([dead, live], v) == View([live], v) == [live.entry] {
      assert View([live][1..], v) == [];
    }
    assert DropFirst([dead, live], NotBelow(k)) == [live];
  }

  lemma SplitView(cells: seq<Cell>, b: nat, e: nat, v: nat)
    requires b <= e <= |cells|
    ensures View(cells, v) == View(cells[..b], v) + View(cells[b..e], v) + View(cells[e..], v)
  {
    assert cells == cells[..b] + cells[b..e] + cells[e..];
    ViewConcat(cells[..b] + cells[b..e], cells[e..], v);
    ViewConcat(cells[..b], cells[b..e], v);
  }

  /** The cells of `EraseBetween`. */
  function MarkBetween(cells: seq<Cell>, b: nat, e: nat, v: nat): seq<Cell>
    requires b <= e <= |cells|
  {
    cells[..b] + Tombstone(cells[b..e], Everything(), v, v + 1) + cells[e..]
  }

  lemma MarkBetweenMarks(cells: seq<Cell>, b: nat, e: nat, v: nat)
    requires b <= e <= |cells|
    ensures Marked(MarkBetween(cells, b, e, v), cells, v + 1)
  {
    TombstoneShape(cells[b..e], Everything(), v, v + 1);
  }

  lemma MarkBetweenView(cells: seq<Cell>, b: nat, e: nat, v: nat, u: nat)
    requires b <= e <= |cells| && Bounded(cells, v)
    ensures u <= v ==> View(MarkBetween(cells, b, e, v), u) == View(cells, u)
    ensures View(MarkBetween(cells, b, e, v), v + 1) == View(cells[..b], v) + View(cells[e..], v)
  {
    var pre, mid, post := cells[..b], cells[b..e], cells[e..];
    var mid' := Tombstone(mid, Everything(), v, v + 1);
    assert Bounded(pre, v) && Bounded(mid, v) && Bounded(post, v);
    SplitView3(pre, mid', post, v + 1);
    TombstoneNew(mid, Everything(), v);
    WithoutEverything(View(mid, v));
    ViewAboveBound(pre, v, v + 1);
    ViewAboveBound(post, v, v + 1);
    if u <= v {
      SplitView3(pre, mid', post, u);
      TombstoneOld(mid, Everything(), v, v + 1, u);
      SplitView(cells, b, e, u);
    }
  }

  lemma SplitView3(a: seq<Cell>, b: seq<Cell>, c: seq<Cell>, v: nat)
    ensures View(a + b + c, v) == View(a, v) + View(b, v) + View(c, v)
  {
    ViewConcat(a + b, c, v);
    ViewConcat(a, b, v);
  }

  lemma EraseBetweenInv<H>(g: Group<H>, b: nat, e: nat)
    requires Inv(g) && g.writer.Some? && b <= e <= |g.cells|
    ensures Inv(EraseBetween(g, b, e))
  {
    WriterListed(g);
    hide RingOk, CellsOk, Bounded, Marked, MarkBetween;
    var v := g.ver[g.writer.value];
    BumpRing(g.ring, g.ver, g.writer.value, v + 1);
    MarkBetweenMarks(g.cells, b, e, v);
    MarkedOk(EraseBetween(g, b, e).cells, g.cells, g.nextNode, v);
  }

  lemma EraseBetweenOther<H>(g: Group<H>, b: nat, e: nat, h: H)
    requires g.writer.Some? && g.writer.value in g.ver && Bounded(g.cells, g.ver[g.writer.value])
    requires b <= e <= |g.cells| && h in g.ver && h != g.writer.value
    requires g.ver[h] <= g.ver[g.writer.value]
    ensures Observe(EraseBetween(g, b, e), h) == Observe(g, h)
  {
    MarkBetweenView(g.cells, b, e, g.ver[g.writer.value], g.ver[h]);
  }

  lemma EraseBetweenWriter<H>(g: Group<H>, b: nat, e: nat)
    requires g.writer.Some? && g.writer.value in g.ver && Bounded(g.cells, g.ver[g.writer.value])
    requires b <= e <= |g.cells|
    ensures Observe(EraseBetween(g, b, e), g.writer.value) == Outside(g, b, e)
  {
    MarkBetweenView(g.cells, b, e, g.ver[g.writer.value], 0);
  }

  /** What the writer sees outside two positions. */
  function Outside<H(==)>(g: Group<H>, b: nat, e: nat): seq<Entry>
    requires g.writer.Some? && g.writer.value in g.ver && b <= e <= |g.cells|
  {
    View(g.cells[..b], g.ver[g.writer.value]) + View(g.cells[e..], g.ver[g.writer.value])
  }

  /** The writer loses exactly what it saw between the two positions; nobody else notices. */
  lemma EraseBetweenCorrect<H>(g: Group<H>, b: nat, e: nat)
    requires Inv(g) && g.writer.Some? && b <= e <= |g.cells|
    ensures Inv(EraseBetween(g, b, e))
    ensures Observe(EraseBetween(g, b, e), g.writer.value) == Outside(g, b, e)
    ensures forall h :: h in g.ring && h != g.writer.value ==> Observe(EraseBetween(g, b, e), h) == Observe(g, h)
  {
    EraseBetweenInv(g, b, e);
    EraseBetweenWriter(g, b, e);
    forall h | h in g.ring && h != g.writer.value ensures Observe(EraseBetween(g, b, e), h) == Observe(g, h) {
      WriterIsTail(g, h);
      EraseBetweenOther(g, b, e, h);
    }
  }

  lemma JoinRing<H>(ring: seq<H>, ver: map<H, nat>, writer: Option<H>, i: nat, h: H)
    requires RingOk(ring, ver, writer) && i < |ring| && h !in ring
    ensures RingOk(InsertAt(ring, i, h), ver[h := ver[ring[i]]], writer)
  {
    InsertAtDistinct(ring, i, h);
    JoinTail(ring, i, h);
    JoinDomain(ring, ver, i, h);
    assert Ascending(InsertAt(ring, i, h), ver[h := ver[ring[i]]]) by {
      InsertAtMember(ring, i, h);
      JoinAscending(ring, ver, i, h);
    }
    hide Distinct, Ascending, InsertAt;
  }

  lemma JoinDomain<H>(ring: seq<H>, ver: map<H, nat>, i: nat, h: H)
    requires (forall x :: x in ring ==> x in ver) && (forall x :: x in ver ==> x in ring) && i < |ring|
    ensures forall x :: x in InsertAt(ring, i, h) ==> x in ver[h := ver[ring[i]]]
    ensures forall x :: x in ver[h := ver[ring[i]]] ==> x in InsertAt(ring, i, h)
  {
    InsertAtMember(ring, i, h);
    hide InsertAt;
  }

  lemma JoinTail<H>(ring: seq<H>, i: nat, h: H)
    requires i < |ring|
    ensures |InsertAt(ring, i, h)| == |ring| + 1 && InsertAt(ring, i, h)[|ring|] == ring[|ring| - 1]
  {
  }

  lemma JoinAscending<H>(ring: seq<H>, ver: map<H, nat>, i: nat, h: H)
    requires forall x :: x in ring ==> x in ver
    requires Ascending(ring, ver) && i < |ring| && h !in ring
    requires forall x :: x in InsertAt(ring, i, h) ==> x == h || x in ring
    ensures Ascending(InsertAt(ring, i, h), ver[h := ver[ring[i]]])
  {
    var ring', ver' := InsertAt(ring, i, h), ver[h := ver[ring[i]]];
    hide InsertAt;
    forall a, b | 0 <= a < b < |ring'|
      ensures ring'[a] in ver' && ring'[b] in ver' && ver'[ring'[a]] <= ver'[ring'[b]]
    {
      JoinedVersion(ring, ver, i, h, a);
      JoinedVersion(ring, ver, i, h, b);
    }
  }

  /** The version at a position of the longer ring. */
  lemma JoinedVersion<H>(ring: seq<H>, ver: map<H, nat>, i: nat, h: H, a: nat)
    requires i < |ring| && h !in ring && a <= |ring| && forall x :: x in ring ==> x in ver
    ensures var x, was := InsertAt(ring, i, h)[a], if a <= i then a else a - 1;
      was < |ring| && x in ver[h := ver[ring[i]]] && ver[h := ver[ring[i]]][x] == ver[ring[was]]
  {
    assert ring[if a <= i then a else a - 1] in ring;
  }

  /** A new member sees what its source sees now; nobody else notices. */
  lemma JoinCorrect<H>(g: Group<H>, i: nat, h: H)
    requires Inv(g) && i < |g.ring| && h !in g.ring
    ensures Inv(Join(g, i, h))
    ensures Observe(Join(g, i, h), h) == Observe(g, g.ring[i])
    ensures forall x :: x in g.ring ==> Observe(Join(g, i, h), x) == Observe(g, x)
  {
    JoinRing(g.ring, g.ver, g.writer, i, h);
  }

  /** Collection changes no live member's view and leaves no garbage. */
  lemma GcCorrect<H>(g: Group<H>)
    requires Inv(g)
    ensures Inv(Gc(g))
    ensures forall h :: h in g.ring ==> Observe(Gc(g), h) == Observe(g, h)
    ensures forall c :: c in Gc(g).cells <==>
      c in g.cells && !(c.removed.Some? && forall h :: h in g.ring ==> c.removed.value < g.ver[h])
  {
    var low := Lowest(g);
    CollectMember(g.cells, low);
    CollectOrder(g.cells, low);
    forall h | h in g.ring ensures low <= g.ver[h] && Observe(Gc(g), h) == Observe(g, h) {
      LowestIsLowest(g, h);
      CollectView(g.cells, low, g.ver[h]);
    }
    assert g.ring[0] in g.ring;
  }

  lemma {:induction false} CollectOrder(cells: seq<Cell>, low: nat)
    requires Sorted(cells) && NodesDistinct(cells)
    ensures Sorted(Collect(cells, low)) && NodesDistinct(Collect(cells, low))
  {
    if cells != [] {
      CollectOrder(cells[1..], low);
      CollectMember(cells[1..], low);
      var rest := Collect(cells[1..], low);
      forall j | 0 <= j < |rest|
        ensures !Less(rest[j].entry.key, cells[0].entry.key) && rest[j].node != cells[0].node
      {
        assert rest[j] in cells[1..];
      }
    }
  }

  lemma UnlinkRing<H>(ring: seq<H>, ver: map<H, nat>, writer: Option<H>, i: nat)
    requires RingOk(ring, ver, writer) && i < |ring| && |ring| > 1
    ensures RingOk(RemoveAt(ring, i), ver - {ring[i]}, if writer == Some(ring[i]) then None else writer)
  {
    RemoveAtMember(ring, i);
    RemoveAtDistinct(ring, i);
    LastStays(ring, i);
    hide Distinct, Ascending, RemoveAt;
    UnlinkAscending(ring, ver, i);
  }

  lemma LastStays<H>(ring: seq<H>, i: nat)
    requires i < |ring| && |ring| > 1
    ensures var s := RemoveAt(ring, i); |s| > 0 && (i < |ring| - 1 ==> s[|s| - 1] == ring[|ring| - 1])
  {
  }

  lemma UnlinkAscending<H>(ring: seq<H>, ver: map<H, nat>, i: nat)
    requires forall x :: x in ring ==> x in ver
    requires Ascending(ring, ver) && i < |ring|
    requires forall x :: x in RemoveAt(ring, i) ==> x in ring && x != ring[i]
    ensures Ascending(RemoveAt(ring, i), ver - {ring[i]})
  {
    var ring', ver' := RemoveAt(ring, i), ver - {ring[i]};
    forall a, b | 0 <= a < b < |ring'|
      ensures ring'[a] in ver' && ring'[b] in ver' && ver'[ring'[a]] <= ver'[ring'[b]]
    {
      assert ring'[a] in ring' && ring'[b] in ring';
      assert ver'[ring'[a]] == ver[ring[if a < i then a else a + 1]];
      assert ver'[ring'[b]] == ver[ring[if b < i then b else b + 1]];
    }
  }

  lemma UnlinkInv<H>(g: Group<H>, i: nat)
    requires Inv(g) && i < |g.ring| && |g.ring| > 1
    ensures Inv(Unlink(g, i))
    ensures forall x :: x in Unlink(g, i).ring <==> x in g.ring && x != g.ring[i]
  {
    UnlinkRing(g.ring, g.ver, g.writer, i);
    RemoveAtMember(g.ring, i);
  }

  /** Whoever remains sees what it saw, collected or not. */
  lemma LeaveCorrect<H>(g: Group<H>, i: nat)
    requires Inv(g) && i < |g.ring| && |g.ring| > 1
    ensures Unlink(g, i).ring[0] in Unlink(g, i).ver
    ensures Inv(Leave(g, i))
    ensures forall x :: x in Leave(g, i).ring <==> x in g.ring && x != g.ring[i]
    ensures forall x :: x in g.ring && x != g.ring[i] ==> Observe(Leave(g, i), x) == Observe(g, x)
  {
    UnlinkInv(g, i);
    GcCorrect(Unlink(g, i));
  }

  // ---------- when a leaving writer collects ----------

  /** The writer's leaving collects exactly after sixteen or more counted changes that are half of the
      cells or more, rounded down; nobody else's leaving does. */
  lemma LeaveCollects<H>(g: Group<H>, i: nat)
    requires Inv(g) && i < |g.ring| && |g.ring| > 1
    ensures Unlink(g, i).ring[0] in Unlink(g, i).ver
    ensures var changes := g.inserts + g.erases;
      Leave(g, i).cells == if g.writer == Some(g.ring[i]) && 15 < changes && |g.cells| <= 2 * changes + 1
                           then Collect(g.cells, Lowest(Unlink(g, i))) else g.cells
  {
    LeaveCorrect(g, i);
    hide Inv, RemoveAt, SnapshotCells.Collect, Lowest;
  }

  /** What is counted: every insert, and every entry that an erase beside others takes from the writer,
      since the last collection or snapshot of the writer. */
  lemma ChangesCounted<H>(g: Group<H>, e: Entry, pick: Entry -> bool)
    requires Inv(g) && g.writer.Some?
    ensures g.writer.value in g.ver
    ensures Insert(g, e).inserts == g.inserts + 1 && Insert(g, e).erases == g.erases
    ensures g.ring[0] in g.ver && Gc(g).inserts == Gc(g).erases == 0
    ensures forall i, h :: 0 <= i < |g.ring| && g.ring[i] == g.writer.value ==>
      Join(g, i, h).inserts == Join(g, i, h).erases == 0
    ensures Erase(g, pick).inserts == g.inserts
    ensures Erase(g, pick).erases == g.erases +
      if Shared(g) then |Observe(g, g.writer.value)| - |Observe(Erase(g, pick), g.writer.value)| else 0
  {
    WriterListed(g);
    EraseCorrect(g, pick);
    var v := g.ver[g.writer.value];
    CountLost(g.cells, pick, v);
    hide Inv, Tombstone, Drop, VisibleCount, View, Without;
  }

  lemma {:induction false} CountLost(cells: seq<Cell>, pick: Entry -> bool, v: nat)
    ensures VisibleCount(cells, pick, v) == |View(cells, v)| - |Without(View(cells, v), pick)|
  {
    if cells != [] {
      CountLost(cells[1..], pick, v);
      var e, rest := cells[0].entry, View(cells[1..], v);
      assert ([e] + rest)[1..] == rest;
    }
  }

  // ---------- full copies ----------

  /** A group whose writer was looked at through a temporary snapshot: only the counters remember. */
  function Rested<H>(g: Group<H>): Group<H>
  {
    g.(inserts := 0, erases := 0)
  }

  /** A snapshot of the writer that joins and leaves again. */
  lemma VisitRests<H>(g: Group<H>, i: nat, x: H)
    requires i < |g.ring| && g.writer == Some(g.ring[i]) && x !in g.ring && x !in g.ver
    requires forall h :: h in g.ring ==> h in g.ver
    ensures var j := Join(g, i, x);
      && i < |j.ring| && |j.ring| > 1 && j.ring[i] == x && Unlink(j, i).ring[0] in Unlink(j, i).ver
      && Leave(j, i) == Rested(g)
  {
    hide InsertAt, RemoveAt, AutoGc, Gc, Unlink, Join;
    Joined(g, i, x);
    assert g.ring[0] in g.ring;
    UnlinkJoined(g, i, x);
  }

  lemma Joined<H>(g: Group<H>, i: nat, x: H)
    requires i < |g.ring| && g.writer == Some(g.ring[i]) && x !in g.ring && g.ring[i] in g.ver
    ensures var j := Join(g, i, x);
      && |j.ring| == |g.ring| + 1 && j.ring[i] == x && !Writable(j, x)
      && j == Rested(g).(ring := InsertAt(g.ring, i, x), ver := g.ver[x := g.ver[g.ring[i]]])
  {
    assert InsertAt(g.ring, i, x)[i] == x;
    hide InsertAt;
    assert g.ring[i] in g.ring;
  }

  lemma UnlinkJoined<H>(g: Group<H>, i: nat, x: H)
    requires i < |g.ring| && g.writer == Some(g.ring[i]) && x !in g.ring && x !in g.ver && g.ring[i] in g.ver
    ensures i < |Join(g, i, x).ring| && Unlink(Join(g, i, x), i) == Rested(g)
  {
    hide InsertAt, RemoveAt, Join;
    Joined(g, i, x);
    RemoveInserted(g.ring, i, x);
    assert g.ver[x := g.ver[g.ring[i]]] - {x} == g.ver;
  }

  /** A group of one holding a batch: version 0 while empty, 1 after the batch. */
  function CopyGroup<H(==)>(h: H, es: seq<Entry>): Group<H>
  {
    InsertAll(Open(h), es)
  }

  /** A full copy of an ordered batch holds exactly the batch. */
  lemma CopyGroupCorrect<H>(h: H, es: seq<Entry>)
    requires SortedEntries(es)
    ensures var g := CopyGroup(h, es);
      Inv(g) && g.ring == [h] && g.writer == Some(h) && h in g.ver && Observe(g, h) == es
  {
    OpenInv(h);
    InsertAllCorrect(Open(h), es);
    InsertSorted(es);
  }
}
