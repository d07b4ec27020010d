/** Whole runs over any number of groups, against the reference in which every live map is a full
    private copy. */
module SnapshotRun {
  import opened Keys
  import opened Bounds
  import opened Ring
  import opened Multimap
  import opened SnapshotCells
  import opened SnapshotRange
  import opened SnapshotGroup

  /** The identity of a `snapshot_sortedmap` object. */
  type Handle = nat

  datatype World = World(groups: map<nat, Group<Handle>>, home: map<Handle, nat>, nextGroup: nat)

  /** A map that shares nothing. */
  datatype Copy = Copy(view: seq<Entry>, writable: bool)

  datatype Op =
    | Create(h: Handle)
    | Put(h: Handle, e: Entry)
    | PutAll(h: Handle, es: seq<Entry>)                   // insert(begin, end) and insert(range)
    | EraseKey(h: Handle, k: Key)
    | EraseRow(h: Handle, k: Key, r: RowId)
    | EraseOne(h: Handle, k: Key, row: Option<RowId>)     // first match only
    | EraseIn(h: Handle, iv: Interval, range: Handle)     // erase(query...(...)) through a temporary range
    | Snap(h: Handle, src: Handle)
    | CopyOf(h: Handle, src: Handle)
    | Assign(h: Handle, src: Handle)
    | Destroy(h: Handle)
    | Collect(h: Handle)

  // ---------- the shared representation ----------

  ghost predicate GroupAt(w: World, id: nat)
    requires id in w.groups
  {
    && id < w.nextGroup
    && forall h :: h in w.groups[id].ring ==> h in w.home && w.home[h] == id && h in w.groups[id].ver
  }

  ghost predicate Housed(w: World, h: Handle)
    requires h in w.home
  {
    w.home[h] in w.groups && h in w.groups[w.home[h]].ring && h in w.groups[w.home[h]].ver
  }

  /** Every map is a member of exactly its group. */
  ghost predicate Consistent(w: World)
  {
    && (forall id :: id in w.groups ==> GroupAt(w, id))
    && (forall h :: h in w.home ==> Housed(w, h))
  }

  ghost predicate Sound(w: World)
  {
    forall id :: id in w.groups ==> Inv(w.groups[id])
  }

  ghost predicate WorldInv(w: World)
  {
    Consistent(w) && Sound(w)
  }

  ghost function GroupOf(w: World, h: Handle): Group<Handle>
    requires Consistent(w) && h in w.home
  {
    assert Housed(w, h);
    w.groups[w.home[h]]
  }

  ghost function AbsAt(w: World, h: Handle): Copy
    requires Consistent(w) && h in w.home
  {
    assert Housed(w, h);
    Copy(Observe(GroupOf(w, h), h), Writable(GroupOf(w, h), h))
  }

  /** Every live map as its own private copy. */
  ghost function Abs(w: World): map<Handle, Copy>
    requires Consistent(w)
  {
    map h | h in w.home :: AbsAt(w, h)
  }

  function IndexOf(ring: seq<Handle>, h: Handle): (i: nat)
    requires h in ring
    ensures i < |ring| && ring[i] == h
  {
    if ring[0] == h then 0 else 1 + IndexOf(ring[1..], h)
  }

  function Update(w: World, id: nat, g: Group<Handle>): World
  {
    w.(groups := w.groups[id := g])
  }

  /** A new member `h` of group `id`, whose next value is `g`. */
  function AddMember(w: World, id: nat, h: Handle, g: Group<Handle>): World
  {
    w.(groups := w.groups[id := g], home := w.home[h := id])
  }

  /** A group of its own. */
  function AddGroup(w: World, h: Handle, g: Group<Handle>): World
  {
    w.(groups := w.groups[w.nextGroup := g], home := w.home[h := w.nextGroup], nextGroup := w.nextGroup + 1)
  }

  ghost function JoinTo(g: Group<Handle>, src: Handle, h: Handle): Group<Handle>
    requires src in g.ring && src in g.ver
  {
    Join(g, IndexOf(g.ring, src), h)
  }

  /** `snapshot_sortedmap(const snapshot_sortedmap&)`: a snapshot of a read-only source, and a full
      copy of a writable one. */
  ghost function CopyMember(w: World, src: Handle, h: Handle): World
    requires Consistent(w) && src in w.home
  {
    assert Housed(w, src);
    if Writable(GroupOf(w, src), src)
    then AddGroup(Update(w, w.home[src], Rested(GroupOf(w, src))), h, CopyGroup(h, Observe(GroupOf(w, src), src)))
    else AddMember(w, w.home[src], h, JoinTo(GroupOf(w, src), src, h))
  }

  ghost predicate CanLeave(g: Group<Handle>, h: Handle)
  {
    h in g.ring && |g.ring| > 1 && Unlink(g, IndexOf(g.ring, h)).ring[0] in Unlink(g, IndexOf(g.ring, h)).ver
  }

  lemma HousedIn(w: World, h: Handle)
    requires Consistent(w) && h in w.home
    ensures Housed(w, h)
  {
  }

  lemma SoundGroup(w: World, h: Handle)
    requires WorldInv(w) && h in w.home
    ensures Housed(w, h) && Inv(GroupOf(w, h))
  {
  }

  lemma CanLeaveSound(g: Group<Handle>, h: Handle)
    requires Inv(g) && h in g.ring && |g.ring| > 1
    ensures CanLeave(g, h)
  {
  }

  ghost function RemoveMember(w: World, h: Handle): World
    requires WorldInv(w) && h in w.home
  {
    SoundGroup(w, h);
    var g, id := GroupOf(w, h), w.home[h];
    if |g.ring| == 1 then DropGroup(w, id, h)
    else
      CanLeaveSound(g, h);
      ShrinkGroup(w, id, h, Leave(g, IndexOf(g.ring, h)))
  }

  function DropGroup(w: World, id: nat, h: Handle): World
  {
    w.(groups := w.groups - {id}, home := w.home - {h})
  }

  function ShrinkGroup(w: World, id: nat, h: Handle, g: Group<Handle>): World
  {
    w.(groups := w.groups[id := g], home := w.home - {h})
  }

  ghost predicate CanWrite(w: World, h: Handle)
    requires Consistent(w)
  {
    h in w.home && Writable(GroupOf(w, h), h)
  }

  /** The range joins as a snapshot of the writer, the cells it brackets are marked, the range goes. */
  ghost function EraseThroughRange(g: Group<Handle>, iv: Interval, range: Handle): Group<Handle>
    requires Inv(g) && g.writer.Some? && range !in g.ring && iv.Proper()
  {
    var g1 := RangeOpened(g, iv, range);
    var g2 := EraseBetween(g1, Begin(g1.cells, iv), End(g1.cells, iv));
    RangeErased(g, iv, range);
    Leave(g2, |g.ring| - 1)
  }

  ghost function RangeOpened(g: Group<Handle>, iv: Interval, range: Handle): (g1: Group<Handle>)
    requires Inv(g) && g.writer.Some? && range !in g.ring && iv.Proper()
    ensures Inv(g1) && g1.writer == g.writer && Begin(g1.cells, iv) <= End(g1.cells, iv)
    ensures forall x :: x in g.ring ==> x in g1.ring
  {
    JoinCorrect(g, |g.ring| - 1, range);
    InsertAtMember(g.ring, |g.ring| - 1, range);
    BracketOrdered(g.cells, iv);
    Join(g, |g.ring| - 1, range)
  }

  lemma RangeErased(g: Group<Handle>, iv: Interval, range: Handle)
    requires Inv(g) && g.writer.Some? && range !in g.ring && iv.Proper()
    ensures var g1 := RangeOpened(g, iv, range);
            var g2 := EraseBetween(g1, Begin(g1.cells, iv), End(g1.cells, iv));
            var i := |g.ring| - 1;
      && Inv(g2) && |g2.ring| == |g.ring| + 1
      && Unlink(g2, i).ring[0] in Unlink(g2, i).ver
  {
    var g1 := RangeOpened(g, iv, range);
    EraseBetweenCorrect(g1, Begin(g1.cells, iv), End(g1.cells, iv));
    LeaveCorrect(EraseBetween(g1, Begin(g1.cells, iv), End(g1.cells, iv)), |g.ring| - 1);
  }

  /** What a call does to the writer's group, if it is a write. */
  ghost function Written(g: Group<Handle>, op: Op): Option<Group<Handle>>
    requires Inv(g) && g.writer.Some?
  {
    match op
    case Put(_, e) => Some(Insert(g, e))
    case PutAll(_, es) => Some(InsertAll(g, es))
    case EraseKey(_, k) => Some(Erase(g, KeyIs(k)))
    case EraseRow(_, k, r) => Some(Erase(g, KeyAndRow(k, r)))
    case EraseOne(_, k, row) => if FirstMatchSafe(g, k, row) then Some(EraseFirst(g, k, row)) else None
    case EraseIn(_, iv, range) =>
      if range !in g.ring && iv.Proper() then Some(EraseThroughRange(g, iv, range)) else None
    case _ => None
  }

  predicate IsWrite(op: Op)
  {
    op.Put? || op.PutAll? || op.EraseKey? || op.EraseRow? || op.EraseOne? || op.EraseIn?
  }

  /** One call. `None` where the code verifies and stops, the caller names no live map, or a
      first-match erase is outside its safe states. */
  ghost function Step(w: World, op: Op): Option<World>
    requires WorldInv(w)
  {
    match op
    case Create(h) =>
      if h in w.home then None else Some(AddGroup(w, h, Open(h)))
    case Snap(h, src) =>
      if src !in w.home || h in w.home then None else
        assert Housed(w, src);
        Some(AddMember(w, w.home[src], h, JoinTo(GroupOf(w, src), src, h)))
    case CopyOf(h, src) =>
      if src !in w.home || h in w.home then None else Some(CopyMember(w, src, h))
    case Assign(h, src) =>
      if src !in w.home || h !in w.home then None
      else if h == src then Some(w)
      else
        RemoveMemberCorrect(w, h);
        Some(CopyMember(RemoveMember(w, h), src, h))
    case Destroy(h) =>
      if h !in w.home then None else Some(RemoveMember(w, h))
    case Collect(h) =>
      if h !in w.home then None else
        SoundGroup(w, h);
        Some(Update(w, w.home[h], Gc(GroupOf(w, h))))
    case _ => WriteStep(w, op)
  }

  ghost function WriteStep(w: World, op: Op): Option<World>
    requires WorldInv(w) && IsWrite(op)
  {
    if !CanWrite(w, op.h) || (op.EraseIn? && op.range in w.home) then None
    else
      SoundGroup(w, op.h);
      var g' := Written(GroupOf(w, op.h), op);
      if g'.None? then None else Some(Update(w, w.home[op.h], g'.value))
  }

  // ---------- the reference ----------

  function RefStep(m: map<Handle, Copy>, op: Op): Option<map<Handle, Copy>>
  {
    match op
    case Create(h) => if h in m then None else Some(m[h := Copy([], true)])
    case Snap(h, src) => if src !in m || h in m then None else Some(m[h := m[src].(writable := false)])
    case CopyOf(h, src) => if src !in m || h in m then None else Some(m[h := m[src]])
    case Assign(h, src) => if src !in m || h !in m then None else Some(m[h := m[src]])
    case Destroy(h) => if h !in m then None else Some(m - {h})
    case Collect(h) => if h !in m then None else Some(m)
    case _ =>
      if op.h !in m || !m[op.h].writable then None
      else if op.EraseIn? && (op.range in m || !op.iv.Proper()) then None
      else Some(m[op.h := Copy(RefWritten(m[op.h].view, op), true)])
  }

  /** Writes on a plain ordered multimap. */
  function RefWritten(s: seq<Entry>, op: Op): seq<Entry>
    requires IsWrite(op)
  {
    match op
    case Put(_, e) => InsertEntry(s, e)
    case PutAll(_, es) => InsertEach(s, es)
    case EraseKey(_, k) => Without(s, KeyIs(k))
    case EraseRow(_, k, r) => Without(s, KeyAndRow(k, r))
    case EraseOne(_, k, row) => WithoutFirst(s, MatchOf(k, row))
    case EraseIn(_, iv, _) => Without(s, InInterval(iv))
  }

  // ---------- changes of one group ----------

  /** `x` sees the same in both. */
  ghost predicate Unnoticed(g': Group<Handle>, g: Group<Handle>, x: Handle)
  {
    x in g.ver && x in g'.ver && Observe(g', x) == Observe(g, x)
  }

  lemma UpdateConsistent(w: World, id: nat, g: Group<Handle>)
    requires Consistent(w) && id in w.groups
    requires g.ring == w.groups[id].ring && forall h :: h in g.ring ==> h in g.ver
    ensures Consistent(Update(w, id, g))
  {
  }

  lemma UpdateAbs(w: World, id: nat, g: Group<Handle>, h: Handle)
    requires Consistent(w) && id in w.groups && Consistent(Update(w, id, g))
    requires g.writer == w.groups[id].writer && h in w.home
    requires w.home[h] == id && Housed(w, h) && h in g.ver ==> Observe(g, h) == Observe(w.groups[id], h)
    ensures AbsAt(Update(w, id, g), h) == AbsAt(w, h)
  {
  }

  /** A write through the writer of one group. */
  lemma LocalWrite(w: World, h: Handle, g: Group<Handle>)
    requires Consistent(w) && CanWrite(w, h)
    requires g.ring == GroupOf(w, h).ring && g.writer == GroupOf(w, h).writer
    requires forall x :: x in g.ring ==> x in g.ver
    requires forall x :: x in GroupOf(w, h).ring && x != h ==> Unnoticed(g, GroupOf(w, h), x)
    ensures Consistent(Update(w, w.home[h], g))
    ensures h in g.ver && Abs(Update(w, w.home[h], g)) == Abs(w)[h := Copy(Observe(g, h), true)]
  {
    var id := w.home[h];
    HousedIn(w, h);
    UpdateConsistent(w, id, g);
    hide Consistent, Observe;
    forall x | x in w.home && x != h ensures AbsAt(Update(w, id, g), x) == AbsAt(w, x) {
      HousedIn(w, x);
      UpdateAbs(w, id, g, x);
    }
    HousedIn(Update(w, id, g), h);
  }

  lemma UpdateSound(w: World, id: nat, g: Group<Handle>)
    requires Sound(w) && Inv(g)
    ensures Sound(Update(w, id, g))
  {
  }

  /** A change of one group that nobody notices. */
  lemma QuietUpdate(w: World, h: Handle, g: Group<Handle>)
    requires WorldInv(w) && h in w.home && Inv(g)
    requires g.ring == GroupOf(w, h).ring && g.writer == GroupOf(w, h).writer
    requires forall x :: x in g.ring ==> Unnoticed(g, GroupOf(w, h), x)
    ensures WorldInv(Update(w, w.home[h], g)) && Abs(Update(w, w.home[h], g)) == Abs(w)
  {
    var id := w.home[h];
    HousedIn(w, h);
    UpdateConsistent(w, id, g);
    UpdateSound(w, id, g);
    hide Consistent, Sound, Inv, Observe;
    forall x | x in w.home ensures AbsAt(Update(w, id, g), x) == AbsAt(w, x) {
      HousedIn(w, x);
      UpdateAbs(w, id, g, x);
    }
  }

  lemma AddGroupConsistent(w: World, h: Handle, g: Group<Handle>)
    requires Consistent(w) && h !in w.home && g.ring == [h] && h in g.ver
    ensures Consistent(AddGroup(w, h, g))
    ensures w.nextGroup !in w.groups
  {
  }

  lemma AddGroupOther(w: World, h: Handle, g: Group<Handle>, x: Handle)
    requires Consistent(w) && Consistent(AddGroup(w, h, g)) && w.nextGroup !in w.groups
    requires h !in w.home && x in w.home
    ensures AbsAt(AddGroup(w, h, g), x) == AbsAt(w, x)
  {
  }

  lemma AddGroupCorrect(w: World, h: Handle, g: Group<Handle>)
    requires Consistent(w) && h !in w.home
    requires g.ring == [h] && g.writer == Some(h) && h in g.ver
    ensures Consistent(AddGroup(w, h, g))
    ensures Abs(AddGroup(w, h, g)) == Abs(w)[h := Copy(Observe(g, h), true)]
  {
    hide Consistent, Observe, GroupAt;
    AddGroupConsistent(w, h, g);
    var w' := AddGroup(w, h, g);
    forall x | x in w.home ensures AbsAt(w', x) == AbsAt(w, x) {
      AddGroupOther(w, h, g, x);
    }
    HousedIn(w', h);
  }

  lemma AddMemberConsistent(w: World, src: Handle, h: Handle, g: Group<Handle>)
    requires Consistent(w) && src in w.home && h !in w.home
    requires forall x :: x in g.ring <==> x == h || x in GroupOf(w, src).ring
    requires forall x :: x in g.ring ==> x in g.ver
    ensures Consistent(AddMember(w, w.home[src], h, g))
  {
  }

  lemma AddMemberCorrect(w: World, src: Handle, h: Handle, g: Group<Handle>)
    requires Consistent(w) && src in w.home && h !in w.home
    requires forall x :: x in g.ring <==> x == h || x in GroupOf(w, src).ring
    requires forall x :: x in g.ring ==> x in g.ver
    requires g.writer == GroupOf(w, src).writer && g.writer != Some(h)
    requires forall x :: x in GroupOf(w, src).ring ==> Unnoticed(g, GroupOf(w, src), x)
    ensures Consistent(AddMember(w, w.home[src], h, g))
    ensures h in g.ver && Abs(AddMember(w, w.home[src], h, g)) == Abs(w)[h := Copy(Observe(g, h), false)]
  {
    hide Consistent, Observe, GroupAt;
    AddMemberConsistent(w, src, h, g);
    var w' := AddMember(w, w.home[src], h, g);
    forall x | x in w.home ensures AbsAt(w', x) == AbsAt(w, x) {
      AddMemberOther(w, src, h, g, x);
    }
    HousedIn(w', h);
  }

  lemma AddMemberOther(w: World, src: Handle, h: Handle, g: Group<Handle>, x: Handle)
    requires Consistent(w) && src in w.home && h !in w.home && x in w.home
    requires Consistent(AddMember(w, w.home[src], h, g))
    requires g.writer == GroupOf(w, src).writer && (x in GroupOf(w, src).ring ==> Unnoticed(g, GroupOf(w, src), x))
    ensures AbsAt(AddMember(w, w.home[src], h, g), x) == AbsAt(w, x)
  {
    hide Consistent, Observe;
    HousedIn(w, x);
    HousedIn(AddMember(w, w.home[src], h, g), x);
  }

  lemma DropGroupCorrect(w: World, h: Handle)
    requires Consistent(w) && h in w.home && GroupOf(w, h).ring == [h]
    ensures Consistent(DropGroup(w, w.home[h], h))
    ensures Abs(DropGroup(w, w.home[h], h)) == Abs(w) - {h}
  {
    DropGroupConsistent(w, h);
    hide Consistent, Observe, Writable;
    var w' := DropGroup(w, w.home[h], h);
    forall x | x in w'.home ensures AbsAt(w', x) == AbsAt(w, x) {
      HousedIn(w, x);
      HousedIn(w', x);
    }
  }

  lemma DropGroupConsistent(w: World, h: Handle)
    requires Consistent(w) && h in w.home && GroupOf(w, h).ring == [h]
    ensures Consistent(DropGroup(w, w.home[h], h))
  {
    var w' := DropGroup(w, w.home[h], h);
    forall i | i in w'.groups ensures GroupAt(w', i) {
      assert GroupAt(w, i);
    }
    forall x | x in w'.home ensures Housed(w', x) {
      assert Housed(w, x);
    }
  }

  lemma ShrinkGroupConsistent(w: World, h: Handle, g: Group<Handle>)
    requires Consistent(w) && h in w.home
    requires forall x :: x in g.ring <==> x in GroupOf(w, h).ring && x != h
    requires forall x :: x in g.ring ==> x in g.ver
    ensures Consistent(ShrinkGroup(w, w.home[h], h, g))
  {
    var w' := ShrinkGroup(w, w.home[h], h, g);
    assert Housed(w, h);
    forall i | i in w'.groups ensures GroupAt(w', i) {
      assert GroupAt(w, i);
    }
    forall x | x in w'.home ensures Housed(w', x) {
      assert Housed(w, x);
    }
  }

  lemma ShrinkGroupCorrect(w: World, h: Handle, g: Group<Handle>)
    requires Consistent(w) && h in w.home
    requires forall x :: x in g.ring <==> x in GroupOf(w, h).ring && x != h
    requires forall x :: x in g.ring ==> Unnoticed(g, GroupOf(w, h), x)
    requires forall x :: x in g.ring ==> (g.writer == Some(x) <==> GroupOf(w, h).writer == Some(x))
    ensures Consistent(ShrinkGroup(w, w.home[h], h, g))
    ensures Abs(ShrinkGroup(w, w.home[h], h, g)) == Abs(w) - {h}
  {
    hide Consistent, Observe, GroupAt;
    ShrinkGroupConsistent(w, h, g);
    var w' := ShrinkGroup(w, w.home[h], h, g);
    forall x | x in w'.home ensures AbsAt(w', x) == AbsAt(w, x) {
      ShrinkOther(w, h, g, x);
    }
  }

  lemma ShrinkOther(w: World, h: Handle, g: Group<Handle>, x: Handle)
    requires Consistent(w) && h in w.home && x in w.home && x != h && Consistent(ShrinkGroup(w, w.home[h], h, g))
    requires x in g.ring ==>
      Unnoticed(g, GroupOf(w, h), x) && (g.writer == Some(x) <==> GroupOf(w, h).writer == Some(x))
    ensures AbsAt(ShrinkGroup(w, w.home[h], h, g), x) == AbsAt(w, x)
  {
    hide Consistent, Observe;
    HousedIn(w, x);
    HousedIn(ShrinkGroup(w, w.home[h], h, g), x);
  }

  // ---------- single steps ----------

  lemma LeaveMembers(g: Group<Handle>, h: Handle)
    requires Inv(g) && h in g.ring && |g.ring| > 1
    ensures CanLeave(g, h)
    ensures var g' := Leave(g, IndexOf(g.ring, h));
      && Inv(g')
      && (forall x :: x in g'.ring <==> x in g.ring && x != h)
      && (forall x :: x in g'.ring ==> Unnoticed(g', g, x))
      && (forall x :: x in g'.ring ==> (g'.writer == Some(x) <==> g.writer == Some(x)))
  {
    LeaveCorrect(g, IndexOf(g.ring, h));
  }

  lemma RemoveMemberCorrect(w: World, h: Handle)
    requires WorldInv(w) && h in w.home
    ensures WorldInv(RemoveMember(w, h))
    ensures RemoveMember(w, h).home == w.home - {h}
    ensures Abs(RemoveMember(w, h)) == Abs(w) - {h}
  {
    SoundGroup(w, h);
    var g := GroupOf(w, h);
    if |g.ring| == 1 {
      DropGroupCorrect(w, h);
    } else {
      LeaveMembers(g, h);
      ShrinkGroupCorrect(w, h, Leave(g, IndexOf(g.ring, h)));
    }
  }

  lemma JoinMembers(g: Group<Handle>, src: Handle, h: Handle)
    requires Inv(g) && src in g.ring && h !in g.ring
    ensures var g' := JoinTo(g, src, h);
      && Inv(g')
      && (forall x :: x in g'.ring <==> x == h || x in g.ring)
      && (forall x :: x in g'.ring ==> x in g'.ver)
      && g'.writer == g.writer && g'.writer != Some(h)
      && (forall x :: x in g.ring ==> Unnoticed(g', g, x))
      && Observe(g', h) == Observe(g, src)
  {
    var i := IndexOf(g.ring, src);
    JoinCorrect(g, i, h);
    InsertAtMember(g.ring, i, h);
  }

  lemma SnapStep(w: World, src: Handle, h: Handle)
    requires WorldInv(w) && src in w.home && h !in w.home
    ensures Housed(w, src)
    ensures var w' := AddMember(w, w.home[src], h, JoinTo(GroupOf(w, src), src, h));
      WorldInv(w') && Abs(w') == Abs(w)[h := Abs(w)[src].(writable := false)]
  {
    SoundGroup(w, src);
    assert GroupAt(w, w.home[src]);
    JoinMembers(GroupOf(w, src), src, h);
    AddMemberCorrect(w, src, h, JoinTo(GroupOf(w, src), src, h));
  }

  lemma RestedStep(w: World, src: Handle)
    requires WorldInv(w) && src in w.home
    ensures WorldInv(Update(w, w.home[src], Rested(GroupOf(w, src))))
    ensures Abs(Update(w, w.home[src], Rested(GroupOf(w, src)))) == Abs(w)
  {
    SoundGroup(w, src);
    QuietUpdate(w, src, Rested(GroupOf(w, src)));
  }

  lemma AddGroupSound(w: World, h: Handle, g: Group<Handle>)
    requires Sound(w) && Inv(g)
    ensures Sound(AddGroup(w, h, g))
  {
  }

  lemma CopyMemberCorrect(w: World, src: Handle, h: Handle)
    requires WorldInv(w) && src in w.home && h !in w.home
    ensures WorldInv(CopyMember(w, src, h))
    ensures Abs(CopyMember(w, src, h)) == Abs(w)[h := Abs(w)[src]]
  {
    SoundGroup(w, src);
    var g := GroupOf(w, src);
    if Writable(g, src) {
      ViewSorted(g.cells, g.ver[src]);
      CopyGroupCorrect(h, Observe(g, src));
      RestedStep(w, src);
      hide Inv, Sound, Consistent, CopyGroup, Observe, AbsAt;
      AddGroupCorrect(Update(w, w.home[src], Rested(g)), h, CopyGroup(h, Observe(g, src)));
      AddGroupSound(Update(w, w.home[src], Rested(g)), h, CopyGroup(h, Observe(g, src)));
    } else {
      SnapStep(w, src, h);
    }
  }

  lemma EraseThroughRangeInv(g: Group<Handle>, iv: Interval, range: Handle)
    requires Inv(g) && g.writer.Some? && range !in g.ring && iv.Proper()
    ensures var g' := EraseThroughRange(g, iv, range);
      Inv(g') && g'.ring == g.ring && g'.writer == g.writer
  {
    assert g.writer.value in g.ring;
    hide Inv, MarkBetween, Begin, End, InsertAt, RemoveAt, AutoGc, SnapshotCells.Collect;
    RemoveInserted(g.ring, |g.ring| - 1, range);
    var g1 := RangeOpened(g, iv, range);
    var g2 := EraseBetween(g1, Begin(g1.cells, iv), End(g1.cells, iv));
    RangeErased(g, iv, range);
    LeaveCorrect(g2, |g.ring| - 1);
  }

  /** What everybody sees after the range is opened, erased and closed. */
  lemma EraseThroughRangeView(g: Group<Handle>, iv: Interval, range: Handle, x: Handle)
    requires Inv(g) && g.writer.Some? && range !in g.ring && iv.Proper() && x in g.ring
    ensures var g1 := RangeOpened(g, iv, range);
            var g' := EraseThroughRange(g, iv, range);
      && x in g'.ver
      && Observe(g', x) == Observe(EraseBetween(g1, Begin(g1.cells, iv), End(g1.cells, iv)), x)
      && Observe(g1, x) == Observe(g, x)
  {
  }

  lemma EraseThroughRangeCorrect(g: Group<Handle>, iv: Interval, range: Handle)
    requires Inv(g) && g.writer.Some? && range !in g.ring && iv.Proper()
    ensures var g' := EraseThroughRange(g, iv, range);
      && Inv(g') && g'.ring == g.ring && g'.writer == g.writer
      && Observe(g', g.writer.value) == Without(Observe(g, g.writer.value), InInterval(iv))
      && forall x :: x in g.ring && x != g.writer.value ==> Unnoticed(g', g, x)
  {
    EraseThroughRangeInv(g, iv, range);
    var g1 := RangeOpened(g, iv, range);
    RangeView(g1.cells, iv, g1.ver[g.writer.value]);
    EraseBetweenCorrect(g1, Begin(g1.cells, iv), End(g1.cells, iv));
    EraseThroughRangeView(g, iv, range, g.writer.value);
    forall x | x in g.ring && x != g.writer.value ensures Unnoticed(EraseThroughRange(g, iv, range), g, x) {
      EraseThroughRangeView(g, iv, range, x);
    }
  }

  /** Every write gives the writer what a plain multimap holds, and nobody else notices. */
  lemma WrittenCorrect(g: Group<Handle>, op: Op)
    requires Inv(g) && g.writer.Some? && IsWrite(op) && Written(g, op).Some?
    ensures var g' := Written(g, op).value;
      && Inv(g') && g'.ring == g.ring && g'.writer == g.writer
      && Observe(g', g.writer.value) == RefWritten(Observe(g, g.writer.value), op)
      && forall x :: x in g.ring && x != g.writer.value ==> Unnoticed(g', g, x)
  {
    match op
    case Put(_, e) => InsertCorrect(g, e);
    case PutAll(_, es) => InsertAllCorrect(g, es);
    case EraseKey(_, k) => EraseCorrect(g, KeyIs(k));
    case EraseRow(_, k, r) => EraseCorrect(g, KeyAndRow(k, r));
    case EraseOne(_, k, row) => EraseOneCorrect(g, k, row);
    case EraseIn(_, iv, range) => EraseThroughRangeCorrect(g, iv, range);
  }

  lemma EraseOneCorrect(g: Group<Handle>, k: Key, row: Option<RowId>)
    requires Inv(g) && g.writer.Some? && FirstMatchSafe(g, k, row)
    ensures var g' := EraseFirst(g, k, row);
      && Inv(g') && g'.ring == g.ring && g'.writer == g.writer
      && Observe(g', g.writer.value) == WithoutFirst(Observe(g, g.writer.value), MatchOf(k, row))
      && forall x :: x in g.ring && x != g.writer.value ==> Unnoticed(g', g, x)
  {
    EraseOneInv(g, k, row);
    EraseFirstExact(g, k, row);
    if Shared(g) {
      EraseFirstCorrect(g, MatchOf(k, row));
    } else {
      assert g.ring == [g.writer.value];
    }
  }

  lemma WriteStepCorrect(w: World, op: Op)
    requires WorldInv(w) && IsWrite(op) && WriteStep(w, op).Some?
    ensures WorldInv(WriteStep(w, op).value)
    ensures RefStep(Abs(w), op) == Some(Abs(WriteStep(w, op).value))
  {
    hide Consistent, Sound, Inv, Observe, RefWritten, AbsAt, Erase, EraseFirst, Insert, InsertAll, EraseThroughRange,
      FirstMatchSafe;
    SoundGroup(w, op.h);
    AbsOfWriter(w, op.h);
    var g := GroupOf(w, op.h);
    WrittenCorrect(g, op);
    var g' := Written(g, op).value;
    forall x | x in g'.ring ensures x in g'.ver {
      InRing(g', x);
    }
    LocalWrite(w, op.h, g');
    UpdateSound(w, w.home[op.h], g');
  }

  lemma AbsOfWriter(w: World, h: Handle)
    requires Consistent(w) && CanWrite(w, h)
    ensures h in GroupOf(w, h).ver && Abs(w)[h] == Copy(Observe(GroupOf(w, h), h), true)
  {
    HousedIn(w, h);
  }

  lemma CollectStep(w: World, h: Handle)
    requires WorldInv(w) && h in w.home
    ensures Housed(w, h) && |GroupOf(w, h).ring| > 0 && GroupOf(w, h).ring[0] in GroupOf(w, h).ver
    ensures WorldInv(Update(w, w.home[h], Gc(GroupOf(w, h))))
    ensures Abs(Update(w, w.home[h], Gc(GroupOf(w, h)))) == Abs(w)
  {
    SoundGroup(w, h);
    GcCorrect(GroupOf(w, h));
    QuietUpdate(w, h, Gc(GroupOf(w, h)));
  }

  // ---------- whole runs ----------

  lemma CreateStep(w: World, h: Handle)
    requires WorldInv(w) && h !in w.home
    ensures WorldInv(AddGroup(w, h, Open(h)))
    ensures Abs(AddGroup(w, h, Open(h))) == Abs(w)[h := Copy([], true)]
  {
    OpenInv(h);
    AddGroupCorrect(w, h, Open(h));
  }

  lemma AssignStep(w: World, h: Handle, src: Handle)
    requires WorldInv(w) && h in w.home && src in w.home && h != src
    ensures WorldInv(RemoveMember(w, h)) && src in RemoveMember(w, h).home
    ensures WorldInv(CopyMember(RemoveMember(w, h), src, h))
    ensures Abs(CopyMember(RemoveMember(w, h), src, h)) == Abs(w)[h := Abs(w)[src]]
  {
    hide Consistent, Sound, Inv, CopyMember, RemoveMember, AbsAt;
    RemoveMemberCorrect(w, h);
    CopyMemberCorrect(RemoveMember(w, h), src, h);
  }

  /** One step of the shared representation is one step of the private copies. */
  lemma StepCorrect(w: World, op: Op)
    requires WorldInv(w) && Step(w, op).Some?
    ensures WorldInv(Step(w, op).value)
    ensures RefStep(Abs(w), op) == Some(Abs(Step(w, op).value))
  {
    hide Consistent, Sound, Inv, RefWritten, WriteStep;
    match op
    case Create(h) => CreateStep(w, h);
    case Snap(h, src) => SnapStep(w, src, h);
    case CopyOf(h, src) => CopyMemberCorrect(w, src, h);
    case Assign(h, src) =>
      if h == src {
        assert Abs(w)[h := Abs(w)[h]] == Abs(w);
      } else {
        AssignStep(w, h, src);
      }
    case Destroy(h) => RemoveMemberCorrect(w, h);
    case Collect(h) => CollectStep(w, h);
    case _ => WriteStepCorrect(w, op);
  }

  lemma WriteEnabled(w: World, op: Op)
    requires WorldInv(w) && IsWrite(op) && !op.EraseOne?
    ensures WriteStep(w, op).Some? <==> RefStep(Abs(w), op).Some?
  {
    hide Consistent, Sound, Inv, RefWritten, Observe, Erase, EraseFirst, Insert, InsertAll, EraseThroughRange, GroupAt;
    if op.h in w.home {
      SoundGroup(w, op.h);
      StrangerOutside(w, op.h);
    }
  }

  /** A handle of no map is a member of no group. */
  lemma StrangerOutside(w: World, h: Handle)
    requires Consistent(w) && h in w.home
    ensures forall x :: x in GroupOf(w, h).ring ==> x in w.home
  {
    HousedIn(w, h);
    assert GroupAt(w, w.home[h]);
  }

  /** The shared and the private run stop at the same calls, but for unsafe first-match erases. */
  lemma StepEnabled(w: World, op: Op)
    requires WorldInv(w) && !op.EraseOne?
    ensures Step(w, op).Some? <==> RefStep(Abs(w), op).Some?
  {
    hide Consistent, Sound, Inv, RefWritten, Observe, WriteStep;
    if IsWrite(op) {
      WriteEnabled(w, op);
    }
  }

  ghost predicate Legal(w: World, ops: seq<Op>)
    requires WorldInv(w)
    decreases ops
  {
    ops == [] ||
    (Step(w, ops[0]).Some? && (StepCorrect(w, ops[0]); Legal(Step(w, ops[0]).value, ops[1..])))
  }

  ghost function Run(w: World, ops: seq<Op>): (w': World)
    requires WorldInv(w) && Legal(w, ops)
    ensures WorldInv(w')
    decreases ops
  {
    if ops == [] then w
    else
      StepCorrect(w, ops[0]);
      Run(Step(w, ops[0]).value, ops[1..])
  }

  function RefRun(m: map<Handle, Copy>, ops: seq<Op>): Option<map<Handle, Copy>>
    decreases ops
  {
    if ops == [] then Some(m)
    else
      var n := RefStep(m, ops[0]);
      if n.None? then None else RefRun(n.value, ops[1..])
  }

  /** Over every run, every live map holds exactly what a private copy would hold. */
  lemma {:induction false} RunRefinesCopies(w: World, ops: seq<Op>)
    requires WorldInv(w) && Legal(w, ops)
    ensures RefRun(Abs(w), ops) == Some(Abs(Run(w, ops)))
    decreases ops
  {
    if ops != [] {
      StepCorrect(w, ops[0]);
      RunRefinesCopies(Step(w, ops[0]).value, ops[1..]);
    }
  }

  /** The call gives `h` a new value, or takes it away. */
  predicate Replaces(op: Op, h: Handle)
  {
    match op
    case Create(x) => x == h
    case Snap(x, _) => x == h
    case CopyOf(x, _) => x == h
    case Assign(x, _) => x == h
    case Destroy(x) => x == h
    case _ => false
  }

  lemma {:induction false} ReadOnlyKept(m: map<Handle, Copy>, ops: seq<Op>, h: Handle)
    requires h in m && !m[h].writable
    requires forall op :: op in ops ==> !Replaces(op, h)
    requires RefRun(m, ops).Some?
    ensures h in RefRun(m, ops).value && RefRun(m, ops).value[h] == m[h]
    decreases ops
  {
    if ops != [] {
      assert ops[0] in ops;
      ReadOnlyKept(RefStep(m, ops[0]).value, ops[1..], h);
    }
  }

  /** A snapshot keeps exactly the view it was taken with, whatever else happens: writes, erases,
      copies, collections, and the end of its writer. */
  lemma SnapshotNeverChanges(w: World, src: Handle, h: Handle, ops: seq<Op>)
    requires WorldInv(w) && src in w.home && h !in w.home
    requires Legal(w, [Snap(h, src)] + ops)
    requires forall op :: op in ops ==> !Replaces(op, h)
    ensures var end := Run(w, [Snap(h, src)] + ops);
      h in end.home && Abs(end)[h] == Copy(Abs(w)[src].view, false)
  {
    var all := [Snap(h, src)] + ops;
    assert all[0] == Snap(h, src) && all[1..] == ops;
    StepCorrect(w, Snap(h, src));
    RunRefinesCopies(w, all);
    hide Consistent, Sound, Step, Run, Legal;
    ReadOnlyKept(Abs(Step(w, Snap(h, src)).value), ops, h);
  }

  // ---------- a run into an unsafe first-match erase ----------

  /** The group of map 7 after each call of the run below; `Snapped` also has map 8. */
  function One(k: Key): Group<Handle>
  {
    Group([Cell(0, Entry(k, 1), 1, None)], [7], map[7 := 1], Some(7), 1, 0, 1)
  }

  function Two(k: Key): Group<Handle>
  {
    Group([Cell(0, Entry(k, 1), 1, None), Cell(1, Entry(k, 2), 2, None)], [7], map[7 := 2], Some(7), 2, 0, 2)
  }

  function Snapped(k: Key): Group<Handle>
  {
    Two(k).(ring := [8, 7], ver := map[7 := 2, 8 := 2], inserts := 0)
  }

  function Erased(k: Key): Group<Handle>
  {
    Group([Cell(0, Entry(k, 1), 1, Some(3)), Cell(1, Entry(k, 2), 2, None)],
      [8, 7], map[7 := 3, 8 := 2], Some(7), 0, 1, 2)
  }

  function Alone(k: Key): Group<Handle>
  {
    Erased(k).(ring := [7], ver := map[7 := 3])
  }

  lemma PutsOfRun(k: Key)
    ensures Insert(Open<Handle>(7), Entry(k, 1)) == One(k)
    ensures Insert(One(k), Entry(k, 2)) == Two(k)
  {
    LessTotal(k, k);
    var c, d := Cell(0, Entry(k, 1), 1, None), Cell(1, Entry(k, 2), 2, None);
    assert [c][1..] == [];
    assert InsertCell([c], d) == [c] + InsertCell([], d);
  }

  lemma SnapOfRun(k: Key)
    ensures JoinTo(Two(k), 7, 8) == Snapped(k)
    ensures IndexOf(Erased(k).ring, 8) == 0 && Unlink(Erased(k), 0) == Alone(k) && Leave(Erased(k), 0) == Alone(k)
  {
    assert InsertAt([7], 0, 8) == [8, 7] && RemoveAt([8, 7], 0) == [7];
  }

  lemma EraseOfRun(k: Key)
    ensures Erase(Snapped(k), KeyAndRow(k, 1)) == Erased(k)
  {
    var c, d, pick := Cell(0, Entry(k, 1), 1, None), Cell(1, Entry(k, 2), 2, None), KeyAndRow(k, 1);
    assert [c, d][1..] == [d] && [d][1..] == [];
    assert Tombstone([], pick, 2, 3) == [] && Tombstone([d], pick, 2, 3) == [d];
    assert VisibleCount([], pick, 2) == 0 && VisibleCount([d], pick, 2) == 0;
  }

  /** A world of one group, with map 7 and perhaps map 8. */
  function Only(g: Group<Handle>, eight: bool): World
  {
    World(map[0 := g], if eight then map[7 := 0, 8 := 0] else map[7 := 0], 1)
  }

  lemma OnlyInv(g: Group<Handle>, eight: bool)
    requires Inv(g) && g.ring == if eight then [8, 7] else [7]
    ensures WorldInv(Only(g, eight))
  {
  }

  lemma OnlyGroup(g: Group<Handle>, eight: bool)
    requires Inv(g) && g.ring == if eight then [8, 7] else [7]
    ensures WorldInv(Only(g, eight)) && GroupOf(Only(g, eight), 7) == g && (eight ==> GroupOf(Only(g, eight), 8) == g)
  {
    OnlyInv(g, eight);
  }

  /** A write by map 7 in a world of one group. */
  lemma OnlyWrites(g: Group<Handle>, eight: bool, op: Op)
    requires Inv(g) && g.ring == (if eight then [8, 7] else [7]) && g.writer == Some(7)
    requires IsWrite(op) && !op.EraseIn? && op.h == 7
    ensures WorldInv(Only(g, eight))
    ensures Step(Only(g, eight), op) ==
      if Written(g, op).None? then None else Some(Only(Written(g, op).value, eight))
  {
    hide Inv, Consistent, Sound, Written;
    OnlyGroup(g, eight);
    if Written(g, op).Some? {
      assert Only(g, eight).groups[0 := Written(g, op).value] == map[0 := Written(g, op).value];
    }
  }

  /** `Snap` and `Destroy` in a world of one group, whatever its cells. */
  lemma OnlySnap(g: Group<Handle>, g': Group<Handle>)
    requires Inv(g) && g.ring == [7] && 7 in g.ver && JoinTo(g, 7, 8) == g'
    ensures WorldInv(Only(g, false)) && Step(Only(g, false), Snap(8, 7)) == Some(Only(g', true))
  {
    hide Inv, Consistent, Sound, JoinTo;
    OnlyGroup(g, false);
    assert map[7 := 0][8 := 0] == map[7 := 0, 8 := 0];
    assert map[0 := g][0 := g'] == map[0 := g'];
  }

  lemma OnlyDestroy(g: Group<Handle>, g': Group<Handle>)
    requires Inv(g) && g.ring == [8, 7] && CanLeave(g, 8) && IndexOf(g.ring, 8) == 0 && Leave(g, 0) == g'
    ensures WorldInv(Only(g, true)) && Step(Only(g, true), Destroy(8)) == Some(Only(g', false))
  {
    hide Inv, Consistent, Sound, Leave, CanLeave, IndexOf;
    OnlyGroup(g, true);
    assert map[7 := 0, 8 := 0] - {8} == map[7 := 0];
    assert map[0 := g][0 := g'] == map[0 := g'];
  }

  lemma InvsOfRun(k: Key)
    ensures Inv(Open<Handle>(7)) && Inv(One(k)) && Inv(Two(k)) && Inv(Snapped(k)) && Inv(Erased(k)) && Inv(Alone(k))
  {
    WritersOfRun(k);
    OpenInv<Handle>(7);
    PutsOfRun(k);
    SnapOfRun(k);
    EraseOfRun(k);
    hide Inv, One, Two, Snapped, Erased, Alone;
    InsertInv(Open<Handle>(7), Entry(k, 1));
    InsertInv(One(k), Entry(k, 2));
    JoinMembers(Two(k), 7, 8);
    EraseInv(Snapped(k), KeyAndRow(k, 1));
    LeaveMembers(Erased(k), 8);
  }

  lemma WritersOfRun(k: Key)
    ensures One(k).writer == Some(7) && Two(k).writer == Some(7) && Snapped(k).writer == Some(7)
    ensures Alone(k).ring == [7] && Alone(k).writer == Some(7)
    ensures Two(k).ring == [7] && Erased(k).ring == [8, 7] && One(k).ring == [7] && Snapped(k).ring == [8, 7]
  {
  }

  lemma OneMoreCall(w: World, op: Op, w': World, ops: seq<Op>)
    requires WorldInv(w) && Step(w, op) == Some(w') && WorldInv(w') && Legal(w', ops)
    ensures Legal(w, [op] + ops) && Run(w, [op] + ops) == Run(w', ops)
  {
    assert ([op] + ops)[0] == op && ([op] + ops)[1..] == ops;
    hide Consistent, Sound, Step;
  }

  /** The calls: two puts of one key, a snapshot, an erase of the first row, and the snapshot's end. */
  function Calls(k: Key): seq<Op>
  {
    [Create(7)] +
      ([Put(7, Entry(k, 1))] + ([Put(7, Entry(k, 2))] + ([Snap(8, 7)] + ([EraseRow(7, k, 1)] + ([Destroy(8)] + [])))))
  }

  const Nothing := World(map[], map[], 0)

  lemma FirstCall()
    ensures WorldInv(Nothing) && Step(Nothing, Create(7)) == Some(Only(Open<Handle>(7), false))
    ensures WorldInv(Only(Open<Handle>(7), false))
  {
    OpenInv<Handle>(7);
    OnlyInv(Open<Handle>(7), false);
  }

  /** Each further call, and the worlds between. */
  lemma MiddleCalls(k: Key)
    ensures WorldInv(Only(Open<Handle>(7), false)) && WorldInv(Only(One(k), false)) && WorldInv(Only(Snapped(k), true))
    ensures Step(Only(Open<Handle>(7), false), Put(7, Entry(k, 1))) == Some(Only(One(k), false))
    ensures Step(Only(One(k), false), Put(7, Entry(k, 2))) == Some(Only(Two(k), false))
    ensures Step(Only(Snapped(k), true), EraseRow(7, k, 1)) == Some(Only(Erased(k), true))
  {
    InvsOfRun(k);
    WritersOfRun(k);
    PutsOfRun(k);
    EraseOfRun(k);
    hide Inv, One, Two, Snapped, Erased, Only, Consistent, Sound, Step;
    OnlyWrites(Open(7), false, Put(7, Entry(k, 1)));
    OnlyWrites(One(k), false, Put(7, Entry(k, 2)));
    OnlyWrites(Snapped(k), true, EraseRow(7, k, 1));
  }

  lemma LastCalls(k: Key)
    ensures WorldInv(Only(Two(k), false)) && WorldInv(Only(Erased(k), true)) && WorldInv(Only(Alone(k), false))
    ensures Step(Only(Two(k), false), Snap(8, 7)) == Some(Only(Snapped(k), true))
    ensures Step(Only(Erased(k), true), Destroy(8)) == Some(Only(Alone(k), false))
  {
    InvsOfRun(k);
    WritersOfRun(k);
    SnapOfRun(k);
    assert 7 in Two(k).ver;
    hide Inv, Two, Snapped, Erased, Alone, Only, Consistent, Sound, Step, JoinTo, Leave;
    OnlyInv(Alone(k), false);
    OnlySnap(Two(k), Snapped(k));
    CanLeaveSound(Erased(k), 8);
    OnlyDestroy(Erased(k), Alone(k));
  }

  lemma RunOfCalls(k: Key)
    ensures WorldInv(Nothing) && Legal(Nothing, Calls(k))
    ensures WorldInv(Only(Alone(k), false)) && Run(Nothing, Calls(k)) == Only(Alone(k), false)
  {
    hide Consistent, Sound, Step, Legal, Run, One, Two, Snapped, Erased, Alone, Only;
    FirstCall();
    MiddleCalls(k);
    LastCalls(k);
    var c6 := [Destroy(8)] + [];
    var c5 := [EraseRow(7, k, 1)] + c6;
    var c4 := [Snap(8, 7)] + c5;
    var c3 := [Put(7, Entry(k, 2))] + c4;
    var c2 := [Put(7, Entry(k, 1))] + c3;
    NoMoreCalls(Only(Alone(k), false));
    OneMoreCall(Only(Erased(k), true), Destroy(8), Only(Alone(k), false), []);
    OneMoreCall(Only(Snapped(k), true), EraseRow(7, k, 1), Only(Erased(k), true), c6);
    OneMoreCall(Only(Two(k), false), Snap(8, 7), Only(Snapped(k), true), c5);
    OneMoreCall(Only(One(k), false), Put(7, Entry(k, 2)), Only(Two(k), false), c4);
    OneMoreCall(Only(Open<Handle>(7), false), Put(7, Entry(k, 1)), Only(One(k), false), c3);
    OneMoreCall(Nothing, Create(7), Only(Open<Handle>(7), false), c2);
  }

  lemma NoMoreCalls(w: World)
    requires WorldInv(w)
    ensures Legal(w, []) && Run(w, []) == w
  {
  }

  /** A legal run from nothing ends in a state in which the lone writer's first-match erase misses the
      visible entry: the map still shows it afterwards. */
  lemma FirstMatchMissesAfterRun(k: Key)
    ensures WorldInv(Nothing) && Legal(Nothing, Calls(k))
    ensures var w := Run(Nothing, Calls(k));
      && 7 in w.home && Abs(w)[7] == Copy([Entry(k, 2)], true)
      && RefStep(Abs(w), EraseOne(7, k, None)) == Some(Abs(w)[7 := Copy([], true)])
      && Step(w, EraseOne(7, k, None)) == None
      && 7 in GroupOf(w, 7).ver
      && Observe(EraseFirst(GroupOf(w, 7), k, None), 7) == [Entry(k, 2)]
  {
    WritersOfRun(k);
    hide Inv, Consistent, Sound, Legal, Run, Calls, EraseFirst, Observe, FirstMatchSafe, Alone, WithoutFirst;
    InvsOfRun(k);
    OnlyGroup(Alone(k), false);
    AloneErase(k);
    RunOfCalls(k);
    OnlyWrites(Alone(k), false, EraseOne(7, k, None));
  }

  lemma AloneErase(k: Key)
    requires Inv(Alone(k))
    ensures 7 in Alone(k).ver && Observe(Alone(k), 7) == [Entry(k, 2)]
    ensures WithoutFirst([Entry(k, 2)], MatchOf(k, None)) == []
    ensures Observe(EraseFirst(Alone(k), k, None), 7) == [Entry(k, 2)]
    ensures !FirstMatchSafe(Alone(k), k, None)
  {
    FirstMatchMissesVisible(k);
    AloneBound(k);
    EraseFirstExact(Alone(k), k, None);
  }

  lemma AloneBound(k: Key)
    ensures AtLowerBound(Alone(k).cells, k).Some?
  {
    LessTotal(k, k);
  }
}
