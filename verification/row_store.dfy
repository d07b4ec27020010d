/** `Schema` and `Row`: columns laid out in byte buffers that are updated in place. */
module RowStore {
  import opened RowLayout

  datatype Column = Column(name: string, kind: Kind, indexed: bool, place: nat)

  function Kinds(cols: seq<Column>): (k: seq<Kind>)
    ensures |k| == |cols| && forall i :: 0 <= i < |k| ==> k[i] == cols[i].kind
  {
    seq(|cols|, i requires 0 <= i < |cols| => cols[i].kind)
  }

  /** Every column knows its offset in the fixed part, or its number among the strings. */
  ghost predicate Laid(cols: seq<Column>)
  {
    forall i :: 0 <= i < |cols| ==>
      cols[i].place == if cols[i].kind == KStr then VarIdx(Kinds(cols), i) else Offset(Kinds(cols), i)
  }

  lemma LaidOneMore(cols: seq<Column>, c: Column)
    requires Laid(cols)
    requires c.place == if c.kind == KStr then VarCols(Kinds(cols)) else FixedSize(Kinds(cols))
    ensures Laid(cols + [c])
    ensures FixedSize(Kinds(cols + [c])) == FixedSize(Kinds(cols)) + Width(c.kind)
    ensures VarCols(Kinds(cols + [c])) == VarCols(Kinds(cols)) + if c.kind == KStr then 1 else 0
  {
    var k := Kinds(cols);
    assert Kinds(cols + [c]) == k + [c.kind];
    LastPlaces(k, c.kind);
    hide Offset, VarIdx, Width, Kinds;
    forall i | 0 <= i <= |cols|
      ensures Offset(k + [c.kind], i) == Offset(k, i) && VarIdx(k + [c.kind], i) == VarIdx(k, i)
    {
      PlacesExtend(k, c.kind, i);
    }
  }

  lemma LastPlaces(k: seq<Kind>, kind: Kind)
    ensures FixedSize(k + [kind]) == FixedSize(k) + Width(kind)
    ensures VarCols(k + [kind]) == VarCols(k) + if kind == KStr then 1 else 0
  {
    PlacesExtend(k, kind, |k|);
  }

  predicate Named(ids: map<string, nat>, cols: seq<Column>)
  {
    && |ids| == |cols|
    && (forall i :: 0 <= i < |cols| ==> cols[i].name in ids && ids[cols[i].name] == i)
    && (forall n :: n in ids ==> ids[n] < |cols| && cols[ids[n]].name == n)
  }

  lemma NamedOneMore(ids: map<string, nat>, cols: seq<Column>, c: Column)
    requires Named(ids, cols) && c.name !in ids
    ensures Named(ids[c.name := |cols|], cols + [c])
  {
  }

  lemma NamedLength(ids: map<string, nat>, cols: seq<Column>)
    requires Named(ids, cols)
    ensures |ids| == |cols|
  {
  }

  lemma NoWidth()
    ensures Width(KStr) == 0
  {
  }

  lemma KeyIdsOneMore(cols: seq<Column>, c: Column)
    ensures KeyIds(cols + [c]) == KeyIds(cols) + if c.indexed then [|cols|] else []
  {
  }

  /** The ids of the key columns, in order. */
  function KeyIds(cols: seq<Column>): seq<nat>
  {
    if cols == [] then []
    else KeyIds(cols[..|cols| - 1]) + if cols[|cols| - 1].indexed then [|cols| - 1] else []
  }

  class Schema {
    var ids: map<string, nat>
    var cols: seq<Column>
    var keyCols: seq<nat>
    var varCols: nat
    var fixedSize: nat

    ghost predicate Valid()
      reads this
    {
      && Laid(cols) && varCols == VarCols(Kinds(cols)) && fixedSize == FixedSize(Kinds(cols))
      && keyCols == KeyIds(cols)
      && Named(ids, cols)
    }

    constructor ()
      ensures Valid() && cols == []
    {
      ids, cols, keyCols, varCols, fixedSize := map[], [], [], 0, 0;
    }

    /** `do_add_column`: a name can be used once. */
    method AddColumn(name: string, kind: Kind, key: bool) returns (id: int)
      requires Valid()
      modifies this
      ensures Valid()
      ensures id == -1 <==> exists i :: 0 <= i < |old(cols)| && old(cols)[i].name == name
      ensures id == -1 ==> cols == old(cols)
      ensures id != -1 ==> id == |old(cols)| && |cols| == id + 1 && cols[..id] == old(cols)
                           && cols[id].name == name && cols[id].kind == kind && cols[id].indexed == key
    {
      hide Laid, KeyIds, VarCols, FixedSize, Kinds;
      id := |ids|;
      if name in ids {
        assert cols[ids[name]].name == name;
        return -1;
      }
      Append(Column(name, kind, key, if kind == KStr then varCols else fixedSize));
    }

    method Append(col: Column)
      requires Valid() && col.name !in ids && col.place == if col.kind == KStr then varCols else fixedSize
      modifies this
      ensures Valid() && cols == old(cols) + [col]
    {
      hide Laid, Named, KeyIds, VarCols, FixedSize, Kinds;
      LaidOneMore(cols, col);
      NamedOneMore(ids, cols, col);
      KeyIdsOneMore(cols, col);
      NamedLength(ids, cols);
      if col.indexed {
        keyCols := keyCols + [|cols|];
      }
      if col.kind == KStr {
        varCols := varCols + 1;
      } else {
        fixedSize := fixedSize + Width(col.kind);
      }
      NoWidth();
      ids, cols := ids[col.name := |cols|], cols + [col];
    }

    /** `get_column_id`. */
    method GetColumnId(name: string) returns (id: int)
      requires Valid()
      ensures id == -1 ==> forall i :: 0 <= i < |cols| ==> cols[i].name != name
      ensures id != -1 ==> 0 <= id < |cols| && cols[id].name == name
    {
      if name in ids {
        return ids[name];
      }
      return -1;
    }
  }

  // ---------- buffers ----------

  /** `memcpy` into a buffer. */
  method CopyBytes(a: array<Byte>, at: nat, b: seq<Byte>)
    requires at + |b| <= a.Length
    modifies a
    ensures a[..] == Overwrite(old(a[..]), at, b)
  {
    OverwriteNone(a[..], at);
    hide Overwrite;
    for i := 0 to |b|
      invariant a[..] == Overwrite(old(a[..]), at, b[..i])
    {
      ghost var t := a[..];
      OverwriteOne(old(a[..]), at, b, i, t);
      a[at + i] := b[i];
      assert a[..] == t[at + i := b[i]];
    }
    assert b[..|b|] == b;
  }

  method Allocate(n: nat) returns (a: array<Byte>)
    ensures fresh(a) && a.Length == n && forall i :: 0 <= i < n ==> a[i] == 0
  {
    a := new Byte[n](_ => 0);
  }

  lemma {:induction false} PackedGrows(strs: seq<seq<Byte>>, n: nat)
    requires n < |strs|
    ensures Packed(strs[..n + 1]) == Packed(strs[..n]) + strs[n]
    ensures PackedEnds(strs[..n + 1]) == PackedEnds(strs[..n]) + [|Packed(strs[..n + 1])|]
    ensures |Packed(strs[..n + 1])| <= |Packed(strs)|
    decreases |strs|
  {
    assert strs[..n + 1][..n] == strs[..n];
    var init := strs[..|strs| - 1];
    if n + 1 < |strs| {
      assert init[..n + 1] == strs[..n + 1];
      PackedGrows(init, n);
    } else {
      assert strs[..n + 1] == strs;
    }
  }

  /** The two passes over the strings: first their total size, then their bytes and their ends. */
  method Pack(strs: seq<seq<Byte>>) returns (part: array<Byte>, idx: seq<nat>)
    ensures fresh(part) && part[..] == Packed(strs) && idx == PackedEnds(strs)
  {
    hide Packed, PackedEnds;
    var size := 0;
    PackedNone(strs);
    for i := 0 to |strs|
      invariant size == |Packed(strs[..i])|
    {
      PackedGrows(strs, i);
      size := size + |strs[i]|;
    }
    assert strs[..|strs|] == strs;
    part := Allocate(size);
    idx := [];
    var pos := 0;
    for i := 0 to |strs|
      invariant pos == |Packed(strs[..i])| <= size == part.Length && fresh(part)
      invariant part[..pos] == Packed(strs[..i]) && idx == PackedEnds(strs[..i])
    {
      PackedGrows(strs, i);
      ghost var before := part[..];
      CopyBytes(part, pos, strs[i]);
      PackedStep(before, part[..], pos, strs[i]);
      pos := pos + |strs[i]|;
      idx := idx + [pos];
    }
    assert part[..] == part[..pos];
  }

  lemma PackedNone(strs: seq<seq<Byte>>)
    ensures Packed(strs[..0]) == [] && PackedEnds(strs[..0]) == []
  {
  }

  lemma PackedStep(before: seq<Byte>, after: seq<Byte>, pos: nat, b: seq<Byte>)
    requires pos + |b| <= |before| && after == Overwrite(before, pos, b)
    ensures after[..pos + |b|] == before[..pos] + b
  {
  }

  /** The first pass of `Row::create`. */
  method WriteFixed(cols: seq<Column>, values: seq<Val>) returns (fixed: array<Byte>)
    requires Laid(cols) && Typed(Kinds(cols), values)
    ensures fresh(fixed) && Written(Kinds(cols), values, |values|, fixed[..])
  {
    ghost var kinds := Kinds(cols);
    hide Typed, Offset, Width, Encode, Overwrite, Laid;
    var size := TotalWidth(cols);
    fixed := Allocate(size);
    WrittenStart(kinds, values, fixed[..]);
    var pos := 0;
    for i := 0 to |values|
      invariant i <= |kinds| && fresh(fixed) && fixed.Length == size && pos == Offset(kinds, i)
      invariant Written(kinds, values, i, fixed[..])
    {
      TypedAt(kinds, values, i);
      OffsetNext(kinds, i);
      WrittenNext(kinds, values, i, fixed[..]);
      if !values[i].VStr? {
        CopyBytes(fixed, pos, Encode(values[i]));
      }
      pos := pos + Width(KindOf(values[i]));
    }
  }

  /** The size of the fixed part, column by column. */
  method TotalWidth(cols: seq<Column>) returns (n: nat)
    ensures n == FixedSize(Kinds(cols))
  {
    n := 0;
    for i := 0 to |cols|
      invariant n == Offset(Kinds(cols), i)
    {
      n := n + Width(cols[i].kind);
    }
  }

  lemma TypedAt(kinds: seq<Kind>, values: seq<Val>, i: nat)
    requires Typed(kinds, values) && i < |values|
    ensures |values| <= |kinds| && KindOf(values[i]) == kinds[i]
  {
  }

  lemma OffsetNext(kinds: seq<Kind>, i: nat)
    requires i < |kinds|
    ensures Offset(kinds, i + 1) == Offset(kinds, i) + Width(kinds[i])
  {
  }

  lemma WrittenStart(kinds: seq<Kind>, values: seq<Val>, fixed: seq<Byte>)
    requires Typed(kinds, values) && |fixed| == FixedSize(kinds) && forall i :: 0 <= i < |fixed| ==> fixed[i] == 0
    ensures Written(kinds, values, 0, fixed) && Offset(kinds, 0) == 0
  {
  }

  /** The strings among the values, in order. */
  method CollectStrings(values: seq<Val>) returns (strs: seq<seq<Byte>>)
    ensures strs == StrVals(values)
  {
    strs := [];
    for i := 0 to |values|
      invariant strs == StrVals(values[..i])
    {
      assert values[..i + 1][..i] == values[..i];
      if values[i].VStr? {
        strs := strs + [values[i].s];
      }
    }
    assert values[..|values|] == values;
  }

  /** The ends of the hidden strings: each where the string before it ends. */
  method FillHidden(cols: seq<Column>, visible: nat, ghost values: seq<Val>, ends: seq<nat>) returns (idx: seq<nat>)
    requires Fillable(Kinds(cols), visible) && |values| == visible && Typed(Kinds(cols), values)
    requires ends == PackedEnds(Stored(values, 0))
    ensures idx == PackedEnds(Stored(values, HiddenStrings(Kinds(cols), visible)))
    ensures Packed(Stored(values, HiddenStrings(Kinds(cols), visible))) == Packed(Stored(values, 0))
  {
    ghost var kinds := Kinds(cols);
    hide Packed, PackedEnds, Stored, Filled, Typed, Fillable, HiddenStrings;
    idx := ends;
    FilledStart(kinds, values, ends);
    for i := visible to |cols|
      invariant Filled(kinds, values, i, idx)
    {
      FilledNext(kinds, values, i, idx);
      if cols[i].kind == KStr {
        idx := idx + [idx[|idx| - 1]];
      }
    }
    FilledEnd(kinds, values, idx);
  }

  /** The ends of the strings of the first `i` columns. */
  ghost predicate Filled(kinds: seq<Kind>, values: seq<Val>, i: nat, idx: seq<nat>)
  {
    && |values| <= i <= |kinds| && |StrVals(values)| == VarIdx(kinds, |values|) <= VarIdx(kinds, i)
    && var h := VarIdx(kinds, i) - VarIdx(kinds, |values|);
       idx == PackedEnds(Stored(values, h)) && Packed(Stored(values, h)) == Packed(Stored(values, 0))
  }

  lemma FilledStart(kinds: seq<Kind>, values: seq<Val>, ends: seq<nat>)
    requires Typed(kinds, values) && ends == PackedEnds(Stored(values, 0))
    ensures Filled(kinds, values, |values|, ends)
  {
    StringsFit(kinds, values);
  }

  lemma FilledNext(kinds: seq<Kind>, values: seq<Val>, i: nat, idx: seq<nat>)
    requires Filled(kinds, values, i, idx) && i < |kinds| && Fillable(kinds, |values|)
    ensures kinds[i] == KStr ==> |idx| > 0 && Filled(kinds, values, i + 1, idx + [idx[|idx| - 1]])
    ensures kinds[i] != KStr ==> Filled(kinds, values, i + 1, idx)
  {
    hide Packed, PackedEnds, StrVals, Stored;
    if kinds[i] == KStr {
      ColumnPlace(kinds, i);
      var h := VarIdx(kinds, i) - VarIdx(kinds, |values|);
      StoredNonempty(values, h);
      StoreOneMore(values, h);
    }
  }

  lemma FilledEnd(kinds: seq<Kind>, values: seq<Val>, idx: seq<nat>)
    requires Filled(kinds, values, |kinds|, idx)
    ensures idx == PackedEnds(Stored(values, HiddenStrings(kinds, |values|)))
    ensures Packed(Stored(values, HiddenStrings(kinds, |values|))) == Packed(Stored(values, 0))
  {
    hide Packed, PackedEnds, StrVals, Stored;
  }

  lemma StoredNonempty(values: seq<Val>, h: nat)
    ensures |Stored(values, h)| == |StrVals(values)| + h
  {
  }

  /** The buffers of a new row. */
  method Build(cols: seq<Column>, values: seq<Val>) returns (fixed: array<Byte>, part: array<Byte>, idx: seq<nat>)
    requires Laid(cols) && Typed(Kinds(cols), values) && Fillable(Kinds(cols), |values|)
    ensures fresh(fixed) && fresh(part) && fixed != part
    ensures RepOk(Kinds(cols), Dense(fixed[..], part[..], idx))
    ensures Fields(Kinds(cols), Dense(fixed[..], part[..], idx)) == Initial(Kinds(cols), values)
  {
    hide RepOk, Fields, Packed, PackedEnds, StrVals, Written, Typed, Laid, Kinds, Initial, Fillable, Stored,
      HiddenStrings;
    fixed := WriteFixed(cols, values);
    ghost var bytes := fixed[..];
    var s := CollectStrings(values);
    StoredAsGiven(values);
    var ends;
    part, ends := Pack(s);
    idx := FillHidden(cols, |values|, values, ends);
    assert fixed[..] == bytes;
    TypedLength(Kinds(cols), values);
    Created(Kinds(cols), values, bytes);
  }

  lemma StoredAsGiven(values: seq<Val>)
    ensures Stored(values, 0) == StrVals(values)
  {
  }

  lemma TypedLength(kinds: seq<Kind>, values: seq<Val>)
    requires Typed(kinds, values)
    ensures |values| <= |kinds|
  {
  }

  // ---------- rows ----------

  class Row {
    const cols: seq<Column>
    const visible: nat                   // columns before the hidden ones
    const fixed: array<Byte>
    var sparse: bool
    var part: array<Byte>                // dense: the packed strings
    var idx: seq<nat>                    // dense: where each string ends
    var strs: seq<seq<Byte>>             // sparse: the strings
    var readonly: bool

    ghost function Rep(): Rep
      reads this, fixed, part
    {
      if sparse then Sparse(fixed[..], strs) else Dense(fixed[..], part[..], idx)
    }

    ghost predicate Valid()
      reads this, fixed, part
    {
      Laid(cols) && visible <= |cols| && fixed != part && RepOk(Kinds(cols), Rep())
    }

    /** The value of every column. */
    ghost function Columns(): (f: seq<Val>)
      requires Valid()
      reads this, fixed, part
      ensures |f| == |cols|
    {
      Fields(Kinds(cols), Rep())
    }

    /** `Row::create`. */
    constructor Create(schema: seq<Column>, values: seq<Val>)
      requires Laid(schema) && Typed(Kinds(schema), values) && Fillable(Kinds(schema), |values|)
      ensures Valid() && fresh(fixed) && fresh(part) && cols == schema && visible == |values| && !readonly
      ensures Columns() == Initial(Kinds(schema), values)
    {
      hide RepOk, Fields, Packed, PackedEnds, StrVals, Written, Typed, Laid, Kinds, Initial, Fillable;
      TypedLength(Kinds(schema), values);
      cols, visible := schema, |values|;
      var f, p, ends := Build(schema, values);
      fixed, part, idx, sparse, strs, readonly := f, p, ends, false, [], false;
    }

    /** `get_blob`, with a copy of the bytes. */
    method GetBlob(c: nat) returns (b: seq<Byte>)
      requires Valid() && c < |cols|
      ensures b == BlobOf(Kinds(cols), Rep(), c)
      ensures cols[c].kind != KStr ==> BytesOf(Columns()[c], b)
    {
      hide BytesOf, BlobOf, RepOk, Fields;
      BlobBytes(Kinds(cols), Rep(), c);
      b := FindBlob(c);
    }

    method FindBlob(c: nat) returns (b: seq<Byte>)
      requires Valid() && c < |cols|
      ensures b == BlobOf(Kinds(cols), Rep(), c)
    {
      ColumnPlace(Kinds(cols), c);
      var col := cols[c];
      match col.kind
      case KStr =>
        if sparse {
          return strs[col.place];
        }
        var start := if col.place == 0 then 0 else idx[col.place - 1];
        return part[start..idx[col.place]];
      case KI32 => return fixed[col.place..col.place + 4];
      case KI64 => return fixed[col.place..col.place + 8];
      case KDouble => return fixed[col.place..col.place + 8];
    }

    /** `get_column`. */
    method GetColumn(c: nat) returns (v: Val)
      requires Valid() && c < |cols|
      ensures v == Columns()[c]
    {
      hide BlobOf, RepOk, Laid;
      var b := GetBlob(c);
      v := Decode(cols[c].kind, b);
    }

    /** Comparing bytes decides whether a write changes anything. */
    lemma Same(c: nat, v: Val)
      requires Valid() && c < |cols| && KindOf(v) == cols[c].kind
      ensures BlobOf(Kinds(cols), Rep(), c) == Encode(v) <==> Columns() == Columns()[c := v]
    {
      DecodeEncode(v);
      EncodeDecode(cols[c].kind, BlobOf(Kinds(cols), Rep(), c));
      hide Encode, Decode, BlobOf, RepOk;
    }

    /** `update_fixed`. */
    method UpdateFixed(c: nat, v: Val)
      requires Valid() && !readonly && c < |cols| && KindOf(v) == cols[c].kind && !v.VStr?
      modifies fixed
      ensures Valid() && Columns() == old(Columns())[c := v]
    {
      hide RepOk, Fields, Encode, BlobOf, Overwrite;
      var was := GetBlob(c);
      Same(c, v);
      if was == Encode(v) {
        return;
      }
      FixedUpdated(Kinds(cols), Rep(), c, v);
      ghost var r := Rep();
      CopyBytes(fixed, cols[c].place, Encode(v));
      assert Rep() == r.(fixed := Overwrite(r.fixed, Offset(Kinds(cols), c), Encode(v)));
    }

    /** `make_sparse`. */
    method MakeSparse()
      requires Valid()
      modifies this`sparse, this`strs
      ensures Valid() && sparse && Columns() == old(Columns())
    {
      if sparse {
        return;
      }
      ghost var r := Rep();
      MadeSparse(Kinds(cols), r);
      var s := Unpacked();
      hide RepOk, Fields;
      strs, sparse := s, true;
    }

    /** Each string cut out of the packed buffer. */
    method Unpacked() returns (s: seq<seq<Byte>>)
      requires Valid() && !sparse
      ensures s == Strings(Kinds(cols), Rep())
    {
      s := [];
      for v := 0 to |idx|
        invariant |s| == v && forall w :: 0 <= w < v ==> s[w] == StrOf(Rep(), w)
      {
        var start := if v == 0 then 0 else idx[v - 1];
        s := s + [part[start..idx[v]]];
      }
    }

    /** `update` of a string column: in place when it fits exactly. */
    method UpdateString(c: nat, v: seq<Byte>)
      requires Valid() && !readonly && c < |cols| && cols[c].kind == KStr
      modifies this`sparse, this`strs, part
      ensures Valid() && Columns() == old(Columns())[c := VStr(v)]
    {
      hide RepOk, Fields, BlobOf, Overwrite;
      var b := GetBlob(c);
      Same(c, VStr(v));
      if b == v {
        return;
      }
      if !sparse && |b| == |v| {
        InPlaceString(c, v);
      } else {
        MakeSparse();
        SetSparse(c, v);
      }
    }

    method InPlaceString(c: nat, v: seq<Byte>)
      requires Valid() && !sparse && c < |cols| && cols[c].kind == KStr && |BlobOf(Kinds(cols), Rep(), c)| == |v|
      modifies part
      ensures Valid() && Columns() == old(Columns())[c := VStr(v)]
    {
      ColumnPlace(Kinds(cols), c);
      assert |StrOf(Rep(), cols[c].place)| == |v|;
      ghost var r := Rep();
      InPlace(Kinds(cols), r, c, v);
      hide Fields, BlobOf, Overwrite, Ends;
      var at := if cols[c].place == 0 then 0 else idx[cols[c].place - 1];
      CopyBytes(part, at, v);
      assert Rep() == r.(part := Overwrite(r.part, at, v));
    }

    method SetSparse(c: nat, v: seq<Byte>)
      requires Valid() && sparse && c < |cols| && cols[c].kind == KStr
      modifies this`strs
      ensures Valid() && Columns() == old(Columns())[c := VStr(v)]
    {
      ColumnPlace(Kinds(cols), c);
      ghost var r := Rep();
      SparseUpdated(Kinds(cols), r, c, v);
      hide Fields, BlobOf;
      strs := strs[cols[c].place := v];
      assert Rep() == r.(strs := r.strs[cols[c].place := v]);
    }

    /** `update`: afterwards the column holds the value and every other column what it held. */
    method Update(c: nat, v: Val)
      requires Valid() && !readonly && c < |cols| && KindOf(v) == cols[c].kind
      modifies this`sparse, this`strs, fixed, part
      ensures Valid() && Columns() == old(Columns())[c := v]
    {
      hide RepOk, Fields;
      match v
      case VStr(s) => UpdateString(c, s);
      case _ => UpdateFixed(c, v);
    }

    /** The strings of the visible columns, one by one. */
    method VisibleStrings() returns (s: seq<seq<Byte>>)
      requires Valid()
      ensures VarIdx(Kinds(cols), visible) <= VarCols(Kinds(cols))
      ensures s == Strings(Kinds(cols), Rep())[..VarIdx(Kinds(cols), visible)]
    {
      hide RepOk, BlobOf, Laid, Strings;
      ghost var r := Rep();
      s := [];
      FirstStringsStart(Kinds(cols), r);
      for c := 0 to visible
        invariant FirstStrings(Kinds(cols), r, c, s)
      {
        FirstStringsNext(Kinds(cols), r, c, s);
        if cols[c].kind == KStr {
          var b := GetBlob(c);
          s := s + [b];
        }
      }
      FirstStringsEnd(Kinds(cols), r, visible, s);
    }

    constructor Of(schema: seq<Column>, n: nat, f: array<Byte>, p: array<Byte>, ends: seq<nat>)
      requires Laid(schema) && n <= |schema| && f != p && RepOk(Kinds(schema), Dense(f[..], p[..], ends))
      ensures Valid() && cols == schema && visible == n && fixed == f && part == p && !sparse && !readonly
      ensures Rep() == Dense(f[..], p[..], ends)
    {
      cols, visible, fixed, part, idx, sparse, strs, readonly := schema, n, f, p, ends, false, [], false;
    }

    /** `copy_into`: a dense, writable row of its own that says the same, for a schema without hidden
        strings. */
    method Copy() returns (r: Row)
      requires Valid() && VarIdx(Kinds(cols), visible) == VarCols(Kinds(cols))
      ensures fresh(r) && fresh(r.fixed) && fresh(r.part) && r.Valid() && !r.sparse && !r.readonly
      ensures r.cols == cols && r.visible == visible && r.Columns() == Columns()
    {
      var s := VisibleStrings();
      Copied(Kinds(cols), Rep(), visible);
      hide RepOk, Fields, Packed, PackedEnds;
      var f := Allocate(fixed.Length);
      ghost var bytes := fixed[..];
      CopyBytes(f, 0, fixed[..]);
      assert f[..] == bytes;
      var p, ends := Pack(s);
      r := new Row.Of(cols, visible, f, p, ends);
    }
  }
}
