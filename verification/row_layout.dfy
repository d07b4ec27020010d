/** How a row packs its columns into bytes: fixed-size columns side by side, strings in one buffer
    with an index of their ends, or in an array of their own. */
module RowLayout {
  newtype Byte = x: int | 0 <= x < 256

  // ---------- values and their bytes ----------

  datatype Kind = KI32 | KI64 | KDouble | KStr

  type Int32 = x: int | -0x8000_0000 <= x < 0x8000_0000
  type Int64 = x: int | -0x8000_0000_0000_0000 <= x < 0x8000_0000_0000_0000
  type Bits64 = x: int | 0 <= x < 0x1_0000_0000_0000_0000

  /** A column value; a double is its 64 bits. */
  datatype Val = VI32(x: Int32) | VI64(y: Int64) | VDouble(bits: Bits64) | VStr(s: seq<Byte>)

  function KindOf(v: Val): Kind
  {
    match v
    case VI32(_) => KI32
    case VI64(_) => KI64
    case VDouble(_) => KDouble
    case VStr(_) => KStr
  }

  /** Bytes in the fixed part. */
  function Width(k: Kind): nat
  {
    match k
    case KI32 => 4
    case KI64 => 8
    case KDouble => 8
    case KStr => 0
  }

  function Pow256(n: nat): (p: nat)
    ensures p > 0
  {
    if n == 0 then 1 else 256 * Pow256(n - 1)
  }

  lemma Powers()
    ensures Pow256(4) == 0x1_0000_0000 && Pow256(8) == 0x1_0000_0000_0000_0000
  {
    assert Pow256(2) == 0x1_0000;
    assert Pow256(6) == 0x1_0000 * Pow256(4);
  }

  /** A machine word of `n` bytes in memory, least significant byte first. */
  function ToBytes(x: nat, n: nat): (b: seq<Byte>)
    ensures |b| == n
  {
    if n == 0 then [] else [(x % 256) as Byte] + ToBytes(x / 256, n - 1)
  }

  function FromBytes(b: seq<Byte>): nat
  {
    if b == [] then 0 else b[0] as int + 256 * FromBytes(b[1..])
  }

  lemma {:induction false} FromToBytes(x: nat, n: nat)
    requires x < Pow256(n)
    ensures FromBytes(ToBytes(x, n)) == x
  {
    if n > 0 {
      FromToBytes(x / 256, n - 1);
      assert ToBytes(x, n)[1..] == ToBytes(x / 256, n - 1);
    }
  }

  lemma {:induction false} ToFromBytes(b: seq<Byte>)
    ensures FromBytes(b) < Pow256(|b|) && ToBytes(FromBytes(b), |b|) == b
  {
    if b != [] {
      ToFromBytes(b[1..]);
      var x := FromBytes(b);
      assert x % 256 == b[0] as int && x / 256 == FromBytes(b[1..]);
      assert b == [b[0]] + b[1..];
    }
  }

  /** Two's complement in `n` bytes. */
  function Unsigned(x: int, n: nat): int
  {
    if x < 0 then x + Pow256(n) else x
  }

  function Signed(u: nat, n: nat): int
  {
    if 2 * u < Pow256(n) then u else u - Pow256(n)
  }

  /** `write_binary`. */
  function Encode(v: Val): (b: seq<Byte>)
    ensures !v.VStr? ==> |b| == Width(KindOf(v))
  {
    Powers();
    match v
    case VI32(x) => ToBytes(Unsigned(x, 4), 4)
    case VI64(y) => ToBytes(Unsigned(y, 8), 8)
    case VDouble(d) => ToBytes(d, 8)
    case VStr(s) => s
  }

  predicate Sized(k: Kind, b: seq<Byte>)
  {
    k != KStr ==> |b| == Width(k)
  }

  /** How `get_column` reads a blob. */
  function Decode(k: Kind, b: seq<Byte>): (v: Val)
    requires Sized(k, b)
    ensures KindOf(v) == k
  {
    Powers();
    ToFromBytes(b);
    match k
    case KI32 => VI32(Signed(FromBytes(b), 4))
    case KI64 => VI64(Signed(FromBytes(b), 8))
    case KDouble => VDouble(FromBytes(b))
    case KStr => VStr(b)
  }

  lemma DecodeEncode(v: Val)
    ensures Decode(KindOf(v), Encode(v)) == v
  {
    Powers();
    hide ToBytes, FromBytes, Pow256;
    match v
    case VI32(x) => FromToBytes(Unsigned(x, 4), 4);
    case VI64(y) => FromToBytes(Unsigned(y, 8), 8);
    case VDouble(d) => FromToBytes(d, 8);
    case VStr(_) =>
  }

  /** Different bytes are different values: comparing bytes decides whether anything changes. */
  lemma EncodeDecode(k: Kind, b: seq<Byte>)
    requires Sized(k, b)
    ensures Encode(Decode(k, b)) == b
  {
    Powers();
    ToFromBytes(b);
    hide ToBytes, FromBytes, Pow256;
  }

  // ---------- byte by byte ----------

  lemma {:induction false} ByteAt(x: nat, n: nat, i: nat)
    requires i < n
    ensures ToBytes(x, n)[i] as int == (x / Pow256(i)) % 256
  {
    if i > 0 {
      ByteAt(x / 256, n - 1, i - 1);
      DivideTwice(x, 256, Pow256(i - 1));
    }
  }

  lemma Multiples(d: nat, a: int, b: int)
    requires a < b
    ensures d * a + d <= d * b
  {
    assert d * b == d * a + d * (b - a);
    AtLeastOnce(d, b - a);
  }

  lemma AtLeastOnce(d: nat, k: nat)
    requires k >= 1
    ensures d * k >= d
  {
  }

  lemma Divides(x: int, d: nat, q: int, r: nat)
    requires d > 0 && x == d * q + r && r < d
    ensures x / d == q
  {
    var q', r' := x / d, x % d;
    Parts(x, d);
    if q < q' {
      Multiples(d, q, q');
    } else if q' < q {
      Multiples(d, q', q);
    }
  }

  lemma Parts(x: int, d: nat)
    requires d > 0
    ensures x == d * (x / d) + x % d && 0 <= x % d < d
  {
  }

  lemma DivideTwice(x: nat, a: nat, b: nat)
    requires a > 0 && b > 0
    ensures a * b > 0 && (x / a) / b == x / (a * b)
  {
    Parts(x, a);
    Parts(x / a, b);
    TwoSteps(x, a, b, x / a, x % a, (x / a) / b, (x / a) % b);
  }

  lemma TwoSteps(x: nat, a: nat, b: nat, q: nat, r: nat, p: nat, s: nat)
    requires x == a * q + r && r < a && q == b * p + s && s < b
    ensures a * b > 0 && x / (a * b) == p
  {
    Regroup(a, b, p, s);
    Multiples(a, s, b);
    Divides(x, a * b, p, a * s + r);
  }

  lemma Regroup(a: nat, b: nat, p: nat, s: nat)
    ensures a * (b * p + s) == (a * b) * p + a * s
  {
    assert a * (b * p + s) == a * (b * p) + a * s;
    assert a * (b * p) == (a * b) * p;
  }

  /** The number in a fixed-size column: an integer, or the bits of a double. */
  function Number(v: Val): int
    requires !v.VStr?
  {
    match v
    case VI32(x) => x
    case VI64(y) => y
    case VDouble(d) => d
  }

  /** Byte `i` of a number has weight 256^i, negative numbers in two's complement. */
  lemma LittleEndian(v: Val, i: nat)
    requires !v.VStr? && i < Width(KindOf(v))
    ensures Encode(v)[i] as int == (Number(v) / Pow256(i)) % 256
  {
    Powers();
    var x, n := Number(v), Width(KindOf(v));
    var u := if x < 0 then x + Pow256(n) else x;
    assert Encode(v) == ToBytes(u, n);
    ByteAt(u, n, i);
    if x < 0 {
      Complement(x, n, i);
    }
  }

  /** The bytes of a number in memory. */
  predicate BytesOf(v: Val, b: seq<Byte>)
  {
    !v.VStr? && |b| == Width(KindOf(v)) && forall i :: 0 <= i < |b| ==> b[i] as int == (Number(v) / Pow256(i)) % 256
  }

  lemma EncodedBytes(v: Val)
    requires !v.VStr?
    ensures BytesOf(v, Encode(v))
  {
    hide Encode;
    forall i | 0 <= i < |Encode(v)| ensures Encode(v)[i] as int == (Number(v) / Pow256(i)) % 256 {
      LittleEndian(v, i);
    }
  }

  /** Adding 256^n does not show in the lower bytes. */
  lemma Complement(x: int, n: nat, i: nat)
    requires i < n
    ensures ((x + Pow256(n)) / Pow256(i)) % 256 == (x / Pow256(i)) % 256
  {
    var d, k := Pow256(i), Pow256(n - 1 - i);
    PowerSum(i, n - 1 - i);
    assert Pow256(n) == 256 * (d * k);
    hide Pow256;
    Thrice(d, k);
    AddMultiple(x, d, 256 * k);
    SameByte(x / d, k);
  }

  lemma Thrice(d: nat, k: nat)
    ensures 256 * (d * k) == d * (256 * k)
  {
  }

  lemma SameByte(x: int, k: nat)
    ensures (x + 256 * k) % 256 == x % 256
  {
  }

  lemma {:induction false} PowerSum(a: nat, b: nat)
    ensures Pow256(a + b) == Pow256(a) * Pow256(b)
  {
    if a > 0 {
      PowerSum(a - 1, b);
      assert 256 * (Pow256(a - 1) * Pow256(b)) == (256 * Pow256(a - 1)) * Pow256(b);
    }
  }

  lemma AddMultiple(x: int, d: nat, k: nat)
    requires d > 0
    ensures (x + d * k) / d == x / d + k
  {
    var q, r := x / d, x % d;
    Parts(x, d);
    assert d * (q + k) == d * q + d * k;
    Divides(x + d * k, d, q + k, r);
  }

  // ---------- places ----------

  /** Bytes of the fixed part before column `i`. */
  function Offset(kinds: seq<Kind>, i: nat): nat
    requires i <= |kinds|
  {
    if i == 0 then 0 else Offset(kinds, i - 1) + Width(kinds[i - 1])
  }

  /** String columns before column `i`. */
  function VarIdx(kinds: seq<Kind>, i: nat): nat
    requires i <= |kinds|
  {
    if i == 0 then 0 else VarIdx(kinds, i - 1) + if kinds[i - 1] == KStr then 1 else 0
  }

  function FixedSize(kinds: seq<Kind>): nat { Offset(kinds, |kinds|) }
  function VarCols(kinds: seq<Kind>): nat { VarIdx(kinds, |kinds|) }

  /** Fields follow each other without overlap, strings are numbered without gaps. */
  lemma {:induction false} Apart(kinds: seq<Kind>, i: nat, j: nat)
    requires i < j <= |kinds|
    ensures Offset(kinds, i) + Width(kinds[i]) <= Offset(kinds, j)
    ensures kinds[i] == KStr ==> VarIdx(kinds, i) < VarIdx(kinds, j)
    ensures VarIdx(kinds, i) <= VarIdx(kinds, j)
    decreases j
  {
    if i + 1 < j {
      Apart(kinds, i, j - 1);
    }
  }

  lemma {:induction false} PlacesExtend(kinds: seq<Kind>, k: Kind, i: nat)
    requires i <= |kinds|
    ensures Offset(kinds + [k], i) == Offset(kinds, i) && VarIdx(kinds + [k], i) == VarIdx(kinds, i)
  {
    if i > 0 {
      PlacesExtend(kinds, k, i - 1);
    }
  }

  // ---------- representations ----------

  /** The fixed part, and the strings densely packed or one by one. */
  datatype Rep =
    | Dense(fixed: seq<Byte>, part: seq<Byte>, idx: seq<nat>)
    | Sparse(fixed: seq<Byte>, strs: seq<seq<Byte>>)

  predicate Ends(part: seq<Byte>, idx: seq<nat>)
  {
    && (forall i, j :: 0 <= i < j < |idx| ==> idx[i] <= idx[j])
    && (forall i :: 0 <= i < |idx| ==> idx[i] <= |part|)
  }

  predicate RepOk(kinds: seq<Kind>, r: Rep)
  {
    && |r.fixed| == FixedSize(kinds)
    && match r
       case Dense(_, part, idx) => |idx| == VarCols(kinds) && Ends(part, idx)
       case Sparse(_, strs) => |strs| == VarCols(kinds)
  }

  function From(idx: seq<nat>, v: nat): nat
    requires v < |idx|
  {
    if v == 0 then 0 else idx[v - 1]
  }

  /** The bytes of string `v`. */
  function StrOf(r: Rep, v: nat): seq<Byte>
    requires r.Dense? ==> v < |r.idx| && Ends(r.part, r.idx)
    requires r.Sparse? ==> v < |r.strs|
  {
    match r
    case Dense(_, part, idx) => part[From(idx, v)..idx[v]]
    case Sparse(_, strs) => strs[v]
  }

  lemma ColumnPlace(kinds: seq<Kind>, c: nat)
    requires c < |kinds|
    ensures Offset(kinds, c) + Width(kinds[c]) <= FixedSize(kinds)
    ensures kinds[c] == KStr ==> VarIdx(kinds, c) < VarCols(kinds)
  {
    Apart(kinds, c, |kinds|);
  }

  /** `get_blob`. */
  function BlobOf(kinds: seq<Kind>, r: Rep, c: nat): (b: seq<Byte>)
    requires RepOk(kinds, r) && c < |kinds|
    ensures Sized(kinds[c], b)
  {
    ColumnPlace(kinds, c);
    if kinds[c] == KStr then StrOf(r, VarIdx(kinds, c))
    else r.fixed[Offset(kinds, c)..Offset(kinds, c) + Width(kinds[c])]
  }

  /** The bytes of a fixed-size column are its number's, least significant first. */
  lemma BlobBytes(kinds: seq<Kind>, r: Rep, c: nat)
    requires RepOk(kinds, r) && c < |kinds|
    ensures kinds[c] != KStr ==> BytesOf(Fields(kinds, r)[c], BlobOf(kinds, r, c))
  {
    var b := BlobOf(kinds, r, c);
    EncodeDecode(kinds[c], b);
    hide BlobOf, Encode, Decode;
    if kinds[c] != KStr {
      EncodedBytes(Decode(kinds[c], b));
    }
  }

  /** What the row says in each column. */
  function Fields(kinds: seq<Kind>, r: Rep): (f: seq<Val>)
    requires RepOk(kinds, r)
    ensures |f| == |kinds|
    ensures forall c :: 0 <= c < |f| ==> f[c] == Decode(kinds[c], BlobOf(kinds, r, c))
  {
    seq(|kinds|, c requires 0 <= c < |kinds| => Decode(kinds[c], BlobOf(kinds, r, c)))
  }

  /** Same blobs, same fields. */
  lemma SameBlobs(kinds: seq<Kind>, r: Rep, r': Rep)
    requires RepOk(kinds, r) && RepOk(kinds, r')
    requires forall c :: 0 <= c < |kinds| ==> BlobOf(kinds, r', c) == BlobOf(kinds, r, c)
    ensures Fields(kinds, r') == Fields(kinds, r)
  {
  }

  /** One blob replaced, all others the same. */
  lemma OneBlob(kinds: seq<Kind>, r: Rep, r': Rep, c: nat, v: Val)
    requires RepOk(kinds, r) && RepOk(kinds, r') && c < |kinds| && KindOf(v) == kinds[c]
    requires BlobOf(kinds, r', c) == Encode(v)
    requires forall d :: 0 <= d < |kinds| && d != c ==> BlobOf(kinds, r', d) == BlobOf(kinds, r, d)
    ensures Fields(kinds, r') == Fields(kinds, r)[c := v]
  {
    DecodeEncode(v);
  }

  // ---------- updates ----------

  /** A stretch of a buffer overwritten. */
  function Overwrite(s: seq<Byte>, at: nat, b: seq<Byte>): (t: seq<Byte>)
    requires at + |b| <= |s|
    ensures |t| == |s|
  {
    s[..at] + b + s[at + |b|..]
  }

  lemma OverwriteAway(s: seq<Byte>, at: nat, b: seq<Byte>, lo: nat, hi: nat)
    requires at + |b| <= |s| && lo <= hi <= |s| && (hi <= at || at + |b| <= lo)
    ensures Overwrite(s, at, b)[lo..hi] == s[lo..hi]
  {
  }

  lemma OverwriteThere(s: seq<Byte>, at: nat, b: seq<Byte>)
    requires at + |b| <= |s|
    ensures Overwrite(s, at, b)[at..at + |b|] == b
  {
  }

  lemma OverwriteNone(s: seq<Byte>, at: nat)
    requires at <= |s|
    ensures Overwrite(s, at, []) == s
  {
  }

  /** One more byte. */
  lemma OverwriteOne(s: seq<Byte>, at: nat, b: seq<Byte>, i: nat, t: seq<Byte>)
    requires i < |b| && at + |b| <= |s| && t == Overwrite(s, at, b[..i])
    ensures t[at + i := b[i]] == Overwrite(s, at, b[..i + 1])
  {
  }

  /** `update_fixed`. */
  lemma FixedUpdated(kinds: seq<Kind>, r: Rep, c: nat, v: Val)
    requires RepOk(kinds, r) && c < |kinds| && KindOf(v) == kinds[c] && !v.VStr?
    ensures Offset(kinds, c) + |Encode(v)| <= |r.fixed|
    ensures var r' := r.(fixed := Overwrite(r.fixed, Offset(kinds, c), Encode(v)));
      RepOk(kinds, r') && Fields(kinds, r') == Fields(kinds, r)[c := v]
  {
    ColumnPlace(kinds, c);
    var r' := r.(fixed := Overwrite(r.fixed, Offset(kinds, c), Encode(v)));
    OverwriteThere(r.fixed, Offset(kinds, c), Encode(v));
    assert RepOk(kinds, r');
    forall d | 0 <= d < |kinds| && d != c ensures BlobOf(kinds, r', d) == BlobOf(kinds, r, d) {
      FixedElsewhere(kinds, r, c, d, Encode(v));
    }
    hide Fields, BlobOf, Encode, RepOk;
    OneBlob(kinds, r, r', c, v);
  }

  lemma FixedElsewhere(kinds: seq<Kind>, r: Rep, c: nat, d: nat, b: seq<Byte>)
    requires RepOk(kinds, r) && c < |kinds| && d < |kinds| && d != c && kinds[c] != KStr && |b| == Width(kinds[c])
    requires Offset(kinds, c) + |b| <= |r.fixed|
    ensures RepOk(kinds, r.(fixed := Overwrite(r.fixed, Offset(kinds, c), b)))
    ensures BlobOf(kinds, r.(fixed := Overwrite(r.fixed, Offset(kinds, c), b)), d) == BlobOf(kinds, r, d)
  {
    hide Offset, Width, Overwrite, VarIdx, FixedSize, Ends;
    FieldsApart(kinds, c, d);
    ColumnPlace(kinds, d);
    if kinds[d] != KStr {
      OverwriteAway(r.fixed, Offset(kinds, c), b, Offset(kinds, d), Offset(kinds, d) + Width(kinds[d]));
    }
  }

  lemma FieldsApart(kinds: seq<Kind>, c: nat, d: nat)
    requires c < |kinds| && d < |kinds| && c != d
    ensures Offset(kinds, d) + Width(kinds[d]) <= Offset(kinds, c) ||
      Offset(kinds, c) + Width(kinds[c]) <= Offset(kinds, d)
  {
    if d < c {
      Apart(kinds, d, c);
    } else {
      Apart(kinds, c, d);
    }
  }

  /** String columns are told apart by their number. */
  lemma VarApart(kinds: seq<Kind>, c: nat, d: nat)
    requires c < |kinds| && d < |kinds| && c != d && kinds[c] == KStr && kinds[d] == KStr
    ensures VarIdx(kinds, c) != VarIdx(kinds, d)
  {
    if c < d {
      Apart(kinds, c, d);
    } else {
      Apart(kinds, d, c);
    }
  }

  /** Strings replaced one by one make fields replaced one by one. */
  lemma StringUpdated(kinds: seq<Kind>, r: Rep, r': Rep, c: nat, s: seq<Byte>)
    requires RepOk(kinds, r) && RepOk(kinds, r') && c < |kinds| && kinds[c] == KStr && r'.fixed == r.fixed
    requires VarIdx(kinds, c) < VarCols(kinds) && StrOf(r', VarIdx(kinds, c)) == s
    requires forall w :: 0 <= w < VarCols(kinds) && w != VarIdx(kinds, c) ==> StrOf(r', w) == StrOf(r, w)
    ensures Fields(kinds, r') == Fields(kinds, r)[c := VStr(s)]
  {
    forall d | 0 <= d < |kinds| && d != c ensures BlobOf(kinds, r', d) == BlobOf(kinds, r, d) {
      ColumnPlace(kinds, d);
      if kinds[d] == KStr {
        VarApart(kinds, c, d);
      }
    }
    assert BlobOf(kinds, r', c) == s;
    OneBlob(kinds, r, r', c, VStr(s));
  }

  /** The in-place update of a densely packed string by one of equal length. */
  lemma InPlace(kinds: seq<Kind>, r: Rep, c: nat, s: seq<Byte>)
    requires RepOk(kinds, r) && r.Dense? && c < |kinds| && kinds[c] == KStr && VarIdx(kinds, c) < VarCols(kinds)
    requires |StrOf(r, VarIdx(kinds, c))| == |s|
    ensures From(r.idx, VarIdx(kinds, c)) + |s| <= |r.part|
    ensures var r' := r.(part := Overwrite(r.part, From(r.idx, VarIdx(kinds, c)), s));
      RepOk(kinds, r') && Fields(kinds, r') == Fields(kinds, r)[c := VStr(s)]
  {
    var v := VarIdx(kinds, c);
    var at := From(r.idx, v);
    var r' := r.(part := Overwrite(r.part, at, s));
    OverwriteThere(r.part, at, s);
    assert RepOk(kinds, r') && StrOf(r', v) == s;
    forall w | 0 <= w < VarCols(kinds) && w != v ensures StrOf(r', w) == StrOf(r, w) {
      SegmentsApart(r.part, r.idx, v, w);
      OverwriteAway(r.part, at, s, From(r.idx, w), r.idx[w]);
    }
    hide Fields, RepOk, Overwrite;
    StringUpdated(kinds, r, r', c, s);
  }

  lemma SegmentsApart(part: seq<Byte>, idx: seq<nat>, v: nat, w: nat)
    requires Ends(part, idx) && v < |idx| && w < |idx| && v != w
    ensures From(idx, v) <= idx[v] <= |part| && From(idx, w) <= idx[w] <= |part|
    ensures idx[w] <= From(idx, v) || idx[v] <= From(idx, w)
  {
  }

  /** All strings of a row. */
  function Strings(kinds: seq<Kind>, r: Rep): (s: seq<seq<Byte>>)
    requires RepOk(kinds, r)
    ensures |s| == VarCols(kinds)
    ensures forall v :: 0 <= v < |s| ==> s[v] == StrOf(r, v)
  {
    seq(VarCols(kinds), v requires 0 <= v < VarCols(kinds) => StrOf(r, v))
  }

  /** Any two representations with the same fixed part and the same strings say the same. */
  lemma SameStrings(kinds: seq<Kind>, r: Rep, r': Rep)
    requires RepOk(kinds, r) && RepOk(kinds, r') && r'.fixed == r.fixed
    requires forall v :: 0 <= v < VarCols(kinds) ==> StrOf(r', v) == StrOf(r, v)
    ensures Fields(kinds, r') == Fields(kinds, r)
  {
    forall c | 0 <= c < |kinds| ensures BlobOf(kinds, r', c) == BlobOf(kinds, r, c) {
      ColumnPlace(kinds, c);
    }
    SameBlobs(kinds, r, r');
  }

  /** `make_sparse` changes nothing that can be read. */
  lemma MadeSparse(kinds: seq<Kind>, r: Rep)
    requires RepOk(kinds, r)
    ensures RepOk(kinds, Sparse(r.fixed, Strings(kinds, r)))
    ensures Fields(kinds, Sparse(r.fixed, Strings(kinds, r))) == Fields(kinds, r)
  {
    SameStrings(kinds, r, Sparse(r.fixed, Strings(kinds, r)));
  }

  /** The update of a string kept on its own. */
  lemma SparseUpdated(kinds: seq<Kind>, r: Rep, c: nat, s: seq<Byte>)
    requires RepOk(kinds, r) && r.Sparse? && c < |kinds| && kinds[c] == KStr && VarIdx(kinds, c) < VarCols(kinds)
    ensures var r' := r.(strs := r.strs[VarIdx(kinds, c) := s]);
      RepOk(kinds, r') && Fields(kinds, r') == Fields(kinds, r)[c := VStr(s)]
  {
    StringUpdated(kinds, r, r.(strs := r.strs[VarIdx(kinds, c) := s]), c, s);
  }

  // ---------- packing ----------

  function Packed(strs: seq<seq<Byte>>): seq<Byte>
  {
    if strs == [] then [] else Packed(strs[..|strs| - 1]) + strs[|strs| - 1]
  }

  /** The end of each string in the packed buffer. */
  function PackedEnds(strs: seq<seq<Byte>>): (idx: seq<nat>)
    ensures |idx| == |strs|
  {
    if strs == [] then [] else PackedEnds(strs[..|strs| - 1]) + [|Packed(strs)|]
  }

  lemma {:induction false} PackedOk(strs: seq<seq<Byte>>)
    ensures Ends(Packed(strs), PackedEnds(strs))
    ensures strs != [] ==> PackedEnds(strs)[|strs| - 1] == |Packed(strs)|
  {
    if strs != [] {
      PackedOk(strs[..|strs| - 1]);
    }
  }

  /** Unpacking what was packed. */
  lemma {:induction false} Unpack(strs: seq<seq<Byte>>, v: nat)
    requires v < |strs|
    ensures Ends(Packed(strs), PackedEnds(strs))
    ensures Packed(strs)[From(PackedEnds(strs), v)..PackedEnds(strs)[v]] == strs[v]
    decreases |strs|
  {
    PackedOk(strs);
    var n := |strs| - 1;
    var init := strs[..n];
    PackedOk(init);
    if v < n {
      Unpack(init, v);
      var lo, hi := From(PackedEnds(init), v), PackedEnds(init)[v];
      SegmentsApartSelf(Packed(init), PackedEnds(init), v);
      assert Packed(strs)[lo..hi] == Packed(init)[lo..hi];
    }
  }

  lemma SegmentsApartSelf(part: seq<Byte>, idx: seq<nat>, v: nat)
    requires Ends(part, idx) && v < |idx|
    ensures From(idx, v) <= idx[v] <= |part|
  {
  }

  /** What `copy_into` makes of a row: it packs the strings of the visible columns. */
  function CopyRep(kinds: seq<Kind>, r: Rep, visible: nat): Rep
    requires RepOk(kinds, r) && visible <= |kinds|
  {
    var n := VarIdx(kinds, visible);
    var s := if n <= VarCols(kinds) then Strings(kinds, r)[..n] else [];
    Dense(r.fixed, Packed(s), PackedEnds(s))
  }

  /** The copy is a row of the schema, and then says the same, if and only if no hidden column is a
      string. */
  lemma Copied(kinds: seq<Kind>, r: Rep, visible: nat)
    requires RepOk(kinds, r) && visible <= |kinds|
    ensures RepOk(kinds, CopyRep(kinds, r, visible)) <==> VarIdx(kinds, visible) == VarCols(kinds)
    ensures RepOk(kinds, CopyRep(kinds, r, visible)) ==> Fields(kinds, CopyRep(kinds, r, visible)) == Fields(kinds, r)
  {
    hide Fields, Packed, PackedEnds, VarIdx, VarCols, FixedSize, Ends;
    var n := VarIdx(kinds, visible);
    HiddenAfter(kinds, visible);
    PackedOk(Strings(kinds, r)[..n]);
    if n == VarCols(kinds) {
      CopiedStrings(kinds, r, visible);
      SameStrings(kinds, r, CopyRep(kinds, r, visible));
    }
  }

  lemma HiddenAfter(kinds: seq<Kind>, visible: nat)
    requires visible <= |kinds|
    ensures VarIdx(kinds, visible) <= VarCols(kinds)
  {
    if visible < |kinds| {
      Apart(kinds, visible, |kinds|);
    }
  }

  lemma CopiedStrings(kinds: seq<Kind>, r: Rep, visible: nat)
    requires RepOk(kinds, r) && visible <= |kinds| && VarIdx(kinds, visible) == VarCols(kinds)
    ensures RepOk(kinds, CopyRep(kinds, r, visible))
    ensures forall v :: 0 <= v < VarCols(kinds) ==> StrOf(CopyRep(kinds, r, visible), v) == StrOf(r, v)
  {
    hide Packed, PackedEnds, VarIdx, VarCols, FixedSize, Ends;
    var s := Strings(kinds, r);
    assert s[..VarCols(kinds)] == s;
    PackedOk(s);
    forall v | 0 <= v < VarCols(kinds) ensures StrOf(CopyRep(kinds, r, visible), v) == StrOf(r, v) {
      Unpack(s, v);
    }
  }

  /** The strings of the first `n` columns. */
  ghost predicate FirstStrings(kinds: seq<Kind>, r: Rep, n: nat, s: seq<seq<Byte>>)
    requires RepOk(kinds, r) && n <= |kinds|
  {
    && |s| == VarIdx(kinds, n) <= VarCols(kinds)
    && forall v :: 0 <= v < |s| ==> s[v] == StrOf(r, v)
  }

  lemma FirstStringsStart(kinds: seq<Kind>, r: Rep)
    requires RepOk(kinds, r)
    ensures FirstStrings(kinds, r, 0, [])
  {
  }

  lemma FirstStringsNext(kinds: seq<Kind>, r: Rep, n: nat, s: seq<seq<Byte>>)
    requires RepOk(kinds, r) && n < |kinds| && FirstStrings(kinds, r, n, s)
    ensures FirstStrings(kinds, r, n + 1, if kinds[n] == KStr then s + [BlobOf(kinds, r, n)] else s)
  {
    ColumnPlace(kinds, n);
  }

  lemma FirstStringsEnd(kinds: seq<Kind>, r: Rep, n: nat, s: seq<seq<Byte>>)
    requires RepOk(kinds, r) && n <= |kinds| && FirstStrings(kinds, r, n, s)
    ensures VarIdx(kinds, n) <= VarCols(kinds) && s == Strings(kinds, r)[..VarIdx(kinds, n)]
  {
  }

  // ---------- creation ----------

  /** One value per visible column, of its kind; hidden columns may follow. */
  predicate Typed(kinds: seq<Kind>, values: seq<Val>)
  {
    |values| <= |kinds| && forall i :: 0 <= i < |values| ==> KindOf(values[i]) == kinds[i]
  }

  /** There is no hidden string, or there is a visible one. */
  predicate Fillable(kinds: seq<Kind>, visible: nat)
  {
    visible <= |kinds| && (VarIdx(kinds, visible) > 0 || VarCols(kinds) == VarIdx(kinds, visible))
  }

  /** The end of a hidden string is taken from the string before it. Every hidden string has one before
      it if and only if the first of all strings is not hidden. */
  lemma FillExact(kinds: seq<Kind>, visible: nat)
    requires visible <= |kinds|
    ensures Fillable(kinds, visible) <==>
      (forall i :: visible <= i < |kinds| && kinds[i] == KStr ==> 0 < VarIdx(kinds, i))
  {
    if 0 < VarIdx(kinds, visible) {
      forall i | visible < i < |kinds| ensures 0 < VarIdx(kinds, i) {
        Apart(kinds, visible, i);
      }
    } else if 0 < VarCols(kinds) {
      var i := FirstString(kinds, visible, |kinds|);
    } else {
      forall i | visible <= i < |kinds| ensures kinds[i] != KStr {
        ColumnPlace(kinds, i);
      }
    }
  }

  lemma {:induction false} FirstString(kinds: seq<Kind>, from: nat, end: nat) returns (i: nat)
    requires from <= end <= |kinds| && VarIdx(kinds, from) == 0 < VarIdx(kinds, end)
    ensures from <= i < end && kinds[i] == KStr && VarIdx(kinds, i) == 0
    decreases end
  {
    if VarIdx(kinds, end - 1) == 0 {
      i := end - 1;
    } else {
      i := FirstString(kinds, from, end - 1);
    }
  }

  function Zero(k: Kind): Val
  {
    match k
    case KI32 => VI32(0)
    case KI64 => VI64(0)
    case KDouble => VDouble(0)
    case KStr => VStr([])
  }

  function Initial(kinds: seq<Kind>, values: seq<Val>): (f: seq<Val>)
    requires |values| <= |kinds|
    ensures |f| == |kinds|
    ensures forall c :: 0 <= c < |f| ==> f[c] == if c < |values| then values[c] else Zero(kinds[c])
  {
    values + seq(|kinds| - |values|, i requires 0 <= i < |kinds| - |values| => Zero(kinds[|values| + i]))
  }

  /** The fixed part after the first `n` values. */
  predicate Written(kinds: seq<Kind>, values: seq<Val>, n: nat, fixed: seq<Byte>)
    requires Typed(kinds, values) && n <= |values|
  {
    && |fixed| == FixedSize(kinds) && Offset(kinds, n) <= |fixed|
    && (forall p :: Offset(kinds, n) <= p < |fixed| ==> fixed[p] == 0)
    && (forall d :: 0 <= d < n && kinds[d] != KStr ==> Holds(kinds, values[d], d, fixed))
  }

  predicate Holds(kinds: seq<Kind>, v: Val, d: nat, fixed: seq<Byte>)
    requires d < |kinds|
  {
    && Offset(kinds, d) + Width(kinds[d]) <= |fixed|
    && fixed[Offset(kinds, d)..Offset(kinds, d) + Width(kinds[d])] == Encode(v)
  }

  lemma WrittenNext(kinds: seq<Kind>, values: seq<Val>, n: nat, fixed: seq<Byte>)
    requires Typed(kinds, values) && n < |values| && Written(kinds, values, n, fixed)
    ensures kinds[n] == KStr ==> Written(kinds, values, n + 1, fixed)
    ensures kinds[n] != KStr ==> Offset(kinds, n) + |Encode(values[n])| <= |fixed|
    ensures kinds[n] != KStr ==> Written(kinds, values, n + 1, Overwrite(fixed, Offset(kinds, n), Encode(values[n])))
  {
    hide Offset, Overwrite, Holds, Encode, FixedSize, Width;
    ColumnPlace(kinds, n);
    NextOffset(kinds, n);
    if kinds[n] == KStr {
      assert Width(KStr) == 0 by { StringWidth(); }
    } else {
      EncodedWidth(values[n]);
      WrittenFixed(kinds, values, n, fixed);
    }
  }

  lemma StringWidth()
    ensures Width(KStr) == 0
  {
  }

  lemma EncodedWidth(v: Val)
    requires !v.VStr?
    ensures |Encode(v)| == Width(KindOf(v))
  {
  }

  /** One more fixed-size value. */
  lemma WrittenFixed(kinds: seq<Kind>, values: seq<Val>, n: nat, fixed: seq<Byte>)
    requires Typed(kinds, values) && n < |values| && Written(kinds, values, n, fixed) && kinds[n] != KStr
    requires Offset(kinds, n + 1) == Offset(kinds, n) + |Encode(values[n])| <= |fixed|
    ensures Written(kinds, values, n + 1, Overwrite(fixed, Offset(kinds, n), Encode(values[n])))
  {
    hide Offset, Overwrite, Holds, Encode, FixedSize, Width;
    EncodedWidth(values[n]);
    NextOffset(kinds, n);
    var at, b := Offset(kinds, n), Encode(values[n]);
    var fixed' := Overwrite(fixed, at, b);
    ZeroesLeft(fixed, at, b);
    HoldsNow(kinds, values[n], n, fixed);
    forall d | 0 <= d < n && kinds[d] != KStr ensures Holds(kinds, values[d], d, fixed') {
      HoldsStill(kinds, values[d], d, fixed, n, b);
    }
  }

  lemma NextOffset(kinds: seq<Kind>, n: nat)
    requires n < |kinds|
    ensures Offset(kinds, n + 1) == Offset(kinds, n) + Width(kinds[n])
  {
  }

  lemma ZeroesLeft(fixed: seq<Byte>, at: nat, b: seq<Byte>)
    requires at + |b| <= |fixed| && forall p :: at <= p < |fixed| ==> fixed[p] == 0
    ensures forall p :: at + |b| <= p < |fixed| ==> Overwrite(fixed, at, b)[p] == 0
  {
  }

  lemma HoldsNow(kinds: seq<Kind>, v: Val, n: nat, fixed: seq<Byte>)
    requires n < |kinds| && KindOf(v) == kinds[n] && !v.VStr? && Offset(kinds, n) + Width(kinds[n]) <= |fixed|
    ensures Holds(kinds, v, n, Overwrite(fixed, Offset(kinds, n), Encode(v)))
  {
  }

  lemma HoldsStill(kinds: seq<Kind>, v: Val, d: nat, fixed: seq<Byte>, n: nat, b: seq<Byte>)
    requires d < n < |kinds| && Holds(kinds, v, d, fixed) && Offset(kinds, n) + |b| <= |fixed|
    ensures Holds(kinds, v, d, Overwrite(fixed, Offset(kinds, n), b))
  {
    Apart(kinds, d, n);
    OverwriteAway(fixed, Offset(kinds, n), b, Offset(kinds, d), Offset(kinds, d) + Width(kinds[d]));
  }

  /** The strings among the values. */
  function StrVals(values: seq<Val>): seq<seq<Byte>>
  {
    if values == [] then []
    else StrVals(values[..|values| - 1]) + if values[|values| - 1].VStr? then [values[|values| - 1].s] else []
  }

  lemma {:induction false} StrValsPlaces(kinds: seq<Kind>, values: seq<Val>, n: nat)
    requires n <= |values| <= |kinds| && forall i :: 0 <= i < |values| ==> KindOf(values[i]) == kinds[i]
    ensures |StrVals(values[..n])| == VarIdx(kinds, n)
    ensures forall c :: 0 <= c < n && values[c].VStr? ==>
      VarIdx(kinds, c) < VarIdx(kinds, n) && StrVals(values[..n])[VarIdx(kinds, c)] == values[c].s
  {
    if n > 0 {
      StrValsPlaces(kinds, values, n - 1);
      assert values[..n][..n - 1] == values[..n - 1];
    }
  }

  function Empties(n: nat): (e: seq<seq<Byte>>)
    ensures |e| == n && forall i :: 0 <= i < n ==> e[i] == []
  {
    seq(n, _ => [])
  }

  /** All strings of a new row: those given, and empty ones for hidden columns. */
  function Stored(values: seq<Val>, hidden: nat): seq<seq<Byte>>
  {
    StrVals(values) + Empties(hidden)
  }

  /** One more hidden string ends where the last string does. */
  lemma StoreOneMore(values: seq<Val>, hidden: nat)
    requires Stored(values, hidden) != []
    ensures var s, t := Stored(values, hidden), Stored(values, hidden + 1);
      Packed(t) == Packed(s) && PackedEnds(t) == PackedEnds(s) + [PackedEnds(s)[|s| - 1]]
  {
    var s, t := Stored(values, hidden), Stored(values, hidden + 1);
    assert t == s + [[]] && t[..|s|] == s;
    PackedOk(s);
  }

  lemma ZeroBytes(k: Kind, b: seq<Byte>)
    requires k != KStr && |b| == Width(k) && forall i :: 0 <= i < |b| ==> b[i] == 0
    ensures Decode(k, b) == Zero(k)
  {
    ZeroNumber(b);
    hide FromBytes, Pow256;
  }

  lemma {:induction false} ZeroNumber(b: seq<Byte>)
    requires forall i :: 0 <= i < |b| ==> b[i] == 0
    ensures FromBytes(b) == 0
  {
    if b != [] {
      ZeroNumber(b[1..]);
    }
  }

  /** Hidden strings. */
  function HiddenStrings(kinds: seq<Kind>, visible: nat): nat
    requires visible <= |kinds|
  {
    if VarIdx(kinds, visible) <= VarCols(kinds) then VarCols(kinds) - VarIdx(kinds, visible) else 0
  }

  /** `Row::create` makes a row that says what it was given, and zero or nothing in hidden columns. */
  lemma Created(kinds: seq<Kind>, values: seq<Val>, fixed: seq<Byte>)
    requires Typed(kinds, values) && Written(kinds, values, |values|, fixed)
    ensures var s := Stored(values, HiddenStrings(kinds, |values|)); var r := Dense(fixed, Packed(s), PackedEnds(s));
      RepOk(kinds, r) && Fields(kinds, r) == Initial(kinds, values)
  {
    var s := Stored(values, HiddenStrings(kinds, |values|));
    var r := Dense(fixed, Packed(s), PackedEnds(s));
    StringsFit(kinds, values);
    PackedOk(s);
    assert RepOk(kinds, r);
    hide RepOk, Packed, PackedEnds, Stored, Fields, Decode;
    forall c | 0 <= c < |kinds| ensures Decode(kinds[c], BlobOf(kinds, r, c)) == Initial(kinds, values)[c] {
      if c < |values| {
        CreatedColumn(kinds, values, r, c);
      } else if kinds[c] == KStr {
        CreatedHiddenString(kinds, values, r, c);
      } else {
        CreatedHidden(kinds, values, r, c);
      }
    }
  }

  lemma StringsFit(kinds: seq<Kind>, values: seq<Val>)
    requires Typed(kinds, values)
    ensures |StrVals(values)| == VarIdx(kinds, |values|) <= VarCols(kinds)
    ensures |Stored(values, HiddenStrings(kinds, |values|))| == VarCols(kinds)
  {
    StrValsPlaces(kinds, values, |values|);
    assert values[..|values|] == values;
    if |values| < |kinds| {
      Apart(kinds, |values|, |kinds|);
    }
  }

  lemma CreatedHiddenString(kinds: seq<Kind>, values: seq<Val>, r: Rep, c: nat)
    requires Typed(kinds, values) && RepOk(kinds, r) && |values| <= c < |kinds| && kinds[c] == KStr
    requires var s := Stored(values, HiddenStrings(kinds, |values|));
      r.Dense? && r.part == Packed(s) && r.idx == PackedEnds(s)
    ensures Decode(kinds[c], BlobOf(kinds, r, c)) == Zero(kinds[c])
  {
    ColumnPlace(kinds, c);
    StringsFit(kinds, values);
    if |values| < c {
      Apart(kinds, |values|, c);
    }
    var s := Stored(values, HiddenStrings(kinds, |values|));
    assert s[VarIdx(kinds, c)] == [];
    hide Packed, PackedEnds, Stored;
    Unpack(s, VarIdx(kinds, c));
  }

  lemma CreatedHidden(kinds: seq<Kind>, values: seq<Val>, r: Rep, c: nat)
    requires Typed(kinds, values) && RepOk(kinds, r) && Written(kinds, values, |values|, r.fixed)
    requires |values| <= c < |kinds| && kinds[c] != KStr
    ensures Decode(kinds[c], BlobOf(kinds, r, c)) == Zero(kinds[c])
  {
    ColumnPlace(kinds, c);
    var at, w := Offset(kinds, c), Width(kinds[c]);
    HiddenPlace(kinds, |values|, c);
    ZeroSlice(r.fixed, Offset(kinds, |values|), at, at + w);
    hide Offset, Width, Decode, Zero, Written;
    ZeroBytes(kinds[c], r.fixed[at..at + w]);
  }

  lemma HiddenPlace(kinds: seq<Kind>, n: nat, c: nat)
    requires n <= c < |kinds|
    ensures Offset(kinds, n) <= Offset(kinds, c)
  {
  }

  lemma ZeroSlice(fixed: seq<Byte>, from: nat, lo: nat, hi: nat)
    requires from <= lo <= hi <= |fixed| && forall p :: from <= p < |fixed| ==> fixed[p] == 0
    ensures forall i :: 0 <= i < hi - lo ==> fixed[lo..hi][i] == 0
  {
  }

  lemma CreatedColumn(kinds: seq<Kind>, values: seq<Val>, r: Rep, c: nat)
    requires Typed(kinds, values) && RepOk(kinds, r) && Written(kinds, values, |values|, r.fixed) && c < |values|
    requires var s := Stored(values, HiddenStrings(kinds, |values|));
      r.Dense? && r.part == Packed(s) && r.idx == PackedEnds(s)
    ensures Decode(kinds[c], BlobOf(kinds, r, c)) == values[c]
  {
    ColumnPlace(kinds, c);
    DecodeEncode(values[c]);
    if values[c].VStr? {
      StoredAt(kinds, values, c);
      hide Encode, Decode, Packed, PackedEnds, Stored;
      Unpack(Stored(values, HiddenStrings(kinds, |values|)), VarIdx(kinds, c));
      StringBytes(values[c]);
    } else {
      hide Encode, Decode, Packed, PackedEnds, Stored;
      assert Holds(kinds, values[c], c, r.fixed);
    }
  }

  lemma StoredAt(kinds: seq<Kind>, values: seq<Val>, c: nat)
    requires Typed(kinds, values) && c < |values| && values[c].VStr?
    ensures var s := Stored(values, HiddenStrings(kinds, |values|));
      VarIdx(kinds, c) < |s| && s[VarIdx(kinds, c)] == values[c].s
  {
    StrValsPlaces(kinds, values, |values|);
    assert values[..|values|] == values;
  }

  lemma StringBytes(v: Val)
    requires v.VStr?
    ensures Encode(v) == v.s
  {
  }
}
