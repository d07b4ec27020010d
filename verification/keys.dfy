/** Multi-column keys and the orders the containers are built on:
    `SortedMultiKey::compare` and `table_row_pair::operator<`. */
module Keys {

  newtype byte = x: int | 0 <= x < 256

  /** One column of a key. Doubles are reals: NaN has no place in an ordered container. */
  datatype ColVal =
    | I32(i: int)
    | I64(l: int)
    | Dbl(d: real)
    | Str(s: seq<byte>)

  type Key = seq<ColVal>

  /** The identity (address) of a row, and of a table. */
  type RowId = nat
  type TableId = nat

  // ---------- column comparison ----------

  /** `memcmp` of two blocks of one length: the sign of the first difference. */
  function Memcmp(a: seq<byte>, b: seq<byte>): int
    requires |a| == |b|
  {
    if a == [] then 0
    else if a[0] < b[0] then -1
    else if a[0] > b[0] then 1
    else Memcmp(a[1..], b[1..])
  }

  /** `memcmp` over the common length, then the shorter string first. */
  function CompareStr(a: seq<byte>, b: seq<byte>): int
  {
    var n := if |a| < |b| then |a| else |b|;
    var c := Memcmp(a[..n], b[..n]);
    if c != 0 then c
    else if |a| < |b| then -1
    else if |a| > |b| then 1
    else 0
  }

  function KindRank(c: ColVal): int
  {
    match c
    case I32(_) => 0
    case I64(_) => 1
    case Dbl(_) => 2
    case Str(_) => 3
  }

  /** Columns of one key position have one type. Unlike kinds, which the schema check rejects
      before any comparison, are ranked so that the order is total without carrying a schema. */
  function CompareCol(a: ColVal, b: ColVal): int
  {
    match (a, b)
    case (I32(x), I32(y)) => if x < y then -1 else if x > y then 1 else 0
    case (I64(x), I64(y)) => if x < y then -1 else if x > y then 1 else 0
    case (Dbl(x), Dbl(y)) => if x < y then -1 else if x > y then 1 else 0
    case (Str(x), Str(y)) => CompareStr(x, y)
    case (_, _) => if KindRank(a) < KindRank(b) then -1 else 1
  }

  /** Lexicographic over the key columns. Keys of one schema have one length. */
  function Compare(a: Key, b: Key): int
  {
    if a == [] && b == [] then 0
    else if a == [] then -1
    else if b == [] then 1
    else
      var c := CompareCol(a[0], b[0]);
      if c != 0 then c else Compare(a[1..], b[1..])
  }

  predicate Less(a: Key, b: Key)
  {
    Compare(a, b) == -1
  }

  // ---------- the total order ----------

  /** Dictionary order, the reference for `CompareStr`. */
  function Dictionary(a: seq<byte>, b: seq<byte>): int
  {
    if a == [] && b == [] then 0
    else if a == [] then -1
    else if b == [] then 1
    else if a[0] != b[0] then (if a[0] < b[0] then -1 else 1)
    else Dictionary(a[1..], b[1..])
  }

  lemma {:induction false} CompareStrIsDictionary(a: seq<byte>, b: seq<byte>)
    ensures CompareStr(a, b) == Dictionary(a, b)
  {
    if a != [] && b != [] {
      var n := if |a| < |b| then |a| else |b|;
      assert a[..n][1..] == a[1..][..n - 1] && b[..n][1..] == b[1..][..n - 1];
      CompareStrIsDictionary(a[1..], b[1..]);
    }
  }

  lemma {:induction false} DictionaryAntisymmetric(a: seq<byte>, b: seq<byte>)
    ensures Dictionary(a, b) == -Dictionary(b, a)
    ensures -1 <= Dictionary(a, b) <= 1
    ensures Dictionary(a, b) == 0 <==> a == b
  {
    if a != [] && b != [] && a[0] == b[0] {
      DictionaryAntisymmetric(a[1..], b[1..]);
      assert a == [a[0]] + a[1..] && b == [b[0]] + b[1..];
    }
  }

  lemma {:induction false} DictionaryTransitive(a: seq<byte>, b: seq<byte>, c: seq<byte>)
    requires Dictionary(a, b) == -1 && Dictionary(b, c) == -1
    ensures Dictionary(a, c) == -1
  {
    if a != [] && b != [] && c != [] && a[0] == b[0] == c[0] {
      DictionaryTransitive(a[1..], b[1..], c[1..]);
    }
  }

  lemma ColAntisymmetric(a: ColVal, b: ColVal)
    ensures CompareCol(a, b) == -CompareCol(b, a)
    ensures -1 <= CompareCol(a, b) <= 1
    ensures CompareCol(a, b) == 0 <==> a == b
  {
    if a.Str? && b.Str? {
      CompareStrIsDictionary(a.s, b.s);
      CompareStrIsDictionary(b.s, a.s);
      DictionaryAntisymmetric(a.s, b.s);
    }
  }

  lemma ColTransitive(a: ColVal, b: ColVal, c: ColVal)
    requires CompareCol(a, b) == -1 && CompareCol(b, c) == -1
    ensures CompareCol(a, c) == -1
  {
    if a.Str? && b.Str? && c.Str? {
      CompareStrIsDictionary(a.s, b.s);
      CompareStrIsDictionary(b.s, c.s);
      CompareStrIsDictionary(a.s, c.s);
      DictionaryTransitive(a.s, b.s, c.s);
    }
  }

  /** Antisymmetric, three-valued, and zero exactly on equal keys. */
  lemma {:induction false} CompareAntisymmetric(a: Key, b: Key)
    ensures Compare(a, b) == -Compare(b, a)
    ensures -1 <= Compare(a, b) <= 1
    ensures Compare(a, b) == 0 <==> a == b
  {
    if a != [] && b != [] {
      ColAntisymmetric(a[0], b[0]);
      CompareAntisymmetric(a[1..], b[1..]);
      assert a == [a[0]] + a[1..] && b == [b[0]] + b[1..];
    }
  }

  lemma {:induction false} CompareTransitive(a: Key, b: Key, c: Key)
    requires Less(a, b) && Less(b, c)
    ensures Less(a, c)
  {
    if a != [] && b != [] && c != [] {
      ColAntisymmetric(a[0], b[0]);
      ColAntisymmetric(b[0], c[0]);
      if a[0] == b[0] && b[0] == c[0] {
        CompareTransitive(a[1..], b[1..], c[1..]);
      } else if a[0] != b[0] && b[0] != c[0] {
        ColTransitive(a[0], b[0], c[0]);
      }
    }
  }

  /** `Less` as a strict total order, in the two forms the containers use. */
  lemma LessThenNotLess(a: Key, b: Key, c: Key)
    requires Less(a, b) && !Less(c, b)
    ensures Less(a, c) && !Less(c, a)
  {
    CompareAntisymmetric(b, c);
    CompareAntisymmetric(a, c);
    if b != c {
      CompareTransitive(a, b, c);
    }
  }

  lemma NotLessTransitive(a: Key, b: Key, c: Key)
    requires !Less(b, a) && !Less(c, b)
    ensures !Less(c, a)
  {
    CompareAntisymmetric(a, b);
    CompareAntisymmetric(b, c);
    CompareAntisymmetric(a, c);
    if a != b && b != c {
      CompareTransitive(a, b, c);
    }
  }

  lemma LessTotal(a: Key, b: Key)
    ensures !Less(a, a)
    ensures !(Less(a, b) && Less(b, a))
    ensures !Less(a, b) && !Less(b, a) <==> a == b
  {
    CompareAntisymmetric(a, b);
    CompareAntisymmetric(a, a);
  }

  // ---------- the order, on the values themselves ----------

  /** The first place at which two keys of one schema differ. */
  predicate FirstDifference(a: Key, b: Key, i: nat)
  {
    i < |a| && i < |b| && a[..i] == b[..i] && a[i] != b[i]
  }

  /** A proper prefix, or a smaller byte at the first difference. */
  ghost predicate StrSmaller(a: seq<byte>, b: seq<byte>)
  {
    a < b || exists j :: 0 <= j < |a| && j < |b| && a[..j] == b[..j] && a[j] < b[j]
  }

  lemma {:induction false} DictionaryExact(a: seq<byte>, b: seq<byte>)
    ensures Dictionary(a, b) == -1 <==> StrSmaller(a, b)
  {
    if a != [] && b != [] && a[0] == b[0] {
      DictionaryExact(a[1..], b[1..]);
      hide StrSmaller;
      if StrSmaller(a[1..], b[1..]) {
        SmallerGrows(a, b);
      }
      if StrSmaller(a, b) {
        SmallerShrinks(a, b);
      }
    } else if a != [] && b != [] {
      assert a[..0] == b[..0];
    }
  }

  lemma SmallerGrows(a: seq<byte>, b: seq<byte>)
    requires a != [] && b != [] && a[0] == b[0] && StrSmaller(a[1..], b[1..])
    ensures StrSmaller(a, b)
  {
    assert a == [a[0]] + a[1..] && b == [b[0]] + b[1..];
    if !(a[1..] < b[1..]) {
      var j :| 0 <= j < |a[1..]| && j < |b[1..]| && a[1..][..j] == b[1..][..j] && a[1..][j] < b[1..][j];
      assert a[..j + 1] == [a[0]] + a[1..][..j] && b[..j + 1] == [b[0]] + b[1..][..j];
    }
  }

  lemma SmallerShrinks(a: seq<byte>, b: seq<byte>)
    requires a != [] && b != [] && a[0] == b[0] && StrSmaller(a, b)
    ensures StrSmaller(a[1..], b[1..])
  {
    if !(a < b) {
      var j :| 0 <= j < |a| && j < |b| && a[..j] == b[..j] && a[j] < b[j];
      assert a[1..][..j - 1] == a[..j][1..] && b[1..][..j - 1] == b[..j][1..];
    }
  }

  lemma {:induction false} CompareAtDifference(a: Key, b: Key, i: nat)
    requires FirstDifference(a, b, i)
    ensures Compare(a, b) == CompareCol(a[i], b[i])
  {
    ColAntisymmetric(a[0], b[0]);
    if i > 0 {
      assert a[..i][0] == a[0] && b[..i][0] == b[0];
      assert a[1..][..i - 1] == a[..i][1..] && b[1..][..i - 1] == b[..i][1..];
      CompareAtDifference(a[1..], b[1..], i - 1);
    }
  }

  /** What a comparison answers: the order of the numbers or of the strings at the first difference. */
  ghost predicate Ordered(a: Key, b: Key, r: int)
  {
    && -1 <= r <= 1 && (r == 0 <==> a == b)
    && (forall i: nat :: FirstDifference(a, b, i) ==>
          && (a[i].I32? && b[i].I32? ==> (r == -1 <==> a[i].i < b[i].i))
          && (a[i].I64? && b[i].I64? ==> (r == -1 <==> a[i].l < b[i].l))
          && (a[i].Dbl? && b[i].Dbl? ==> (r == -1 <==> a[i].d < b[i].d))
          && (a[i].Str? && b[i].Str? ==> (r == -1 <==> StrSmaller(a[i].s, b[i].s))))
  }

  lemma CompareExact(a: Key, b: Key)
    ensures Ordered(a, b, Compare(a, b))
  {
    CompareAntisymmetric(a, b);
    hide Compare, CompareStr, StrSmaller;
    forall i: nat | FirstDifference(a, b, i) ensures
      && (a[i].I32? && b[i].I32? ==> (Compare(a, b) == -1 <==> a[i].i < b[i].i))
      && (a[i].I64? && b[i].I64? ==> (Compare(a, b) == -1 <==> a[i].l < b[i].l))
      && (a[i].Dbl? && b[i].Dbl? ==> (Compare(a, b) == -1 <==> a[i].d < b[i].d))
      && (a[i].Str? && b[i].Str? ==> (Compare(a, b) == -1 <==> StrSmaller(a[i].s, b[i].s)))
    {
      CompareAtDifference(a, b, i);
      if a[i].Str? && b[i].Str? {
        CompareStrIsDictionary(a[i].s, b[i].s);
        DictionaryExact(a[i].s, b[i].s);
      }
    }
  }

  /** The column loop of `SortedMultiKey::compare`. */
  method CompareKeys(a: Key, b: Key) returns (r: int)
    requires |a| == |b|
    ensures r == Compare(a, b) && Ordered(a, b, r)
  {
    CompareExact(a, b);
    hide Ordered;
    for i := 0 to |a|
      invariant Compare(a, b) == Compare(a[i..], b[i..])
    {
      var c := CompareCol(a[i], b[i]);
      if c != 0 {
        return c;
      }
    }
    return 0;
  }

  // ---------- staged rows: table_row_pair ----------

  /** A row position in the staged-insert set: a real row's key, or one of the two sentinels. */
  datatype Place = RowMin | At(key: Key) | RowMax

  datatype Pair = Pair(table: TableId, place: Place)

  /** `table_row_pair::operator<`, branch for branch. */
  predicate PairLess(a: Pair, b: Pair)
  {
    if a.table != b.table then a.table < b.table
    else if a.place.RowMin? then !b.place.RowMin?
    else if a.place.RowMax? then false
    else if b.place.RowMin? then false
    else if b.place.RowMax? then true
    else Less(a.place.key, b.place.key)
  }

  lemma PairStrict(a: Pair, b: Pair)
    ensures !PairLess(a, a)
    ensures !(PairLess(a, b) && PairLess(b, a))
    ensures !PairLess(a, b) && !PairLess(b, a) <==> a == b
  {
    if a.place.At? && b.place.At? {
      LessTotal(a.place.key, b.place.key);
    }
    if a.place.At? {
      LessTotal(a.place.key, a.place.key);
    }
  }

  lemma PairNotLessTransitive(a: Pair, b: Pair, c: Pair)
    requires !PairLess(b, a) && !PairLess(c, b)
    ensures !PairLess(c, a)
  {
    if a.table == b.table == c.table && a.place.At? && b.place.At? && c.place.At? {
      NotLessTransitive(a.place.key, b.place.key, c.place.key);
    }
  }

  lemma PairLessTransitive(a: Pair, b: Pair, c: Pair)
    requires PairLess(a, b) && PairLess(b, c)
    ensures PairLess(a, c)
  {
    if a.table == b.table == c.table && a.place.At? && b.place.At? && c.place.At? {
      CompareTransitive(a.place.key, b.place.key, c.place.key);
    }
  }

  /** The sentinels bracket exactly the rows of their own table. */
  lemma SentinelsBracketTable(t: TableId, p: Pair)
    requires p.place.At?
    ensures PairLess(Pair(t, RowMin), p) && PairLess(p, Pair(t, RowMax)) <==> p.table == t
    ensures !PairLess(p, Pair(t, RowMin)) && !PairLess(Pair(t, RowMax), p) <==> p.table == t
  {
  }
}
