/** `ChronosRow`: columns with their old versions, read at any version. */
module Chronos {
  import opened RowLayout

  datatype Stamp = Stamp(ver: nat, val: Val)

  predicate Ascending(s: seq<Stamp>)
  {
    forall i, j :: 0 <= i < j < |s| ==> s[i].ver < s[j].ver
  }

  predicate Has(s: seq<Stamp>, ver: nat)
  {
    exists i :: 0 <= i < |s| && s[i].ver == ver
  }

  /** `std::map::insert`: a version that is there already stays. */
  function Put(s: seq<Stamp>, e: Stamp): seq<Stamp>
  {
    if s == [] || e.ver < s[0].ver then [e] + s
    else if e.ver == s[0].ver then s
    else [s[0]] + Put(s[1..], e)
  }

  /** What the stamps say, as a map. */
  function Dict(s: seq<Stamp>): map<nat, Val>
  {
    if s == [] then map[] else Dict(s[1..])[s[0].ver := s[0].val]
  }

  lemma DictMember(s: seq<Stamp>)
    requires Ascending(s)
    ensures forall i :: 0 <= i < |s| ==> s[i].ver in Dict(s) && Dict(s)[s[i].ver] == s[i].val
    ensures forall v :: v in Dict(s) <==> Has(s, v)
  {
    hide Dict;
    forall i | 0 <= i < |s| ensures s[i].ver in Dict(s) && Dict(s)[s[i].ver] == s[i].val {
      DictAt(s, i);
    }
    forall v | v in Dict(s) ensures Has(s, v) {
      DictHas(s, v);
    }
  }

  lemma {:induction false} DictAt(s: seq<Stamp>, i: nat)
    requires Ascending(s) && i < |s|
    ensures s[i].ver in Dict(s) && Dict(s)[s[i].ver] == s[i].val
  {
    if i > 0 {
      DictAt(s[1..], i - 1);
    }
  }

  lemma {:induction false} DictHas(s: seq<Stamp>, v: nat)
    requires v in Dict(s)
    ensures Has(s, v)
  {
    if v != s[0].ver {
      DictHas(s[1..], v);
      var i :| 0 <= i < |s[1..]| && s[1..][i].ver == v;
      assert s[i + 1].ver == v;
    }
  }

  /** Insertion keeps the order... */
  lemma {:induction false} PutAscending(s: seq<Stamp>, e: Stamp)
    requires Ascending(s)
    ensures Ascending(Put(s, e))
  {
    if s != [] && s[0].ver < e.ver {
      PutAscending(s[1..], e);
      PutBounds(s[1..], e, s[0].ver);
    }
  }

  /** ... and adds exactly one version, unless it is there. */
  lemma {:induction false} PutExact(s: seq<Stamp>, e: Stamp)
    requires Ascending(s)
    ensures Dict(Put(s, e)) == if e.ver in Dict(s) then Dict(s) else Dict(s)[e.ver := e.val]
  {
    if s == [] || e.ver < s[0].ver {
      NotYet(s, e.ver);
      assert ([e] + s)[1..] == s;
    } else if s[0].ver < e.ver {
      PutExact(s[1..], e);
      assert Put(s, e)[1..] == Put(s[1..], e);
    }
  }

  lemma NotYet(s: seq<Stamp>, ver: nat)
    requires Ascending(s) && (s != [] ==> ver < s[0].ver)
    ensures ver !in Dict(s)
  {
  }

  lemma {:induction false} PutBounds(s: seq<Stamp>, e: Stamp, low: nat)
    requires low < e.ver && forall i :: 0 <= i < |s| ==> low < s[i].ver
    ensures forall i :: 0 <= i < |Put(s, e)| ==> low < Put(s, e)[i].ver
  {
    if s != [] && s[0].ver < e.ver {
      PutBounds(s[1..], e, low);
    }
  }

  // ---------- one column ----------

  /** The current value and version, and the older ones. */
  datatype Col = Col(val: Val, wver: nat, past: seq<Stamp>)

  /** Every version ever written, with its value: the initial value counts as version zero. */
  function History(c: Col): map<nat, Val>
  {
    Dict(c.past)[c.wver := c.val]
  }

  predicate ColOk(c: Col)
  {
    Ascending(c.past) && (forall i :: 0 <= i < |c.past| ==> c.past[i].ver <= c.wver) && 0 in History(c)
  }

  /** The current version is not among the old ones. */
  predicate Clean(c: Col)
  {
    c.wver !in Dict(c.past)
  }

  /** `update_internal`. */
  function Update(c: Col, ver: nat, v: Val): Col
  {
    if ver > c.wver then Col(v, ver, Put(c.past, Stamp(c.wver, c.val)))
    else c.(past := Put(c.past, Stamp(ver, v)))
  }

  /** The greatest version at or below. */
  ghost predicate IsFloor(h: map<nat, Val>, ver: nat, at: nat)
  {
    at in h && at <= ver && forall k :: k in h && k <= ver ==> k <= at
  }

  /** The reverse search through the old versions. */
  function Search(s: seq<Stamp>, ver: nat): (v: Val)
    requires s != [] && s[0].ver <= ver
  {
    if s[|s| - 1].ver <= ver then s[|s| - 1].val else Search(s[..|s| - 1], ver)
  }

  /** The search has a place to end: the current version is low enough, or some old one is. */
  predicate Readable(c: Col, ver: nat)
  {
    c.wver <= ver || (c.past != [] && c.past[0].ver <= ver)
  }

  function Read(c: Col, ver: nat): Val
    requires Readable(c, ver)
  {
    if ver >= c.wver then c.val else Search(c.past, ver)
  }

  lemma {:induction false} SearchFinds(s: seq<Stamp>, ver: nat) returns (i: nat)
    requires Ascending(s) && s != [] && s[0].ver <= ver
    ensures i < |s| && s[i].ver <= ver && (forall j :: i < j < |s| ==> ver < s[j].ver) && Search(s, ver) == s[i].val
  {
    if s[|s| - 1].ver <= ver {
      i := |s| - 1;
    } else {
      i := SearchFinds(s[..|s| - 1], ver);
    }
  }

  /** Zero is always among the versions, so the search has a place to end. */
  lemma ReadDefined(c: Col, ver: nat)
    requires ColOk(c)
    ensures Readable(c, ver)
  {
    DictMember(c.past);
    if ver < c.wver {
      assert 0 in Dict(c.past);
      var i :| 0 <= i < |c.past| && c.past[i].ver == 0;
    }
  }

  /** A read answers with the value of the greatest version at or below. */
  lemma ReadFloor(c: Col, ver: nat) returns (at: nat)
    requires ColOk(c)
    ensures IsFloor(History(c), ver, at)
    ensures Readable(c, ver)
    ensures Read(c, ver) == History(c)[at]
  {
    ReadDefined(c, ver);
    if ver >= c.wver {
      at := c.wver;
      NoneAbove(c);
    } else {
      at := FloorOfPast(c, ver);
    }
  }

  lemma NoneAbove(c: Col)
    requires ColOk(c)
    ensures forall k :: k in History(c) ==> k <= c.wver
  {
    DictMember(c.past);
  }

  lemma FloorOfPast(c: Col, ver: nat) returns (at: nat)
    requires ColOk(c) && ver < c.wver && Readable(c, ver)
    ensures IsFloor(History(c), ver, at) && Search(c.past, ver) == History(c)[at]
  {
    var i := SearchFinds(c.past, ver);
    DictMember(c.past);
    hide Search, Dict;
    at := c.past[i].ver;
    forall k | k in History(c) && k <= ver ensures k <= at {
      var j :| 0 <= j < |c.past| && c.past[j].ver == k;
      assert j <= i;
    }
  }

  lemma UpdateOk(c: Col, ver: nat, v: Val)
    requires ColOk(c)
    ensures ColOk(Update(c, ver, v))
  {
    var e := if ver > c.wver then Stamp(c.wver, c.val) else Stamp(ver, v);
    PutAscending(c.past, e);
    PutExact(c.past, e);
    PutBelow(c.past, e, if ver > c.wver then ver else c.wver);
    hide Dict, Put, Ascending;
  }

  /** A write changes the history by that write exactly when the version was free or had the value, and
      the version it supersedes was not written twice with different values. */
  lemma UpdateExact(c: Col, ver: nat, v: Val)
    requires ColOk(c)
    ensures History(Update(c, ver, v)) == History(c)[ver := v] <==>
      if ver > c.wver then c.wver in Dict(c.past) ==> Dict(c.past)[c.wver] == c.val
      else ver in History(c) ==> History(c)[ver] == v
  {
    var e := if ver > c.wver then Stamp(c.wver, c.val) else Stamp(ver, v);
    PutExact(c.past, e);
    hide Put, Dict, Ascending;
    var h, g := History(Update(c, ver, v)), History(c)[ver := v];
    if ver > c.wver {
      assert h == g ==> h[c.wver] == g[c.wver];
    } else {
      assert h == g ==> h[ver] == g[ver];
    }
  }

  /** A write of a version not seen before adds exactly that version. */
  lemma UpdateAdds(c: Col, ver: nat, v: Val)
    requires ColOk(c) && Clean(c) && ver !in History(c)
    ensures ColOk(Update(c, ver, v)) && Clean(Update(c, ver, v))
    ensures History(Update(c, ver, v)) == History(c)[ver := v]
  {
    UpdateOk(c, ver, v);
    UpdateExact(c, ver, v);
    PutExact(c.past, if ver > c.wver then Stamp(c.wver, c.val) else Stamp(ver, v));
  }

  lemma {:induction false} PutBelow(s: seq<Stamp>, e: Stamp, high: nat)
    requires e.ver <= high && forall i :: 0 <= i < |s| ==> s[i].ver <= high
    ensures forall i :: 0 <= i < |Put(s, e)| ==> Put(s, e)[i].ver <= high
  {
    if s != [] && s[0].ver < e.ver {
      PutBelow(s[1..], e, high);
    }
  }

  /** A version can be read back as written exactly when it was not taken by another value. */
  lemma WriteReadBack(c: Col, ver: nat, v: Val)
    requires ColOk(c)
    ensures var c' := Update(c, ver, v);
      && Readable(c', ver)
      && (Read(c', ver) == v <==> (ver in History(c) ==> History(c)[ver] == v))
  {
    var c' := Update(c, ver, v);
    UpdateOk(c, ver, v);
    ReadDefined(c', ver);
    DictMember(c.past);
    hide Search, Dict, Put, Ascending;
    if ver < c.wver {
      if ver in History(c) {
        PutTaken(c.past, Stamp(ver, v));
        ReadWritten(c, ver);
      } else {
        UpdateExact(c, ver, v);
        ReadWritten(c', ver);
      }
    }
  }

  /** A version that was written is read as recorded. */
  lemma ReadWritten(c: Col, ver: nat)
    requires ColOk(c) && ver in History(c)
    ensures Readable(c, ver)
    ensures Read(c, ver) == History(c)[ver]
  {
    var at := ReadFloor(c, ver);
  }

  lemma {:induction false} PutTaken(s: seq<Stamp>, e: Stamp)
    requires Ascending(s) && Has(s, e.ver)
    ensures Put(s, e) == s
  {
    var i :| 0 <= i < |s| && s[i].ver == e.ver;
    if i > 0 {
      assert s[1..][i - 1].ver == e.ver;
      PutTaken(s[1..], e);
    }
  }

  /** Writing the current version twice: the first value is read until a newer version arrives, and
      the second one afterwards. */
  lemma TwiceWritten(init: Val, a: Val, b: Val, c: Val)
    requires a != b
    ensures var once := Update(Col(init, 0, []), 5, a);
            var twice := Update(once, 5, b);
      Read(twice, 5) == a && Read(Update(twice, 6, c), 5) == b
  {
    var once := Update(Col(init, 0, []), 5, a);
    var twice := Update(once, 5, b);
    var zero, five := [Stamp(0, init)], [Stamp(0, init), Stamp(5, b)];
    assert zero[1..] == [] && five[1..] == [Stamp(5, b)];
    assert Put(zero, Stamp(5, b)) == five && Put(five, Stamp(5, a)) == five;
    assert once == Col(a, 5, [Stamp(0, init)]);
    assert twice.past == [Stamp(0, init), Stamp(5, b)];
    var last := Update(twice, 6, c);
    assert last.past == [Stamp(0, init), Stamp(5, b)];
  }

  // ---------- copies ----------

  /** What `copy_into` takes along of a column: the value and its version, but no old versions. */
  function CopyCol(c: Col): Col
  {
    c.(past := [])
  }

  /** A copy can be read at a version if and only if it is not below the copied one, and then reads as
      the original; the original can be read at every version. */
  lemma CopyReads(c: Col, ver: nat)
    requires ColOk(c)
    ensures Readable(c, ver)
    ensures Readable(CopyCol(c), ver) <==> c.wver <= ver
    ensures Readable(CopyCol(c), ver) ==> Read(CopyCol(c), ver) == Read(c, ver)
  {
    ReadDefined(c, ver);
  }

  // ---------- any sequence of writes ----------

  function UpdateAll(c: Col, log: seq<Stamp>): Col
  {
    if log == [] then c else Update(UpdateAll(c, log[..|log| - 1]), log[|log| - 1].ver, log[|log| - 1].val)
  }

  /** Pairwise distinct positive versions. */
  predicate Distinct(log: seq<Stamp>)
  {
    && (forall i :: 0 <= i < |log| ==> log[i].ver > 0)
    && (forall i, j :: 0 <= i < j < |log| ==> log[i].ver != log[j].ver)
  }

  /** The reference: the initial value and the writes, in no order. */
  ghost predicate IsRecord(h: map<nat, Val>, init: Val, log: seq<Stamp>)
  {
    forall k, v :: Says(h, k, v) <==> (k == 0 && v == init) || Stamp(k, v) in log
  }

  predicate Says(h: map<nat, Val>, k: nat, v: Val)
  {
    k in h && h[k] == v
  }

  lemma {:induction false} RunRecords(init: Val, log: seq<Stamp>)
    requires Distinct(log)
    ensures ColOk(UpdateAll(Col(init, 0, []), log)) && Clean(UpdateAll(Col(init, 0, []), log))
    ensures IsRecord(History(UpdateAll(Col(init, 0, []), log)), init, log)
  {
    if log != [] {
      var n := |log| - 1;
      RunRecords(init, log[..n]);
      var c, e := UpdateAll(Col(init, 0, []), log[..n]), log[n];
      NewVersion(History(c), init, log);
      UpdateAdds(c, e.ver, e.val);
      assert log == log[..n] + [e];
      RecordGrows(History(c), init, log);
    }
  }

  lemma NewVersion(h: map<nat, Val>, init: Val, log: seq<Stamp>)
    requires Distinct(log) && log != [] && IsRecord(h, init, log[..|log| - 1])
    ensures log[|log| - 1].ver !in h
  {
    var e, init' := log[|log| - 1], log[..|log| - 1];
    assert e.ver in h ==> Says(h, e.ver, h[e.ver]);
    assert forall d :: d in init' ==> d.ver != e.ver;
  }

  lemma RecordGrows(h: map<nat, Val>, init: Val, log: seq<Stamp>)
    requires Distinct(log) && log != [] && IsRecord(h, init, log[..|log| - 1]) && log[|log| - 1].ver !in h
    ensures IsRecord(h[log[|log| - 1].ver := log[|log| - 1].val], init, log)
  {
    var n := |log| - 1;
    var e := log[n];
    var h' := h[e.ver := e.val];
    assert log == log[..n] + [e];
    forall k, v ensures Says(h', k, v) <==> (k == 0 && v == init) || Stamp(k, v) in log {
      assert Says(h, k, v) <==> (k == 0 && v == init) || Stamp(k, v) in log[..n];
      assert Stamp(k, v) in log <==> Stamp(k, v) in log[..n] || Stamp(k, v) == e;
    }
  }

  lemma RecordUnique(h: map<nat, Val>, g: map<nat, Val>, init: Val, log: seq<Stamp>)
    requires IsRecord(h, init, log) && IsRecord(g, init, log)
    ensures h == g
  {
    forall k | k in h ensures k in g && g[k] == h[k] {
      assert Says(h, k, h[k]);
      assert Says(g, k, h[k]);
    }
    forall k | k in g ensures k in h {
      assert Says(g, k, g[k]);
      assert Says(h, k, g[k]);
    }
  }

  /** Whatever the order of arrival, a read returns the value of the greatest version at or below the
      one asked for, or the initial value. */
  lemma AnyOrder(init: Val, log: seq<Stamp>, ver: nat)
    requires Distinct(log)
    ensures var c := UpdateAll(Col(init, 0, []), log);
      && Readable(c, ver)
      && ((Read(c, ver) == init && forall e :: e in log ==> ver < e.ver)
          || exists e :: e in log && e.ver <= ver && Read(c, ver) == e.val &&
               forall d :: d in log && d.ver <= ver ==> d.ver <= e.ver)
  {
    RunRecords(init, log);
    var c := UpdateAll(Col(init, 0, []), log);
    var at := ReadFloor(c, ver);
    var h := History(c);
    assert Says(h, at, h[at]);
    forall d | d in log && d.ver <= ver ensures d.ver <= at {
      assert d == Stamp(d.ver, d.val);
      assert Says(h, d.ver, d.val);
    }
    if Stamp(at, h[at]) in log {
      assert Stamp(at, h[at]).ver <= ver;
    } else {
      assert at == 0 && h[at] == init;
    }
  }

  /** Two orders of arrival cannot be told apart. */
  lemma OrderIrrelevant(init: Val, log: seq<Stamp>, log': seq<Stamp>, ver: nat)
    requires Distinct(log) && multiset(log) == multiset(log')
    ensures Distinct(log')
    ensures var c, c' := UpdateAll(Col(init, 0, []), log), UpdateAll(Col(init, 0, []), log');
      && Readable(c, ver)
      && Readable(c', ver)
      && Read(c, ver) == Read(c', ver)
  {
    StillDistinct(log, log');
    RunRecords(init, log);
    RunRecords(init, log');
    var c, c' := UpdateAll(Col(init, 0, []), log), UpdateAll(Col(init, 0, []), log');
    assert IsRecord(History(c'), init, log) by {
      forall e ensures e in log <==> e in log' {
        assert e in multiset(log) <==> e in multiset(log');
      }
    }
    RecordUnique(History(c), History(c'), init, log);
    var at := ReadFloor(c, ver);
    var at' := ReadFloor(c', ver);
  }

  lemma StillDistinct(log: seq<Stamp>, log': seq<Stamp>)
    requires Distinct(log) && multiset(log) == multiset(log')
    ensures Distinct(log')
  {
    forall i | 0 <= i < |log'| ensures log'[i].ver > 0 {
      assert log'[i] in multiset(log);
    }
    forall i, j | 0 <= i < j < |log'| ensures log'[i].ver != log'[j].ver {
      assert log'[i] in multiset(log) && log'[j] in multiset(log);
      if log'[i] == log'[j] {
        TwoOccurrences(log', i, j);
        OneOccurrence(log, log'[i]);
        assert false;
      }
    }
  }

  lemma TwoOccurrences(s: seq<Stamp>, i: nat, j: nat)
    requires i < j < |s| && s[i] == s[j]
    ensures multiset(s)[s[i]] >= 2
  {
    assert s == s[..i] + [s[i]] + s[i + 1..j] + [s[j]] + s[j + 1..];
  }

  lemma {:induction false} OneOccurrence(s: seq<Stamp>, e: Stamp)
    requires Distinct(s)
    ensures multiset(s)[e] <= 1
  {
    if s != [] {
      OneOccurrence(s[1..], e);
      assert s == [s[0]] + s[1..];
      if s[0] == e {
        assert e !in s[1..];
      }
    }
  }

  // ---------- the row ----------

  class ChronosRow {
    var vals: seq<Val>                   // the current values
    var wver: seq<nat>
    var pastValues: seq<seq<Stamp>>

    ghost function ColAt(c: nat): Col
      requires c < |vals| == |wver| == |pastValues|
      reads this
    {
      Col(vals[c], wver[c], pastValues[c])
    }

    ghost predicate Valid()
      reads this
    {
      |vals| == |wver| == |pastValues| && forall c :: 0 <= c < |vals| ==> ColOk(ColAt(c))
    }

    /** `create` and `init_ver`. */
    constructor (values: seq<Val>)
      ensures Valid() && vals == values && forall c :: 0 <= c < |vals| ==> ColAt(c) == Col(values[c], 0, [])
    {
      vals := values;
      wver := seq(|values|, _ => 0);
      pastValues := seq(|values|, _ => []);
    }

    /** `update_with_ver`. */
    method UpdateWithVer(c: nat, v: Val, ver: nat)
      requires Valid() && c < |vals|
      modifies this
      ensures Valid() && |vals| == |old(vals)|
      ensures ColAt(c) == Update(old(ColAt(c)), ver, v)
      ensures forall d :: 0 <= d < |vals| && d != c ==> ColAt(d) == old(ColAt(d))
    {
      UpdateOk(ColAt(c), ver, v);
      hide ColOk, Put;
      ghost var now := Update(ColAt(c), ver, v);
      var current := wver[c];
      if ver > current {
        pastValues := pastValues[c := Put(pastValues[c], Stamp(current, vals[c]))];
        vals := vals[c := v];
        wver := wver[c := ver];
      } else {
        pastValues := pastValues[c := Put(pastValues[c], Stamp(ver, v))];
      }
      assert ColAt(c) == now;
      assert forall d :: 0 <= d < |vals| && d != c ==> ColAt(d) == old(ColAt(d));
    }

    /** `copy_into`. */
    method Copy() returns (r: ChronosRow)
      requires Valid()
      ensures fresh(r) && |r.vals| == |r.wver| == |r.pastValues| == |vals|
      ensures forall c :: 0 <= c < |vals| ==> r.ColAt(c) == CopyCol(ColAt(c))
    {
      r := new ChronosRow(vals);
      r.wver := wver;
    }

    /** `get_column_by_ver`: the search never leaves the old versions. */
    method GetColumnByVer(c: nat, ver: nat) returns (v: Val, at: nat)
      requires Valid() && c < |vals|
      ensures IsFloor(History(ColAt(c)), ver, at) && v == History(ColAt(c))[at]
    {
      ghost var col := ColAt(c);
      ReadDefined(col, ver);
      DictMember(col.past);
      if ver >= wver[c] {
        v, at := vals[c], wver[c];
      } else {
        var i := |pastValues[c]| - 1;
        while pastValues[c][i].ver > ver
          invariant 0 <= i < |pastValues[c]|
          invariant forall j :: i < j < |pastValues[c]| ==> ver < pastValues[c][j].ver
          decreases i
        {
          i := i - 1;
        }
        v, at := pastValues[c][i].val, pastValues[c][i].ver;
      }
    }
  }
}
