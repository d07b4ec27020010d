/** Ordered containers: positions found by `lower_bound` and `upper_bound`, and key intervals. */
module Bounds {
  import opened Keys

  /** The length of the longest prefix in which everything is `before` the probe. */
  function PartitionPoint<T>(s: seq<T>, before: T -> bool): (n: nat)
    ensures n <= |s|
    ensures forall i :: 0 <= i < n ==> before(s[i])
    ensures n < |s| ==> !before(s[n])
  {
    if s == [] || !before(s[0]) then 0 else 1 + PartitionPoint(s[1..], before)
  }

  ghost predicate Partitioned<T>(s: seq<T>, before: T -> bool)
  {
    forall i, j :: 0 <= i < j < |s| && before(s[j]) ==> before(s[i])
  }

  lemma PartitionSplits<T>(s: seq<T>, before: T -> bool, i: nat)
    requires Partitioned(s, before) && i < |s|
    ensures i < PartitionPoint(s, before) <==> before(s[i])
  {
  }

  /** A search tree: the shape of `std::map`, `std::multimap` and `std::multiset`. */
  datatype Tree<T> = Nil | Node(left: Tree<T>, at: T, right: Tree<T>)

  /** The elements in the order of iteration. */
  function Flat<T>(tree: Tree<T>): seq<T>
  {
    match tree
    case Nil => []
    case Node(l, x, r) => Flat(l) + [x] + Flat(r)
  }

  /** The descent of `lower_bound` and `upper_bound`: to the right of everything before the probe. */
  function Descend<T>(tree: Tree<T>, before: T -> bool): (n: nat)
    ensures n <= |Flat(tree)|
  {
    match tree
    case Nil => 0
    case Node(l, x, r) => if before(x) then |Flat(l)| + 1 + Descend(r, before) else Descend(l, before)
  }

  /** A place at which `before` stops to hold. */
  ghost predicate StopsAt<T>(s: seq<T>, before: T -> bool, n: nat)
  {
    n <= |s| && (n > 0 ==> before(s[n - 1])) && (n < |s| ==> !before(s[n]))
  }

  lemma StopsInside<T>(a: seq<T>, x: T, b: seq<T>, before: T -> bool, n: nat)
    ensures before(x) && StopsAt(b, before, n) ==> StopsAt(a + [x] + b, before, |a| + 1 + n)
    ensures !before(x) && StopsAt(a, before, n) ==> StopsAt(a + [x] + b, before, n)
  {
    var s := a + [x] + b;
    assert s[|a|] == x;
    assert n < |b| ==> s[|a| + 1 + n] == b[n];
    assert 0 < n <= |b| ==> s[|a| + n] == b[n - 1];
  }

  /** In a tree of any shape, in order or not, the descent ends at such a place. */
  lemma {:induction false} DescentStops<T>(tree: Tree<T>, before: T -> bool)
    ensures StopsAt(Flat(tree), before, Descend(tree, before))
  {
    match tree
    case Nil =>
    case Node(l, x, r) =>
      hide StopsAt;
      DescentStops(l, before);
      DescentStops(r, before);
      StopsInside(Flat(l), x, Flat(r), before, Descend(if before(x) then r else l, before));
  }

  /** If nothing is out of order for this probe, every shape leads to the one place. */
  lemma DescentFinds<T>(tree: Tree<T>, before: T -> bool)
    requires Partitioned(Flat(tree), before)
    ensures Descend(tree, before) == PartitionPoint(Flat(tree), before)
  {
    DescentStops(tree, before);
    var n, p := Descend(tree, before), PartitionPoint(Flat(tree), before);
    if n > 0 {
      PartitionSplits(Flat(tree), before, n - 1);
    }
    if n < |Flat(tree)| {
      PartitionSplits(Flat(tree), before, n);
    }
  }

  /** The five query forms: `all`, `query`, `query_lt`, `query_gt` and `query_in`, ends excluded. */
  datatype Interval =
    | All
    | Exactly(k: Key)
    | Below(k: Key)
    | Above(k: Key)
    | Between(lo: Key, hi: Key)
  {
    predicate Contains(key: Key) {
      match this
      case All => true
      case Exactly(k) => key == k
      case Below(k) => Less(key, k)
      case Above(k) => Less(k, key)
      case Between(lo, hi) => Less(lo, key) && Less(key, hi)
    }

    /** `query_in` is only defined on a proper interval; its caller verifies `low < high`. */
    predicate Proper() {
      this.Between? ==> Less(lo, hi)
    }

    /** Keys before the query's first position: `begin()`, `lower_bound(k)` or `upper_bound(k)`. */
    predicate BeforeBegin(key: Key) {
      match this
      case All => false
      case Exactly(k) => Less(key, k)
      case Below(_) => false
      case Above(k) => !Less(k, key)
      case Between(lo, _) => !Less(lo, key)
    }

    /** Keys before the query's last position: `end()`, `upper_bound(k)` or `lower_bound(k)`. */
    predicate BeforeEnd(key: Key) {
      match this
      case All => true
      case Exactly(k) => !Less(k, key)
      case Below(k) => Less(key, k)
      case Above(_) => true
      case Between(_, hi) => Less(key, hi)
    }
  }

  lemma CutsBound(iv: Interval, key: Key)
    ensures iv.Contains(key) <==> !iv.BeforeBegin(key) && iv.BeforeEnd(key)
  {
    if iv.Exactly? {
      LessTotal(key, iv.k);
    }
  }

  /** Below, at and above a key are three ways apart, and an open interval is above one end and below
      the other. */
  lemma ThreeWays(k: Key, key: Key)
    ensures All.Contains(key)
    ensures Exactly(k).Contains(key) <==> key == k
    ensures Below(k).Contains(key) ==> key != k && Ordered(key, k, -1)
    ensures Above(k).Contains(key) ==> key != k && Ordered(key, k, 1)
    ensures !(Below(k).Contains(key) && Above(k).Contains(key))
    ensures Below(k).Contains(key) || Exactly(k).Contains(key) || Above(k).Contains(key)
    ensures forall hi :: Between(k, hi).Contains(key) <==> Above(k).Contains(key) && Below(hi).Contains(key)
  {
    LessTotal(key, k);
    CompareAntisymmetric(key, k);
    hide Compare, Ordered;
    CompareExact(key, k);
  }

  lemma CutsDownClosed(iv: Interval, a: Key, b: Key)
    requires !Less(b, a)
    ensures iv.BeforeBegin(b) ==> iv.BeforeBegin(a)
    ensures iv.BeforeEnd(b) ==> iv.BeforeEnd(a)
  {
    match iv
    case All =>
    case Exactly(k) => KeyDown(a, b, k);
    case Below(k) => KeyDown(a, b, k);
    case Above(k) => KeyDown(a, b, k);
    case Between(lo, hi) =>
      KeyDown(a, b, lo);
      KeyDown(a, b, hi);
  }

  lemma KeyDown(a: Key, b: Key, k: Key)
    requires !Less(b, a)
    ensures Less(b, k) ==> Less(a, k)
    ensures !Less(k, b) ==> !Less(k, a)
  {
    LessTotal(a, b);
    LessTotal(a, k);
    LessTotal(b, k);
    if a != b && Less(b, k) {
      CompareTransitive(a, b, k);
    }
    if a != b && Less(k, a) {
      CompareTransitive(k, a, b);
    }
  }

  lemma CutsOrdered(iv: Interval, key: Key)
    requires iv.Proper() && iv.BeforeBegin(key)
    ensures iv.BeforeEnd(key)
  {
    match iv
    case Exactly(k) => LessTotal(key, k);
    case Between(lo, hi) =>
      LessTotal(key, lo);
      LessTotal(lo, hi);
      if key != lo {
        CompareTransitive(key, lo, hi);
      }
    case _ =>
  }
}
