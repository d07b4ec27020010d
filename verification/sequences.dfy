/** Sequences read backwards, and stretches of stretches. */
module Sequences {
  lemma SliceJoin<T>(s: seq<T>, a: nat, m: nat, b: nat)
    requires a <= m <= b <= |s|
    ensures s[a..m] + s[m..b] == s[a..b]
  {
  }

  lemma SliceOfTake<T>(s: seq<T>, n: nat, a: nat, b: nat)
    requires a <= b <= n <= |s|
    ensures s[..n][a..b] == s[a..b]
  {
  }

  lemma SliceOfDrop<T>(s: seq<T>, n: nat, a: nat, b: nat)
    requires n <= a <= b <= |s|
    ensures s[n..][a - n..b - n] == s[a..b]
  {
  }

  function Reversed<T>(s: seq<T>): (r: seq<T>)
    ensures |r| == |s| && forall i :: 0 <= i < |s| ==> r[i] == s[|s| - 1 - i]
  {
    seq(|s|, i requires 0 <= i < |s| => s[|s| - 1 - i])
  }

  lemma ReversedAppend<T>(s: seq<T>, e: T)
    ensures Reversed(s + [e]) == [e] + Reversed(s)
  {
  }

  lemma ReversedSet<T>(s: seq<T>, i: nat, e: T)
    requires i < |s|
    ensures Reversed(s)[i := e] == Reversed(s[|s| - 1 - i := e])
  {
  }

  lemma {:induction false} ReversedSame<T>(s: seq<T>)
    ensures multiset(Reversed(s)) == multiset(s)
  {
    if s == [] {
      assert Reversed(s) == [];
    } else {
      var n := |s| - 1;
      ReversedSame(s[..n]);
      ReversedAppend(s[..n], s[n]);
      assert s == s[..n] + [s[n]];
    }
  }
}
