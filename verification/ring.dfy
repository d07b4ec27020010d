/** Circular doubly linked lists: the `prev_`/`next_` fields of a snapshot group's members. */
module Ring {

  function InsertAt<T>(r: seq<T>, i: nat, x: T): (s: seq<T>)
    requires i <= |r|
    ensures |s| == |r| + 1
    ensures forall k :: 0 <= k < |s| ==> s[k] == if k < i then r[k] else if k == i then x else r[k - 1]
  {
    r[..i] + [x] + r[i..]
  }

  function RemoveAt<T>(r: seq<T>, i: nat): (s: seq<T>)
    requires i < |r|
    ensures |s| == |r| - 1
    ensures forall k :: 0 <= k < |s| ==> s[k] == if k < i then r[k] else r[k + 1]
  {
    r[..i] + r[i + 1..]
  }

  ghost predicate Distinct<T>(r: seq<T>)
  {
    forall i, j :: 0 <= i < j < |r| ==> r[i] != r[j]
  }

  lemma InsertAtMember<T>(r: seq<T>, i: nat, x: T)
    requires i <= |r|
    ensures forall y :: y in InsertAt(r, i, x) <==> y == x || y in r
  {
    assert r == r[..i] + r[i..];
    assert InsertAt(r, i, x) == r[..i] + [x] + r[i..];
  }

  lemma InsertAtDistinct<T>(r: seq<T>, i: nat, x: T)
    requires i <= |r| && Distinct(r) && x !in r
    ensures Distinct(InsertAt(r, i, x))
  {
  }

  lemma RemoveAtMember<T>(r: seq<T>, i: nat)
    requires i < |r| && Distinct(r)
    ensures forall y :: y in RemoveAt(r, i) <==> y in r && y != r[i]
  {
    assert r == r[..i] + [r[i]] + r[i + 1..];
    assert RemoveAt(r, i) == r[..i] + r[i + 1..];
  }

  lemma RemoveAtDistinct<T>(r: seq<T>, i: nat)
    requires i < |r| && Distinct(r)
    ensures Distinct(RemoveAt(r, i))
  {
  }

  lemma RemoveInserted<T>(r: seq<T>, i: nat, x: T)
    requires i <= |r|
    ensures RemoveAt(InsertAt(r, i, x), i) == r
  {
  }

  function Succ<T>(r: seq<T>, i: nat): T
    requires i < |r|
  {
    if i + 1 == |r| then r[0] else r[i + 1]
  }

  function Pred<T>(r: seq<T>, i: nat): T
    requires i < |r|
  {
    if i == 0 then r[|r| - 1] else r[i - 1]
  }

  /** The two link fields of a member. */
  datatype Link<T> = Link(prev: T, next: T)

  ghost predicate LinkAt<T>(r: seq<T>, links: map<T, Link<T>>, i: nat)
    requires i < |r|
  {
    r[i] in links && links[r[i]] == Link(Pred(r, i), Succ(r, i))
  }

  /** The links walk the members of `r` round and round, in opposite directions. */
  ghost predicate Linked<T>(r: seq<T>, links: map<T, Link<T>>)
  {
    && |r| > 0 && Distinct(r)
    && (forall i :: 0 <= i < |r| ==> LinkAt(r, links, i))
  }

  lemma Neighbours<T>(r: seq<T>, links: map<T, Link<T>>, i: nat)
    requires Linked(r, links) && i < |r|
    ensures LinkAt(r, links, i)
    ensures links[r[i]].next in links && links[r[i]].prev in links
    ensures links[links[r[i]].next].prev == r[i] && links[links[r[i]].prev].next == r[i]
  {
    assert LinkAt(r, links, i);
    assert LinkAt(r, links, if i == 0 then |r| - 1 else i - 1);
    assert LinkAt(r, links, if i + 1 == |r| then 0 else i + 1);
  }

  /** The four writes that join `x` at the left of `at`. */
  function JoinLinks<T(==)>(links: map<T, Link<T>>, at: T, x: T): map<T, Link<T>>
    requires at in links && links[at].prev in links
  {
    var p := links[at].prev;
    var l1 := links[x := Link(p, at)];
    var l2 := l1[p := l1[p].(next := x)];
    l2[at := l2[at].(prev := x)]
  }

  /** The two writes that take `x` out. */
  function LeaveLinks<T(==)>(links: map<T, Link<T>>, x: T): map<T, Link<T>>
    requires x in links && links[x].prev in links && links[x].next in links
  {
    var Link(p, n) := links[x];
    var l1 := links[p := links[p].(next := n)];
    l1[n := l1[n].(prev := p)]
  }

  /** Joining at the left of `r[i]`. */
  lemma LinkedJoin<T>(r: seq<T>, links: map<T, Link<T>>, i: nat, x: T)
    requires Linked(r, links) && i < |r| && x !in r
    ensures LinkAt(r, links, i) && links[r[i]].prev in links
    ensures Linked(InsertAt(r, i, x), JoinLinks(links, r[i], x))
  {
    Neighbours(r, links, i);
    var s, links' := InsertAt(r, i, x), JoinLinks(links, r[i], x);
    forall k | 0 <= k < |s| ensures LinkAt(s, links', k) {
      if k < i {
        assert LinkAt(r, links, k);
      } else if i < k {
        assert LinkAt(r, links, k - 1);
      }
    }
  }

  /** Leaving a ring that has other members. */
  lemma LinkedLeave<T>(r: seq<T>, links: map<T, Link<T>>, i: nat)
    requires Linked(r, links) && i < |r| && |r| > 1
    ensures LinkAt(r, links, i) && links[r[i]].prev in links && links[r[i]].next in links
    ensures links[r[i]].prev != r[i] && links[r[i]].next != r[i]
    ensures Linked(RemoveAt(r, i), LeaveLinks(links, r[i]) - {r[i]})
  {
    Neighbours(r, links, i);
    var s, links' := RemoveAt(r, i), LeaveLinks(links, r[i]) - {r[i]};
    forall k | 0 <= k < |s| ensures LinkAt(s, links', k) {
      assert LinkAt(r, links, if k < i then k else k + 1);
    }
  }

  /** The ring as seen by a walk that starts at `r[i]`. */
  function Rotate<T>(r: seq<T>, i: nat): (s: seq<T>)
    requires i < |r|
    ensures |s| == |r| && s[0] == r[i]
    ensures forall k :: 0 <= k < |s| ==> s[k] == if k < |r| - i then r[k + i] else r[k + i - |r|]
  {
    r[i..] + r[..i]
  }

  lemma LinkedRotate<T>(r: seq<T>, links: map<T, Link<T>>, i: nat)
    requires Linked(r, links) && i < |r|
    ensures Linked(Rotate(r, i), links)
  {
    var s := Rotate(r, i);
    forall k | 0 <= k < |s| ensures LinkAt(s, links, k) {
      assert LinkAt(r, links, if k < |r| - i then k + i else k + i - |r|);
    }
  }

  lemma RotateMember<T>(r: seq<T>, i: nat)
    requires i < |r|
    ensures forall x :: x in Rotate(r, i) <==> x in r
  {
    assert r == r[..i] + r[i..];
    assert Rotate(r, i) == r[i..] + r[..i];
  }
}
