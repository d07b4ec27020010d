/** A plain ordered multimap from keys to rows, as `std::multimap` keeps it. */
module Multimap {
  import opened Keys
  import opened Bounds

  datatype Option<+T> = None | Some(value: T)

  datatype Entry = Entry(key: Key, row: RowId)

  predicate SortedEntries(s: seq<Entry>)
  {
    forall i, j :: 0 <= i < j < |s| ==> !Less(s[j].key, s[i].key)
  }

  // ---------- operations ----------

  /** `insert`: after every equal key. */
  function InsertEntry(s: seq<Entry>, e: Entry): seq<Entry>
  {
    if s == [] then [e]
    else if Less(e.key, s[0].key) then [e] + s
    else [s[0]] + InsertEntry(s[1..], e)
  }

  function Without(s: seq<Entry>, pick: Entry -> bool): seq<Entry>
  {
    if s == [] then []
    else if pick(s[0]) then Without(s[1..], pick)
    else [s[0]] + Without(s[1..], pick)
  }

  function WithoutFirst(s: seq<Entry>, pick: Entry -> bool): seq<Entry>
  {
    if s == [] then []
    else if pick(s[0]) then s[1..]
    else [s[0]] + WithoutFirst(s[1..], pick)
  }

  function Keep(s: seq<Entry>, pick: Entry -> bool): seq<Entry>
  {
    if s == [] then []
    else if pick(s[0]) then [s[0]] + Keep(s[1..], pick)
    else Keep(s[1..], pick)
  }

  // ---------- selections ----------

  function KeyIs(k: Key): Entry -> bool
  {
    (e: Entry) => e.key == k
  }

  function KeyAndRow(k: Key, r: RowId): Entry -> bool
  {
    (e: Entry) => e.key == k && e.row == r
  }

  function InInterval(iv: Interval): Entry -> bool
  {
    (e: Entry) => iv.Contains(e.key)
  }

  function Everything(): Entry -> bool
  {
    (e: Entry) => true
  }

  // ---------- membership and order ----------

  lemma {:induction false} InsertEntryMember(s: seq<Entry>, e: Entry)
    ensures forall x :: x in InsertEntry(s, e) <==> x == e || x in s
  {
    if s != [] {
      InsertEntryMember(s[1..], e);
      assert s == [s[0]] + s[1..];
    }
  }

  lemma {:induction false} InsertEntrySorted(s: seq<Entry>, e: Entry)
    requires SortedEntries(s)
    ensures SortedEntries(InsertEntry(s, e))
  {
    if s != [] {
      if Less(e.key, s[0].key) {
        forall j | 0 <= j < |s| ensures !Less(s[j].key, e.key) {
          if j == 0 {
            LessTotal(e.key, s[0].key);
          } else {
            LessThenNotLess(e.key, s[0].key, s[j].key);
          }
        }
      } else {
        InsertEntrySorted(s[1..], e);
        InsertEntryMember(s[1..], e);
        var rest := InsertEntry(s[1..], e);
        forall j | 0 <= j < |rest| ensures !Less(rest[j].key, s[0].key) {
          assert rest[j] == e || rest[j] in s[1..];
        }
      }
    }
  }

  lemma InsertEntryBefore(s: seq<Entry>, e: Entry)
    requires s != [] ==> Less(e.key, s[0].key)
    ensures InsertEntry(s, e) == [e] + s
  {
  }

  lemma {:induction false} WithoutMember(s: seq<Entry>, pick: Entry -> bool)
    ensures forall x :: x in Without(s, pick) <==> x in s && !pick(x)
  {
    if s != [] {
      WithoutMember(s[1..], pick);
      assert s == [s[0]] + s[1..];
    }
  }

  lemma {:induction false} WithoutSorted(s: seq<Entry>, pick: Entry -> bool)
    requires SortedEntries(s)
    ensures SortedEntries(Without(s, pick))
  {
    if s != [] {
      WithoutSorted(s[1..], pick);
      WithoutMember(s[1..], pick);
      var rest := Without(s[1..], pick);
      forall j | 0 <= j < |rest| ensures !Less(rest[j].key, s[0].key) {
        assert rest[j] in s[1..];
      }
    }
  }

  lemma {:induction false} WithoutEverything(s: seq<Entry>)
    ensures Without(s, Everything()) == []
  {
    if s != [] {
      WithoutEverything(s[1..]);
    }
  }

  lemma {:induction false} KeepConcat(a: seq<Entry>, b: seq<Entry>, pick: Entry -> bool)
    ensures Keep(a + b, pick) == Keep(a, pick) + Keep(b, pick)
  {
    if a == [] {
      assert a + b == b;
    } else {
      assert (a + b)[1..] == a[1..] + b;
      KeepConcat(a[1..], b, pick);
    }
  }

  lemma {:induction false} WithoutConcat(a: seq<Entry>, b: seq<Entry>, pick: Entry -> bool)
    ensures Without(a + b, pick) == Without(a, pick) + Without(b, pick)
  {
    if a == [] {
      assert a + b == b;
    } else {
      assert (a + b)[1..] == a[1..] + b;
      WithoutConcat(a[1..], b, pick);
    }
  }

  lemma KeepMiddle(a: seq<Entry>, b: seq<Entry>, c: seq<Entry>, pick: Entry -> bool)
    requires Keep(a, pick) == [] && Without(a, pick) == a
    requires Keep(b, pick) == b && Without(b, pick) == []
    requires Keep(c, pick) == [] && Without(c, pick) == c
    ensures Keep(a + b + c, pick) == b && Without(a + b + c, pick) == a + c
  {
    hide Keep, Without;
    KeepConcat(a + b, c, pick);
    KeepConcat(a, b, pick);
    WithoutConcat(a + b, c, pick);
    WithoutConcat(a, b, pick);
  }

  // ---------- the answers to queries ----------

  lemma {:induction false} KeepMember(s: seq<Entry>, pick: Entry -> bool)
    ensures forall x :: x in Keep(s, pick) <==> x in s && pick(x)
  {
    if s != [] {
      KeepMember(s[1..], pick);
      assert s == [s[0]] + s[1..];
    }
  }

  lemma {:induction false} KeepNone(s: seq<Entry>, pick: Entry -> bool)
    requires forall i :: 0 <= i < |s| ==> !pick(s[i])
    ensures Keep(s, pick) == []
  {
    if s != [] {
      KeepNone(s[1..], pick);
    }
  }

  /** The answer to a query, in the order of the map. */
  function Asked(s: seq<Entry>, iv: Interval): seq<Entry>
  {
    Keep(s, InInterval(iv))
  }

  /** The entries below a key, at it and above it, one after the other, are the whole map: no entry is
      in two answers or in none, and an end is in neither open answer. */
  lemma {:induction false} ThreeAnswers(s: seq<Entry>, k: Key)
    requires SortedEntries(s)
    ensures s == Asked(s, Below(k)) + Asked(s, Exactly(k)) + Asked(s, Above(k))
    ensures forall e :: e in Asked(s, Exactly(k)) <==> e in s && e.key == k
    ensures forall e :: e in Asked(s, Below(k)) ==> e.key != k && Ordered(e.key, k, -1)
    ensures forall e :: e in Asked(s, Above(k)) ==> e.key != k && Ordered(e.key, k, 1)
  {
    hide Less, Ordered;
    forall e: Entry ensures
      && (InInterval(Exactly(k))(e) <==> e.key == k)
      && (InInterval(Below(k))(e) ==> e.key != k && Ordered(e.key, k, -1))
      && (InInterval(Above(k))(e) ==> e.key != k && Ordered(e.key, k, 1))
    {
      ThreeWays(k, e.key);
    }
    KeepMember(s, InInterval(Exactly(k)));
    KeepMember(s, InInterval(Below(k)));
    KeepMember(s, InInterval(Above(k)));
    hide InInterval;
    AnswersJoin(s, k);
  }

  lemma {:induction false} AnswersJoin(s: seq<Entry>, k: Key)
    requires SortedEntries(s)
    ensures s == Asked(s, Below(k)) + Asked(s, Exactly(k)) + Asked(s, Above(k))
  {
    if s != [] {
      hide Less, Asked;
      forall i | 0 <= i < |s[1..]| ensures !Less(s[1..][i].key, s[0].key) {
        assert s[1..][i] == s[i + 1];
      }
      AnswersJoin(s[1..], k);
      AnswersStep(s, k);
    }
  }

  lemma AnswersStep(s: seq<Entry>, k: Key)
    requires s != [] && forall i :: 0 <= i < |s[1..]| ==> !Less(s[1..][i].key, s[0].key)
    requires s[1..] == Asked(s[1..], Below(k)) + Asked(s[1..], Exactly(k)) + Asked(s[1..], Above(k))
    ensures s == Asked(s, Below(k)) + Asked(s, Exactly(k)) + Asked(s, Above(k))
  {
    hide Asked, Less, Ordered, Interval.Contains;
    var e, rest := s[0], s[1..];
    HeadAnswer(e, rest, k);
    ThreeWays(k, e.key);
    HeadAsked(s, Below(k));
    HeadAsked(s, Exactly(k));
    HeadAsked(s, Above(k));
    FrontOf(e, Asked(rest, Below(k)), Asked(rest, Exactly(k)), Asked(rest, Above(k)));
    assert s == [e] + rest;
  }

  lemma FrontOf(e: Entry, a: seq<Entry>, b: seq<Entry>, c: seq<Entry>)
    ensures [e] + (a + b + c) == ([e] + a) + ([] + b) + ([] + c)
    ensures a == [] ==> [e] + (a + b + c) == ([] + a) + ([e] + b) + ([] + c)
    ensures a == [] && b == [] ==> [e] + (a + b + c) == ([] + a) + ([] + b) + ([e] + c)
  {
  }

  lemma HeadAsked(s: seq<Entry>, iv: Interval)
    requires s != []
    ensures Asked(s, iv) == (if iv.Contains(s[0].key) then [s[0]] else []) + Asked(s[1..], iv)
  {
  }

  /** What the first entry rules out for the later ones. */
  lemma HeadAnswer(e: Entry, rest: seq<Entry>, k: Key)
    requires forall i :: 0 <= i < |rest| ==> !Less(rest[i].key, e.key)
    ensures e.key == k ==> Asked(rest, Below(k)) == []
    ensures Above(k).Contains(e.key) ==> Asked(rest, Below(k)) == [] && Asked(rest, Exactly(k)) == []
  {
    LessTotal(k, e.key);
    if e.key == k || Less(k, e.key) {
      forall i | 0 <= i < |rest| ensures !Less(rest[i].key, k) && (Less(k, e.key) ==> rest[i].key != k) {
        if Less(k, e.key) {
          LessThenNotLess(k, e.key, rest[i].key);
          LessTotal(k, rest[i].key);
        }
      }
      hide Less;
      KeepNone(rest, InInterval(Below(k)));
      if e.key != k {
        KeepNone(rest, InInterval(Exactly(k)));
      }
    }
  }

  /** The answer between two keys is what lies above the one and below the other, and everything is
      the whole map. */
  lemma {:induction false} BothEnds(s: seq<Entry>, lo: Key, hi: Key)
    ensures Asked(s, Between(lo, hi)) == Asked(Asked(s, Above(lo)), Below(hi))
    ensures Asked(s, All) == s
  {
    if s != [] {
      BothEnds(s[1..], lo, hi);
      ThreeWays(lo, s[0].key);
      var rest := Asked(s[1..], Above(lo));
      assert ([s[0]] + rest)[1..] == rest;
    }
  }

  lemma SamePrefix(e: Entry, a: seq<Entry>, b: seq<Entry>)
    ensures [e] + a == [e] + b <==> a == b
  {
    assert ([e] + a)[1..] == a && ([e] + b)[1..] == b;
  }

  // ---------- batches ----------

  function InsertEach(s: seq<Entry>, es: seq<Entry>): seq<Entry>
  {
    if es == [] then s else InsertEntry(InsertEach(s, es[..|es| - 1]), es[|es| - 1])
  }

  lemma {:induction false} InsertLast(s: seq<Entry>, e: Entry)
    requires forall x :: x in s ==> !Less(e.key, x.key)
    ensures InsertEntry(s, e) == s + [e]
  {
    if s != [] {
      InsertLast(s[1..], e);
      assert s + [e] == [s[0]] + (s[1..] + [e]);
    }
  }

  /** Inserting an ordered batch into an empty map reproduces the batch. */
  lemma {:induction false} InsertSorted(es: seq<Entry>)
    requires SortedEntries(es)
    ensures InsertEach([], es) == es
  {
    if es != [] {
      var n := |es| - 1;
      InsertSorted(es[..n]);
      InsertLast(es[..n], es[n]);
      assert es == es[..n] + [es[n]];
    }
  }
}
