/** Transaction ids: coordinator ids packed from client, offset and partition, and a counter per
    coordinator. */
module Ids {
  const U16 := 0x1_0000
  const U32 := 0x1_0000_0000
  const U64 := 0x1_0000_0000_0000_0000

  // ---------- coordinator ids ----------

  /** Which coordinator: the client's site id, its number there, and the client's partition. */
  datatype Seat = Seat(cli: nat, off: nat, part: nat)

  /** The packed value before it is stored in 32 bits. */
  function Wide(s: Seat, P: nat): nat
  {
    (s.cli * U16 + s.off) * P + s.part
  }

  /** `CreateCoordinator`. */
  function Pack(s: Seat, P: nat): nat
  {
    Wide(s, P) % U32
  }

  /** Fits the fields it is packed from, and the result fits 32 bits. */
  predicate Fits(s: Seat, P: nat)
  {
    s.off < U16 && s.part < P && Wide(s, P) < U32
  }

  lemma Quotients(q: nat, r: nat, q': nat, r': nat, P: nat)
    requires r < P && r' < P && q * P + r == q' * P + r'
    ensures q == q' && r == r'
  {
    if q < q' {
      Multiples(q, q', P);
    } else if q' < q {
      Multiples(q', q, P);
    }
  }

  lemma Multiples(a: nat, b: nat, P: nat)
    requires a < b
    ensures a * P + P <= b * P
  {
    assert b * P == a * P + (b - a) * P;
    AtLeastOne(b - a, P);
  }

  lemma AtLeastOne(k: nat, P: nat)
    requires k >= 1
    ensures k * P >= P
  {
  }

  /** Different seats get different ids. */
  lemma PackInjective(s: Seat, t: Seat, P: nat)
    requires Fits(s, P) && Fits(t, P) && Pack(s, P) == Pack(t, P)
    ensures s == t
  {
    Quotients(s.cli * U16 + s.off, s.part, t.cli * U16 + t.off, t.part, P);
  }

  /** The partition can be read off. */
  lemma PackPartition(s: Seat, P: nat)
    requires Fits(s, P)
    ensures Pack(s, P) % P == s.part
  {
    var w, q := Wide(s, P), s.cli * U16 + s.off;
    Quotients(q, s.part, w / P, w % P, P);
  }

  /** The seats of so many clients and partitions. The last 16-bit offset is never handed out. */
  predicate Seated(s: Seat, C: nat, P: nat)
  {
    s.cli < C && s.off < U16 - 1 && s.part < P
  }

  /** Seats of one deployment: a client has one partition. */
  predicate Together(s: Seat, t: Seat)
  {
    s.cli == t.cli ==> s.part == t.part
  }

  /** Whatever partitions the clients have, no two coordinators share an id. */
  ghost predicate NoneShared(C: nat, P: nat)
  {
    forall s, t :: Seated(s, C, P) && Seated(t, C, P) && Together(s, t) && Pack(s, P) == Pack(t, P) ==> s == t
  }

  lemma WideBelow(s: Seat, C: nat, P: nat)
    requires Seated(s, C, P)
    ensures Wide(s, P) < (C * U16 - 1) * P
  {
    Multiples(s.cli * U16 + s.off, C * U16 - 1, P);
  }

  /** The coordinator with a given number among all clients. */
  function SeatAt(q: nat, part: nat): Seat
  {
    Seat(q / U16, q % U16, part)
  }

  lemma SeatAtWide(q: nat, part: nat, P: nat)
    ensures Wide(SeatAt(q, part), P) == q * P + part
  {
  }

  lemma SeatAtSeated(q: nat, part: nat, C: nat, P: nat)
    requires q < C * U16 - 1 && q % U16 != U16 - 1 && part < P
    ensures Seated(SeatAt(q, part), C, P)
  {
  }

  lemma Wraps(s: Seat, t: Seat, P: nat)
    requires Wide(s, P) == Wide(t, P) + U32
    ensures Pack(s, P) == Pack(t, P) && s != t
  {
  }

  lemma Fewer(a: nat, b: nat, P: nat)
    requires a * P < b * P
    ensures a < b
  {
    if b < a {
      Multiples(b, a, P);
    }
  }

  /** More than 2^16 partitions: the second client's first coordinator and one of the first client. */
  lemma WideClash(C: nat, P: nat) returns (s: Seat, t: Seat)
    requires C >= 2 && U16 < P < U32
    ensures Seated(s, C, P) && Seated(t, C, P) && Together(s, t) && Pack(s, P) == Pack(t, P) && s != t
  {
    var x := U16 * P - U32;
    var q, part := x / P, x % P;
    assert x == q * P + part;
    Fewer(q, U16 - 1, P);
    s, t := Seat(1, 0, 0), SeatAt(q, part);
    SeatAtWide(q, part, P);
    SeatAtSeated(q, part, C, P);
    Wraps(s, t, P);
  }

  /** Few partitions and too many clients: the last coordinator of all, or one that is 2^32 above one of
      the first two, leaving out the offset that does not exist. */
  lemma NarrowClash(C: nat, P: nat) returns (s: Seat, t: Seat)
    requires C >= 2 && 0 < P <= U16 && (C * U16 - 1) * P > U32
    ensures Seated(s, C, P) && Seated(t, C, P) && Together(s, t) && Pack(s, P) == Pack(t, P) && s != t
  {
    var n := C * U16 - 1;
    var d := n * P - 1 - U32;
    if d < P {
      s, t := SeatAt(n - 1, P - 1), Seat(0, 0, d);
      assert (n - 1) * P == n * P - P;
      SeatAtWide(n - 1, P - 1, P);
      LastSeat(C);
      SeatAtSeated(n - 1, P - 1, C, P);
      Wraps(s, t, P);
    } else {
      s, t := MiddleClash(C, P, U32 / P, U32 % P);
    }
  }

  lemma LastSeat(C: nat)
    requires C >= 2
    ensures (C * U16 - 2) / U16 == C - 1 && (C * U16 - 2) % U16 == U16 - 2
  {
  }

  lemma MiddleClash(C: nat, P: nat, q: nat, part: nat) returns (s: Seat, t: Seat)
    requires C >= 2 && part < P <= U16 && U32 == q * P + part && (C * U16 - 1) * P - 1 - U32 >= P
    ensures Seated(s, C, P) && Seated(t, C, P) && Together(s, t) && Pack(s, P) == Pack(t, P) && s != t
  {
    assert (q + 1) * P == q * P + P;
    Fewer(q + 1, C * U16 - 1, P);
    FirstClientPast(q, P, part);
    if q % U16 != U16 - 1 {
      s, t := SeatAt(q, part), Seat(0, 0, 0);
      SeatAtWide(q, part, P);
      SeatAtSeated(q, part, C, P);
    } else {
      s, t := SeatAt(q + 1, part), Seat(0, 1, 0);
      SeatAtWide(q + 1, part, P);
      SeatAtSeated(q + 1, part, C, P);
    }
    Wraps(s, t, P);
  }

  lemma FirstClientPast(q: nat, P: nat, part: nat)
    requires part < P <= U16 && U32 == q * P + part
    ensures q / U16 >= 1 && (q + 1) / U16 >= 1
  {
    if q < U16 {
      Multiples(q, U16, P);
    }
  }

  /** One client: two of its coordinators share an id if and only if 2^17 divides the partitions. */
  lemma OneClient(P: nat)
    ensures NoneShared(1, P) <==> P == 0 || P % 0x2_0000 != 0
  {
    if P > 0 && P % 0x2_0000 == 0 {
      var s, t := Seat(0, 0x8000, 0), Seat(0, 0, 0);
      assert Wide(s, P) == 0x8000 * P == U32 * (P / 0x2_0000);
      assert Pack(s, P) == Pack(t, P) == 0;
      assert Seated(s, 1, P) && Seated(t, 1, P) && Together(s, t) && s != t;
    } else {
      forall s, t | Seated(s, 1, P) && Seated(t, 1, P) && Together(s, t) && Pack(s, P) == Pack(t, P) ensures s == t {
        if s.off < t.off {
          SameClient(s, t, P);
        } else if t.off < s.off {
          SameClient(t, s, P);
        }
      }
    }
  }

  lemma SameClient(s: Seat, t: Seat, P: nat)
    requires s.cli == t.cli == 0 && s.part == t.part && s.off < t.off < U16 && P % 0x2_0000 != 0
    ensures Pack(s, P) != Pack(t, P)
  {
    hide Two;
    var d := t.off - s.off;
    Powers();
    if Pack(s, P) == Pack(t, P) {
      assert t.off * P == s.off * P + d * P;
      SameRest(Wide(s, P), d * P);
      Halves(d, P, 32, 16);
    }
  }

  lemma SameRest(a: nat, b: nat)
    requires (a + b) % U32 == a % U32
    ensures b % U32 == 0
  {
  }

  lemma FourMore(n: nat)
    ensures Two(n + 4) == 16 * Two(n)
  {
    assert Two(n + 2) == 4 * Two(n);
  }

  lemma Powers()
    ensures Two(16) == U16 && Two(17) == 0x2_0000 && Two(32) == U32
  {
    FourMore(0);
    FourMore(4);
    FourMore(8);
    FourMore(12);
    FourMore(16);
    FourMore(20);
    FourMore(24);
    FourMore(28);
  }

  function Two(n: nat): (p: nat)
    ensures p > 0
  {
    if n == 0 then 1 else 2 * Two(n - 1)
  }

  lemma MultipleMod(k: nat, t: nat)
    requires t > 0
    ensures (k * t) % t == 0
  {
    Quotients(k, 0, (k * t) / t, (k * t) % t, t);
  }

  lemma HalfMod(x: nat, t: nat)
    requires t > 0
    ensures (2 * x) % (2 * t) == 0 <==> x % t == 0
  {
    if x % t == 0 {
      var k := x / t;
      assert x == k * t && 2 * x == k * (2 * t);
      MultipleMod(k, 2 * t);
    }
    if (2 * x) % (2 * t) == 0 {
      var k := (2 * x) / (2 * t);
      assert 2 * x == k * (2 * t) == 2 * (k * t);
      MultipleMod(k, t);
    }
  }

  lemma Twice(n: nat)
    ensures Two(n) == if n == 0 then 1 else 2 * Two(n - 1)
  {
  }

  /** The number is divisible by 2^n. */
  predicate Twos(x: nat, n: nat)
  {
    x % Two(n) == 0
  }

  lemma HalfTwos(x: nat, n: nat)
    requires n > 0
    ensures Twos(2 * x, n) <==> Twos(x, n - 1)
  {
    HalfMod(x, Two(n - 1));
  }

  lemma HalfProduct(d: nat, P: nat, n: nat)
    requires n > 0 && d % 2 == 0 && Twos(d * P, n)
    ensures Twos((d / 2) * P, n - 1)
  {
    hide Twos;
    assert d * P == 2 * ((d / 2) * P);
    HalfTwos((d / 2) * P, n);
  }

  lemma EvenOf(x: nat, n: nat)
    requires n > 0 && Twos(x, n)
    ensures x % 2 == 0
  {
    var k := x / Two(n);
    assert x == k * (2 * Two(n - 1)) == 2 * (k * Two(n - 1));
  }

  lemma OddTimesOdd(d: nat, P: nat)
    requires d % 2 == 1 && P % 2 == 1
    ensures (d * P) % 2 == 1
  {
    var a := d / 2;
    assert d * P == (2 * a + 1) * P == 2 * (a * P) + P;
  }

  /** A factor below 2^m takes fewer than `m` twos out of a product. */
  lemma {:induction false} Halves(d: nat, P: nat, n: nat, m: nat)
    requires 0 < d < Two(m) && Twos(d * P, n) && m <= n + 1
    ensures Twos(P, n + 1 - m)
    decreases n
  {
    if n + 1 > m {
      Twice(m);
      hide Two, Twos;
      if d % 2 == 0 {
        HalfProduct(d, P, n);
        Halves(d / 2, P, n - 1, m - 1);
      } else {
        OddFactor(d, P, n);
        Halves(d, P / 2, n - 1, m);
        HalfTwos(P / 2, n + 1 - m);
      }
    }
  }

  lemma OddFactor(d: nat, P: nat, n: nat)
    requires n > 0 && d % 2 == 1 && Twos(d * P, n)
    ensures P % 2 == 0 && Twos(d * (P / 2), n - 1)
  {
    hide Two, Twos;
    EvenOf(d * P, n);
    if P % 2 == 1 {
      OddTimesOdd(d, P);
    } else {
      assert d * P == P * d && d * (P / 2) == (P / 2) * d;
      HalfProduct(P, d, n);
    }
  }

  /** For which numbers of clients and partitions no two coordinators share an id, whatever partitions
      the clients have: several clients must fit 32 bits together, and a single one must not have its
      own numbers wrap on each other. */
  lemma PackExact(C: nat, P: nat)
    requires 0 < P < U32
    ensures NoneShared(C, P) <==>
      if C == 0 then true else if C == 1 then P % 0x2_0000 != 0 else (C * U16 - 1) * P <= U32
  {
    if C == 1 {
      OneClient(P);
    } else if C >= 2 {
      if (C * U16 - 1) * P <= U32 {
        FitTogether(C, P);
      } else if P <= U16 {
        var s, t := NarrowClash(C, P);
      } else {
        var s, t := WideClash(C, P);
      }
    }
  }

  lemma FitTogether(C: nat, P: nat)
    requires (C * U16 - 1) * P <= U32
    ensures NoneShared(C, P)
  {
    forall s, t | Seated(s, C, P) && Seated(t, C, P) && Together(s, t) && Pack(s, P) == Pack(t, P) ensures s == t {
      WideBelow(s, C, P);
      WideBelow(t, C, P);
      PackInjective(s, t, P);
    }
  }

  // ---------- transaction ids ----------

  /** The `n`-th id of a coordinator, in 64 bits. */
  function NthId(coo: nat, n: nat): nat
  {
    (coo * U32 + 1 + n) % U64
  }

  lemma NthIdParts(coo: nat, n: nat)
    requires coo < U32 && n < U32 - 1
    ensures NthId(coo, n) / U32 == coo && NthId(coo, n) % U32 == n + 1
  {
  }

  /** One request for an id. */
  type Trace = seq<Seat>

  /** How many ids this seat was given before. */
  function Before(tr: Trace, i: nat, s: Seat): nat
    requires i <= |tr|
  {
    if i == 0 then 0 else Before(tr, i - 1, s) + if tr[i - 1] == s then 1 else 0
  }

  /** The id given at step `i` of any interleaving. */
  function IdAt(tr: Trace, i: nat, P: nat): nat
    requires i < |tr|
  {
    NthId(Pack(tr[i], P), Before(tr, i, tr[i]))
  }

  lemma {:induction false} BeforeGrows(tr: Trace, i: nat, j: nat, s: Seat)
    requires i < j <= |tr|
    ensures Before(tr, i, s) + (if tr[i] == s then 1 else 0) <= Before(tr, j, s)
    decreases j
  {
    if i + 1 < j {
      BeforeGrows(tr, i, j - 1, s);
    }
  }

  /** Every seat fits, and none asks for more ids than its half of the word can count. */
  predicate WithinBounds(tr: Trace, P: nat)
  {
    forall i :: 0 <= i < |tr| ==> Fits(tr[i], P) && Before(tr, |tr|, tr[i]) < U32
  }

  /** What an id says: the coordinator in the high half, its partition modulo the partitions. */
  lemma IdSays(tr: Trace, i: nat, P: nat)
    requires WithinBounds(tr, P) && i < |tr|
    ensures IdAt(tr, i, P) / U32 == Pack(tr[i], P) && (IdAt(tr, i, P) / U32) % P == tr[i].part
    ensures IdAt(tr, i, P) % U32 == Before(tr, i, tr[i]) + 1
  {
    BeforeGrows(tr, i, |tr|, tr[i]);
    NthIdParts(Pack(tr[i], P), Before(tr, i, tr[i]));
    PackPartition(tr[i], P);
  }

  /** In any interleaving of any clients and coordinators, no id is given twice. */
  lemma AllDistinct(tr: Trace, P: nat, i: nat, j: nat)
    requires WithinBounds(tr, P) && i < j < |tr|
    ensures IdAt(tr, i, P) != IdAt(tr, j, P)
  {
    IdSays(tr, i, P);
    IdSays(tr, j, P);
    if IdAt(tr, i, P) == IdAt(tr, j, P) {
      PackInjective(tr[i], tr[j], P);
      BeforeGrows(tr, i, j, tr[i]);
      assert false;
    }
  }

  // ---------- the objects ----------

  class Coordinator {
    const cooId: nat
    var nextPieId: nat
    var nextTxnId: nat
    ghost var given: nat                 // how many transaction ids so far

    ghost predicate Valid()
      reads this
    {
      cooId < U32 && nextTxnId == NthId(cooId, given)
    }

    constructor (id: nat)
      requires id < U32
      ensures Valid() && cooId == id && given == 0
    {
      cooId := id;
      var k := (id * U32) % U64;
      k := (k + 1) % U64;
      nextPieId, nextTxnId, given := k, k, 0;
    }

    /** `next_txn_id`. */
    method NextTxnId() returns (id: nat)
      requires Valid()
      modifies this`nextTxnId, this`given
      ensures Valid() && given == old(given) + 1 && id == NthId(cooId, old(given))
    {
      id := nextTxnId;
      nextTxnId := (nextTxnId + 1) % U64;
      given := given + 1;
    }
  }

  class ClientWorker {
    const cliId: nat
    const partition: nat
    const partitions: nat
    var created: seq<Coordinator>
    var free: seq<Coordinator>

    ghost predicate Valid()
      reads this
    {
      && |created| < U16
      && (forall i :: 0 <= i < |created| ==> created[i].cooId == Pack(Seat(cliId, i, partition), partitions))
      && (forall i, j :: 0 <= i < j < |created| ==> created[i] != created[j])
      && (forall i :: 0 <= i < |free| ==> free[i] in created)
      && (forall i, j :: 0 <= i < j < |free| ==> free[i] != free[j])
    }

    /** The coordinators at work. */
    ghost function Busy(): set<Coordinator>
      reads this
    {
      set c | c in created && c !in free
    }

    constructor (cli: nat, part: nat, parts: nat)
      ensures Valid() && cliId == cli && partition == part && partitions == parts && created == [] && free == []
    {
      cliId, partition, partitions, created, free := cli, part, parts, [], [];
    }

    /** `FindOrCreateCoordinator`: an idle coordinator, a new one, or none when the numbers run out. */
    method FindOrCreate() returns (c: Coordinator?)
      requires Valid()
      modifies this
      ensures Valid()
      ensures c == null <==> old(free) == [] && |old(created)| == U16 - 1
      ensures c == null ==> created == old(created) && free == old(free)
      ensures c != null ==> c !in old(Busy()) && Busy() == old(Busy()) + {c}
      ensures c != null && old(free) == [] ==> fresh(c) && c.Valid() && created == old(created) + [c]
      ensures c != null && old(free) != [] ==> created == old(created) && c == old(free)[|old(free)| - 1]
    {
      if |free| > 0 {
        c := free[|free| - 1];
        free := free[..|free| - 1];
      } else {
        if |created| == U16 - 1 {
          return null;
        }
        c := Create(|created|);
      }
    }

    /** `CreateCoordinator`. */
    method Create(off: nat) returns (c: Coordinator)
      requires Valid() && off == |created| < U16 - 1 && free == []
      modifies this`created
      ensures Valid() && fresh(c) && c.Valid() && created == old(created) + [c]
      ensures Busy() == old(Busy()) + {c}
    {
      var packed := ((cliId * U16 + off) * partitions + partition) % U32;
      c := new Coordinator(packed);
      created := created + [c];
    }

    /** A request is done: its coordinator is idle again. */
    method Release(c: Coordinator)
      requires Valid() && c in Busy()
      modifies this`free
      ensures Valid() && Busy() == old(Busy()) - {c} && free == old(free) + [c]
    {
      free := free + [c];
    }
  }
}
