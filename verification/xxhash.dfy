/** XXH32: the one-shot function and the streaming state agree with the published algorithm. */
module XxHash {
  type Byte = bv8
  type U32 = bv32

  const P1: U32 := 2654435761
  const P2: U32 := 2246822519
  const P3: U32 := 3266489917
  const P4: U32 := 668265263
  const P5: U32 := 374761393

  function Rotl(x: U32, r: U32): U32
    requires r < 32
  {
    (x << r) | (x >> (32 - r))
  }

  /** Four bytes, least significant first. */
  function Read32(a: Byte, b: Byte, c: Byte, d: Byte): U32
  {
    (a as bv32) | ((b as bv32) << 8) | ((c as bv32) << 16) | ((d as bv32) << 24)
  }

  function ReadAt(s: seq<Byte>, p: nat): U32
    requires p + 4 <= |s|
  {
    Read32(s[p], s[p + 1], s[p + 2], s[p + 3])
  }

  // ---------- the algorithm, as the xxHash specification gives it ----------

  datatype Acc = Acc(v1: U32, v2: U32, v3: U32, v4: U32)

  /** Step 1. */
  function Start(seed: U32): Acc
  {
    Acc(seed + P1 + P2, seed + P2, seed + 0, seed - P1)
  }

  function Round(v: U32, lane: U32): U32
  {
    Rotl(v + lane * P2, 13) * P1
  }

  /** Step 2, for one stripe of 16 bytes. */
  function Stripe(a: Acc, s: seq<Byte>): Acc
    requires |s| == 16
  {
    Acc(Round(a.v1, ReadAt(s, 0)), Round(a.v2, ReadAt(s, 4)), Round(a.v3, ReadAt(s, 8)), Round(a.v4, ReadAt(s, 12)))
  }

  function Stripes(a: Acc, s: seq<Byte>): Acc
    decreases |s|
  {
    if |s| < 16 then a else Stripes(Stripe(a, s[..16]), s[16..])
  }

  /** Step 3. */
  function Converge(a: Acc): U32
  {
    Rotl(a.v1, 1) + Rotl(a.v2, 7) + Rotl(a.v3, 12) + Rotl(a.v4, 18)
  }

  function Word(h: U32, lane: U32): U32
  {
    Rotl(h + lane * P3, 17) * P4
  }

  function Single(h: U32, b: Byte): U32
  {
    Rotl(h + (b as bv32) * P5, 11) * P1
  }

  /** Step 5. */
  function Tail(h: U32, s: seq<Byte>): U32
    decreases |s|
  {
    if |s| >= 4 then Tail(Word(h, ReadAt(s, 0)), s[4..])
    else if |s| > 0 then Tail(Single(h, s[0]), s[1..])
    else h
  }

  function XorShift(h: U32, r: U32): U32
    requires r < 32
  {
    h ^ (h >> r)
  }

  function Times(h: U32, p: U32): U32
  {
    h * p
  }

  /** Step 6. */
  function Avalanche(h: U32): U32
  {
    XorShift(Times(XorShift(Times(XorShift(h, 15), P2), 13), P3), 16)
  }

  /** What is left after the last whole stripe. */
  function Rest(s: seq<Byte>): (r: seq<Byte>)
    ensures |r| == |s| % 16
  {
    s[|s| - |s| % 16..]
  }

  function Low32(n: nat): U32
  {
    (n % 0x1_0000_0000) as bv32
  }

  /** Steps 3 and 4; a message shorter than a stripe starts from the seed. */
  function Opening(a: Acc, seed: U32, n: nat): U32
  {
    (if n >= 16 then Converge(a) else seed + P5) + Low32(n)
  }

  /** All steps. */
  function Digest(seed: U32, s: seq<Byte>): U32
  {
    Avalanche(Tail(Opening(Stripes(Start(seed), s), seed, |s|), Rest(s)))
  }

  // ---------- known answers ----------

  /** The lower-case letters, "a" to "z". */
  function Letters(): seq<Byte>
  {
    [0x61, 0x62, 0x63, 0x64, 0x65, 0x66, 0x67, 0x68, 0x69, 0x6A, 0x6B, 0x6C, 0x6D,
     0x6E, 0x6F, 0x70, 0x71, 0x72, 0x73, 0x74, 0x75, 0x76, 0x77, 0x78, 0x79, 0x7A]
  }

  lemma FourMore(h: U32, a: Byte, b: Byte, c: Byte, d: Byte, s: seq<Byte>)
    ensures Tail(h, [a, b, c, d] + s) == Tail(Word(h, Read32(a, b, c, d)), s)
  {
    hide Word, Read32;
    var t := [a, b, c, d] + s;
    assert t[4..] == s;
  }

  lemma OneMore(h: U32, b: Byte, s: seq<Byte>)
    requires |s| < 3
    ensures Tail(h, [b] + s) == Tail(Single(h, b), s)
  {
    hide Single;
    assert ([b] + s)[1..] == s;
  }

  lemma TailNothing(h: U32)
    ensures Tail(h, []) == h
  {
  }

  lemma ShortOpenings(a: Acc)
    ensures Opening(a, 0, 0) == 0x165667B1 && Opening(a, 0x9E3779B1, 0) == 0xB48DE162
    ensures Opening(a, 0, 1) == 0x165667B2 && Opening(a, 0, 4) == 0x165667B5
  {
    hide Converge;
  }

  lemma ShortDigest(seed: U32, s: seq<Byte>)
    requires |s| < 16
    ensures Digest(seed, s) == Avalanche(Tail(Opening(Stripes(Start(seed), s), seed, |s|), s))
  {
    hide Avalanche, Tail, Start, Stripes, Opening, Rest;
    RestAt(s, 0);
    assert s[0..] == s;
  }

  lemma LetterCount()
    ensures Low32(26) == 26
  {
    assert 26 % 0x1_0000_0000 == 26;
  }

  /** Messages shorter than a stripe: nothing, one byte, one word. */
  lemma ShortAnswers()
    ensures Digest(0, []) == 0x02CC5D05
    ensures Digest(0, [0x61]) == 0x550D7456
    ensures Digest(0, [0x61, 0x62, 0x63, 0x64]) == 0xA3643705
    ensures Digest(0x9E3779B1, []) == 0x36B78AE7
  {
    ShortSteps();
    hide Avalanche, Word, Single, Read32, Digest, Tail, Opening, Stripes, Start;
    ShortDigest(0, []);
    ShortOpenings(Stripes(Start(0), []));
    TailNothing(0x165667B1);
    ShortDigest(0x9E3779B1, []);
    ShortOpenings(Stripes(Start(0x9E3779B1), []));
    TailNothing(0xB48DE162);
    ShortDigest(0, [0x61]);
    ShortOpenings(Stripes(Start(0), [0x61]));
    OneMore(0x165667B2, 0x61, []);
    TailNothing(0x6506CBE8);
    assert [0x61 as Byte] + [] == [0x61 as Byte];
    ShortDigest(0, [0x61, 0x62, 0x63, 0x64]);
    ShortOpenings(Stripes(Start(0), [0x61, 0x62, 0x63, 0x64]));
    FourMore(0x165667B5, 0x61, 0x62, 0x63, 0x64, []);
    TailNothing(0x75275207);
    assert [0x61 as Byte, 0x62, 0x63, 0x64] + [] == [0x61 as Byte, 0x62, 0x63, 0x64];
  }

  lemma ShortSteps()
    ensures Avalanche(0x165667B1) == 0x02CC5D05 && Avalanche(0xB48DE162) == 0x36B78AE7
    ensures Single(0x165667B2, 0x61) == 0x6506CBE8 && Avalanche(0x6506CBE8) == 0x550D7456
    ensures Read32(0x61, 0x62, 0x63, 0x64) == 0x64636261
    ensures Word(0x165667B5, 0x64636261) == 0x75275207 && Avalanche(0x75275207) == 0xA3643705
  {
  }

  /** One stripe, two words and two bytes: every step, from two seeds. */
  lemma LongAnswers()
    ensures Digest(0, Letters()) == 0x63A14D5F
    ensures Digest(0x9E3779B1, Letters()) == 0x235204A9
  {
    hide Digest, Letters;
    LongDigest(0);
    LongSteps();
    LongDigest(0x9E3779B1);
    OtherSteps();
  }

  /** What is left of the letters after one stripe. */
  function LetterTail(h: U32): U32
  {
    Avalanche(Single(Single(Word(Word(h, 0x74737271), 0x78777675), 0x79), 0x7A))
  }

  function LetterStripe(a: Acc): Acc
  {
    Acc(Round(a.v1, 0x64636261), Round(a.v2, 0x68676665), Round(a.v3, 0x6C6B6A69), Round(a.v4, 0x706F6E6D))
  }

  lemma LongDigest(seed: U32)
    ensures Digest(seed, Letters()) == LetterTail(Converge(LetterStripe(Start(seed))) + 26)
  {
    LetterWords();
    LetterParts(seed);
    hide Avalanche, Word, Single, Read32, Tail, Converge, Round, Stripes, Letters;
    LetterCount();
    var h := Converge(LetterStripe(Start(seed))) + 26;
    FourMore(h, 0x71, 0x72, 0x73, 0x74, [0x75, 0x76, 0x77, 0x78, 0x79, 0x7A]);
    assert [0x71 as Byte, 0x72, 0x73, 0x74] + [0x75, 0x76, 0x77, 0x78, 0x79, 0x7A]
        == [0x71 as Byte, 0x72, 0x73, 0x74, 0x75, 0x76, 0x77, 0x78, 0x79, 0x7A];
    var h1 := Word(h, 0x74737271);
    FourMore(h1, 0x75, 0x76, 0x77, 0x78, [0x79, 0x7A]);
    assert [0x75 as Byte, 0x76, 0x77, 0x78] + [0x79, 0x7A] == [0x75 as Byte, 0x76, 0x77, 0x78, 0x79, 0x7A];
    var h2 := Word(h1, 0x78777675);
    OneMore(h2, 0x79, [0x7A]);
    assert [0x79 as Byte] + [0x7A] == [0x79 as Byte, 0x7A];
    OneMore(Single(h2, 0x79), 0x7A, []);
    assert [0x7A as Byte] + [] == [0x7A as Byte];
    TailNothing(Single(Single(h2, 0x79), 0x7A));
  }

  lemma LetterWords()
    ensures Read32(0x61, 0x62, 0x63, 0x64) == 0x64636261 && Read32(0x65, 0x66, 0x67, 0x68) == 0x68676665
    ensures Read32(0x69, 0x6A, 0x6B, 0x6C) == 0x6C6B6A69 && Read32(0x6D, 0x6E, 0x6F, 0x70) == 0x706F6E6D
    ensures Read32(0x71, 0x72, 0x73, 0x74) == 0x74737271 && Read32(0x75, 0x76, 0x77, 0x78) == 0x78777675
  {
  }

  lemma LetterParts(seed: U32)
    ensures |Letters()| == 26 && Stripes(Start(seed), Letters()) == LetterStripe(Start(seed))
    ensures Rest(Letters()) == [0x71, 0x72, 0x73, 0x74, 0x75, 0x76, 0x77, 0x78, 0x79, 0x7A]
  {
    LetterWords();
    hide Read32, Round, Start;
    var s := Letters();
    assert |s[16..]| == 10;
    assert Stripe(Start(seed), s[..16]) == LetterStripe(Start(seed));
  }

  lemma LongSteps()
    ensures LetterTail(Converge(LetterStripe(Start(0))) + 26) == 0x63A14D5F
  {
    assert Start(0) == Acc(0x24234428, 0x85EBCA77, 0x00000000, 0x61C8864F);
    assert LetterStripe(Acc(0x24234428, 0x85EBCA77, 0x00000000, 0x61C8864F))
        == Acc(0xE7D631C0, 0x64734CDF, 0xD5391599, 0x410C50B8);
    assert Converge(Acc(0xE7D631C0, 0x64734CDF, 0xD5391599, 0x410C50B8)) + 26 == 0xDD8D74D1;
    assert Word(0xDD8D74D1, 0x74737271) == 0x3E0C7C1B;
    assert Word(0x3E0C7C1B, 0x78777675) == 0x0EBA619E;
    assert Single(0x0EBA619E, 0x79) == 0x202BAB2C;
    assert Single(0x202BAB2C, 0x7A) == 0xB3B14D0A;
    assert Avalanche(0xB3B14D0A) == 0x63A14D5F;
  }

  lemma OtherSteps()
    ensures LetterTail(Converge(LetterStripe(Start(0x9E3779B1))) + 26) == 0x235204A9
  {
    assert Start(0x9E3779B1) == Acc(0xC25ABDD9, 0x24234428, 0x9E3779B1, 0x00000000);
    assert LetterStripe(Acc(0xC25ABDD9, 0x24234428, 0x9E3779B1, 0x00000000))
        == Acc(0xED53ED57, 0x59272876, 0x3C7F577F, 0x468A0C4F);
    assert Converge(Acc(0xED53ED57, 0x59272876, 0x3C7F577F, 0x468A0C4F)) + 26 == 0x94F123E4;
    assert Word(0x94F123E4, 0x74737271) == 0xF1687FA4;
    assert Word(0xF1687FA4, 0x78777675) == 0x42F52566;
    assert Single(0x42F52566, 0x79) == 0x8DEA9E2E;
    assert Single(0x8DEA9E2E, 0x7A) == 0x19DA3218;
    assert Avalanche(0x19DA3218) == 0x235204A9;
  }

  // ---------- stripes over concatenations ----------

  lemma {:induction false} StripesConcat(a: Acc, s: seq<Byte>, t: seq<Byte>)
    requires |s| % 16 == 0
    ensures Stripes(a, s + t) == Stripes(Stripes(a, s), t)
    decreases |s|
  {
    if s == [] {
      assert s + t == t;
    } else {
      assert (s + t)[..16] == s[..16] && (s + t)[16..] == s[16..] + t;
      StripesConcat(Stripe(a, s[..16]), s[16..], t);
    }
  }

  lemma StripesShort(a: Acc, s: seq<Byte>, t: seq<Byte>)
    requires |s| % 16 == 0 && |t| < 16
    ensures Stripes(a, s + t) == Stripes(a, s)
  {
    StripesConcat(a, s, t);
  }

  lemma StripesOne(a: Acc, s: seq<Byte>, t: seq<Byte>)
    requires |s| % 16 == 0 && |t| == 16
    ensures Stripes(a, s + t) == Stripe(Stripes(a, s), t)
  {
    StripesConcat(a, s, t);
    assert t[..16] == t && t[16..] == [];
  }

  /** A message is its whole stripes and the rest. */
  lemma Split(s: seq<Byte>)
    ensures var n := |s| - |s| % 16; n % 16 == 0 && s == s[..n] + Rest(s)
  {
  }

  lemma RestAt(s: seq<Byte>, p: nat)
    requires p <= |s| < p + 16 && p % 16 == 0
    ensures s[p..] == Rest(s)
  {
  }

  // ---------- the loops ----------

  /** One stripe of the buffer, lane by lane. */
  method Mix(a: Acc, s: seq<Byte>, at: nat) returns (b: Acc)
    requires at + 16 <= |s|
    ensures b == Stripe(a, s[at..at + 16])
  {
    hide Round, Read32;
    var v1, v2, v3, v4, p := a.v1, a.v2, a.v3, a.v4, at;
    v1 := Round(v1, ReadAt(s, p)); p := p + 4;
    v2 := Round(v2, ReadAt(s, p)); p := p + 4;
    v3 := Round(v3, ReadAt(s, p)); p := p + 4;
    v4 := Round(v4, ReadAt(s, p)); p := p + 4;
    b := Acc(v1, v2, v3, v4);
  }

  /** Whole stripes from `from` on. */
  method MixAll(a: Acc, s: seq<Byte>, from: nat) returns (b: Acc, p: nat)
    requires from + 16 <= |s|
    ensures from <= p <= |s| < p + 16 && (p - from) % 16 == 0
    ensures b == Stripes(a, s[from..p])
  {
    hide Stripe, Stripes;
    b := Mix(a, s, from);
    StripesFirst(a, s[from..from + 16]);
    p := from + 16;
    while p + 16 <= |s|
      invariant from <= p <= |s| && (p - from) % 16 == 0
      invariant b == Stripes(a, s[from..p])
    {
      StripesOne(a, s[from..p], s[p..p + 16]);
      assert s[from..p] + s[p..p + 16] == s[from..p + 16];
      b := Mix(b, s, p);
      p := p + 16;
    }
  }

  lemma StripesFirst(a: Acc, s: seq<Byte>)
    requires |s| == 16
    ensures Stripes(a, s) == Stripe(a, s)
  {
    assert s[..16] == s && s[16..] == [];
  }

  lemma TailWord(h: U32, s: seq<Byte>, p: nat)
    requires p + 4 <= |s|
    ensures Tail(h, s[p..]) == Tail(Word(h, ReadAt(s, p)), s[p + 4..])
  {
  }

  lemma TailSingle(h: U32, s: seq<Byte>, p: nat)
    requires p < |s| < p + 4
    ensures Tail(h, s[p..]) == Tail(Single(h, s[p]), s[p + 1..])
  {
  }

  /** The two loops over the last bytes, and the final mix. */
  method Finish(start: U32, s: seq<Byte>, from: nat) returns (h: U32)
    requires from <= |s|
    ensures h == Avalanche(Tail(start, s[from..]))
  {
    hide Word, Single, ReadAt, Tail, Avalanche;
    var p;
    h, p := start, from;
    while p + 4 <= |s|
      invariant from <= p <= |s| && Tail(h, s[p..]) == Tail(start, s[from..])
    {
      TailWord(h, s, p);
      h := Word(h, ReadAt(s, p));
      p := p + 4;
    }
    while p < |s|
      invariant from <= p <= |s| < p + 4 && Tail(h, s[p..]) == Tail(start, s[from..])
    {
      TailSingle(h, s, p);
      h := Single(h, s[p]);
      p := p + 1;
    }
    TailEmpty(h, s[p..]);
    h := FinalMix(h);
  }

  method FinalMix(start: U32) returns (h: U32)
    ensures h == Avalanche(start)
  {
    hide XorShift, Times;
    h := start;
    h := XorShift(h, 15);
    h := Times(h, P2);
    h := XorShift(h, 13);
    h := Times(h, P3);
    h := XorShift(h, 16);
  }

  lemma TailEmpty(h: U32, s: seq<Byte>)
    requires s == []
    ensures Tail(h, s) == h
  {
  }

  /** `XXH32`. */
  method OneShot(s: seq<Byte>, seed: U32) returns (h: U32)
    ensures h == Digest(seed, s)
  {
    hide Stripes, Tail, Opening, Start, Avalanche, Rest;
    var a, p := Start(seed), 0;
    StripesNone(a, s[0..0]);
    if |s| >= 16 {
      a, p := MixAll(a, s, 0);
    }
    StripesSoFar(Start(seed), s, p, a);
    RestAt(s, p);
    h := Finish(Opening(a, seed, |s|), s, p);
  }

  lemma StripesNone(a: Acc, s: seq<Byte>)
    requires |s| < 16
    ensures Stripes(a, s) == a
  {
  }

  lemma RestEmpty()
    ensures Rest([]) == []
  {
  }

  lemma RestNone(s: seq<Byte>)
    requires |Rest(s)| == 0
    ensures |s| % 16 == 0
  {
  }

  lemma StripesSoFar(start: Acc, s: seq<Byte>, p: nat, a: Acc)
    requires p <= |s| < p + 16 && p % 16 == 0 && a == Stripes(start, s[0..p])
    ensures a == Stripes(start, s)
  {
    assert s[0..p] + s[p..] == s;
    StripesShort(start, s[0..p], s[p..]);
  }

  // ---------- streaming ----------

  lemma Multiples(a: nat, b: nat)
    requires a % 16 == 0 && b % 16 == 0
    ensures (a + b) % 16 == 0
  {
  }

  /** A buffer completed to a stripe. */
  lemma Completed(start: Acc, fed: seq<Byte>, more: seq<Byte>)
    requires |Rest(fed)| + |more| == 16
    ensures |fed + more| % 16 == 0
    ensures Stripes(start, fed + more) == Stripe(Stripes(start, fed), Rest(fed) + more)
  {
    var n := |fed| - |fed| % 16;
    Split(fed);
    hide Stripe, Stripes, Rest;
    var whole, stripe := fed[..n], Rest(fed) + more;
    assert fed + more == whole + stripe;
    Multiples(|whole|, 16);
    StripesOne(start, whole, stripe);
    StripesShort(start, whole, Rest(fed));
  }

  /** A message that does not complete the stripe. */
  lemma NotYet(start: Acc, fed: seq<Byte>, more: seq<Byte>)
    requires |Rest(fed)| + |more| < 16
    ensures Stripes(start, fed + more) == Stripes(start, fed) && Rest(fed + more) == Rest(fed) + more
  {
    var n := |fed| - |fed| % 16;
    Split(fed);
    assert fed + more == fed[..n] + (Rest(fed) + more);
    StripesShort(start, fed[..n], Rest(fed) + more);
    StripesShort(start, fed[..n], Rest(fed));
    RestAt(fed + more, n);
  }

  /** Whole stripes, then a remainder. */
  lemma Onward(start: Acc, fed: seq<Byte>, input: seq<Byte>, k: nat, p: nat)
    requires k <= p <= |input| < p + 16 && (p - k) % 16 == 0 && |fed + input[..k]| % 16 == 0
    ensures Stripes(start, fed + input) == Stripes(Stripes(start, fed + input[..k]), input[k..p])
    ensures Rest(fed + input) == input[p..]
  {
    hide Stripes, Rest;
    var head, mid, tail := fed + input[..k], input[k..p], input[p..];
    assert fed + input == (head + mid) + tail;
    Multiples(|head|, p - k);
    assert (fed + input)[|head + mid|..] == tail;
    StripesConcat(start, head, mid);
    StripesShort(start, head + mid, tail);
    RestAt(fed + input, |head + mid|);
  }

  const Wrap := 0x1_0000_0000_0000_0000

  /** `XXH_state32_t`. */
  class Hasher {
    var total: nat                       // 64 bits
    var seed: U32
    var acc: Acc
    var memsize: nat
    const memory: array<Byte>
    ghost var fed: seq<Byte>             // everything hashed so far

    ghost predicate Valid()
      reads this, memory
    {
      Buffered() && total == |fed| < Wrap
    }

    /** The accumulators hold the whole stripes, the buffer holds the rest. */
    ghost predicate Buffered()
      reads this, memory
    {
      && memory.Length == 16 && acc == Stripes(Start(seed), fed)
      && memsize == |Rest(fed)| && memory[..memsize] == Rest(fed)
    }

    /** `XXH32_init`. */
    constructor (s: U32)
      ensures Valid() && fresh(memory) && seed == s && fed == []
    {
      hide Start, Stripes, Rest;
      StripesNone(Start(s), []);
      RestEmpty();
      memory := new Byte[16];
      seed, acc, total, memsize, fed := s, Start(s), 0, 0, [];
    }

    /** `XXH32_resetState`. */
    method Reset(s: U32)
      requires memory.Length == 16
      modifies this
      ensures Valid() && seed == s && fed == []
    {
      hide Start, Stripes, Rest;
      StripesNone(Start(s), []);
      RestEmpty();
      seed, acc, total, memsize, fed := s, Start(s), 0, 0, [];
      assert memory[..0] == [];
    }

    method Copy(input: seq<Byte>, from: nat, n: nat)
      requires memory.Length == 16 && from + n <= |input| && memsize + n <= 16
      modifies memory
      ensures memory[..memsize + n] == old(memory[..memsize]) + input[from..from + n]
    {
      for i := 0 to n
        invariant memory[..memsize + i] == old(memory[..memsize]) + input[from..from + i]
      {
        memory[memsize + i] := input[from + i];
        assert memory[..memsize + i + 1] == memory[..memsize + i] + [input[from + i]];
        assert input[from..from + i + 1] == input[from..from + i] + [input[from + i]];
      }
    }

    /** Fill the buffer up to a stripe and mix it. */
    method Complete(input: seq<Byte>) returns (k: nat)
      requires Buffered() && 0 < memsize && 16 <= memsize + |input|
      modifies this`acc, this`memsize, memory
      ensures memsize == 0 && k <= |input| && |fed + input[..k]| % 16 == 0
      ensures acc == Stripes(Start(seed), fed + input[..k])
    {
      hide Stripe, Stripes, Rest, Start;
      k := 16 - memsize;
      Completed(Start(seed), fed, input[..k]);
      Copy(input, 0, k);
      assert memory[..16] == memory[..] && input[0..k] == input[..k];
      acc := Mix(acc, memory[..], 0);
      assert memory[..][0..16] == memory[..];
      memsize := 0;
    }

    /** `XXH32_update`. */
    method Update(input: seq<Byte>)
      requires Valid() && |fed| + |input| < Wrap
      modifies this, memory
      ensures Valid() && fed == old(fed) + input && seed == old(seed)
    {
      hide Stripes, Start, Rest;
      total := (total + |input|) % Wrap;
      if memsize + |input| < 16 {
        NotYet(Start(seed), fed, input);
        Copy(input, 0, |input|);
        assert input[0..|input|] == input;
        memsize, fed := memsize + |input|, fed + input;
        return;
      }
      var k := 0;
      if memsize != 0 {
        k := Complete(input);
      } else {
        RestNone(fed);
        assert fed + input[..k] == fed;
      }
      Absorb(input, k);
    }

    /** The whole stripes of the input from `k` on; the remainder goes to the buffer. */
    method Absorb(input: seq<Byte>, k: nat)
      requires memory.Length == 16 && memsize == 0 && k <= |input| && |fed + input[..k]| % 16 == 0
      requires acc == Stripes(Start(seed), fed + input[..k]) && total == |fed| + |input| < Wrap
      modifies this`acc, this`memsize, this`fed, memory
      ensures Valid() && fed == old(fed) + input
    {
      hide Stripes, Start, Rest;
      var p := k;
      StripesNone(acc, input[k..k]);
      if p + 16 <= |input| {
        acc, p := MixAll(acc, input, p);
      }
      Onward(Start(seed), fed, input, k, p);
      Copy(input, p, |input| - p);
      assert input[p..|input|] == input[p..] && memory[..0] == [];
      memsize, fed := |input| - p, fed + input;
    }

    /** `XXH32_intermediateDigest`: the state is only read. */
    method IntermediateDigest() returns (h: U32)
      requires Valid()
      ensures h == Digest(seed, fed)
    {
      hide Stripes, Start, Rest, Tail, Opening, Avalanche;
      h := Finish(Opening(acc, seed, total), memory[..memsize], 0);
      assert memory[..memsize][0..] == memory[..memsize];
    }
  }

  function Concat(chunks: seq<seq<Byte>>): seq<Byte>
  {
    if chunks == [] then [] else Concat(chunks[..|chunks| - 1]) + chunks[|chunks| - 1]
  }

  lemma {:induction false} ConcatGrows(chunks: seq<seq<Byte>>, n: nat)
    requires n <= |chunks|
    ensures |Concat(chunks[..n])| <= |Concat(chunks)|
    decreases |chunks|
  {
    if n < |chunks| {
      assert chunks[..|chunks| - 1][..n] == chunks[..n];
      ConcatGrows(chunks[..|chunks| - 1], n);
    } else {
      assert chunks[..n] == chunks;
    }
  }

  lemma ConcatStart(chunks: seq<seq<Byte>>)
    ensures Concat(chunks[..0]) == []
  {
  }

  lemma ConcatNext(chunks: seq<seq<Byte>>, n: nat)
    requires n < |chunks|
    ensures Concat(chunks[..n + 1]) == Concat(chunks[..n]) + chunks[n]
  {
    assert chunks[..n + 1][..n] == chunks[..n];
  }

  /** Any division of a message into chunks, with digests asked for along the way: each digest is the
      one-shot digest of what was hashed so far, and the last that of the whole message. */
  method HashChunks(chunks: seq<seq<Byte>>, seed: U32) returns (digests: seq<U32>)
    requires |Concat(chunks)| < Wrap
    ensures |digests| == |chunks| + 1
    ensures forall i :: 0 <= i <= |chunks| ==> digests[i] == Digest(seed, Concat(chunks[..i]))
    ensures digests[|chunks|] == Digest(seed, Concat(chunks))
  {
    hide Digest, Concat, Hasher.Buffered;
    ConcatStart(chunks);
    var h := new Hasher(seed);
    var d := h.IntermediateDigest();
    digests := [d];
    for n := 0 to |chunks|
      invariant h.Valid() && fresh(h) && fresh(h.memory) && h.seed == seed && h.fed == Concat(chunks[..n])
      invariant |digests| == n + 1 && forall i :: 0 <= i <= n ==> digests[i] == Digest(seed, Concat(chunks[..i]))
    {
      ConcatGrows(chunks, n + 1);
      ConcatNext(chunks, n);
      h.Update(chunks[n]);
      d := h.IntermediateDigest();
      digests := digests + [d];
    }
    assert chunks[..|chunks|] == chunks;
  }
}
