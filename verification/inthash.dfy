/** `inthash32` and `inthash64`: each word of a key acts on the hash as a bijection. */
module IntHash {
  // ---------- folding words into a hash ----------

  function Fold<W>(h: W, key: seq<W>, step: (W, W) -> W): W
  {
    if key == [] then h else Fold(step(h, key[0]), key[1..], step)
  }

  /** With either argument fixed, a step can be undone. */
  ghost predicate Reversible<W(!new)>(step: (W, W) -> W, back: (W, W) -> W, word: (W, W) -> W)
  {
    && (forall h, w :: back(step(h, w), w) == h && step(back(h, w), w) == h)
    && (forall h, w :: word(h, step(h, w)) == w && step(h, word(h, w)) == w)
  }

  lemma {:induction false} FoldConcat<W>(h: W, a: seq<W>, b: seq<W>, step: (W, W) -> W)
    ensures Fold(h, a + b, step) == Fold(Fold(h, a, step), b, step)
  {
    if a == [] {
      assert a + b == b;
    } else {
      assert (a + b)[1..] == a[1..] + b;
      FoldConcat(step(h, a[0]), a[1..], b, step);
    }
  }

  /** Undo the words of a key, last first. */
  function Unfold<W>(h: W, key: seq<W>, back: (W, W) -> W): W
  {
    if key == [] then h else back(Unfold(h, key[1..], back), key[0])
  }

  /** For a fixed key, hashing is a bijection of the seed. */
  lemma {:induction false} SeedBijection<W(!new)>(h: W, key: seq<W>, step: (W, W) -> W, back: (W, W) -> W,
      word: (W, W) -> W)
    requires Reversible(step, back, word)
    ensures Unfold(Fold(h, key, step), key, back) == h
    ensures Fold(Unfold(h, key, back), key, step) == h
  {
    if key != [] {
      SeedBijection(step(h, key[0]), key[1..], step, back, word);
      SeedBijection(h, key[1..], step, back, word);
    }
  }

  /** The word at place `i` that gives the hash `target`. */
  function WordFor<W>(h: W, key: seq<W>, i: nat, target: W, step: (W, W) -> W, back: (W, W) -> W, word: (W, W) -> W): W
    requires i < |key|
  {
    word(Fold(h, key[..i], step), Unfold(target, key[i + 1..], back))
  }

  /** For a fixed seed and fixed other words, hashing is a bijection of the word at any place. */
  lemma WordBijection<W(!new)>(h: W, key: seq<W>, i: nat, target: W, step: (W, W) -> W, back: (W, W) -> W,
      word: (W, W) -> W)
    requires Reversible(step, back, word) && i < |key|
    ensures Fold(h, key, step) == target <==> key[i] == WordFor(h, key, i, target, step, back, word)
  {
    var front, rest := key[..i], key[i + 1..];
    var mid := Fold(h, front, step);
    assert key == front + ([key[i]] + rest);
    FoldConcat(h, front, [key[i]] + rest, step);
    assert ([key[i]] + rest)[1..] == rest;
    assert Fold(h, key, step) == Fold(step(mid, key[i]), rest, step);
    SeedBijection(step(mid, key[i]), rest, step, back, word);
    SeedBijection(target, rest, step, back, word);
  }

  /** Keys of equal length that differ in exactly one word have different hashes. */
  lemma OneWordApart<W(!new)>(h: W, a: seq<W>, b: seq<W>, i: nat, step: (W, W) -> W, back: (W, W) -> W,
      word: (W, W) -> W)
    requires Reversible(step, back, word) && |a| == |b| && i < |a|
    requires a[i] != b[i] && forall j :: 0 <= j < |a| && j != i ==> a[j] == b[j]
    ensures Fold(h, a, step) != Fold(h, b, step)
  {
    assert a[..i] == b[..i] && a[i + 1..] == b[i + 1..];
    WordBijection(h, a, i, Fold(h, a, step), step, back, word);
    WordBijection(h, b, i, Fold(h, a, step), step, back, word);
  }

  lemma FoldNone<W>(h: W, key: seq<W>, step: (W, W) -> W)
    requires key == []
    ensures Fold(h, key, step) == h
  {
  }

  lemma FoldSnoc<W>(h: W, key: seq<W>, i: nat, step: (W, W) -> W)
    requires i < |key|
    ensures Fold(h, key[..i + 1], step) == step(Fold(h, key[..i], step), key[i])
  {
    assert key[..i + 1] == key[..i] + [key[i]];
    FoldConcat(h, key[..i], [key[i]], step);
    assert [key[i]][1..] == [];
  }

  // ---------- 32 bits ----------

  function Shift16(h: bv32): bv32 { h ^ (h >> 16) }
  function Shift13(h: bv32): bv32 { h ^ (h >> 13) }
  function Unshift13(h: bv32): bv32 { h ^ (h >> 13) ^ (h >> 26) }
  function First32(h: bv32): bv32 { h * 0x85ebca6b }
  function Unfirst32(h: bv32): bv32 { h * 0xa5cb9243 }
  function Second32(h: bv32): bv32 { h * 0xc2b2ae35 }
  function Unsecond32(h: bv32): bv32 { h * 0x7ed1b41d }
  function Golden32(h: bv32): bv32 { h * 0x9e3779b9 }
  function Ungolden32(h: bv32): bv32 { h * 0x144cbc89 }
  function Xor32(a: bv32, b: bv32): bv32 { a ^ b }

  /** `fmix32`. */
  function Fmix32(h: bv32): bv32
  {
    Shift16(Second32(Shift13(First32(Shift16(h)))))
  }

  /** The way back, with the inverses of the odd factors. */
  function Unmix32(h: bv32): bv32
  {
    Shift16(Unfirst32(Unshift13(Unsecond32(Shift16(h)))))
  }

  lemma Shift16Back(x: bv32) returns (y: bv32)
    ensures Shift16(x) == y && Shift16(y) == x
  {
    y := x ^ (x >> 16);
  }

  lemma Shift13Back(x: bv32) returns (y: bv32)
    ensures Shift13(x) == y && Unshift13(y) == x
  {
    y := x ^ (x >> 13);
  }

  lemma Unshift13Back(x: bv32) returns (y: bv32)
    ensures Unshift13(x) == y && Shift13(y) == x
  {
    y := x ^ (x >> 13) ^ (x >> 26);
  }

  lemma First32Back(x: bv32) returns (y: bv32)
    ensures First32(x) == y && Unfirst32(y) == x
  {
    y := x * 0x85ebca6b;
  }

  lemma Unfirst32Back(x: bv32) returns (y: bv32)
    ensures Unfirst32(x) == y && First32(y) == x
  {
    y := x * 0xa5cb9243;
  }

  lemma Second32Back(x: bv32) returns (y: bv32)
    ensures Second32(x) == y && Unsecond32(y) == x
  {
    y := x * 0xc2b2ae35;
  }

  lemma Unsecond32Back(x: bv32) returns (y: bv32)
    ensures Unsecond32(x) == y && Second32(y) == x
  {
    y := x * 0x7ed1b41d;
  }

  lemma Golden32Back(x: bv32) returns (y: bv32)
    ensures Golden32(x) == y && Ungolden32(y) == x
  {
    y := x * 0x9e3779b9;
  }

  lemma Ungolden32Back(x: bv32) returns (y: bv32)
    ensures Ungolden32(x) == y && Golden32(y) == x
  {
    y := x * 0x144cbc89;
  }

  lemma Xor32Back(a: bv32, b: bv32) returns (c: bv32)
    ensures Xor32(a, b) == c && Xor32(c, b) == a && Xor32(a, c) == b
  {
    c := a ^ b;
  }

  /** The mixer is a bijection. */
  lemma Fmix32Bijection(h: bv32)
    ensures Unmix32(Fmix32(h)) == h && Fmix32(Unmix32(h)) == h
  {
    hide Shift16, Shift13, Unshift13, First32, Unfirst32, Second32, Unsecond32;
    var a := Shift16Back(h);
    var b := First32Back(a);
    var c := Shift13Back(b);
    var d := Second32Back(c);
    var e := Shift16Back(d);
    var f := Unsecond32Back(a);
    var g := Unshift13Back(f);
    var i := Unfirst32Back(g);
    var j := Shift16Back(i);
  }

  /** One round of the loop. */
  function Round32(h: bv32, w: bv32): bv32 { Xor32(Golden32(h), Fmix32(w)) }

  function Step32(): (bv32, bv32) -> bv32
  {
    (h: bv32, w: bv32) => Round32(h, w)
  }

  function Back32(): (bv32, bv32) -> bv32
  {
    (h: bv32, w: bv32) => Ungolden32(Xor32(h, Fmix32(w)))
  }

  function Word32(): (bv32, bv32) -> bv32
  {
    (h: bv32, t: bv32) => Unmix32(Xor32(Golden32(h), t))
  }

  /** With the word fixed. */
  lemma Round32OfHash(h: bv32, w: bv32)
    ensures Ungolden32(Xor32(Round32(h, w), Fmix32(w))) == h
    ensures Round32(Ungolden32(Xor32(h, Fmix32(w))), w) == h
  {
    hide Golden32, Ungolden32, Xor32, Fmix32;
    var a := Golden32Back(h);
    var b := Xor32Back(a, Fmix32(w));
    var c := Xor32Back(h, Fmix32(w));
    var d := Ungolden32Back(c);
  }

  /** With the hash fixed. */
  lemma Round32OfWord(h: bv32, w: bv32)
    ensures Unmix32(Xor32(Golden32(h), Round32(h, w))) == w
    ensures Round32(h, Unmix32(Xor32(Golden32(h), w))) == w
  {
    hide Golden32, Xor32, Fmix32, Unmix32;
    var a := Xor32Back(Golden32(h), Fmix32(w));
    var b := Xor32Back(Golden32(h), w);
    Fmix32Bijection(w);
    Fmix32Bijection(b);
  }

  lemma Step32Reversible()
    ensures Reversible(Step32(), Back32(), Word32())
  {
    hide Golden32, Ungolden32, Xor32, Fmix32, Unmix32, Round32;
    forall h: bv32, w: bv32
      ensures Back32()(Step32()(h, w), w) == h && Step32()(Back32()(h, w), w) == h
      ensures Word32()(h, Step32()(h, w)) == w && Step32()(h, Word32()(h, w)) == w
    {
      Round32OfHash(h, w);
      Round32OfWord(h, w);
    }
  }

  /** `inthash32`. */
  method IntHash32(key: seq<bv32>, seed: bv32) returns (h: bv32)
    ensures h == Fold(seed, key, Step32())
  {
    hide Golden32, Fmix32, Xor32, Fold;
    h := seed;
    FoldNone(seed, key[..0], Step32());
    for i := 0 to |key|
      invariant h == Fold(seed, key[..i], Step32())
    {
      FoldSnoc(seed, key, i, Step32());
      h := Xor32(Golden32(h), Fmix32(key[i]));
    }
    assert key[..|key|] == key;
  }

  /** Known values of the mixer, and of a key of two words. */
  lemma Known32()
    ensures Fmix32(1) == 0x514e28b7 && Fmix32(2) == 0x30f4c306 && Fmix32(0xffffffff) == 0x81f16f39
    ensures Fold(3, [1, 2], Step32()) == 0x10b1caba
  {
    assert Fmix32(1) == 0x514e28b7 && Fmix32(2) == 0x30f4c306 && Fmix32(0xffffffff) == 0x81f16f39;
    assert Round32(3, 1) == 0x8be8459c;
    assert Round32(0x8be8459c, 2) == 0x10b1caba;
    hide Fmix32, Golden32, Xor32, Round32;
    var key: seq<bv32> := [1, 2];
    FoldNone(3, key[..0], Step32());
    FoldSnoc(3, key, 0, Step32());
    FoldSnoc(3, key, 1, Step32());
    assert key[..2] == key;
  }

  /** Whatever the seed, keys that differ in exactly one word never collide. */
  lemma NoCollision32(seed: bv32, a: seq<bv32>, b: seq<bv32>, i: nat)
    requires |a| == |b| && i < |a| && a[i] != b[i] && forall j :: 0 <= j < |a| && j != i ==> a[j] == b[j]
    ensures Fold(seed, a, Step32()) != Fold(seed, b, Step32())
  {
    Step32Reversible();
    OneWordApart(seed, a, b, i, Step32(), Back32(), Word32());
  }

  // ---------- 64 bits ----------

  function Shift33(h: bv64): bv64 { h ^ (h >> 33) }
  function First64(h: bv64): bv64 { h * 0xff51afd7ed558ccd }
  function Unfirst64(h: bv64): bv64 { h * 0x4f74430c22a54005 }
  function Second64(h: bv64): bv64 { h * 0xc4ceb9fe1a85ec53 }
  function Unsecond64(h: bv64): bv64 { h * 0x9cb4b2f8129337db }
  function Golden64(h: bv64): bv64 { h * 0x9e3779b97f4a7c15 }
  function Ungolden64(h: bv64): bv64 { h * 0xf1de83e19937733d }
  function Xor64(a: bv64, b: bv64): bv64 { a ^ b }

  /** `fmix64`. */
  function Fmix64(h: bv64): bv64
  {
    Shift33(Second64(Shift33(First64(Shift33(h)))))
  }

  /** The way back, with the inverses of the odd factors. */
  function Unmix64(h: bv64): bv64
  {
    Shift33(Unfirst64(Shift33(Unsecond64(Shift33(h)))))
  }

  lemma Shift33Back(x: bv64) returns (y: bv64)
    ensures Shift33(x) == y && Shift33(y) == x
  {
    y := x ^ (x >> 33);
  }

  lemma First64Back(x: bv64) returns (y: bv64)
    ensures First64(x) == y && Unfirst64(y) == x
  {
    y := x * 0xff51afd7ed558ccd;
  }

  lemma Unfirst64Back(x: bv64) returns (y: bv64)
    ensures Unfirst64(x) == y && First64(y) == x
  {
    y := x * 0x4f74430c22a54005;
  }

  lemma Second64Back(x: bv64) returns (y: bv64)
    ensures Second64(x) == y && Unsecond64(y) == x
  {
    y := x * 0xc4ceb9fe1a85ec53;
  }

  lemma Unsecond64Back(x: bv64) returns (y: bv64)
    ensures Unsecond64(x) == y && Second64(y) == x
  {
    y := x * 0x9cb4b2f8129337db;
  }

  lemma Golden64Back(x: bv64) returns (y: bv64)
    ensures Golden64(x) == y && Ungolden64(y) == x
  {
    y := x * 0x9e3779b97f4a7c15;
  }

  lemma Ungolden64Back(x: bv64) returns (y: bv64)
    ensures Ungolden64(x) == y && Golden64(y) == x
  {
    y := x * 0xf1de83e19937733d;
  }

  lemma Xor64Back(a: bv64, b: bv64) returns (c: bv64)
    ensures Xor64(a, b) == c && Xor64(c, b) == a && Xor64(a, c) == b
  {
    c := a ^ b;
  }

  /** The mixer is a bijection. */
  lemma Fmix64Bijection(h: bv64)
    ensures Unmix64(Fmix64(h)) == h && Fmix64(Unmix64(h)) == h
  {
    hide Shift33, First64, Unfirst64, Second64, Unsecond64;
    var a := Shift33Back(h);
    var b := First64Back(a);
    var c := Shift33Back(b);
    var d := Second64Back(c);
    var e := Shift33Back(d);
    var f := Unsecond64Back(a);
    var g := Shift33Back(f);
    var i := Unfirst64Back(g);
    var j := Shift33Back(i);
  }

  /** One round of the loop. */
  function Round64(h: bv64, w: bv64): bv64 { Xor64(Golden64(h), Fmix64(w)) }

  function Step64(): (bv64, bv64) -> bv64
  {
    (h: bv64, w: bv64) => Round64(h, w)
  }

  function Back64(): (bv64, bv64) -> bv64
  {
    (h: bv64, w: bv64) => Ungolden64(Xor64(h, Fmix64(w)))
  }

  function Word64(): (bv64, bv64) -> bv64
  {
    (h: bv64, t: bv64) => Unmix64(Xor64(Golden64(h), t))
  }

  /** With the word fixed. */
  lemma Round64OfHash(h: bv64, w: bv64)
    ensures Ungolden64(Xor64(Round64(h, w), Fmix64(w))) == h
    ensures Round64(Ungolden64(Xor64(h, Fmix64(w))), w) == h
  {
    hide Golden64, Ungolden64, Xor64, Fmix64;
    var a := Golden64Back(h);
    var b := Xor64Back(a, Fmix64(w));
    var c := Xor64Back(h, Fmix64(w));
    var d := Ungolden64Back(c);
  }

  /** With the hash fixed. */
  lemma Round64OfWord(h: bv64, w: bv64)
    ensures Unmix64(Xor64(Golden64(h), Round64(h, w))) == w
    ensures Round64(h, Unmix64(Xor64(Golden64(h), w))) == w
  {
    hide Golden64, Xor64, Fmix64, Unmix64;
    var a := Xor64Back(Golden64(h), Fmix64(w));
    var b := Xor64Back(Golden64(h), w);
    Fmix64Bijection(w);
    Fmix64Bijection(b);
  }

  lemma Step64Reversible()
    ensures Reversible(Step64(), Back64(), Word64())
  {
    hide Golden64, Ungolden64, Xor64, Fmix64, Unmix64, Round64;
    forall h: bv64, w: bv64
      ensures Back64()(Step64()(h, w), w) == h && Step64()(Back64()(h, w), w) == h
      ensures Word64()(h, Step64()(h, w)) == w && Step64()(h, Word64()(h, w)) == w
    {
      Round64OfHash(h, w);
      Round64OfWord(h, w);
    }
  }

  /** `inthash64`. */
  method IntHash64(key: seq<bv64>, seed: bv64) returns (h: bv64)
    ensures h == Fold(seed, key, Step64())
  {
    hide Golden64, Fmix64, Xor64, Fold;
    h := seed;
    FoldNone(seed, key[..0], Step64());
    for i := 0 to |key|
      invariant h == Fold(seed, key[..i], Step64())
    {
      FoldSnoc(seed, key, i, Step64());
      h := Xor64(Golden64(h), Fmix64(key[i]));
    }
    assert key[..|key|] == key;
  }

  /** Known values of the mixer, and of a key of two words. */
  lemma Known64()
    ensures Fmix64(1) == 0xb456bcfc34c2cb2c && Fmix64(2) == 0x3abf2a20650683e7
    ensures Fmix64(0xffffffffffffffff) == 0x64b5720b4b825f21
    ensures Fold(3, [1, 2], Step64()) == 0x5c7e27bf757d6368
  {
    assert Fmix64(1) == 0xb456bcfc34c2cb2c && Fmix64(2) == 0x3abf2a20650683e7 &&
      Fmix64(0xffffffffffffffff) == 0x64b5720b4b825f21;
    assert Round64(3, 1) == 0x6ef0d1d0491dbf13;
    assert Round64(0x6ef0d1d0491dbf13, 2) == 0x5c7e27bf757d6368;
    hide Fmix64, Golden64, Xor64, Round64;
    var key: seq<bv64> := [1, 2];
    FoldNone(3, key[..0], Step64());
    FoldSnoc(3, key, 0, Step64());
    FoldSnoc(3, key, 1, Step64());
    assert key[..2] == key;
  }

  /** Whatever the seed, keys that differ in exactly one word never collide. */
  lemma NoCollision64(seed: bv64, a: seq<bv64>, b: seq<bv64>, i: nat)
    requires |a| == |b| && i < |a| && a[i] != b[i] && forall j :: 0 <= j < |a| && j != i ==> a[j] == b[j]
    ensures Fold(seed, a, Step64()) != Fold(seed, b, Step64())
  {
    Step64Reversible();
    OneWordApart(seed, a, b, i, Step64(), Back64(), Word64());
  }

  /** `table_row_pair::hash`: two staged rows of one table, or one row under two tables, never collide. */
  lemma PairsOfOneTable(seed: bv64, table: bv64, row: bv64, table': bv64, row': bv64)
    requires table == table' <==> row != row'
    ensures Fold(seed, [table, row], Step64()) != Fold(seed, [table', row'], Step64())
  {
    NoCollision64(seed, [table, row], [table', row'], if table == table' then 1 else 0);
  }
}
