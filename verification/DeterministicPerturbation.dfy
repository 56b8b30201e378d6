/** The counter-based random numbers of the perturbation forcing: a 64-bit mixer applied to the seed and
    then, with each index folded in, four times more. */
module DeterministicPerturbation {

  function Offset(v: bv64): bv64 { v + 0x9e3779b97f4a7c15 }

  function Fold30(v: bv64): bv64 { v ^ (v >> 30) }

  function Times1(v: bv64): bv64 { v * 0xbf58476d1ce4e5b9 }

  function Fold27(v: bv64): bv64 { v ^ (v >> 27) }

  function Times2(v: bv64): bv64 { v * 0x94d049bb133111eb }

  function Fold31(v: bv64): bv64 { v ^ (v >> 31) }

  function Mix64(value: bv64): bv64 {
    var a := Offset(value);
    var b := Times1(Fold30(a));
    var c := Times2(Fold27(b));
    Fold31(c)
  }

  /** An index is folded into a key by exclusive or, and the key is mixed again. */
  function Xor(a: bv64, b: bv64): bv64 { a ^ b }

  function MixIn(key: bv64, index: bv64): bv64 { Mix64(Xor(key, index)) }

  /** The first key is the mixed 32-bit seed, without sign extension. */
  function RandomBits(seed: bv32, step: bv64, k: bv64, j: bv64, i: bv64): bv64 {
    MixIn(MixIn(MixIn(MixIn(Mix64(seed as bv64), step), k), j), i)
  }

  // ----- The mixer is a bijection -----

  function Unoffset(v: bv64): bv64 { v - 0x9e3779b97f4a7c15 }

  /** A shifted exclusive or is undone by repeating it at the multiples of the shift. */
  function Unfold30(v: bv64): bv64 { v ^ (v >> 30) ^ (v >> 60) }

  function Unfold27(v: bv64): bv64 { v ^ (v >> 27) ^ (v >> 54) }

  function Unfold31(v: bv64): bv64 { v ^ (v >> 31) ^ (v >> 62) }

  /** The multipliers are odd, so they have inverses modulo 2^64. */
  function Over1(v: bv64): bv64 { v * 0x96de1b173f119089 }

  function Over2(v: bv64): bv64 { v * 0x319642b2d24d8ec3 }

  function Unmix64(mixed: bv64): bv64 {
    var c := Unfold31(mixed);
    var b := Unfold27(Over2(c));
    var a := Unfold30(Over1(b));
    Unoffset(a)
  }

  lemma OffsetOfWord(v: bv64)
    ensures Unoffset(v + 0x9e3779b97f4a7c15) == v && Offset(v - 0x9e3779b97f4a7c15) == v
  {
  }

  lemma OffsetUndone(v: bv64)
    ensures Unoffset(Offset(v)) == v && Offset(Unoffset(v)) == v
  {
    OffsetOfWord(v);
  }

  lemma Fold30OfWord(v: bv64)
    ensures Unfold30(v ^ (v >> 30)) == v && Fold30(v ^ (v >> 30) ^ (v >> 60)) == v
  {
  }

  lemma Fold30Undone(v: bv64)
    ensures Unfold30(Fold30(v)) == v && Fold30(Unfold30(v)) == v
  {
    Fold30OfWord(v);
  }

  lemma Fold27OfWord(v: bv64)
    ensures Unfold27(v ^ (v >> 27)) == v && Fold27(v ^ (v >> 27) ^ (v >> 54)) == v
  {
  }

  lemma Fold27Undone(v: bv64)
    ensures Unfold27(Fold27(v)) == v && Fold27(Unfold27(v)) == v
  {
    Fold27OfWord(v);
  }

  lemma Fold31OfWord(v: bv64)
    ensures Unfold31(v ^ (v >> 31)) == v && Fold31(v ^ (v >> 31) ^ (v >> 62)) == v
  {
  }

  lemma Fold31Undone(v: bv64)
    ensures Unfold31(Fold31(v)) == v && Fold31(Unfold31(v)) == v
  {
    Fold31OfWord(v);
  }

  lemma Times1OfWord(v: bv64)
    ensures Over1(v * 0xbf58476d1ce4e5b9) == v && Times1(v * 0x96de1b173f119089) == v
  {
  }

  lemma Times1Undone(v: bv64)
    ensures Over1(Times1(v)) == v && Times1(Over1(v)) == v
  {
    Times1OfWord(v);
  }

  lemma Times2OfWord(v: bv64)
    ensures Over2(v * 0x94d049bb133111eb) == v && Times2(v * 0x319642b2d24d8ec3) == v
  {
  }

  lemma Times2Undone(v: bv64)
    ensures Over2(Times2(v)) == v && Times2(Over2(v)) == v
  {
    Times2OfWord(v);
  }

  lemma UnmixMix(x: bv64)
    ensures Unmix64(Mix64(x)) == x
  {
    Fold31Undone(Times2(Fold27(Times1(Fold30(Offset(x))))));
    Times2Undone(Fold27(Times1(Fold30(Offset(x)))));
    Fold27Undone(Times1(Fold30(Offset(x))));
    Times1Undone(Fold30(Offset(x)));
    Fold30Undone(Offset(x));
    OffsetUndone(x);
  }

  lemma MixUnmix(x: bv64)
    ensures Mix64(Unmix64(x)) == x
  {
    OffsetUndone(Unfold30(Over1(Unfold27(Over2(Unfold31(x))))));
    Fold30Undone(Over1(Unfold27(Over2(Unfold31(x)))));
    Times1Undone(Unfold27(Over2(Unfold31(x))));
    Fold27Undone(Over2(Unfold31(x)));
    Times2Undone(Unfold31(x));
    Fold31Undone(x);
  }

  /** The mixer is a bijection of the 64-bit words. */
  lemma MixIsBijection(x: bv64)
    ensures Unmix64(Mix64(x)) == x
    ensures Mix64(Unmix64(x)) == x
  {
    UnmixMix(x);
    MixUnmix(x);
  }

  // ----- Each argument of the random bits -----

  /** The index that folded into a key gives `bits`, which is also the key that takes an index there. */
  function Unmixed(known: bv64, bits: bv64): bv64 { Xor(Unmix64(bits), known) }

  lemma XorOfWords(a: bv64, b: bv64)
    ensures Xor(a ^ b, a) == b && Xor(a ^ b, b) == a && Xor(a, b ^ a) == b && Xor(b ^ a, a) == b
  {
  }

  lemma XorUndone(a: bv64, b: bv64)
    ensures Xor(Xor(a, b), a) == b && Xor(Xor(a, b), b) == a && Xor(a, Xor(b, a)) == b && Xor(Xor(b, a), a) == b
  {
    XorOfWords(a, b);
  }

  /** Folding in is a bijection in the index for every key. */
  lemma IndexUnmixed(key: bv64, index: bv64)
    ensures Unmixed(key, MixIn(key, index)) == index
  {
    MixIsBijection(Xor(key, index));
    XorUndone(key, index);
  }

  lemma IndexMixed(key: bv64, bits: bv64)
    ensures MixIn(key, Unmixed(key, bits)) == bits
  {
    MixIsBijection(bits);
    XorUndone(key, Unmix64(bits));
  }

  /** Folding in is a bijection in the key for every index. */
  lemma KeyUnmixed(key: bv64, index: bv64)
    ensures Unmixed(index, MixIn(key, index)) == key
  {
    MixIsBijection(Xor(key, index));
    XorUndone(key, index);
  }

  lemma KeyMixed(index: bv64, bits: bv64)
    ensures MixIn(Unmixed(index, bits), index) == bits
  {
    MixIsBijection(bits);
    XorUndone(index, Unmix64(bits));
  }

  /** The values of each 64-bit argument that give `bits`, the others fixed. */
  function IndexI(seed: bv32, step: bv64, k: bv64, j: bv64, bits: bv64): bv64 {
    Unmixed(MixIn(MixIn(MixIn(Mix64(seed as bv64), step), k), j), bits)
  }

  function IndexJ(seed: bv32, step: bv64, k: bv64, i: bv64, bits: bv64): bv64 {
    Unmixed(MixIn(MixIn(Mix64(seed as bv64), step), k), Unmixed(i, bits))
  }

  function IndexK(seed: bv32, step: bv64, j: bv64, i: bv64, bits: bv64): bv64 {
    Unmixed(MixIn(Mix64(seed as bv64), step), Unmixed(j, Unmixed(i, bits)))
  }

  function IndexStep(seed: bv32, k: bv64, j: bv64, i: bv64, bits: bv64): bv64 {
    Unmixed(Mix64(seed as bv64), Unmixed(k, Unmixed(j, Unmixed(i, bits))))
  }

  /** For every other argument, the random bits are a bijection of the last index: each 64-bit word is
      the bits of exactly one index.  The same for the three others. */
  lemma RandomBijectsI(seed: bv32, step: bv64, k: bv64, j: bv64, i: bv64, bits: bv64)
    ensures IndexI(seed, step, k, j, RandomBits(seed, step, k, j, i)) == i
    ensures RandomBits(seed, step, k, j, IndexI(seed, step, k, j, bits)) == bits
  {
    var key := MixIn(MixIn(MixIn(Mix64(seed as bv64), step), k), j);
    IndexUnmixed(key, i);
    IndexMixed(key, bits);
  }

  lemma RandomBijectsJ(seed: bv32, step: bv64, k: bv64, j: bv64, i: bv64, bits: bv64)
    ensures IndexJ(seed, step, k, i, RandomBits(seed, step, k, j, i)) == j
    ensures RandomBits(seed, step, k, IndexJ(seed, step, k, i, bits), i) == bits
  {
    var key := MixIn(MixIn(Mix64(seed as bv64), step), k);
    KeyUnmixed(MixIn(key, j), i);
    IndexUnmixed(key, j);
    IndexMixed(key, Unmixed(i, bits));
    KeyMixed(i, bits);
  }

  lemma RandomBijectsK(seed: bv32, step: bv64, k: bv64, j: bv64, i: bv64, bits: bv64)
    ensures IndexK(seed, step, j, i, RandomBits(seed, step, k, j, i)) == k
    ensures RandomBits(seed, step, IndexK(seed, step, j, i, bits), j, i) == bits
  {
    var key := MixIn(Mix64(seed as bv64), step);
    KeyUnmixed(MixIn(MixIn(key, k), j), i);
    KeyUnmixed(MixIn(key, k), j);
    IndexUnmixed(key, k);
    IndexMixed(key, Unmixed(j, Unmixed(i, bits)));
    KeyMixed(j, Unmixed(i, bits));
    KeyMixed(i, bits);
  }

  lemma RandomBijectsStep(seed: bv32, step: bv64, k: bv64, j: bv64, i: bv64, bits: bv64)
    ensures IndexStep(seed, k, j, i, RandomBits(seed, step, k, j, i)) == step
    ensures RandomBits(seed, IndexStep(seed, k, j, i, bits), k, j, i) == bits
  {
    var key := Mix64(seed as bv64);
    KeyUnmixed(MixIn(MixIn(MixIn(key, step), k), j), i);
    KeyUnmixed(MixIn(MixIn(key, step), k), j);
    KeyUnmixed(MixIn(key, step), k);
    IndexUnmixed(key, step);
    IndexMixed(key, Unmixed(k, Unmixed(j, Unmixed(i, bits))));
    KeyMixed(k, Unmixed(j, Unmixed(i, bits)));
    KeyMixed(j, Unmixed(i, bits));
    KeyMixed(i, bits);
  }

  /** The seed can be recovered from the bits, so different seeds never give the same bits. */
  function SeedOf(step: bv64, k: bv64, j: bv64, i: bv64, bits: bv64): bv64 {
    Unmix64(Unmixed(step, Unmixed(k, Unmixed(j, Unmixed(i, bits)))))
  }

  lemma RandomKeepsSeed(seed: bv32, step: bv64, k: bv64, j: bv64, i: bv64)
    ensures SeedOf(step, k, j, i, RandomBits(seed, step, k, j, i)) == seed as bv64
  {
    var key := Mix64(seed as bv64);
    KeyUnmixed(MixIn(MixIn(MixIn(key, step), k), j), i);
    KeyUnmixed(MixIn(MixIn(key, step), k), j);
    KeyUnmixed(MixIn(key, step), k);
    KeyUnmixed(key, step);
    MixIsBijection(seed as bv64);
  }

  lemma Widened(a: bv32, b: bv32)
    requires a as bv64 == b as bv64
    ensures a == b
  {
  }

  lemma RandomInjectiveInSeed(a: bv32, b: bv32, step: bv64, k: bv64, j: bv64, i: bv64)
    requires RandomBits(a, step, k, j, i) == RandomBits(b, step, k, j, i)
    ensures a == b
  {
    RandomKeepsSeed(a, step, k, j, i);
    RandomKeepsSeed(b, step, k, j, i);
    Widened(a, b);
  }

  // ----- Unit values -----

  /** Double precision keeps the top 53 bits, single precision the top 24; the rest is dropped. */
  function Top53(bits: bv64): bv53 { (bits >> 11) as bv53 }

  function Low11(bits: bv64): bv11 { (bits & 0x7ff) as bv11 }

  function Join53(top: bv53, low: bv11): bv64 { ((top as bv64) << 11) | (low as bv64) }

  lemma JoinSplits53(bits: bv64, top: bv53, low: bv11)
    ensures Join53(Top53(bits), Low11(bits)) == bits
    ensures Top53(Join53(top, low)) == top && Low11(Join53(top, low)) == low
  {
  }

  function Top24(bits: bv64): bv24 { (bits >> 40) as bv24 }

  function Low40(bits: bv64): bv40 { (bits & 0xff_ffff_ffff) as bv40 }

  function Join24(top: bv24, low: bv40): bv64 { ((top as bv64) << 40) | (low as bv64) }

  lemma JoinSplits24(bits: bv64, top: bv24, low: bv40)
    ensures Join24(Top24(bits), Low40(bits)) == bits
    ensures Top24(Join24(top, low)) == top && Low40(Join24(top, low)) == low
  {
  }

  /** `inverse` undoes `out` both ways. */
  ghost predicate Inverses(out: bv64 -> bv64, inverse: bv64 -> bv64) {
    (forall x :: inverse(out(x)) == x) && (forall bits :: out(inverse(bits)) == bits)
  }

  lemma RandomInversesI(seed: bv32, step: bv64, k: bv64, j: bv64)
    ensures Inverses((x: bv64) => RandomBits(seed, step, k, j, x), (bits: bv64) => IndexI(seed, step, k, j, bits))
  {
    forall x: bv64
      ensures IndexI(seed, step, k, j, RandomBits(seed, step, k, j, x)) == x
        && RandomBits(seed, step, k, j, IndexI(seed, step, k, j, x)) == x
    {
      RandomBijectsI(seed, step, k, j, x, x);
    }
  }

  lemma RandomInversesJ(seed: bv32, step: bv64, k: bv64, i: bv64)
    ensures Inverses((x: bv64) => RandomBits(seed, step, k, x, i), (bits: bv64) => IndexJ(seed, step, k, i, bits))
  {
    forall x: bv64
      ensures IndexJ(seed, step, k, i, RandomBits(seed, step, k, x, i)) == x
        && RandomBits(seed, step, k, IndexJ(seed, step, k, i, x), i) == x
    {
      RandomBijectsJ(seed, step, k, x, i, x);
    }
  }

  lemma RandomInversesK(seed: bv32, step: bv64, j: bv64, i: bv64)
    ensures Inverses((x: bv64) => RandomBits(seed, step, x, j, i), (bits: bv64) => IndexK(seed, step, j, i, bits))
  {
    forall x: bv64
      ensures IndexK(seed, step, j, i, RandomBits(seed, step, x, j, i)) == x
        && RandomBits(seed, step, IndexK(seed, step, j, i, x), j, i) == x
    {
      RandomBijectsK(seed, step, x, j, i, x);
    }
  }

  lemma RandomInversesStep(seed: bv32, k: bv64, j: bv64, i: bv64)
    ensures Inverses((x: bv64) => RandomBits(seed, x, k, j, i), (bits: bv64) => IndexStep(seed, k, j, i, bits))
  {
    forall x: bv64
      ensures IndexStep(seed, k, j, i, RandomBits(seed, x, k, j, i)) == x
        && RandomBits(seed, IndexStep(seed, k, j, i, x), k, j, i) == x
    {
      RandomBijectsStep(seed, x, k, j, i, x);
    }
  }

  lemma NextWord(w: bv11)
    ensures w != 2047 ==> (w + 1) as int == w as int + 1
    ensures w == 2047 ==> w as int == 2047
  {
  }

  lemma WordIsSmall(w: bv11)
    ensures 0 <= w as int < 2048 && (w as int) as bv11 == w
  {
  }

  /** The m-th word of 11 bits. */
  function Word(m: nat): bv11 { if m == 0 then 0 else Word(m - 1) + 1 }

  lemma CountOn(w: bv11, v: bv11, m: nat)
    requires w as int == m && m < 2047 && v == w + 1
    ensures v as int == m + 1
  {
    NextWord(w);
  }

  lemma NextIsWord(m: nat)
    ensures Word(m + 1) == Word(m) + 1
  {
  }

  lemma {:induction false} WordCounts(m: nat)
    requires m < 2048
    ensures Word(m) as int == m
  {
    if m == 0 {
      WordIsSmall(0);
    } else {
      WordCounts(m - 1);
      NextIsWord(m - 1);
      CountOn(Word(m - 1), Word(m), m - 1);
    }
  }

  lemma EveryWord(w: bv11)
    ensures (w as int) < 2048 && Word(w as int) == w
  {
    WordIsSmall(w);
    WordCounts(w as int);
    WordIsSmall(Word(w as int));
  }

  ghost function Image(f: nat -> bv64, n: nat): set<bv64> { set m: nat | m < n :: f(m) }

  lemma ImageGrows(f: nat -> bv64, n: nat)
    ensures Image(f, n + 1) == Image(f, n) + {f(n)}
  {
  }

  ghost predicate Injective(f: nat -> bv64, n: nat) {
    forall a: nat, b: nat :: a < n && b < n && f(a) == f(b) ==> a == b
  }

  lemma NextIsNew(f: nat -> bv64, n: nat)
    requires Injective(f, n + 1)
    ensures f(n) !in Image(f, n)
  {
    forall m: nat | m < n ensures f(m) != f(n) { }
  }

  lemma {:induction false} ImageSize(f: nat -> bv64, n: nat)
    requires Injective(f, n)
    ensures |Image(f, n)| == n
    decreases n
  {
    if n > 0 {
      assert Injective(f, n - 1);
      ImageSize(f, n - 1);
      ImageGrows(f, n - 1);
      NextIsNew(f, n - 1);
    }
  }

  function Fibre(inverse: bv64 -> bv64, unit: bv53): nat -> bv64 {
    (m: nat) => inverse(Join53(unit, Word(m)))
  }

  lemma JoinedApart(out: bv64 -> bv64, inverse: bv64 -> bv64, unit: bv53, v: bv11, w: bv11)
    requires Inverses(out, inverse) && inverse(Join53(unit, v)) == inverse(Join53(unit, w))
    ensures v == w
  {
    JoinSplits53(0, unit, v);
    JoinSplits53(0, unit, w);
    assert out(inverse(Join53(unit, v))) == out(inverse(Join53(unit, w)));
  }

  lemma FibreInjective(out: bv64 -> bv64, inverse: bv64 -> bv64, unit: bv53, a: nat, b: nat)
    requires Inverses(out, inverse) && a < 2048 && b < 2048 && Fibre(inverse, unit)(a) == Fibre(inverse, unit)(b)
    ensures a == b
  {
    JoinedApart(out, inverse, unit, Word(a), Word(b));
    WordCounts(a);
    WordCounts(b);
  }

  lemma Undone(out: bv64 -> bv64, inverse: bv64 -> bv64, x: bv64)
    requires Inverses(out, inverse)
    ensures inverse(out(x)) == x && out(inverse(x)) == x
  {
  }

  /** A word with the unit value is the image of the word it drops. */
  lemma JoinedWord(bits: bv64, unit: bv53)
    requires Top53(bits) == unit
    ensures (Low11(bits) as int) < 2048 && Join53(unit, Word(Low11(bits) as int)) == bits
  {
    JoinSplits53(bits, unit, 0);
    EveryWord(Low11(bits));
  }

  lemma InFibre(out: bv64 -> bv64, inverse: bv64 -> bv64, unit: bv53, x: bv64)
    requires Inverses(out, inverse) && Top53(out(x)) == unit
    ensures exists m: nat :: m < 2048 && x == Fibre(inverse, unit)(m)
  {
    Undone(out, inverse, x);
    JoinedWord(out(x), unit);
    var m: nat := Low11(out(x)) as int;
    assert x == Fibre(inverse, unit)(m);
  }

  lemma FibreHasUnit(out: bv64 -> bv64, inverse: bv64 -> bv64, unit: bv53, m: nat)
    requires Inverses(out, inverse)
    ensures Top53(out(Fibre(inverse, unit)(m))) == unit
  {
    JoinSplits53(0, unit, Word(m));
  }

  lemma FibreIs(out: bv64 -> bv64, inverse: bv64 -> bv64, unit: bv53, x: bv64)
    requires Inverses(out, inverse)
    ensures Top53(out(x)) == unit <==> exists m: nat :: m < 2048 && x == Fibre(inverse, unit)(m)
  {
    if Top53(out(x)) == unit { InFibre(out, inverse, unit, x); }
    if m: nat :| m < 2048 && x == Fibre(inverse, unit)(m) { FibreHasUnit(out, inverse, unit, m); }
  }

  /** The arguments of a bijection of words that give one 53-bit unit value. */
  lemma UnitArguments(out: bv64 -> bv64, inverse: bv64 -> bv64, unit: bv53) returns (indices: set<bv64>)
    requires Inverses(out, inverse)
    ensures |indices| == 2048 && forall x :: x in indices <==> Top53(out(x)) == unit
  {
    var f := Fibre(inverse, unit);
    indices := Image(f, 2048);
    forall a: nat, b: nat | a < 2048 && b < 2048 && f(a) == f(b) ensures a == b {
      FibreInjective(out, inverse, unit, a, b);
    }
    forall x: bv64 ensures x in indices <==> Top53(out(x)) == unit {
      FibreIs(out, inverse, unit, x);
    }
    ImageSize(f, 2048);
  }

  /** In double precision, over all 2^64 values of the last index every 53-bit unit value occurs exactly
      2^11 times: the indices that give it are a set of that size.  The same for the three others. */
  lemma EquidistributedI(seed: bv32, step: bv64, k: bv64, j: bv64, unit: bv53) returns (indices: set<bv64>)
    ensures |indices| == 2048 && forall x :: x in indices <==> Top53(RandomBits(seed, step, k, j, x)) == unit
  {
    RandomInversesI(seed, step, k, j);
    indices := UnitArguments((x: bv64) => RandomBits(seed, step, k, j, x),
      (bits: bv64) => IndexI(seed, step, k, j, bits), unit);
  }

  lemma EquidistributedJ(seed: bv32, step: bv64, k: bv64, i: bv64, unit: bv53) returns (indices: set<bv64>)
    ensures |indices| == 2048 && forall x :: x in indices <==> Top53(RandomBits(seed, step, k, x, i)) == unit
  {
    RandomInversesJ(seed, step, k, i);
    indices := UnitArguments((x: bv64) => RandomBits(seed, step, k, x, i),
      (bits: bv64) => IndexJ(seed, step, k, i, bits), unit);
  }

  lemma EquidistributedK(seed: bv32, step: bv64, j: bv64, i: bv64, unit: bv53) returns (indices: set<bv64>)
    ensures |indices| == 2048 && forall x :: x in indices <==> Top53(RandomBits(seed, step, x, j, i)) == unit
  {
    RandomInversesK(seed, step, j, i);
    indices := UnitArguments((x: bv64) => RandomBits(seed, step, x, j, i),
      (bits: bv64) => IndexK(seed, step, j, i, bits), unit);
  }

  lemma EquidistributedStep(seed: bv32, k: bv64, j: bv64, i: bv64, unit: bv53) returns (indices: set<bv64>)
    ensures |indices| == 2048 && forall x :: x in indices <==> Top53(RandomBits(seed, x, k, j, i)) == unit
  {
    RandomInversesStep(seed, k, j, i);
    indices := UnitArguments((x: bv64) => RandomBits(seed, x, k, j, i),
      (bits: bv64) => IndexStep(seed, k, j, i, bits), unit);
  }

  /** The arguments that give one 24-bit unit value correspond to the 2^40 words dropped, one to one. */
  lemma UnitArguments24(out: bv64 -> bv64, inverse: bv64 -> bv64, unit: bv24, low: bv40, x: bv64)
    requires Inverses(out, inverse)
    ensures Top24(out(inverse(Join24(unit, low)))) == unit && Low40(out(inverse(Join24(unit, low)))) == low
    ensures Top24(out(x)) == unit ==> x == inverse(Join24(unit, Low40(out(x))))
  {
    JoinSplits24(out(x), unit, low);
    assert out(inverse(Join24(unit, low))) == Join24(unit, low);
    assert inverse(out(x)) == x;
  }

  /** In single precision the indices that give a 24-bit unit value are in bijection with the 2^40 words:
      each word gives one index with that value, and each such index comes from its own dropped word. */
  lemma Equidistributed24I(seed: bv32, step: bv64, k: bv64, j: bv64, unit: bv24, low: bv40, x: bv64)
    ensures Top24(RandomBits(seed, step, k, j, IndexI(seed, step, k, j, Join24(unit, low)))) == unit
      && Low40(RandomBits(seed, step, k, j, IndexI(seed, step, k, j, Join24(unit, low)))) == low
    ensures Top24(RandomBits(seed, step, k, j, x)) == unit ==>
      x == IndexI(seed, step, k, j, Join24(unit, Low40(RandomBits(seed, step, k, j, x))))
  {
    RandomInversesI(seed, step, k, j);
    UnitArguments24((x: bv64) => RandomBits(seed, step, k, j, x),
      (bits: bv64) => IndexI(seed, step, k, j, bits), unit, low, x);
  }

  lemma Equidistributed24J(seed: bv32, step: bv64, k: bv64, i: bv64, unit: bv24, low: bv40, x: bv64)
    ensures Top24(RandomBits(seed, step, k, IndexJ(seed, step, k, i, Join24(unit, low)), i)) == unit
      && Low40(RandomBits(seed, step, k, IndexJ(seed, step, k, i, Join24(unit, low)), i)) == low
    ensures Top24(RandomBits(seed, step, k, x, i)) == unit ==>
      x == IndexJ(seed, step, k, i, Join24(unit, Low40(RandomBits(seed, step, k, x, i))))
  {
    RandomInversesJ(seed, step, k, i);
    UnitArguments24((x: bv64) => RandomBits(seed, step, k, x, i),
      (bits: bv64) => IndexJ(seed, step, k, i, bits), unit, low, x);
  }

  lemma Equidistributed24K(seed: bv32, step: bv64, j: bv64, i: bv64, unit: bv24, low: bv40, x: bv64)
    ensures Top24(RandomBits(seed, step, IndexK(seed, step, j, i, Join24(unit, low)), j, i)) == unit
      && Low40(RandomBits(seed, step, IndexK(seed, step, j, i, Join24(unit, low)), j, i)) == low
    ensures Top24(RandomBits(seed, step, x, j, i)) == unit ==>
      x == IndexK(seed, step, j, i, Join24(unit, Low40(RandomBits(seed, step, x, j, i))))
  {
    RandomInversesK(seed, step, j, i);
    UnitArguments24((x: bv64) => RandomBits(seed, step, x, j, i),
      (bits: bv64) => IndexK(seed, step, j, i, bits), unit, low, x);
  }

  lemma Equidistributed24Step(seed: bv32, k: bv64, j: bv64, i: bv64, unit: bv24, low: bv40, x: bv64)
    ensures Top24(RandomBits(seed, IndexStep(seed, k, j, i, Join24(unit, low)), k, j, i)) == unit
      && Low40(RandomBits(seed, IndexStep(seed, k, j, i, Join24(unit, low)), k, j, i)) == low
    ensures Top24(RandomBits(seed, x, k, j, i)) == unit ==>
      x == IndexStep(seed, k, j, i, Join24(unit, Low40(RandomBits(seed, x, k, j, i))))
  {
    RandomInversesStep(seed, k, j, i);
    UnitArguments24((x: bv64) => RandomBits(seed, x, k, j, i),
      (bits: bv64) => IndexStep(seed, k, j, i, bits), unit, low, x);
  }

  // ----- Signed values -----

  /** The value drawn from the bits in double precision: a multiple of 2^-52 from -1 up to below 1. */
  function SignedUnit53(bits: bv64): real { 2.0 * (((Top53(bits) as int) as real) / 9007199254740992.0) - 1.0 }

  function SignedUnit24(bits: bv64): real { 2.0 * (((Top24(bits) as int) as real) / 16777216.0) - 1.0 }

  lemma SignedUnitRange(bits: bv64)
    ensures -1.0 <= SignedUnit53(bits) < 1.0 && -1.0 <= SignedUnit24(bits) < 1.0
  {
  }

  /** In each precision the value, raised by one and in units of 2^-52 or 2^-23, is the number in the
      leading 53 or 24 bits. */
  lemma SignedUnitOfBits(bits: bv64)
    ensures (SignedUnit53(bits) + 1.0) * 4503599627370496.0 == (((bits >> 11) as bv53) as int) as real
    ensures (SignedUnit24(bits) + 1.0) * 8388608.0 == (((bits >> 40) as bv24) as int) as real
  {
    assert Top53(bits) == (bits >> 11) as bv53 && Top24(bits) == (bits >> 40) as bv24;
  }

  lemma Number53(x: bv53, y: bv53)
    requires x as int == y as int
    ensures x == y
  {
    assert (x as int) as bv53 == x;
  }

  lemma Number24(x: bv24, y: bv24)
    requires x as int == y as int
    ensures x == y
  {
    assert (x as int) as bv24 == x;
  }

  lemma NumbersTell53(u: real, v: real, m: int, n: int)
    requires (u + 1.0) * 4503599627370496.0 == m as real && (v + 1.0) * 4503599627370496.0 == n as real
    ensures u == v <==> m == n
  {
  }

  lemma NumbersTell24(u: real, v: real, m: int, n: int)
    requires (u + 1.0) * 8388608.0 == m as real && (v + 1.0) * 8388608.0 == n as real
    ensures u == v <==> m == n
  {
  }

  /** So in double precision those bits determine it, and no two values of them give the same. */
  lemma SignedUnitsApart53(bits: bv64, other: bv64)
    ensures SignedUnit53(bits) == SignedUnit53(other) <==> (bits >> 11) as bv53 == (other >> 11) as bv53
  {
    SignedUnitOfBits(bits);
    SignedUnitOfBits(other);
    var x, y := (bits >> 11) as bv53, (other >> 11) as bv53;
    NumbersTell53(SignedUnit53(bits), SignedUnit53(other), x as int, y as int);
    if x as int == y as int { Number53(x, y); }
  }

  lemma SignedUnitsApart24(bits: bv64, other: bv64)
    ensures SignedUnit24(bits) == SignedUnit24(other) <==> (bits >> 40) as bv24 == (other >> 40) as bv24
  {
    SignedUnitOfBits(bits);
    SignedUnitOfBits(other);
    var x, y := (bits >> 40) as bv24, (other >> 40) as bv24;
    NumbersTell24(SignedUnit24(bits), SignedUnit24(other), x as int, y as int);
    if x as int == y as int { Number24(x, y); }
  }

  /** The words the unit test of the source expects. */
  lemma KnownBits()
    ensures RandomBits(1129, 0, 2, 0, 0) == 0x2d6a29225eefb5ff
    ensures RandomBits(1129, 7, 4, 383, 383) == 0xe461fe746d5a4598
    ensures RandomBits(12345, 1, 10, 20, 30) == 0x96ad8774f38ee4d7
  {
  }
}
