/**
 The generator behind the egress sampler. A 64-bit word is a number below
 `MODULUS`; the shifts work on its bits, lowest first.
 */
module Generator {

  const WIDTH: nat := 64
  const MODULUS: nat := 0x1_0000_0000_0000_0000
  const STAR: nat := 0x2545_f491_4f6c_dd1d

  /** The multiplicative inverse of `STAR` modulo 2^64. */
  const UNSTAR: nat := 0x5907_1d96_d81e_cd35

  type Word = n: nat | n < MODULUS witness 0

  // ----- words and their bits

  function Pow2(k: nat): nat {
    if k == 0 then 1 else 2 * Pow2(k - 1)
  }

  function Bits(n: nat, width: nat): (b: seq<bool>)
    ensures |b| == width
  {
    if width == 0 then [] else [n % 2 == 1] + Bits(n / 2, width - 1)
  }

  function Value(b: seq<bool>): (n: nat)
    ensures n < Pow2(|b|)
  {
    if b == [] then 0 else (if b[0] then 1 else 0) + 2 * Value(b[1..])
  }

  lemma {:induction false} ValueOfBits(n: nat, width: nat)
    requires n < Pow2(width)
    ensures Value(Bits(n, width)) == n
  {
    if width == 0 {
    } else {
      ValueOfBits(n / 2, width - 1);
    }
  }

  lemma {:induction false} BitsOfValue(b: seq<bool>)
    ensures Bits(Value(b), |b|) == b
  {
    if b == [] {
    } else {
      BitsOfValue(b[1..]);
      assert Value(b) / 2 == Value(b[1..]);
    }
  }

  lemma {:induction false} Pow2Adds(a: nat, b: nat)
    ensures Pow2(a + b) == Pow2(a) * Pow2(b)
  {
    if a == 0 {
    } else {
      Pow2Adds(a - 1, b);
    }
  }

  lemma WordFits()
    ensures Pow2(WIDTH) == MODULUS
  {
    Pow2Adds(2, 2);
    Pow2Adds(4, 4);
    Pow2Adds(8, 8);
    Pow2Adds(16, 16);
    Pow2Adds(32, 32);
  }

  function WordOf(b: seq<bool>): Word
    requires |b| == WIDTH
  {
    WordFits();
    Value(b)
  }

  // ----- xor with a shifted copy, and the way back

  function XorLeft(b: seq<bool>, k: nat): (r: seq<bool>)
    ensures |r| == |b|
  {
    seq(|b|, i requires 0 <= i < |b| => b[i] != (i >= k && b[i - k]))
  }

  function XorRight(b: seq<bool>, k: nat): (r: seq<bool>)
    ensures |r| == |b|
  {
    seq(|b|, i requires 0 <= i < |b| => b[i] != (i + k < |b| && b[i + k]))
  }

  /** The lowest `n` bits of the word whose `XorLeft` is `y`. */
  function UnxorLeft(y: seq<bool>, k: nat, n: nat): (r: seq<bool>)
    requires 0 < k && n <= |y|
    ensures |r| == n
  {
    if n == 0 then []
    else
      var low := UnxorLeft(y, k, n - 1);
      low + [y[n - 1] != (n - 1 >= k && low[n - 1 - k])]
  }

  /** The bits from `i` up of the word whose `XorRight` is `y`. */
  function UnxorRight(y: seq<bool>, k: nat, i: nat): (r: seq<bool>)
    requires 0 < k && i <= |y|
    ensures |r| == |y| - i
    decreases |y| - i
  {
    if i == |y| then []
    else
      var high := UnxorRight(y, k, i + 1);
      [y[i] != (i + k < |y| && high[k - 1])] + high
  }

  lemma {:induction false} LeftUndone(b: seq<bool>, k: nat, n: nat)
    requires 0 < k && n <= |b|
    ensures UnxorLeft(XorLeft(b, k), k, n) == b[..n]
  {
    if n == 0 {
    } else {
      LeftUndone(b, k, n - 1);
    }
  }

  lemma {:induction false} LeftRedone(y: seq<bool>, k: nat, n: nat)
    requires 0 < k && n <= |y|
    ensures XorLeft(UnxorLeft(y, k, n), k) == y[..n]
  {
    if n == 0 {
    } else {
      LeftRedone(y, k, n - 1);
      var low := UnxorLeft(y, k, n - 1);
      forall i | 0 <= i < n - 1 ensures XorLeft(UnxorLeft(y, k, n), k)[i] == y[i] {
        assert XorLeft(low, k)[i] == y[..n - 1][i];
      }
    }
  }

  lemma {:induction false} RightUndone(b: seq<bool>, k: nat, i: nat)
    requires 0 < k && i <= |b|
    ensures UnxorRight(XorRight(b, k), k, i) == b[i..]
    decreases |b| - i
  {
    if i != |b| {
      RightUndone(b, k, i + 1);
    }
  }

  lemma {:induction false} RightRedone(y: seq<bool>, k: nat, i: nat)
    requires 0 < k && i <= |y|
    ensures XorRight(UnxorRight(y, k, i), k) == y[i..]
    decreases |y| - i
  {
    if i != |y| {
      RightRedone(y, k, i + 1);
      var high := UnxorRight(y, k, i + 1);
      var r := UnxorRight(y, k, i);
      forall j | 0 < j < |y| - i ensures XorRight(r, k)[j] == y[i..][j] {
        assert r[j] == high[j - 1];
        assert XorRight(high, k)[j - 1] == y[i + 1..][j - 1];
      }
    }
  }

  // ----- the generator

  function Mix(b: seq<bool>): (r: seq<bool>)
    ensures |r| == |b|
  {
    XorLeft(XorRight(XorLeft(b, 12), 25), 27)
  }

  function Unmix(y: seq<bool>): (r: seq<bool>)
    ensures |r| == |y|
  {
    UnxorLeft(UnxorRight(UnxorLeft(y, 27, |y|), 25, 0), 12, |y|)
  }

  function Xorshift64Star(state: Word): Word {
    WordOf(Mix(Bits(state, WIDTH))) * STAR % MODULUS
  }

  /** Runs the generator backwards. */
  function Unxorshift64Star(output: Word): Word {
    WordOf(Unmix(Bits(output * UNSTAR % MODULUS, WIDTH)))
  }

  lemma MixIsBijective(b: seq<bool>)
    ensures Unmix(Mix(b)) == b && Mix(Unmix(b)) == b
  {
    var n := |b|;
    var first, second := XorLeft(b, 12), XorRight(XorLeft(b, 12), 25);
    LeftUndone(second, 27, n);
    RightUndone(first, 25, 0);
    LeftUndone(b, 12, n);
    assert second[..n] == second && first[0..] == first && b[..n] == b;
    var third, fourth := UnxorLeft(b, 27, n), UnxorRight(UnxorLeft(b, 27, n), 25, 0);
    LeftRedone(fourth, 12, n);
    RightRedone(third, 25, 0);
    LeftRedone(b, 27, n);
    assert fourth[..n] == fourth && third[0..] == third;
  }

  lemma FactorUndone(n: Word, factor: nat, inverse: nat)
    requires factor * inverse % MODULUS == 1
    ensures (n * factor % MODULUS) * inverse % MODULUS == n
  {
    var q := n * factor / MODULUS;
    var k := factor * inverse / MODULUS;
    assert n * factor % MODULUS == n * factor - q * MODULUS;
    assert (n * factor % MODULUS) * inverse == n * (factor * inverse) - q * inverse * MODULUS;
    assert n * (factor * inverse) == n * (k * MODULUS + 1) == n + n * k * MODULUS;
    MultipleVanishes(n, n * k - q * inverse);
    assert (n * factor % MODULUS) * inverse == n + (n * k - q * inverse) * MODULUS;
  }

  lemma MultipleVanishes(n: Word, m: int)
    ensures (n + m * MODULUS) % MODULUS == n
  {
  }

  lemma StarUndone(n: Word)
    ensures (n * STAR % MODULUS) * UNSTAR % MODULUS == n
    ensures (n * UNSTAR % MODULUS) * STAR % MODULUS == n
  {
    assert STAR * UNSTAR % MODULUS == 1;
    FactorUndone(n, STAR, UNSTAR);
    FactorUndone(n, UNSTAR, STAR);
  }

  /** The generator permutes the 64-bit words. */
  lemma GeneratorIsBijective(w: Word)
    ensures Unxorshift64Star(Xorshift64Star(w)) == w
    ensures Xorshift64Star(Unxorshift64Star(w)) == w
  {
    WordFits();
    var mixed := Mix(Bits(w, WIDTH));
    StarUndone(WordOf(mixed));
    BitsOfValue(mixed);
    MixIsBijective(Bits(w, WIDTH));
    ValueOfBits(w, WIDTH);
    var n := w * UNSTAR % MODULUS;
    var unmixed := Unmix(Bits(n, WIDTH));
    BitsOfValue(unmixed);
    MixIsBijective(Bits(n, WIDTH));
    ValueOfBits(n, WIDTH);
    StarUndone(w);
  }

  lemma {:induction false} ZeroBits(zero: nat, width: nat)
    requires zero == 0
    ensures forall i | 0 <= i < width :: !Bits(zero, width)[i]
    decreases width
  {
    if width == 0 {
    } else {
      ZeroBits(zero / 2, width - 1);
    }
  }

  lemma {:induction false} ValueOfZeros(zero: seq<bool>)
    requires forall i | 0 <= i < |zero| :: !zero[i]
    ensures Value(zero) == 0
  {
    if zero == [] {
    } else {
      ValueOfZeros(zero[1..]);
    }
  }

  lemma MixOfZeros(zero: seq<bool>)
    requires forall i | 0 <= i < |zero| :: !zero[i]
    ensures Mix(zero) == zero
  {
    assert XorLeft(zero, 12) == zero;
    assert XorRight(zero, 25) == zero;
    assert XorLeft(zero, 27) == zero;
  }

  lemma BlankWord(b: seq<bool>)
    requires |b| == WIDTH && forall i | 0 <= i < |b| :: !b[i]
    ensures WordOf(Mix(b)) == 0
  {
    MixOfZeros(b);
    ValueOfZeros(b);
    hide Mix, Value;
  }

  lemma ZeroIsAFixedPoint(zero: Word)
    requires zero == 0
    ensures Xorshift64Star(zero) == zero
  {
    ZeroBits(zero, WIDTH);
    BlankWord(Bits(zero, WIDTH));
    hide Bits, Mix, WordOf;
  }

  lemma OnlyZeroGivesZero(w: Word, zero: Word)
    requires zero == 0
    ensures Xorshift64Star(w) == zero <==> w == zero
  {
    hide Xorshift64Star, Unxorshift64Star;
    ZeroIsAFixedPoint(zero);
    GeneratorIsBijective(w);
    GeneratorIsBijective(zero);
  }

  function Iterate(seed: Word, n: nat): Word {
    if n == 0 then seed else Xorshift64Star(Iterate(seed, n - 1))
  }

  /** The generator never falls into its fixed point from outside, nor leaves it. */
  lemma {:induction false} NeverReachesZero(seed: Word, n: nat)
    ensures Iterate(seed, n) == 0 <==> seed == 0
  {
    hide Xorshift64Star, Iterate;
    var zero: Word :| zero == 0;
    ZeroOnlyFromZero(seed, n, zero);
  }

  lemma {:induction false} ZeroOnlyFromZero(seed: Word, n: nat, zero: Word)
    requires zero == 0
    ensures Iterate(seed, n) == zero <==> seed == zero
    decreases n
  {
    hide Xorshift64Star;
    if n == 0 {
    } else {
      ZeroOnlyFromZero(seed, n - 1, zero);
      OnlyZeroGivesZero(Iterate(seed, n - 1), zero);
    }
  }

  /** Every word but zero is reached after any number of rounds, from a seed that is not zero. */
  lemma {:induction false} EveryWordIsReached(w: Word, n: nat) returns (seed: Word)
    requires w != 0
    ensures seed != 0 && Iterate(seed, n) == w
    decreases n
  {
    hide Xorshift64Star, Unxorshift64Star;
    if n == 0 {
      seed := w;
    } else {
      GeneratorIsBijective(w);
      var zero: Word :| zero == 0;
      OnlyZeroGivesZero(Unxorshift64Star(w), zero);
      seed := EveryWordIsReached(Unxorshift64Star(w), n - 1);
    }
  }

  lemma {:induction false} IterateFromNext(seed: Word, n: nat)
    ensures Iterate(Xorshift64Star(seed), n) == Iterate(seed, n + 1)
  {
    hide Xorshift64Star;
    if n == 0 {
      assert Iterate(seed, 1) == Xorshift64Star(Iterate(seed, 0));
    } else {
      IterateFromNext(seed, n - 1);
    }
  }
}

/** The in-place partial shuffle that picks which real sites ride along on an egress trial. */
module Sampler {
  import opened Sorting
  import opened Generator

  const SEED_OF_ZERO: Word := 0x9e37_79b9_7f4a_7c15

  function Swap(s: seq<nat>, i: nat, j: nat): (r: seq<nat>)
    requires i < |s| && j < |s|
    ensures |r| == |s|
  {
    s[i := s[j]][j := s[i]]
  }

  predicate InRange(draws: seq<nat>, room: nat) {
    |draws| <= room && forall k | 0 <= k < |draws| :: draws[k] < room - k
  }

  lemma InRangeTail(draws: seq<nat>, room: nat)
    requires draws != [] && InRange(draws, room)
    ensures InRange(draws[1..], room - 1)
  {
    forall k | 0 <= k < |draws[1..]| ensures draws[1..][k] < room - 1 - k {
      assert draws[k + 1] < room - (k + 1);
    }
  }

  /** Position `i`, `i + 1`, ... each trade places with the drawn position behind them. */
  function ApplyDraws(s: seq<nat>, i: nat, draws: seq<nat>): (r: seq<nat>)
    requires i <= |s| && InRange(draws, |s| - i)
    ensures |r| == |s|
    decreases |draws|
  {
    if draws == [] then s
    else
      InRangeTail(draws, |s| - i);
      ApplyDraws(Swap(s, i, i + draws[0]), i + 1, draws[1..])
  }

  function Draw(state: Word, room: nat): (d: nat)
    requires 0 < room
    ensures d < room
  {
    state % room
  }

  lemma InRangeCons(d: nat, rest: seq<nat>, room: nat)
    requires d < room && InRange(rest, room - 1)
    ensures InRange([d] + rest, room)
  {
    forall k | 0 <= k < |[d] + rest| ensures ([d] + rest)[k] < room - k {
      if 0 < k {
        assert rest[k - 1] < room - 1 - (k - 1);
      }
    }
  }

  /** The draws of positions `i..n` out of `len`, with the generator at `seed`. */
  function Draws(seed: Word, i: nat, n: nat, len: nat): (r: seq<nat>)
    requires i <= n <= len
    ensures |r| == n - i && InRange(r, len - i)
    decreases n - i
  {
    if i == n then []
    else
      var next := Xorshift64Star(seed);
      var rest := Draws(next, i + 1, n, len);
      InRangeCons(Draw(next, len - i), rest, len - i);
      [Draw(next, len - i)] + rest
  }

  function Identity(len: nat): (r: seq<nat>)
    ensures |r| == len && forall k | 0 <= k < len :: r[k] == k
  {
    seq(len, k => k)
  }

  function Min(a: nat, b: nat): nat {
    if a <= b then a else b
  }

  function StartSeed(seed: Word): Word {
    if seed == 0 then SEED_OF_ZERO else seed
  }

  function Sample(len: nat, count: nat, seed: Word): seq<nat> {
    var n := Min(count, len);
    ApplyDraws(Identity(len), 0, Draws(StartSeed(seed), 0, n, len))[..n]
  }

  /** One round of the shuffle spends the first of the remaining draws. */
  lemma RoundSpendsOneDraw(s: seq<nat>, i: nat, n: nat, state: Word)
    requires i < n <= |s|
    ensures ApplyDraws(s, i, Draws(state, i, n, |s|))
         == ApplyDraws(Swap(s, i, i + Draw(Xorshift64Star(state), |s| - i)), i + 1,
                       Draws(Xorshift64Star(state), i + 1, n, |s|))
  {
    hide Xorshift64Star, Draw;
    var draws := Draws(state, i, n, |s|);
    assert draws[1..] == Draws(Xorshift64Star(state), i + 1, n, |s|);
  }

  /** The shuffle itself, in place. */
  method ShufflePrefix(indices: array<nat>, n: nat, seed: Word)
    requires n <= indices.Length
    modifies indices
    ensures indices[..] == ApplyDraws(old(indices[..]), 0, Draws(seed, 0, n, indices.Length))
  {
    hide Xorshift64Star, Draw, Draws, ApplyDraws, InRange;
    var state: Word := seed;
    ghost var len := indices.Length;
    ghost var final := ApplyDraws(indices[..], 0, Draws(seed, 0, n, len));
    for i := 0 to n
      invariant ApplyDraws(indices[..], i, Draws(state, i, n, len)) == final
    {
      ghost var was := indices[..];
      RoundSpendsOneDraw(was, i, n, state);
      state := Xorshift64Star(state);
      var j := i + Draw(state, indices.Length - i);
      indices[i], indices[j] := indices[j], indices[i];
      assert indices[..] == Swap(was, i, j);
    }
    Exhausted(indices[..], n, state);
  }

  method ShuffleIndices(len: nat, count: nat, seed: Word) returns (picked: seq<nat>)
    ensures picked == Sample(len, count, seed)
  {
    if count == 0 || len == 0 {
      return [];
    }
    var n := if count <= len then count else len;
    var indices := new nat[len](k => k);
    assert indices[..] == Identity(len);
    ShufflePrefix(indices, n, StartSeed(seed));
    return indices[..n];
  }

  lemma Exhausted(s: seq<nat>, n: nat, state: Word)
    requires n <= |s|
    ensures ApplyDraws(s, n, Draws(state, n, n, |s|)) == s
  {
  }

  lemma SwapPermutes(s: seq<nat>, i: nat, j: nat)
    requires i < |s| && j < |s|
    ensures multiset(Swap(s, i, j)) == multiset(s)
  {
  }

  lemma ApplyFirst(s: seq<nat>, i: nat, draws: seq<nat>)
    requires i <= |s| && draws != [] && InRange(draws, |s| - i)
    ensures i + draws[0] < |s| && InRange(draws[1..], |Swap(s, i, i + draws[0])| - (i + 1))
    ensures ApplyDraws(s, i, draws) == ApplyDraws(Swap(s, i, i + draws[0]), i + 1, draws[1..])
  {
    InRangeTail(draws, |s| - i);
    hide Swap;
  }

  lemma ApplyNone(s: seq<nat>, i: nat, draws: seq<nat>)
    requires i <= |s| && draws == []
    ensures InRange(draws, |s| - i) && ApplyDraws(s, i, draws) == s
  {
  }

  lemma {:induction false} DrawsPermute(s: seq<nat>, i: nat, draws: seq<nat>)
    requires i <= |s| && InRange(draws, |s| - i)
    ensures multiset(ApplyDraws(s, i, draws)) == multiset(s)
    decreases |draws|
  {
    hide *;
    if draws == [] {
      ApplyNone(s, i, draws);
    } else {
      ApplyFirst(s, i, draws);
      SwapPermutes(s, i, i + draws[0]);
      DrawsPermute(Swap(s, i, i + draws[0]), i + 1, draws[1..]);
    }
  }

  lemma {:induction false} DrawsKeepFront(s: seq<nat>, i: nat, draws: seq<nat>)
    requires i <= |s| && InRange(draws, |s| - i)
    ensures ApplyDraws(s, i, draws)[..i] == s[..i]
    decreases |draws|
  {
    hide *;
    if draws == [] {
      ApplyNone(s, i, draws);
    } else {
      ApplyFirst(s, i, draws);
      SwapKeepsFront(s, i, i + draws[0]);
      DrawsKeepFront(Swap(s, i, i + draws[0]), i + 1, draws[1..]);
      FrontOfFront(ApplyDraws(s, i, draws), Swap(s, i, i + draws[0]), i);
    }
  }

  /** Draws rearrange what is there and never touch a position already filled. */
  lemma ApplyDrawsPermutes(s: seq<nat>, i: nat, draws: seq<nat>)
    requires i <= |s| && InRange(draws, |s| - i)
    ensures multiset(ApplyDraws(s, i, draws)) == multiset(s)
    ensures ApplyDraws(s, i, draws)[..i] == s[..i]
  {
    DrawsPermute(s, i, draws);
    DrawsKeepFront(s, i, draws);
    hide ApplyDraws;
  }

  lemma SwapKeepsFront(s: seq<nat>, i: nat, j: nat)
    requires i <= j < |s|
    ensures Swap(s, i, j)[..i] == s[..i]
  {
  }

  lemma FrontOfFront(r: seq<nat>, s: seq<nat>, i: nat)
    requires i < |r| && i < |s| && r[..i + 1] == s[..i + 1]
    ensures r[..i] == s[..i] && r[i] == s[i]
  {
    assert r[..i] == r[..i + 1][..i] && s[..i] == s[..i + 1][..i];
    assert r[i] == r[..i + 1][i] && s[i] == s[..i + 1][i];
  }

  /** Whatever the seed: as many distinct positions as asked for or available, all in range. */
  lemma SampleIsDistinct(len: nat, count: nat, seed: Word)
    ensures var picked := Sample(len, count, seed);
            && |picked| == Min(count, len)
            && Distinct(picked)
            && forall k | 0 <= k < |picked| :: picked[k] < len
  {
    var n := Min(count, len);
    var draws := Draws(StartSeed(seed), 0, n, len);
    var all := ApplyDraws(Identity(len), 0, draws);
    ApplyDrawsPermutes(Identity(len), 0, draws);
    PermutationDistinct(Identity(len), all);
    SameElements(Identity(len), all);
    forall k | 0 <= k < n ensures all[k] < len {
      assert all[k] in Identity(len);
    }
  }

  // ----- every draw can happen

  lemma {:induction false} DrawComesFromItsRound(seed: Word, i: nat, n: nat, len: nat, k: nat)
    requires i + k < n <= len
    ensures Draws(seed, i, n, len)[k] == Draw(Iterate(seed, k + 1), len - i - k)
    decreases k
  {
    hide Xorshift64Star, Draw;
    IterateFromNext(seed, k);
    if k == 0 {
      assert Iterate(Xorshift64Star(seed), 0) == Xorshift64Star(seed);
    } else {
      DrawComesFromItsRound(Xorshift64Star(seed), i + 1, n, len, k - 1);
    }
  }

  lemma WordThatDraws(room: nat, d: nat) returns (word: Word)
    requires d < room < MODULUS
    ensures word != 0 && Draw(word, room) == d
  {
    word := if d == 0 then room else d;
  }

  /** No position is fixed: for every round and every remaining place some seed draws that place. */
  lemma EveryDrawHappens(len: nat, count: nat, k: nat, d: nat) returns (seed: Word)
    requires k < Min(count, len) && d < len - k && len < MODULUS
    ensures seed != 0 && Draws(StartSeed(seed), 0, Min(count, len), len)[k] == d
  {
    hide Generator.Xorshift64Star, Draws, Iterate, Draw;
    var word := WordThatDraws(len - k, d);
    seed := EveryWordIsReached(word, k + 1);
    DrawComesFromItsRound(seed, 0, Min(count, len), len, k);
  }

  /** In particular every site is some seed's first pick. */
  lemma EverySiteIsPickedFirst(len: nat, count: nat, site: nat) returns (seed: Word)
    requires 0 < count && site < len < MODULUS
    ensures Sample(len, count, seed) != [] && Sample(len, count, seed)[0] == site
  {
    seed := EveryDrawHappens(len, count, 0, site);
    FirstPick(Identity(len), 0, Draws(StartSeed(seed), 0, Min(count, len), len));
    hide Draws, ApplyDraws;
  }

  /** No round of a sample starts from the generator's fixed point, whatever the seed. */
  lemma NoSeedSticks(seed: Word, n: nat)
    ensures Iterate(StartSeed(seed), n) != 0
    ensures seed != 0 ==> StartSeed(seed) == seed
  {
    NeverReachesZero(StartSeed(seed), n);
  }

  // ----- no bias in the shuffle itself: draws and arrangements are in bijection

  lemma {:induction false} FirstPick(s: seq<nat>, i: nat, draws: seq<nat>)
    requires i < |s| && draws != [] && InRange(draws, |s| - i)
    ensures ApplyDraws(s, i, draws)[i] == s[i + draws[0]]
  {
    InRangeTail(draws, |s| - i);
    var swapped := Swap(s, i, i + draws[0]);
    ApplyDrawsPermutes(swapped, i + 1, draws[1..]);
    assert ApplyDraws(s, i, draws)[i] == ApplyDraws(swapped, i + 1, draws[1..])[..i + 1][i] == swapped[i];
  }

  lemma SwapKeepsDistinct(s: seq<nat>, i: nat, j: nat)
    requires i < |s| && j < |s| && Distinct(s)
    ensures Distinct(Swap(s, i, j))
  {
    SwapPermutes(s, i, j);
    PermutationDistinct(s, Swap(s, i, j));
  }

  /** What the draws pick, one after the other. */
  function Picks(s: seq<nat>, i: nat, d: seq<nat>): (r: seq<nat>)
    requires i <= |s| && InRange(d, |s| - i)
    ensures |r| == |d|
    decreases |d|
  {
    if d == [] then []
    else
      InRangeTail(d, |s| - i);
      [s[i + d[0]]] + Picks(Swap(s, i, i + d[0]), i + 1, d[1..])
  }

  lemma PicksFirst(s: seq<nat>, i: nat, d: seq<nat>)
    requires i <= |s| && d != [] && InRange(d, |s| - i)
    ensures i + d[0] < |s| && InRange(d[1..], |Swap(s, i, i + d[0])| - (i + 1))
    ensures Picks(s, i, d) == [s[i + d[0]]] + Picks(Swap(s, i, i + d[0]), i + 1, d[1..])
  {
    InRangeTail(d, |s| - i);
    hide Swap;
  }

  /** They are what the shuffled positions hold. */
  lemma {:induction false} PicksAreTheSlice(s: seq<nat>, i: nat, d: seq<nat>)
    requires i <= |s| && InRange(d, |s| - i)
    ensures i + |d| <= |s| && ApplyDraws(s, i, d)[i..i + |d|] == Picks(s, i, d)
    decreases |d|
  {
    assert i + |d| <= |s|;
    if d == [] {
    } else {
      ApplyFirst(s, i, d);
      PicksFirst(s, i, d);
      FirstPick(s, i, d);
      hide *;
      PicksAreTheSlice(Swap(s, i, i + d[0]), i + 1, d[1..]);
      assert i + 1 + |d[1..]| == i + |d|;
      HeadAndTail(ApplyDraws(s, i, d), i, |d|);
    }
  }

  lemma HeadAndTail(r: seq<nat>, i: nat, n: nat)
    requires 0 < n && i + n <= |r|
    ensures r[i..i + n] == [r[i]] + r[i + 1..i + n]
  {
  }

  lemma SameElement(s: seq<nat>, a: nat, b: nat)
    requires Distinct(s) && a < |s| && b < |s| && s[a] == s[b]
    ensures a == b
  {
  }

  lemma SameHeadAndTail(a: nat, x: seq<nat>, b: nat, y: seq<nat>)
    requires [a] + x == [b] + y
    ensures a == b && x == y
  {
    assert ([a] + x)[0] == a && ([b] + y)[0] == b;
    assert ([a] + x)[1..] == x && ([b] + y)[1..] == y;
  }

  lemma SameParts(d: seq<nat>, e: seq<nat>)
    requires d != [] && e != [] && d[0] == e[0] && d[1..] == e[1..]
    ensures d == e
  {
    assert d == [d[0]] + d[1..] && e == [e[0]] + e[1..];
  }

  lemma {:induction false} PicksAreDetermined(s: seq<nat>, i: nat, d: seq<nat>, e: seq<nat>)
    requires i <= |s| && Distinct(s) && InRange(d, |s| - i) && InRange(e, |s| - i)
    requires Picks(s, i, d) == Picks(s, i, e)
    ensures d == e
    decreases |d|
  {
    if d == [] {
    } else {
      InRangeTail(d, |s| - i);
      InRangeTail(e, |s| - i);
      var left := Picks(Swap(s, i, i + d[0]), i + 1, d[1..]);
      var right := Picks(Swap(s, i, i + e[0]), i + 1, e[1..]);
      SameHeadAndTail(s[i + d[0]], left, s[i + e[0]], right);
      SameElement(s, i + d[0], i + e[0]);
      SwapKeepsDistinct(s, i, i + d[0]);
      hide Picks, Swap, Distinct, InRange;
      PicksAreDetermined(Swap(s, i, i + d[0]), i + 1, d[1..], e[1..]);
      SameParts(d, e);
    }
  }

  /** Different draws give different arrangements. */
  lemma DrawsAreDetermined(s: seq<nat>, i: nat, d: seq<nat>, e: seq<nat>)
    requires i <= |s| && Distinct(s) && InRange(d, |s| - i) && InRange(e, |s| - i) && |d| == |e|
    requires ApplyDraws(s, i, d)[i..i + |d|] == ApplyDraws(s, i, e)[i..i + |e|]
    ensures d == e
  {
    PicksAreTheSlice(s, i, d);
    PicksAreTheSlice(s, i, e);
    hide ApplyDraws, Picks;
    PicksAreDetermined(s, i, d, e);
  }

  /** Whatever else was still to be placed is behind the position just filled. */
  lemma OthersStayBehind(s: seq<nat>, i: nat, d: nat, x: nat)
    requires i + d < |s| && x in s[i..] && x != s[i + d]
    ensures x in Swap(s, i, i + d)[i + 1..]
  {
    var p :| 0 <= p < |s[i..]| && s[i..][p] == x;
    var swapped := Swap(s, i, i + d);
    var q := if p == 0 then d else p;
    assert s[i + p] == x && swapped[i + q] == x;
    assert swapped[i + 1..][q - 1] == x;
  }

  /** Every arrangement of distinct remaining elements comes from some draws. */
  lemma {:induction false} EveryArrangementIsDrawn(s: seq<nat>, i: nat, target: seq<nat>) returns (draws: seq<nat>)
    requires i <= |s| && Distinct(s) && Distinct(target) && |target| <= |s| - i
    requires forall x | x in target :: x in s[i..]
    ensures InRange(draws, |s| - i) && |draws| == |target|
    ensures ApplyDraws(s, i, draws)[i..i + |target|] == target
    decreases |target|
  {
    if target == [] {
      return [];
    }
    assert target[0] in s[i..];
    var d :| 0 <= d < |s[i..]| && s[i..][d] == target[0];
    var swapped := Swap(s, i, i + d);
    SwapKeepsDistinct(s, i, i + d);
    forall x | x in target[1..] ensures x in swapped[i + 1..] {
      OthersStayBehind(s, i, d, x);
    }
    var rest := EveryArrangementIsDrawn(swapped, i + 1, target[1..]);
    draws := [d] + rest;
    InRangeCons(d, rest, |s| - i);
    FirstPick(s, i, draws);
    DrawsUnfold(s, i, d, rest, target);
  }

  lemma DrawsUnfold(s: seq<nat>, i: nat, d: nat, rest: seq<nat>, target: seq<nat>)
    requires i < |s| && InRange([d] + rest, |s| - i) && InRange(rest, |s| - (i + 1))
    requires target != [] && |rest| == |target| - 1
    requires ApplyDraws(s, i, [d] + rest)[i] == target[0]
    requires ApplyDraws(Swap(s, i, i + d), i + 1, rest)[i + 1..i + |target|] == target[1..]
    ensures ApplyDraws(s, i, [d] + rest)[i..i + |target|] == target
  {
    var draws := [d] + rest;
    assert draws[0] == d && draws[1..] == rest;
    ApplyFirst(s, i, draws);
    hide *;
    HeadAndTail(ApplyDraws(s, i, draws), i, |target|);
    assert target == [target[0]] + target[1..];
  }
}
