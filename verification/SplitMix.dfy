/**
 * The generator's pseudo-random numbers: SplitMix64. Words are the numbers below 2^64;
 * shifts and exclusive-or act on their bits, lowest first.
 */
module SplitMix {

  const WORDS: nat := 0x1_0000_0000_0000_0000
  const GAMMA: nat := 0x9E3779B97F4A7C15
  const FIRST: nat := 0xBF58476D1CE4E5B9
  const SECOND: nat := 0x94D049BB133111EB

  /** What undoes multiplication by each constant, for products that wrap around. */
  const GAMMA_INVERSE: nat := 0xF1DE83E19937733D
  const FIRST_INVERSE: nat := 0x96DE1B173F119089
  const SECOND_INVERSE: nat := 0x319642B2D24D8EC3

  // --------------------------------------------------------------------- bits

  function Pow2(n: nat): nat { if n == 0 then 1 else 2 * Pow2(n - 1) }

  function ToNat(bits: seq<bool>): nat
  {
    if bits == [] then 0 else (if bits[0] then 1 else 0) + 2 * ToNat(bits[1..])
  }

  function Bits(n: nat, length: nat): (b: seq<bool>)
    ensures |b| == length
  {
    if length == 0 then [] else [n % 2 == 1] + Bits(n / 2, length - 1)
  }

  lemma {:induction false} ToNatBound(bits: seq<bool>)
    ensures ToNat(bits) < Pow2(|bits|)
  {
    if bits != [] { ToNatBound(bits[1..]); }
  }

  lemma {:induction false} BitsOfNat(n: nat, length: nat)
    requires n < Pow2(length)
    ensures ToNat(Bits(n, length)) == n
  {
    if length > 0 { BitsOfNat(n / 2, length - 1); }
  }

  lemma {:induction false} BitsOfBits(bits: seq<bool>)
    ensures Bits(ToNat(bits), |bits|) == bits
  {
    if bits != [] {
      BitsOfBits(bits[1..]);
      assert bits == [bits[0]] + bits[1..];
    }
  }

  lemma {:induction false} Pow2Sum(a: nat, b: nat)
    ensures Pow2(a + b) == Pow2(a) * Pow2(b)
  {
    if a > 0 { Pow2Sum(a - 1, b); }
  }

  lemma WordsArePow2()
    ensures Pow2(64) == WORDS
  {
    assert Pow2(4) == 16;
    Pow2Sum(4, 4);
    Pow2Sum(8, 8);
    Pow2Sum(16, 16);
    Pow2Sum(32, 32);
  }

  // --------------------------------------------------- x ^ (x >> k), and back

  /** The bits of `x ^ (x >> k)`. */
  function XorShifted(bits: seq<bool>, k: nat): seq<bool>
  {
    seq(|bits|, i requires 0 <= i < |bits| => bits[i] != (i + k < |bits| && bits[i + k]))
  }

  /** The i-th bit before the shift: the bits from the top down determine it. */
  function BitBefore(bits: seq<bool>, k: nat, i: nat): bool
    requires k > 0 && i < |bits|
    decreases |bits| - i
  {
    bits[i] != (i + k < |bits| && BitBefore(bits, k, i + k))
  }

  function Unshifted(bits: seq<bool>, k: nat): seq<bool>
    requires k > 0
  {
    seq(|bits|, i requires 0 <= i < |bits| => BitBefore(bits, k, i))
  }

  lemma {:induction false} BitOfShifted(bits: seq<bool>, k: nat, i: nat)
    requires k > 0 && i < |bits|
    ensures BitBefore(XorShifted(bits, k), k, i) == bits[i]
    decreases |bits| - i
  {
    if i + k < |bits| { BitOfShifted(bits, k, i + k); }
  }

  lemma ShiftUndone(bits: seq<bool>, k: nat)
    requires k > 0
    ensures Unshifted(XorShifted(bits, k), k) == bits
    ensures XorShifted(Unshifted(bits, k), k) == bits
  {
    forall i | 0 <= i < |bits| ensures Unshifted(XorShifted(bits, k), k)[i] == bits[i] {
      BitOfShifted(bits, k, i);
    }
  }

  function Shift(x: nat, k: nat): nat { ToNat(XorShifted(Bits(x, 64), k)) }

  function Unshift(x: nat, k: nat): nat
    requires k > 0
  {
    ToNat(Unshifted(Bits(x, 64), k))
  }

  lemma ShiftBack(x: nat, k: nat)
    requires x < WORDS && k > 0
    ensures Shift(x, k) < WORDS && Unshift(x, k) < WORDS
    ensures Unshift(Shift(x, k), k) == x && Shift(Unshift(x, k), k) == x
  {
    WordsArePow2();
    var bits := Bits(x, 64);
    BitsOfNat(x, 64);
    ToNatBound(XorShifted(bits, k));
    ToNatBound(Unshifted(bits, k));
    BitsOfBits(XorShifted(bits, k));
    BitsOfBits(Unshifted(bits, k));
    ShiftUndone(bits, k);
  }

  // -------------------------------------------- wrapping products, and back

  function Times(x: nat, factor: nat): nat { x * factor % WORDS }

  lemma ModTimes(x: nat, y: nat)
    ensures (x % WORDS) * y % WORDS == x * y % WORDS
  {
    var q := x / WORDS;
    var r := x % WORDS;
    assert x == q * WORDS + r;
    assert x * y == (q * y) * WORDS + r * y;
    ModPlusMultiple(r * y, q * y);
  }

  lemma {:induction false} ModPlusMultiple(r: nat, q: nat)
    ensures (q * WORDS + r) % WORDS == r % WORDS
  {
    if q > 0 {
      ModPlusMultiple(r, q - 1);
      assert (q * WORDS + r) == ((q - 1) * WORDS + r) + WORDS;
    }
  }

  lemma TimesBack(x: nat, factor: nat, inverse: nat)
    requires x < WORDS && factor * inverse % WORDS == 1
    ensures Times(Times(x, factor), inverse) == x
  {
    ModTimes(x * factor, inverse);
    var q := factor * inverse / WORDS;
    assert factor * inverse == q * WORDS + 1;
    assert x * factor * inverse == (x * q) * WORDS + x by {
      assert x * factor * inverse == x * (factor * inverse);
      assert x * (q * WORDS + 1) == x * q * WORDS + x;
    }
    ModPlusMultiple(x, x * q);
  }

  lemma Inverses()
    ensures GAMMA * GAMMA_INVERSE % WORDS == 1
    ensures FIRST * FIRST_INVERSE % WORDS == 1
    ensures SECOND * SECOND_INVERSE % WORDS == 1
  {}

  // ------------------------------------------------------------------ the output

  /** The output of a state. */
  function Mix(state: nat): nat
  {
    Shift(Times(Shift(Times(Shift(state, 30), FIRST), 27), SECOND), 31)
  }

  function Unmix(output: nat): nat
  {
    Unshift(Times(Unshift(Times(Unshift(output, 31), SECOND_INVERSE), 27), FIRST_INVERSE), 30)
  }

  /** The output function is a bijection on words: each output comes from exactly one state. */
  lemma MixIsBijection(w: nat)
    requires w < WORDS
    ensures Mix(w) < WORDS && Unmix(w) < WORDS
    ensures Unmix(Mix(w)) == w && Mix(Unmix(w)) == w
  {
    Inverses();
    ShiftBack(w, 30);
    var a := Shift(w, 30);
    TimesBack(a, FIRST, FIRST_INVERSE);
    var b := Times(a, FIRST);
    ShiftBack(b, 27);
    var c := Shift(b, 27);
    TimesBack(c, SECOND, SECOND_INVERSE);
    var d := Times(c, SECOND);
    ShiftBack(d, 31);

    ShiftBack(w, 31);
    var e := Unshift(w, 31);
    TimesBack(e, SECOND_INVERSE, SECOND);
    var f := Times(e, SECOND_INVERSE);
    ShiftBack(f, 27);
    var g := Unshift(f, 27);
    TimesBack(g, FIRST_INVERSE, FIRST);
    var h := Times(g, FIRST_INVERSE);
    ShiftBack(h, 30);
  }

  /** The state after some draws. */
  function StateAfter(seed: nat, draws: nat): nat
    decreases draws
  {
    if draws == 0 then seed % WORDS else (StateAfter(seed, draws - 1) + GAMMA) % WORDS
  }

  lemma {:induction false} StateSum(seed: nat, draws: nat)
    ensures StateAfter(seed, draws) == (seed + draws * GAMMA) % WORDS
    decreases draws
  {
    if draws > 0 {
      StateSum(seed, draws - 1);
      OneMoreStep(seed + (draws - 1) * GAMMA);
      assert seed + draws * GAMMA == seed + (draws - 1) * GAMMA + GAMMA;
    }
  }

  lemma OneMoreStep(x: nat)
    ensures (x % WORDS + GAMMA) % WORDS == (x + GAMMA) % WORDS
  {
    var q := x / WORDS;
    assert x + GAMMA == q * WORDS + (x % WORDS + GAMMA);
    ModPlusMultiple(x % WORDS + GAMMA, q);
  }

  function Draw(seed: nat, n: nat): nat { Mix(StateAfter(seed, n)) }

  lemma ModDifference(a: nat, b: nat)
    requires a <= b && a % WORDS == b % WORDS
    ensures (b - a) % WORDS == 0
  {
    var p, q := a / WORDS, b / WORDS;
    assert b - a == (q - p) * WORDS;
    ModPlusMultiple(0, q - p);
  }

  /** Fewer than 2^64 increments never add up to nothing. */
  lemma IncrementsMove(steps: nat)
    requires 0 < steps < WORDS
    ensures steps * GAMMA % WORDS != 0
  {
    Inverses();
    TimesBack(steps, GAMMA, GAMMA_INVERSE);
  }

  lemma StepsBetween(seed: nat, i: nat, j: nat)
    requires i < j
    ensures (seed + j * GAMMA) - (seed + i * GAMMA) == (j - i) * GAMMA
  {}

  /** The state step has full period. */
  lemma StatesDiffer(seed: nat, i: nat, j: nat)
    requires i < j && j - i < WORDS
    ensures StateAfter(seed, i) != StateAfter(seed, j)
  {
    hide StateAfter;
    StateSum(seed, i);
    StateSum(seed, j);
    StepsBetween(seed, i, j);
    IncrementsMove(j - i);
    if StateAfter(seed, i) == StateAfter(seed, j) { ModDifference(seed + i * GAMMA, seed + j * GAMMA); }
  }

  /** No output repeats within 2^64 draws, whatever the seed. */
  lemma DrawsDiffer(seed: nat, i: nat, j: nat)
    requires i < j && j - i < WORDS
    ensures Draw(seed, i) != Draw(seed, j)
  {
    StatesDiffer(seed, i, j);
    MixIsBijection(StateAfter(seed, i));
    MixIsBijection(StateAfter(seed, j));
  }

  class Rng {
    var state: nat
    ghost const seed: nat
    ghost var draws: nat

    ghost predicate Valid()
      reads this
    {
      state == StateAfter(seed, draws)
    }

    constructor (from: int)
      ensures Valid() && seed == from % WORDS && draws == 0
    {
      state := from % WORDS;
      seed := from % WORDS;
      draws := 0;
    }

    method Next() returns (r: nat)
      requires Valid()
      modifies this
      ensures Valid() && draws == old(draws) + 1 && r == Draw(seed, draws) && r < WORDS
    {
      hide Times;
      hide Shift;
      state := (state + GAMMA) % WORDS;
      draws := draws + 1;
      var z := state;
      z := Times(Shift(z, 30), FIRST);
      z := Times(Shift(z, 27), SECOND);
      r := Shift(z, 31);
      MixIsBijection(state);
    }

    method Below(n: nat) returns (r: nat)
      requires Valid() && n > 0
      modifies this
      ensures Valid() && draws == old(draws) + 1 && r < n && r == Draw(seed, draws) % n
    {
      hide Draw;
      var x := Next();
      r := x % n;
    }
  }
}
