/**
 * Identifiers for the rows the server creates: a millisecond and eighty random bits in
 * twenty-six base-32 digits, so that text order is creation order.
 */
module Ulid {
  const ALPHABET := "0123456789ABCDEFGHJKMNPQRSTVWXYZ"
  const DIGITS: nat := 26
  const RANDOM_BITS: nat := 80
  const TIME_BITS: nat := 50

  lemma AlphabetRises(a: nat, b: nat)
    requires a < |ALPHABET| && b < |ALPHABET|
    ensures |ALPHABET| == 32 && (a < b <==> ALPHABET[a] < ALPHABET[b])
  {
    if a < b { Rises(a, b); }
    if b < a { Rises(b, a); }
  }

  lemma {:induction false} Rises(a: nat, b: nat)
    requires a < b < |ALPHABET|
    ensures ALPHABET[a] < ALPHABET[b]
    decreases b
  {
    assert forall k | 0 <= k < 31 :: ALPHABET[k] < ALPHABET[k + 1];
    if a + 1 < b { Rises(a, b - 1); }
  }

  function Pow(base: nat, exponent: nat): nat { if exponent == 0 then 1 else base * Pow(base, exponent - 1) }

  /** `value >> shift`. */
  function ShiftRight(value: nat, shift: nat): nat
  {
    if shift == 0 then value else ShiftRight(value / 2, shift - 1)
  }

  /** The digits for shifts 5 * (n - 1) down to zero: `(value >> shift) & 31`. */
  function Digits(value: nat, n: nat): (s: string)
    ensures |s| == n
  {
    seq(n, i requires 0 <= i < n => ALPHABET[ShiftRight(value, 5 * (n - 1 - i)) % 32])
  }

  function Encode(value: nat): string { Digits(value, DIGITS) }

  /** `value << shift`. */
  function ShiftLeft(value: nat, shift: nat): nat
    decreases shift, value
  {
    if shift == 0 then value else ShiftLeft(value * 2, shift - 1)
  }

  /** The random bits fill the places the shift has cleared, so `|` is a sum. */
  function NewUlid(milliseconds: nat, random: nat): string
    requires random < Pow(2, RANDOM_BITS)
  {
    Encode(ShiftLeft(milliseconds, RANDOM_BITS) + random)
  }

  /** Text order: the first difference decides, and a prefix comes first. */
  predicate Before(a: string, b: string)
  {
    if b == "" then false
    else if a == "" then true
    else a[0] < b[0] || (a[0] == b[0] && Before(a[1..], b[1..]))
  }

  // ------------------------------------------------------------------ shifts

  lemma {:induction false} ShiftsAdd(value: nat, a: nat, b: nat)
    ensures ShiftRight(value, a + b) == ShiftRight(ShiftRight(value, a), b)
  {
    if a > 0 { ShiftsAdd(value / 2, a - 1, b); }
  }

  /** Dropping five bits drops the last digit. */
  lemma ShiftFive(value: nat)
    ensures ShiftRight(value, 5) == value / 32
  {
    assert ShiftRight(value, 5) == value / 2 / 2 / 2 / 2 / 2 by {
      assert ShiftRight(value, 5) == ShiftRight(value / 2, 4);
      assert ShiftRight(value / 2, 4) == ShiftRight(value / 2 / 2, 3);
      assert ShiftRight(value / 2 / 2, 3) == ShiftRight(value / 2 / 2 / 2, 2);
      assert ShiftRight(value / 2 / 2 / 2, 2) == ShiftRight(value / 2 / 2 / 2 / 2, 1);
    }
  }

  lemma LastDigit(value: nat, n: nat)
    requires n > 0
    ensures Digits(value, n) == Digits(value / 32, n - 1) + [ALPHABET[value % 32]]
  {
    forall i | 0 <= i < n - 1 ensures Digits(value, n)[i] == Digits(value / 32, n - 1)[i] {
      ShiftsAdd(value, 5, 5 * (n - 2 - i));
      ShiftFive(value);
    }
    assert Digits(value, n)[n - 1] == ALPHABET[value % 32];
  }

  // --------------------------------------------------------------- text order

  lemma {:induction false} BeforeSnoc(a: string, b: string, x: char, y: char)
    requires |a| == |b|
    ensures Before(a + [x], b + [y]) <==> Before(a, b) || (a == b && x < y)
  {
    if a == "" {
      assert a + [x] == [x] && b + [y] == [y];
      assert !Before([x][1..], [y][1..]);
    } else {
      assert (a + [x])[1..] == a[1..] + [x] && (b + [y])[1..] == b[1..] + [y];
      BeforeSnoc(a[1..], b[1..], x, y);
      assert a == [a[0]] + a[1..] && b == [b[0]] + b[1..];
    }
  }

  /**
   * Up to n base-32 digits, the digits keep the value: the same text only for the same
   * value, and text order is number order.
   */
  lemma {:induction false} DigitsKeepOrder(a: nat, b: nat, n: nat)
    requires a < Pow(32, n) && b < Pow(32, n)
    ensures Digits(a, n) == Digits(b, n) <==> a == b
    ensures Before(Digits(a, n), Digits(b, n)) <==> a < b
  {
    if n > 0 {
      LastDigit(a, n);
      LastDigit(b, n);
      assert a / 32 < Pow(32, n - 1) && b / 32 < Pow(32, n - 1);
      DigitsKeepOrder(a / 32, b / 32, n - 1);
      AlphabetRises(a % 32, b % 32);
      AlphabetRises(b % 32, a % 32);
      BeforeSnoc(Digits(a / 32, n - 1), Digits(b / 32, n - 1), ALPHABET[a % 32], ALPHABET[b % 32]);
      SnocEqual(Digits(a / 32, n - 1), Digits(b / 32, n - 1), ALPHABET[a % 32], ALPHABET[b % 32]);
    }
  }

  lemma SnocEqual(a: string, b: string, x: char, y: char)
    requires |a| == |b|
    ensures a + [x] == b + [y] <==> a == b && x == y
  {
    if a + [x] == b + [y] {
      assert a == (a + [x])[..|a|] == (b + [y])[..|b|] == b;
      assert (a + [x])[|a|] == (b + [y])[|b|];
    }
  }

  lemma Regroup(x: nat, y: nat, z: nat)
    ensures x * (y * z) == (x * y) * z
  {}

  lemma {:induction false} PowAdds(base: nat, a: nat, b: nat)
    ensures Pow(base, a + b) == Pow(base, a) * Pow(base, b)
  {
    if a > 0 {
      PowAdds(base, a - 1, b);
      Regroup(base, Pow(base, a - 1), Pow(base, b));
    }
  }

  lemma {:induction false} ThirtyTwo(n: nat)
    ensures Pow(32, n) == Pow(2, 5 * n)
  {
    if n > 0 {
      ThirtyTwo(n - 1);
      PowAdds(2, 5, 5 * (n - 1));
      assert Pow(2, 5) == 32;
    }
  }

  /** The encoding is exact below 2^130: no two values share a text, and text order is theirs. */
  lemma EncodingIsExact(a: nat, b: nat)
    requires a < Pow(2, 130) && b < Pow(2, 130)
    ensures |Encode(a)| == 26
    ensures Encode(a) == Encode(b) <==> a == b
    ensures Before(Encode(a), Encode(b)) <==> a < b
  {
    ThirtyTwo(DIGITS);
    DigitsKeepOrder(a, b, DIGITS);
  }

  lemma {:induction false} NextShifted(value: nat, shift: nat)
    ensures ShiftLeft(value + 1, shift) == ShiftLeft(value, shift) + Pow(2, shift)
    decreases shift
  {
    if shift > 0 {
      NextShifted(value * 2, shift - 1);
      NextShifted(value * 2 + 1, shift - 1);
    }
  }

  lemma {:induction false} ShiftedInOrder(a: nat, b: nat, shift: nat)
    requires a < b
    ensures ShiftLeft(a, shift) + Pow(2, shift) <= ShiftLeft(b, shift)
    decreases b - a
  {
    NextShifted(a, shift);
    if a + 1 < b { ShiftedInOrder(a + 1, b, shift); }
  }

  lemma {:induction false} ShiftedPower(exponent: nat, shift: nat)
    ensures ShiftLeft(Pow(2, exponent), shift) == Pow(2, exponent + shift)
    decreases shift
  {
    if shift > 0 { ShiftedPower(exponent + 1, shift - 1); }
  }

  /** High bits above low bits: the result fits, and the high bits decide before the low ones. */
  lemma Composed(high: nat, high': nat, low: nat, low': nat, highBits: nat, lowBits: nat)
    requires high <= high' < Pow(2, highBits) && low < Pow(2, lowBits) && low' < Pow(2, lowBits)
    ensures ShiftLeft(high, lowBits) + low < Pow(2, highBits + lowBits)
    ensures high < high' ==> ShiftLeft(high, lowBits) + low < ShiftLeft(high', lowBits) + low'
  {
    ShiftedPower(highBits, lowBits);
    ShiftedInOrder(high, Pow(2, highBits), lowBits);
    if high < high' { ShiftedInOrder(high, high', lowBits); }
  }

  /** An identifier of an earlier millisecond sorts first, whatever the random bits. */
  lemma EarlierSortsFirst(earlier: nat, later: nat, random: nat, random': nat)
    requires earlier < later < Pow(2, TIME_BITS) && random < Pow(2, RANDOM_BITS) && random' < Pow(2, RANDOM_BITS)
    ensures Before(NewUlid(earlier, random), NewUlid(later, random'))
  {
    SortsFirst(earlier, later, random, random', TIME_BITS, RANDOM_BITS, DIGITS);
  }

  /** Two identifiers are equal only if their milliseconds and their random bits are. */
  lemma SameOnlyIfDrawnSame(earlier: nat, later: nat, random: nat, random': nat)
    requires earlier <= later < Pow(2, TIME_BITS) && random < Pow(2, RANDOM_BITS) && random' < Pow(2, RANDOM_BITS)
    requires NewUlid(earlier, random) == NewUlid(later, random')
    ensures earlier == later && random == random'
  {
    SameDigits(earlier, later, random, random', TIME_BITS, RANDOM_BITS, DIGITS);
  }

  lemma SortsFirst(earlier: nat, later: nat, random: nat, random': nat, high: nat, low: nat, digits: nat)
    requires earlier < later < Pow(2, high) && random < Pow(2, low) && random' < Pow(2, low)
    requires high + low == 5 * digits
    ensures Before(Digits(ShiftLeft(earlier, low) + random, digits), Digits(ShiftLeft(later, low) + random', digits))
  {
    Composed(earlier, later, random, random', high, low);
    Composed(later, later, random', random', high, low);
    ThirtyTwo(digits);
    DigitsKeepOrder(ShiftLeft(earlier, low) + random, ShiftLeft(later, low) + random', digits);
  }

  lemma SameDigits(earlier: nat, later: nat, random: nat, random': nat, high: nat, low: nat, digits: nat)
    requires earlier <= later < Pow(2, high) && random < Pow(2, low) && random' < Pow(2, low)
    requires high + low == 5 * digits
    requires Digits(ShiftLeft(earlier, low) + random, digits) == Digits(ShiftLeft(later, low) + random', digits)
    ensures earlier == later && random == random'
  {
    Fitting(earlier, random, high, low, digits);
    Fitting(later, random', high, low, digits);
    SameValue(ShiftLeft(earlier, low) + random, ShiftLeft(later, low) + random', digits);
    Composed(earlier, later, random, random', high, low);
  }

  lemma SameValue(a: nat, b: nat, digits: nat)
    requires a < Pow(32, digits) && b < Pow(32, digits) && Digits(a, digits) == Digits(b, digits)
    ensures a == b
  {
    DigitsKeepOrder(a, b, digits);
  }

  lemma Fitting(high: nat, low: nat, highBits: nat, lowBits: nat, digits: nat)
    requires high < Pow(2, highBits) && low < Pow(2, lowBits) && highBits + lowBits == 5 * digits
    ensures ShiftLeft(high, lowBits) + low < Pow(32, digits)
  {
    Composed(high, high, low, low, highBits, lowBits);
    ThirtyTwo(digits);
  }

  /** At 2^130 the leading bits are lost: the value no longer survives. */
  lemma TooWide(value: nat)
    ensures Encode(value + Pow(2, 130)) == Encode(value)
  {
    WrapsBits(value, 130, DIGITS);
  }

  lemma WrapsBits(value: nat, bits: nat, digits: nat)
    requires bits == 5 * digits
    ensures Digits(value + Pow(2, bits), digits) == Digits(value, digits)
  {
    ThirtyTwo(digits);
    Wraps(value, digits);
  }

  lemma CarriesOver(value: nat, more: nat)
    ensures (value + 32 * more) / 32 == value / 32 + more && (value + 32 * more) % 32 == value % 32
  {}

  lemma {:induction false} Wraps(value: nat, n: nat)
    ensures Digits(value + Pow(32, n), n) == Digits(value, n)
  {
    if n > 0 {
      var more := Pow(32, n - 1);
      CarriesOver(value, more);
      LastDigit(value, n);
      LastDigit(value + 32 * more, n);
      Wraps(value / 32, n - 1);
    }
  }
}
