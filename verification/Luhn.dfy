/** The check-digit test for card numbers, and which mistakes it catches (Annex B of ISO/IEC 7812-1). */
module Luhn {
  predicate IsDigit(c: char) { '0' <= c <= '9' }

  predicate AllDigits(s: string) { forall i | 0 <= i < |s| :: IsDigit(s[i]) }

  predicate IsNumber(s: string) { 13 <= |s| <= 19 && AllDigits(s) }

  function Value(c: char): (d: nat)
    requires IsDigit(c)
    ensures d <= 9
  {
    c as int - 48
  }

  function Doubled(d: nat): nat { if 2 * d > 9 then 2 * d - 9 else 2 * d }

  /** Counted from the right, every second digit is doubled. */
  predicate IsDoubled(s: string, i: nat)
    requires i < |s|
  {
    (|s| - 1 - i) % 2 == 1
  }

  function Share(s: string, i: nat): nat
    requires AllDigits(s) && i < |s|
  {
    if IsDoubled(s, i) then Doubled(Value(s[i])) else Value(s[i])
  }

  function SumFrom(s: string, i: nat): nat
    requires AllDigits(s) && i <= |s|
    decreases |s| - i
  {
    if i == |s| then 0 else Share(s, i) + SumFrom(s, i + 1)
  }

  predicate Valid(s: string) { IsNumber(s) && SumFrom(s, 0) % 10 == 0 }

  method LuhnValid(digits: string) returns (valid: bool)
    ensures valid <==> Valid(digits)
  {
    if !IsNumber(digits) {
      return false;
    }
    var sum := 0;
    var double := false;
    var i := |digits| - 1;
    while i >= 0
      invariant -1 <= i < |digits|
      invariant double <==> (|digits| - 1 - i) % 2 == 1
      invariant sum == SumFrom(digits, i + 1)
    {
      var d := digits[i] as int - 48;
      if double {
        d := d * 2;
        if d > 9 {
          d := d - 9;
        }
      }
      sum := sum + d;
      double := !double;
      i := i - 1;
    }
    valid := sum % 10 == 0;
  }

  /** Changing one digit moves the sum by the change in that digit's share. */
  lemma {:induction false} SumAfterUpdate(s: string, i: nat, c: char, from: nat)
    requires AllDigits(s) && IsDigit(c) && i < |s| && from <= |s|
    ensures AllDigits(s[i := c])
    ensures SumFrom(s[i := c], from) == SumFrom(s, from) + (if from <= i then Share(s[i := c], i) - Share(s, i) else 0)
    decreases |s| - from
  {
    if from < |s| {
      SumAfterUpdate(s, i, c, from + 1);
    }
  }

  /** Both shares tell any two digits apart, modulo ten. */
  lemma SharesDiffer(a: nat, b: nat)
    requires a <= 9 && b <= 9 && a != b
    ensures (a - b) % 10 != 0 && (Doubled(a) - Doubled(b)) % 10 != 0
  {
  }

  lemma Moved(sum: int, change: int)
    requires sum % 10 == 0
    ensures (sum + change) % 10 == 0 <==> change % 10 == 0
  {
  }

  /** Every wrong digit is caught. */
  lemma SingleErrorDetected(s: string, i: nat, c: char)
    requires Valid(s) && i < |s| && IsDigit(c) && c != s[i]
    ensures !Valid(s[i := c])
  {
    hide SumFrom, Doubled;
    SumAfterUpdate(s, i, c, 0);
    SharesDiffer(Value(c), Value(s[i]));
    Moved(SumFrom(s, 0), Share(s[i := c], i) - Share(s, i));
  }

  function Swapped(s: string, i: nat): string
    requires i + 1 < |s|
  {
    s[i := s[i + 1]][i + 1 := s[i]]
  }

  predicate ZeroBesideNine(a: char, b: char) { (a == '0' && b == '9') || (a == '9' && b == '0') }

  /** Swapping two neighbours goes unnoticed exactly when they are equal, or a 0 beside a 9. */
  lemma TranspositionDetected(s: string, i: nat)
    requires Valid(s) && i + 1 < |s|
    ensures Valid(Swapped(s, i)) <==> s[i] == s[i + 1] || ZeroBesideNine(s[i], s[i + 1])
  {
    var a, b := Value(s[i]), Value(s[i + 1]);
    SumAfterSwap(s, i);
    NeighbourSum(a, b);
    hide *;
    Moved(SumFrom(s, 0), SumFrom(Swapped(s, i), 0) - SumFrom(s, 0));
    ValidIs(s);
    ValidIs(Swapped(s, i));
    SameCase(s[i], s[i + 1]);
  }

  lemma ValidIs(s: string)
    requires IsNumber(s)
    ensures AllDigits(s) && (Valid(s) <==> SumFrom(s, 0) % 10 == 0)
  {
  }

  lemma SameCase(a: char, b: char)
    requires IsDigit(a) && IsDigit(b)
    ensures (Value(a) == Value(b) <==> a == b)
    ensures (Value(a) == 0 && Value(b) == 9) || (Value(a) == 9 && Value(b) == 0) <==> ZeroBesideNine(a, b)
  {
  }

  function Weighted(double: bool, d: nat): nat { if double then Doubled(d) else d }

  lemma SumAfterOne(s: string, i: nat, c: char, double: bool)
    requires AllDigits(s) && i < |s| && IsDigit(c) && double == IsDoubled(s, i)
    ensures AllDigits(s[i := c])
    ensures SumFrom(s[i := c], 0) == SumFrom(s, 0) + Weighted(double, Value(c)) - Weighted(double, Value(s[i]))
  {
    hide SumFrom, Doubled;
    SumAfterUpdate(s, i, c, 0);
  }

  lemma NextIsNot(s: string, t: string, i: nat)
    requires i + 1 < |s| == |t|
    ensures IsDoubled(t, i + 1) == !IsDoubled(s, i)
  {
  }

  lemma SwappedIs(s: string, i: nat)
    requires IsNumber(s) && i + 1 < |s|
    ensures var t := s[i := s[i + 1]];
            |t| == |s| && t[i + 1] == s[i + 1] && Swapped(s, i) == t[i + 1 := s[i]] && IsNumber(Swapped(s, i))
                && AllDigits(t)
    ensures AllDigits(s) && IsDigit(s[i]) && IsDigit(s[i + 1])
  {
  }

  lemma SumAfterSwap(s: string, i: nat)
    requires IsNumber(s) && i + 1 < |s|
    ensures IsNumber(Swapped(s, i))
    ensures var a, b, double := Value(s[i]), Value(s[i + 1]), IsDoubled(s, i);
            SumFrom(Swapped(s, i), 0) - SumFrom(s, 0)
            == Weighted(double, b) - Weighted(double, a) + Weighted(!double, a) - Weighted(!double, b)
  {
    var t := s[i := s[i + 1]];
    SwappedIs(s, i);
    NextIsNot(s, t, i);
    hide *;
    SumAfterOne(s, i, s[i + 1], IsDoubled(s, i));
    SumAfterOne(t, i + 1, s[i], !IsDoubled(s, i));
  }

  /** What doubling adds to a digit: different for any two but 0 and 9. */
  lemma Gain(d: nat)
    requires d <= 9
    ensures Doubled(d) - d == if d <= 4 then d else d - 9
  {
  }

  lemma SmallMultiple(x: int)
    requires -9 <= x <= 9
    ensures x % 10 == 0 <==> x == 0
  {
  }

  lemma NeighbourSum(a: nat, b: nat)
    requires a <= 9 && b <= 9
    ensures forall double ::
              (Weighted(double, b) - Weighted(double, a) + Weighted(!double, a) - Weighted(!double, b)) % 10 == 0 <==>
              a == b || (a == 0 && b == 9) || (a == 9 && b == 0)
  {
    Gain(a);
    Gain(b);
    hide Doubled;
    forall double
      ensures (Weighted(double, b) - Weighted(double, a) + Weighted(!double, a) - Weighted(!double, b)) % 10 == 0 <==>
              a == b || (a == 0 && b == 9) || (a == 9 && b == 0)
    {
      SmallMultiple(Weighted(double, b) - Weighted(double, a) + Weighted(!double, a) - Weighted(!double, b));
    }
  }

  /** A doubled digit counts as the sum of the digits of twice its value. */
  lemma DoubledIsDigitSum(d: nat)
    requires d <= 9
    ensures Doubled(d) == 2 * d / 10 + 2 * d % 10
  {
  }

  /**
   * The sum as it is worked out by hand, from the right: the last digit as it is, the one before it doubled,
   * and so on.
   */
  function FromRight(s: string, double: bool): nat
    requires AllDigits(s)
  {
    if s == "" then 0
    else
      var d := Value(s[|s| - 1]);
      (if double then 2 * d / 10 + 2 * d % 10 else d) + FromRight(s[..|s| - 1], !double)
  }

  lemma {:induction false} RestFromRight(s: string, k: nat)
    requires AllDigits(s) && k <= |s|
    ensures FromRight(s[..k], (|s| - k) % 2 == 1) + SumFrom(s, k) == SumFrom(s, 0)
  {
    if k > 0 {
      RestFromRight(s, k - 1);
      DoubledIsDigitSum(Value(s[k - 1]));
      assert s[..k][..k - 1] == s[..k - 1];
      assert IsDoubled(s, k - 1) <==> (|s| - k) % 2 == 1;
      assert (|s| - (k - 1)) % 2 == 1 <==> (|s| - k) % 2 != 1;
    }
  }

  /** A number is valid exactly when it has 13 to 19 digits and that sum ends in 0. */
  lemma ValidFromRight(s: string)
    ensures Valid(s) <==> 13 <= |s| <= 19 && AllDigits(s) && FromRight(s, false) % 10 == 0
  {
    if AllDigits(s) {
      RestFromRight(s, |s|);
      assert s[..|s|] == s;
    }
    hide FromRight, AllDigits;
  }

  function Digit(d: nat): char
    requires d <= 9
  {
    (d + 48) as char
  }

  function CheckDigit(prefix: string): (c: char)
    requires AllDigits(prefix)
    ensures IsDigit(c)
  {
    Digit((10 - SumFrom(prefix + ['0'], 0) % 10) % 10)
  }

  /** Every prefix has exactly one check digit. */
  lemma OneCheckDigit(prefix: string, c: char)
    requires 12 <= |prefix| <= 18 && AllDigits(prefix) && IsDigit(c)
    ensures Valid(prefix + [c]) <==> c == CheckDigit(prefix)
  {
    hide SumFrom, Doubled;
    var zero := prefix + ['0'];
    SumAfterUpdate(zero, |prefix|, c, 0);
    assert zero[|prefix| := c] == prefix + [c];
    Completes(SumFrom(zero, 0), Value(c));
  }

  lemma Completes(sum: nat, d: nat)
    requires d <= 9
    ensures (sum + d) % 10 == 0 <==> d == (10 - sum % 10) % 10
  {
  }
}
