/** The card number check: the Luhn loop (ISO/IEC 7812-1, annex B) and the errors it catches. */
module Luhn {

  predicate IsDigit(c: char) {
    '0' <= c <= '9'
  }

  function OneDigit(c: char): string {
    if IsDigit(c) then [c] else []
  }

  /** replace(/\D/g, '') */
  function Digits(s: string): string {
    if s == [] then [] else OneDigit(s[0]) + Digits(s[1..])
  }

  /** parseInt of one digit. */
  function Value(c: char): int {
    c as int - '0' as int
  }

  function Doubled(d: int): int {
    if 2 * d > 9 then 2 * d - 9 else 2 * d
  }

  predicate Odd(n: nat) {
    n > 0 && !Odd(n - 1)
  }

  /** What a digit adds with n digits to its right: every second one from the right is doubled. */
  function Share(c: char, n: nat): int {
    if Odd(n) then Doubled(Value(c)) else Value(c)
  }

  function LuhnSum(digits: string): int {
    if digits == [] then 0 else Share(digits[0], |digits| - 1) + LuhnSum(digits[1..])
  }

  predicate Valid(cardNumber: string) {
    13 <= |Digits(cardNumber)| <= 19 && LuhnSum(Digits(cardNumber)) % 10 == 0
  }

  lemma OneMoreDigit(digits: string, i: nat)
    requires i < |digits|
    ensures LuhnSum(digits[i..]) == Share(digits[i], |digits| - 1 - i) + LuhnSum(digits[i + 1..])
  {
    assert digits[i..][1..] == digits[i + 1..];
  }

  method IsValidCreditCard(cardNumber: string) returns (valid: bool)
    ensures valid <==> 13 <= |Digits(cardNumber)| <= 19 && LuhnSum(Digits(cardNumber)) % 10 == 0
  {
    var digits := Digits(cardNumber);
    if |digits| < 13 || |digits| > 19 {
      return false;
    }
    var sum := 0;
    var isEven := false;
    var i := |digits| - 1;
    while i >= 0
      invariant -1 <= i < |digits|
      invariant sum == LuhnSum(digits[i + 1..])
      invariant isEven == Odd(|digits| - 1 - i)
    {
      OneMoreDigit(digits, i);
      var digit := Value(digits[i]);
      if isEven {
        digit := digit * 2;
        if digit > 9 {
          digit := digit - 9;
        }
      }
      sum := sum + digit;
      isEven := !isEven;
      i := i - 1;
    }
    assert digits[0..] == digits;
    valid := sum % 10 == 0;
  }

  // ---- The sum, for any length -----------------------------------------------------

  lemma Associates(a: string, b: string, c: string)
    ensures a + b + c == a + (b + c)
  {
  }

  lemma {:induction false} DigitsConcat(a: string, b: string)
    ensures Digits(a + b) == Digits(a) + Digits(b)
  {
    if a == [] {
      assert a + b == b;
    } else {
      DigitsConcat(a[1..], b);
      assert (a + b)[1..] == a[1..] + b;
      Associates(OneDigit(a[0]), Digits(a[1..]), Digits(b));
    }
  }

  lemma {:induction false} AllDigits(s: string)
    ensures forall i :: 0 <= i < |Digits(s)| ==> IsDigit(Digits(s)[i])
  {
    if s != [] {
      AllDigits(s[1..]);
    }
  }

  /** Two numbers that agree before and after a stretch of equal length differ by the stretch alone. */
  lemma {:induction false} SumDifference(a: string, x: string, y: string, b: string)
    requires |x| == |y|
    ensures LuhnSum(a + x + b) - LuhnSum(a + y + b) == LuhnSum(x + b) - LuhnSum(y + b)
  {
    if a == [] {
      assert a + x + b == x + b && a + y + b == y + b;
    } else {
      assert (a + x + b)[1..] == a[1..] + x + b;
      assert (a + y + b)[1..] == a[1..] + y + b;
      SumDifference(a[1..], x, y, b);
    }
  }

  lemma ChangedSum(a: string, x: char, y: char, b: string)
    ensures LuhnSum(a + [x] + b) - LuhnSum(a + [y] + b) == Share(x, |b|) - Share(y, |b|)
  {
    SumDifference(a, [x], [y], b);
    assert ([x] + b)[1..] == b && ([y] + b)[1..] == b;
  }

  lemma SwappedSum(a: string, x: char, y: char, b: string)
    ensures LuhnSum(a + [x, y] + b) - LuhnSum(a + [y, x] + b)
         == Share(x, |b| + 1) + Share(y, |b|) - Share(y, |b| + 1) - Share(x, |b|)
  {
    SumDifference(a, [x, y], [y, x], b);
    assert ([x, y] + b)[1..] == [y] + b && ([y] + b)[1..] == b;
    assert ([y, x] + b)[1..] == [x] + b && ([x] + b)[1..] == b;
  }

  // ---- Errors caught ---------------------------------------------------------------

  lemma DigitsAroundOne(a: string, c: char, b: string)
    requires IsDigit(c)
    ensures Digits(a + [c] + b) == Digits(a) + [c] + Digits(b)
  {
    DigitsConcat(a + [c], b);
    DigitsConcat(a, [c]);
  }

  lemma SharesDiffer(x: char, y: char, n: nat)
    requires IsDigit(x) && IsDigit(y) && x != y
    ensures (Share(x, n) - Share(y, n)) % 10 != 0
  {
    assert -9 <= Share(x, n) - Share(y, n) <= 9 && Share(x, n) != Share(y, n);
  }

  /** Changing one digit of an accepted number, wherever it stands, gives a rejected one. */
  lemma SingleChangeRejected(a: string, x: char, y: char, b: string)
    requires IsDigit(x) && IsDigit(y) && x != y && Valid(a + [x] + b)
    ensures !Valid(a + [y] + b)
  {
    DigitsAroundOne(a, x, b);
    DigitsAroundOne(a, y, b);
    ChangeNoticed(Digits(a), x, y, Digits(b));
  }

  lemma ChangeNoticed(a: string, x: char, y: char, b: string)
    requires IsDigit(x) && IsDigit(y) && x != y && LuhnSum(a + [x] + b) % 10 == 0
    ensures LuhnSum(a + [y] + b) % 10 != 0
  {
    var change := Share(x, |b|) - Share(y, |b|);
    assert LuhnSum(a + [x] + b) - LuhnSum(a + [y] + b) == change by {
      ChangedSum(a, x, y, b);
    }
    assert change % 10 != 0 by {
      SharesDiffer(x, y, |b|);
    }
    SameResidue(LuhnSum(a + [x] + b), LuhnSum(a + [y] + b), change);
  }

  predicate ZeroAndNine(x: char, y: char) {
    (x == '0' && y == '9') || (x == '9' && y == '0')
  }

  lemma SwapDifference(x: char, y: char, n: nat)
    requires IsDigit(x) && IsDigit(y)
    ensures (Share(x, n + 1) + Share(y, n) - Share(y, n + 1) - Share(x, n)) % 10 == 0 <==> x == y || ZeroAndNine(x, y)
  {
    var f := Doubled(Value(x)) - Value(x) - (Doubled(Value(y)) - Value(y));
    assert -8 <= f <= 8;
    assert Share(x, n + 1) + Share(y, n) - Share(y, n + 1) - Share(x, n) == if Odd(n) then -f else f;
  }

  lemma SwapMissed(a: string, x: char, y: char, b: string)
    requires IsDigit(x) && IsDigit(y) && LuhnSum(a + [x, y] + b) % 10 == 0
    ensures LuhnSum(a + [y, x] + b) % 10 == 0 <==> x == y || ZeroAndNine(x, y)
  {
    var change := Share(x, |b| + 1) + Share(y, |b|) - Share(y, |b| + 1) - Share(x, |b|);
    assert LuhnSum(a + [x, y] + b) - LuhnSum(a + [y, x] + b) == change by {
      SwappedSum(a, x, y, b);
    }
    assert change % 10 == 0 <==> x == y || ZeroAndNine(x, y) by {
      SwapDifference(x, y, |b|);
    }
    SameResidue(LuhnSum(a + [x, y] + b), LuhnSum(a + [y, x] + b), change);
  }

  lemma SameResidue(p: int, q: int, change: int)
    requires p % 10 == 0 && p - q == change
    ensures q % 10 == 0 <==> change % 10 == 0
  {
  }

  lemma DigitsAround(a: string, c: char, gap: string, d: char, b: string)
    requires IsDigit(c) && IsDigit(d) && Digits(gap) == []
    ensures Digits(a + [c] + gap + [d] + b) == Digits(a) + [c, d] + Digits(b)
  {
    var before := a + [c] + gap;
    assert Digits(before) == Digits(a) + [c] by {
      DigitsAroundOne(a, c, gap);
    }
    DigitsAroundOne(before, d, b);
    assert Digits(a) + [c] + [d] == Digits(a) + [c, d];
  }

  /** Exchanging two neighbouring digits of an accepted number, whatever separators stand between them, is
      missed exactly when they are equal or are 0 and 9. */
  lemma NeighbourSwap(a: string, x: char, gap: string, y: char, b: string)
    requires IsDigit(x) && IsDigit(y) && Digits(gap) == [] && Valid(a + [x] + gap + [y] + b)
    ensures Valid(a + [y] + gap + [x] + b) <==> x == y || ZeroAndNine(x, y)
  {
    DigitsAround(a, x, gap, y, b);
    DigitsAround(a, y, gap, x, b);
    SwapMissed(Digits(a), x, y, Digits(b));
  }

  /** The digit that brings a sum to a multiple of ten. */
  function CheckValue(sum: int): int {
    (10 - sum % 10) % 10
  }

  lemma OneCheckValue(sum: int, v: int)
    requires 0 <= v <= 9
    ensures (sum + v) % 10 == 0 <==> v == CheckValue(sum)
  {
  }

  lemma LastDigit(digits: string, c: char)
    ensures LuhnSum(digits + [c]) == LuhnSum(digits + ['0']) + Value(c)
  {
    ChangedSum(digits, c, '0', []);
    assert digits + [c] + [] == digits + [c] && digits + ['0'] + [] == digits + ['0'];
  }

  /** A payload of 12 to 18 digits is completed to an accepted number by one digit and no other. */
  lemma OneCheckDigit(payload: string, c: char)
    requires 12 <= |Digits(payload)| <= 18 && IsDigit(c)
    ensures Valid(payload + [c]) <==> Value(c) == CheckValue(LuhnSum(Digits(payload) + ['0']))
  {
    var digits := Digits(payload);
    assert Digits(payload + [c]) == digits + [c] by {
      DigitsConcat(payload, [c]);
    }
    LastDigit(digits, c);
    OneCheckValue(LuhnSum(digits + ['0']), Value(c));
  }

  // ---- The sum in plain terms ------------------------------------------------------

  /** Characters other than the ten digits are dropped, the digits stay in order. */
  lemma DigitsExact(a: string, c: char, b: string)
    ensures Digits([]) == []
    ensures Digits(a + [c] + b) == Digits(a) + (if c in "0123456789" then [c] else []) + Digits(b)
  {
    DigitsConcat(a + [c], b);
    DigitsConcat(a, [c]);
    DigitExact(c);
  }

  lemma DigitExact(c: char)
    ensures c in "0123456789" <==> IsDigit(c)
    ensures Digits([c]) == if IsDigit(c) then [c] else []
  {
    if IsDigit(c) {
      assert "0123456789"[c as int - 48] == c;
    }
  }

  lemma OddExact(n: nat)
    ensures Odd(n) <==> n % 2 == 1
  {
  }

  lemma ShareExact(c: char, n: nat)
    requires IsDigit(c)
    ensures var v := c as int - 48;
            0 <= v <= 9 && Share(c, n) == if Odd(n) then 2 * v / 10 + 2 * v % 10 else v
  {
  }

  lemma SumStep(c: char, rest: string)
    ensures LuhnSum([c] + rest) == Share(c, |rest|) + LuhnSum(rest)
  {
    assert ([c] + rest)[1..] == rest;
  }

  /** From the right, the first, third, … digit counts as it is, the second, fourth, … as the digit sum of its
      double. */
  lemma SumExact(c: char, rest: string)
    requires IsDigit(c)
    ensures LuhnSum([]) == 0
    ensures |rest| % 2 == 0 ==> LuhnSum([c] + rest) == c as int - 48 + LuhnSum(rest)
    ensures |rest| % 2 == 1 ==> LuhnSum([c] + rest) == 2 * (c as int - 48) / 10 + 2 * (c as int - 48) % 10 + LuhnSum(rest)
  {
    OddExact(|rest|);
    SumStep(c, rest);
    ShareExact(c, |rest|);
  }

  /** Accepted are 13 to 19 digits with a sum divisible by ten. */
  lemma ValidExact(s: string)
    ensures Valid(s) <==> |Digits(s)| in {13, 14, 15, 16, 17, 18, 19} && exists n :: LuhnSum(Digits(s)) == 10 * n
  {
    if Valid(s) {
      assert LuhnSum(Digits(s)) == 10 * (LuhnSum(Digits(s)) / 10);
    }
  }
}
