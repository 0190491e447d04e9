/** Decimal numerals as Python prints them. */
module Numerals {

  type Digit = x: int | 0 <= x < 10

  function DigitChar(d: Digit): (c: char)
    ensures IsDigit(c) && DigitValue(c) == d
  {
    ['0', '1', '2', '3', '4', '5', '6', '7', '8', '9'][d]
  }

  predicate IsDigit(c: char) {
    '0' <= c <= '9'
  }

  function DigitValue(c: char): Digit
    requires IsDigit(c)
  {
    c as int - '0' as int
  }

  predicate AllDigits(s: string) {
    forall i | 0 <= i < |s| :: IsDigit(s[i])
  }

  /** `str(n)`. */
  function Show(n: nat): string {
    if n < 10 then [DigitChar(n)] else Show(n / 10) + [DigitChar(n % 10)]
  }

  /** `f"{n:02d}"` for the numbers below 100. */
  function Pad2(n: nat): (s: string)
    requires n < 100
    ensures |s| == 2 && AllDigits(s)
  {
    [DigitChar(n / 10), DigitChar(n % 10)]
  }

  /** The number a digit string denotes, most significant digit first. */
  function Value(s: string): nat
    requires AllDigits(s)
  {
    if s == [] then 0 else Value(s[..|s| - 1]) * 10 + DigitValue(s[|s| - 1])
  }

  lemma {:induction false} ShowIsDigits(n: nat)
    ensures AllDigits(Show(n)) && Show(n) != []
  {
    if n < 10 {
    } else {
      ShowIsDigits(n / 10);
    }
  }

  lemma {:induction false} ValueOfShow(n: nat)
    ensures AllDigits(Show(n)) && Value(Show(n)) == n
  {
    ShowIsDigits(n);
    if n < 10 {
    } else {
      ValueOfShow(n / 10);
      assert Show(n)[..|Show(n)| - 1] == Show(n / 10);
    }
  }

  lemma ShowInjective(m: nat, n: nat)
    requires Show(m) == Show(n)
    ensures m == n
  {
    ValueOfShow(m);
    ValueOfShow(n);
  }

  lemma SplitHundreds(n: nat)
    ensures n / 10 / 10 == n / 100 && n / 10 % 10 == n % 100 / 10 && n % 10 == n % 100 % 10
  {
  }

  lemma LastOfShow(n: nat)
    ensures Show(n) != "" && Show(n)[|Show(n)| - 1] == DigitChar(n % 10)
  {
  }

  lemma EndsInTwo(s: string, c: char)
    requires s != ""
    ensures (s + [c])[|s + [c]| - 2..] == [s[|s| - 1], c]
  {
  }

  /** `str(n)[-2:]` is the zero-padded residue modulo 100, once there are two digits. */
  lemma LastTwoOfShow(n: nat)
    requires n >= 10
    ensures |Show(n)| >= 2 && Show(n)[|Show(n)| - 2..] == Pad2(n % 100)
  {
    SplitHundreds(n);
    LastOfShow(n / 10);
    EndsInTwo(Show(n / 10), DigitChar(n % 10));
  }

  lemma Pad2Injective(m: nat, n: nat)
    requires m < 100 && n < 100
    ensures Pad2(m) == Pad2(n) <==> m == n
  {
  }

  lemma ValueOfPad2(n: nat)
    requires n < 100
    ensures AllDigits(Pad2(n)) && Value(Pad2(n)) == n
  {
  }

  function Pow10(n: nat): nat {
    if n == 0 then 1 else 10 * Pow10(n - 1)
  }

  lemma {:induction false} ValueConcat(a: string, b: string)
    requires AllDigits(a) && AllDigits(b)
    ensures AllDigits(a + b) && Value(a + b) == Value(a) * Pow10(|b|) + Value(b)
    decreases |b|
  {
    if b == "" {
      assert a + b == a;
    } else {
      var front := b[..|b| - 1];
      ValueConcat(a, front);
      assert (a + b)[..|a + b| - 1] == a + front;
      assert Value(a + b) == Value(a + front) * 10 + DigitValue(b[|b| - 1]);
      assert (Value(a) * Pow10(|front|)) * 10 == Value(a) * Pow10(|b|);
    }
  }

  lemma HundredTimes(n: nat)
    ensures Pow10(n + 2) == 100 * Pow10(n)
    ensures Pow10(0) == 1 && Pow10(1) == 10 && Pow10(2) == 100
  {
    assert Pow10(n + 2) == 10 * Pow10(n + 1) == 100 * Pow10(n);
    assert Pow10(1) == 10 * Pow10(0) && Pow10(2) == 10 * Pow10(1);
  }

  /** Zeros at the end only scale. */
  lemma {:induction false} ValueOfZeros(s: string)
    requires forall i | 0 <= i < |s| :: s[i] == '0'
    ensures AllDigits(s) && Value(s) == 0
  {
    if s == "" {
    } else {
      ValueOfZeros(s[..|s| - 1]);
    }
  }

  /** A printed number has no leading zero. */
  lemma {:induction false} ShowIsCanonical(n: nat)
    ensures Show(n) != "" && (|Show(n)| > 1 ==> Show(n)[0] != '0')
  {
    if n < 10 {
    } else {
      ShowIsCanonical(n / 10);
      if |Show(n / 10)| == 1 {
        assert n / 10 < 10 by {
          if n / 10 >= 10 {
            ShowIsCanonical(n / 10 / 10);
          }
        }
        assert DigitValue(DigitChar(n / 10)) == n / 10 > 0;
      }
    }
  }
}
