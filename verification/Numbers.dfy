/**
 strtol in the two bases the program uses, and the printers it undoes.
 */
module Numbers {
  import opened CText

  /** isspace in the C locale. */
  predicate IsSpace(c: char) {
    c == ' ' || 9 as char <= c <= 13 as char
  }

  /** Value of a digit, or 36 for a character that is a digit in no base. */
  function DigitOf(c: char): (d: nat)
    ensures d <= 36
  {
    if '0' <= c <= '9' then (c - '0') as nat
    else if 'a' <= c <= 'z' then (c - 'a') as nat + 10
    else if 'A' <= c <= 'Z' then (c - 'A') as nat + 10
    else 36
  }

  predicate AllDigits(s: string, base: nat) {
    forall i :: 0 <= i < |s| ==> DigitOf(s[i]) < base
  }

  /** The number a digit string denotes, read after the digits worth `acc`. */
  function ValueFrom(s: string, base: nat, acc: nat): nat {
    if s == [] then acc else ValueFrom(s[1..], base, acc * base + DigitOf(s[0]))
  }

  function Value(s: string, base: nat): nat { ValueFrom(s, base, 0) }

  /** strtol's result, and whether it stopped at the terminating NUL. */
  datatype Parsed = Short | Whole(value: int)

  /**
   strtol on s[i..to]: `lead` before the sign, `any` after a digit, `acc` the digits so far.
   */
  function StrtolFrom(s: string, i: nat, to: nat, base: nat, lead: bool, negative: bool, any: bool, acc: nat): Parsed
    requires i <= to <= |s|
    decreases |s| - i
  {
    if i == to then
      if any then Whole(if negative then 0 - acc else acc) else Short
    else if lead && IsSpace(s[i]) then StrtolFrom(s, i + 1, to, base, true, false, false, 0)
    else if lead && (s[i] == '+' || s[i] == '-') then StrtolFrom(s, i + 1, to, base, false, s[i] == '-', false, 0)
    else if !any && base == 16 && i + 2 < to && s[i] == '0' && (s[i + 1] == 'x' || s[i + 1] == 'X')
            && DigitOf(s[i + 2]) < 16 then
      StrtolFrom(s, i + 2, to, base, false, negative, true, 0)
    else if DigitOf(s[i]) < base then
      StrtolFrom(s, i + 1, to, base, false, negative, true, acc * base + DigitOf(s[i]))
    else Short
  }

  /** strtol on s[i..to]. */
  function Strtol(s: string, i: nat, to: nat, base: nat): Parsed
    requires i <= to <= |s|
  {
    if i == to then Whole(0) else StrtolFrom(s, i, to, base, true, false, false, 0)
  }

  lemma {:induction false} StrtolInDigits(s: string, i: nat, digits: string, base: nat, acc: nat)
    requires AllDigits(digits, base) && OccursAt(s, i, digits)
    ensures StrtolFrom(s, i, i + |digits|, base, false, false, true, acc) == Whole(ValueFrom(digits, base, acc))
    decreases |digits|
  {
    if digits != [] {
      assert s[i + 0] == digits[0];
      forall j | 0 <= j < |digits| - 1
        ensures s[i + 1 + j] == digits[1..][j]
      {
        assert s[i + (j + 1)] == digits[j + 1];
      }
      StrtolInDigits(s, i + 1, digits[1..], base, acc * base + DigitOf(digits[0]));
    }
  }

  /** A string of digits alone is parsed whole, to the number it denotes. */
  lemma StrtolDigits(s: string, i: nat, digits: string, base: nat)
    requires base == 10 || base == 16
    requires digits != [] && AllDigits(digits, base) && OccursAt(s, i, digits)
    ensures Strtol(s, i, i + |digits|, base) == Whole(Value(digits, base))
  {
    assert s[i + 0] == digits[0] && DigitOf(digits[0]) < base;
    if |digits| > 2 { assert s[i + 1] == digits[1] && DigitOf(digits[1]) < base; }
    forall j | 0 <= j < |digits| - 1
      ensures s[i + 1 + j] == digits[1..][j]
    {
      assert s[i + (j + 1)] == digits[j + 1];
    }
    StrtolInDigits(s, i + 1, digits[1..], base, DigitOf(digits[0]));
  }

  lemma {:induction false} ValueFromConcat(a: string, b: string, base: nat, acc: nat)
    ensures ValueFrom(a + b, base, acc) == ValueFrom(b, base, ValueFrom(a, base, acc))
  {
    if a == [] {
      assert a + b == b;
    } else {
      assert (a + b)[1..] == a[1..] + b;
      ValueFromConcat(a[1..], b, base, acc * base + DigitOf(a[0]));
    }
  }

  function DigitChar(d: nat): (c: char)
    requires d < 16
    ensures DigitOf(c) == d
  {
    if d < 10 then d as char + '0' else (d - 10) as char + 'a'
  }

  /** %d for base 10, %lx for base 16. */
  function Print(n: nat, base: nat): (s: string)
    requires base == 10 || base == 16
    ensures s != [] && AllDigits(s, base)
    decreases n
  {
    if n < base then [DigitChar(n)] else Print(n / base, base) + [DigitChar(n % base)]
  }

  /** Reading a printed number gives it back. */
  lemma PrintStep(n: nat, base: nat)
    requires base == 10 || base == 16
    requires n >= base
    ensures Value(Print(n, base), base) == Value(Print(n / base, base), base) * base + n % base
    ensures n / base * base + n % base == n
  {
    var high, d := Print(n / base, base), DigitChar(n % base);
    ValueFromConcat(high, [d], base, 0);
    assert ValueFrom([d], base, Value(high, base)) == ValueFrom([], base, Value(high, base) * base + n % base);
    if base == 10 { assert n / 10 * 10 + n % 10 == n; } else { assert n / 16 * 16 + n % 16 == n; }
  }

  lemma {:induction false} PrintRoundTrip(n: nat, base: nat)
    requires base == 10 || base == 16
    ensures Strtol(Print(n, base), 0, |Print(n, base)|, base) == Whole(n)
    ensures Value(Print(n, base), base) == n
    decreases n
  {
    StrtolDigits(Print(n, base), 0, Print(n, base), base);
    if n >= base {
      PrintRoundTrip(n / base, base);
      PrintStep(n, base);
    } else {
      assert ValueFrom([DigitChar(n)], base, 0) == ValueFrom([], base, 0 * base + n);
    }
  }

  function Power(base: nat, k: nat): nat { if k == 0 then 1 else base * Power(base, k - 1) }

  /** A number prints in at most k digits exactly when it is below base^k. */
  lemma {:induction false} PrintLength(n: nat, base: nat, k: nat)
    requires base == 10 || base == 16
    requires k >= 1
    ensures |Print(n, base)| <= k <==> n < Power(base, k)
    decreases k
  {
    if k == 1 {
      assert Power(base, 1) == base * Power(base, 0);
      if n >= base { assert |Print(n / base, base)| >= 1; }
    } else {
      assert Power(base, k) == base * Power(base, k - 1);
      if n >= base {
        PrintLength(n / base, base, k - 1);
        var p := Power(base, k - 1);
        if base == 10 { assert n < 10 * p <==> n / 10 < p; } else { assert n < 16 * p <==> n / 16 < p; }
      } else {
        PowerPositive(base, k - 1);
      }
    }
  }

  lemma PowerPositive(base: nat, k: nat)
    requires base >= 1
    ensures Power(base, k) >= 1
  {
    if k > 0 { PowerPositive(base, k - 1); }
  }
}
