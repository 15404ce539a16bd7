/**
 * The two numeric conversions the ARM fatal-error reporter asks printk for:
 * `%d` applied to the unsigned reason code, and `%x` applied to the faulting
 * program counter. The printk implementation itself is not part of this
 * model; these functions state the text each conversion is meant to produce
 * on a 32-bit ARM target, together with the parsers that read it back.
 */
module PrintkFormat {

  /** An `unsigned int` on ARM Cortex-M: 32 bits wide. */
  newtype u32 = x: int | 0 <= x < 0x1_0000_0000

  /** A digit of the given base in printk's alphabet: 0-9, then lower-case a-f. */
  predicate IsDigit(c: char, base: nat)
  {
    ('0' <= c <= '9' && (c as int - '0' as int) < base) ||
    ('a' <= c <= 'f' && (c as int - 'a' as int) + 10 < base)
  }

  /** The character for digit value `d`, lower case above nine. */
  function DigitChar(d: nat): (c: char)
    requires d < 16
    ensures IsDigit(c, d + 1)
    ensures c == '0' <==> d == 0
  {
    if d < 10 then ('0' as int + d) as char else ('a' as int + d - 10) as char
  }

  /** The value of one digit character; zero for anything that is not a digit. */
  function DigitValue(c: char): nat
  {
    if '0' <= c <= '9' then c as int - '0' as int
    else if 'a' <= c <= 'f' then c as int - 'a' as int + 10
    else 0
  }

  /** Unpadded rendering of `n` in `base`, most significant digit first. */
  function Digits(n: nat, base: nat): (s: string)
    requires 2 <= base <= 16
    ensures |s| >= 1
    ensures forall i :: 0 <= i < |s| ==> IsDigit(s[i], base)
    ensures s[0] == '0' ==> n == 0
    ensures n == 0 ==> s == "0"
    ensures |s| > 1 ==> s[0] != '0'
    decreases n
  {
    if n < base then [DigitChar(n)]
    else
      DivMod(n, base);
      Digits(n / base, base) + [DigitChar(n % base)]
  }

  /** Reads a string of digits back as a number (the inverse of Digits). */
  function Value(s: string, base: nat): nat
  {
    if s == [] then 0 else Value(s[..|s| - 1], base) * base + DigitValue(s[|s| - 1])
  }

  function Pow(base: nat, k: nat): nat
  {
    if k == 0 then 1 else base * Pow(base, k - 1)
  }

  lemma DivMod(n: nat, base: nat)
    requires 2 <= base
    ensures n == (n / base) * base + n % base
    ensures 0 <= n % base < base
    ensures n >= base ==> 1 <= n / base < n
  {
  }

  lemma QuotientBound(n: nat, base: nat, p: nat)
    requires 2 <= base && n < base * p
    ensures n / base < p
  {
    DivMod(n, base);
    var q := n / base;
    if q >= p {
      MulMonotone(q, p, base);
    }
  }

  lemma MulMonotone(a: nat, b: nat, c: nat)
    requires a >= b
    ensures a * c >= b * c
  {
  }

  /** Reading back the unpadded rendering gives the number rendered. */
  lemma {:induction false} DigitsRoundTrip(n: nat, base: nat)
    requires 2 <= base <= 16
    ensures Value(Digits(n, base), base) == n
  {
    var s := Digits(n, base);
    if n < base {
      assert s[..|s| - 1] == [];
      assert DigitValue(DigitChar(n)) == n;
    } else {
      var q, r := n / base, n % base;
      DivMod(n, base);
      var prefix := Digits(q, base);
      assert s == prefix + [DigitChar(r)];
      assert s[..|s| - 1] == prefix;
      assert DigitValue(s[|s| - 1]) == r;
      DigitsRoundTrip(q, base);
      assert Value(s, base) == q * base + r;
    }
  }

  /** Distinct numbers never render to the same text. */
  lemma DigitsInjective(m: nat, n: nat, base: nat)
    requires 2 <= base <= 16
    ensures Digits(m, base) == Digits(n, base) ==> m == n
  {
    DigitsRoundTrip(m, base);
    DigitsRoundTrip(n, base);
  }

  /** A number below base^k needs at most k digits. */
  lemma {:induction false} DigitsLength(n: nat, base: nat, k: nat)
    requires 2 <= base <= 16 && 1 <= k
    requires n < Pow(base, k)
    ensures |Digits(n, base)| <= k
  {
    if n >= base {
      assert Pow(base, 1) == base;
      assert k >= 2;
      var p := Pow(base, k - 1);
      assert Pow(base, k) == base * p;
      QuotientBound(n, base, p);
      DigitsLength(n / base, base, k - 1);
    }
  }

  /** `%x` of a 32-bit value: lower-case hexadecimal, no padding, no prefix. */
  function Hex(x: u32): (s: string)
    ensures 1 <= |s| <= 8
    ensures forall i :: 0 <= i < |s| ==> IsDigit(s[i], 16)
    ensures Value(s, 16) == x as int
    ensures s[0] == '0' ==> x == 0
    ensures x == 0 ==> s == "0"
    ensures |s| > 1 ==> s[0] != '0'
  {
    assert Pow(16, 8) == 0x1_0000_0000;
    DigitsLength(x as nat, 16, 8);
    DigitsRoundTrip(x as nat, 16);
    Digits(x as nat, 16)
  }

  /** The value a `%d` conversion sees: the 32 bits reinterpreted as a signed `int`. */
  function ToInt32(x: u32): (i: int)
    ensures -0x8000_0000 <= i < 0x8000_0000
    ensures i % 0x1_0000_0000 == x as int
    ensures 0 <= i <==> x < 0x8000_0000
  {
    if x < 0x8000_0000 then x as int else x as int - 0x1_0000_0000
  }

  /** Decimal rendering of a signed integer, with a leading '-' when negative. */
  function SignedDecimal(i: int): (s: string)
    ensures |s| >= 1 && (s[0] == '-' <==> i < 0)
    ensures forall j :: (if i < 0 then 1 else 0) <= j < |s| ==> IsDigit(s[j], 10)
    ensures |s| > (if i < 0 then 2 else 1) ==> s[if i < 0 then 1 else 0] != '0'
    ensures i < 0 ==> |s| >= 2
    ensures s[if i < 0 then 1 else 0] == '0' ==> i == 0
  {
    if i < 0 then "-" + Digits(-i, 10) else Digits(i, 10)
  }

  /** Reads a (possibly negative) decimal rendering back. */
  function ParseSigned(s: string): int
  {
    if |s| > 0 && s[0] == '-' then -(Value(s[1..], 10) as int) else Value(s, 10)
  }

  lemma SignedDecimalRoundTrip(i: int)
    ensures ParseSigned(SignedDecimal(i)) == i
  {
    if i < 0 {
      var s := SignedDecimal(i);
      assert s[1..] == Digits(-i, 10);
      DigitsRoundTrip(-i, 10);
    } else {
      var s := Digits(i, 10);
      assert IsDigit(s[0], 10);
      DigitsRoundTrip(i, 10);
    }
  }

  /** `%d` applied to an unsigned 32-bit argument, as in the reporter's default banner. */
  function FormatD(x: u32): (s: string)
    ensures x < 0x8000_0000 ==> s == Digits(x as nat, 10)
    ensures x >= 0x8000_0000 ==> |s| > 1 && s[0] == '-'
    ensures ParseSigned(s) % 0x1_0000_0000 == x as int
  {
    SignedDecimalRoundTrip(ToInt32(x));
    SignedDecimal(ToInt32(x))
  }

  /** The `%d` rendering still identifies the code: distinct codes print differently. */
  lemma FormatDInjective(x: u32, y: u32)
    ensures FormatD(x) == FormatD(y) ==> x == y
  {
  }
}
