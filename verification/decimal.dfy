/**
 The decimal rendering of an unsigned integer that Go's `fmt.Sprintf("%d", …)`
 produces: the digits of the number, most significant first, with no sign, no
 padding and no leading zero ("0" for zero).
 */
module Decimal {

  /** A decimal digit character. */
  predicate IsDigit(c: char)
  {
    '0' <= c <= '9'
  }

  /** Every character of `s` is a decimal digit. */
  predicate AllDigits(s: string)
  {
    forall i :: 0 <= i < |s| ==> IsDigit(s[i])
  }

  /** The form `%d` produces: a nonempty digit string whose first digit is not zero
      unless the string is exactly "0". */
  predicate Canonical(s: string)
  {
    |s| >= 1 && AllDigits(s) && (s[0] == '0' ==> |s| == 1)
  }

  /** The character of digit `d`. */
  function DigitChar(d: nat): (c: char)
    requires d < 10
    ensures IsDigit(c)
    ensures DigitValue(c) == d
  {
    ('0' as int + d) as char
  }

  /** The value of a digit character. */
  function DigitValue(c: char): (d: nat)
    requires IsDigit(c)
    ensures d < 10
  {
    c as int - '0' as int
  }

  /** The `%d` rendering of `n`. */
  function Show(n: nat): (s: string)
    ensures Canonical(s)
    ensures n == 0 <==> s == "0"
  {
    if n < 10 then [DigitChar(n)] else Show(n / 10) + [DigitChar(n % 10)]
  }

  /** The number a digit string denotes, read most significant digit first. */
  function Value(s: string): nat
    requires AllDigits(s)
  {
    if |s| == 0 then 0 else Value(s[..|s| - 1]) * 10 + DigitValue(s[|s| - 1])
  }

  /** Reading back a rendering gives the number. */
  lemma {:induction false} ValueShow(n: nat)
    ensures Value(Show(n)) == n
  {
    if n >= 10 {
      var s := Show(n);
      assert s[..|s| - 1] == Show(n / 10);
      ValueShow(n / 10);
    }
  }

  /** Rendering the value of a canonical digit string gives the string back: `%d` has
      exactly one rendering per number. */
  lemma {:induction false} ShowValue(s: string)
    requires Canonical(s)
    ensures Show(Value(s)) == s
    decreases |s|
  {
    if |s| == 1 {
      assert Value(s) == DigitValue(s[0]) by {
        assert s[..0] == [];
      }
    } else {
      var prefix := s[..|s| - 1];
      assert Canonical(prefix) by {
        assert prefix[0] == s[0];
        assert s[0] != '0';
      }
      ShowValue(prefix);
      PrefixValuePositive(prefix);
      assert Value(s) / 10 == Value(prefix);
      assert Value(s) % 10 == DigitValue(s[|s| - 1]);
      assert s == prefix + [s[|s| - 1]];
    }
  }

  /** A canonical string of more than one digit denotes a positive number. */
  lemma {:induction false} PrefixValuePositive(s: string)
    requires Canonical(s) && s[0] != '0'
    ensures Value(s) > 0
    decreases |s|
  {
    if |s| == 1 {
      assert s[..0] == [];
    } else {
      var prefix := s[..|s| - 1];
      assert prefix[0] == s[0];
      PrefixValuePositive(prefix);
    }
  }

  /** Distinct numbers have distinct renderings. */
  lemma ShowInjective(m: nat, n: nat)
    ensures Show(m) == Show(n) <==> m == n
  {
    if Show(m) == Show(n) {
      ValueShow(m);
      ValueShow(n);
    }
  }

  /** Ten to the power `k`. */
  function Pow10(k: nat): nat
  {
    if k == 0 then 1 else 10 * Pow10(k - 1)
  }

  /** A rendering has at most `k` digits exactly when the number is below ten to the
      `k`, for any positive `k`. */
  lemma {:induction false} ShowLength(n: nat, k: nat)
    requires k >= 1
    ensures |Show(n)| <= k <==> n < Pow10(k)
    decreases k
  {
    Pow10AtLeastTen(k);
    if n >= 10 && k > 1 {
      ShowLength(n / 10, k - 1);
      assert n < Pow10(k) <==> n / 10 < Pow10(k - 1);
    } else if n >= 10 {
      assert |Show(n)| >= 2;
    }
  }

  /** A positive power of ten is at least ten. */
  lemma {:induction false} Pow10AtLeastTen(k: nat)
    requires k >= 1
    ensures Pow10(k) >= 10
  {
    if k > 1 {
      Pow10AtLeastTen(k - 1);
    }
  }

  /** A 32-bit value, such as a CRC-32, renders in at most ten digits. */
  lemma ShowUint32(n: nat)
    requires n < 0x1_0000_0000
    ensures |Show(n)| <= 10
  {
    ShowLength(n, 10);
  }
}
