/** Decimal numerals: how the tracker prints unsigned integers, and how it parses them. */
module Decimals {
  import opened Results

  predicate IsDigit(c: char) {
    '0' <= c <= '9'
  }

  predicate AllDigits(s: string) {
    forall i :: 0 <= i < |s| ==> IsDigit(s[i])
  }

  function Digit(d: nat): (c: char)
    requires d < 10
    ensures IsDigit(c) && c as int - '0' as int == d
  {
    ('0' as int + d) as char
  }

  /** `to_string` of an unsigned integer */
  function Dec(n: nat): (s: string)
    ensures |s| > 0 && AllDigits(s)
  {
    if n < 10 then [Digit(n)] else Dec(n / 10) + [Digit(n % 10)]
  }

  function Value(s: string): nat
    requires AllDigits(s)
  {
    if s == [] then 0 else 10 * Value(s[..|s| - 1]) + (s[|s| - 1] as int - '0' as int)
  }

  /** The length of the longest prefix of digits */
  function DigitRun(s: string): (n: nat)
    ensures n <= |s| && AllDigits(s[..n])
    ensures n < |s| ==> !IsDigit(s[n])
  {
    if s == [] || !IsDigit(s[0]) then 0 else
      var n := DigitRun(s[1..]);
      assert forall i :: 0 <= i < n ==> s[1..][i] == s[i + 1];
      assert AllDigits(s[1..][..n]);
      assert forall i :: 0 < i < n + 1 ==> s[i] == s[1..][..n][i - 1];
      1 + n
  }

  /** Printing then reading gives the number back, and no number is printed with a leading zero */
  lemma {:induction false} ValueOfDec(n: nat)
    ensures Value(Dec(n)) == n
    ensures |Dec(n)| > 1 ==> Dec(n)[0] != '0'
    ensures n != 0 ==> Dec(n)[0] != '0'
  {
    if n >= 10 {
      ValueOfDec(n / 10);
      assert Dec(n)[..|Dec(n)| - 1] == Dec(n / 10);
    }
  }

  lemma DigitRunIsUnique(s: string, n: nat)
    requires n <= |s| && AllDigits(s[..n])
    requires n < |s| ==> !IsDigit(s[n])
    ensures DigitRun(s) == n
  {
    var m := DigitRun(s);
    assert forall i :: 0 <= i < n ==> s[..n][i] == s[i];
    assert forall i :: 0 <= i < m ==> s[..m][i] == s[i];
  }

  /** Rust's `from_str` for an unsigned integer type with the given maximum: one leading plus sign is allowed */
  function ParseUnsigned(s: string, max: nat): Option<nat> {
    var digits := if |s| > 1 && s[0] == '+' then s[1..] else s;
    if digits != [] && AllDigits(digits) && Value(digits) <= max then Some(Value(digits)) else None
  }

  lemma ParseOfDec(n: nat, max: nat)
    ensures ParseUnsigned(Dec(n), max) == if n <= max then Some(n) else None
  {
    ValueOfDec(n);
    assert IsDigit(Dec(n)[0]);
  }

  function Zeros(k: nat): string {
    if k == 0 then "" else "0" + Zeros(k - 1)
  }

  lemma {:induction false} ZerosOnly(k: nat)
    ensures |Zeros(k)| == k && forall i :: 0 <= i < k ==> Zeros(k)[i] == '0'
  {
    if k > 0 {
      ZerosOnly(k - 1);
    }
  }

  lemma {:induction false} ValueWithZeros(k: nat, s: string)
    requires AllDigits(s)
    ensures AllDigits(Zeros(k) + s) && Value(Zeros(k) + s) == Value(s)
    decreases |s| + k
  {
    ZerosOnly(k);
    if s == "" {
      if k > 0 {
        var zeros := Zeros(k);
        ZerosOnly(k - 1);
        assert zeros[..k - 1] == Zeros(k - 1) + "";
        assert zeros + "" == zeros;
        ValueWithZeros(k - 1, "");
      }
    } else {
      var all := Zeros(k) + s;
      assert all[..|all| - 1] == Zeros(k) + s[..|s| - 1];
      ValueWithZeros(k, s[..|s| - 1]);
    }
  }

  lemma DecSnoc(m: nat, c: char)
    requires IsDigit(c)
    ensures Dec(c as int - '0' as int) == [c]
    ensures m > 0 ==> Dec(10 * m + (c as int - '0' as int)) == Dec(m) + [c]
  {
    var d := c as int - '0' as int;
    assert Digit(d) == c;
    assert (10 * m + d) / 10 == m && (10 * m + d) % 10 == d;
  }

  lemma ZerosSnoc(k: nat)
    ensures Zeros(k) + "0" == Zeros(k + 1)
  {
    ZerosOnly(k);
    ZerosOnly(k + 1);
  }

  lemma Regroup(a: string, b: string, c: string)
    ensures (a + b) + c == a + (b + c)
  {
  }

  /** Digits are the decimal form of their value behind zeros */
  lemma {:induction false} DigitsAreDec(s: string)
    returns (k: nat)
    requires s != "" && AllDigits(s)
    ensures s == Zeros(k) + Dec(Value(s))
  {
    var front, c := s[..|s| - 1], s[|s| - 1];
    var m := Value(front);
    assert s == front + [c];
    DecSnoc(m, c);
    k := 0;
    if front != "" {
      k := DigitsAreDec(front);
      if m == 0 {
        DecSnoc(0, '0');
        ZerosSnoc(k);
        k := k + 1;
      } else {
        Regroup(Zeros(k), Dec(m), [c]);
      }
    }
  }

  lemma DecIsParsed(k: nat, n: nat, max: nat)
    ensures ParseUnsigned(Zeros(k) + Dec(n), max) == if n <= max then Some(n) else None
    ensures ParseUnsigned("+" + (Zeros(k) + Dec(n)), max) == if n <= max then Some(n) else None
  {
    var digits := Zeros(k) + Dec(n);
    ValueOfDec(n);
    ValueWithZeros(k, Dec(n));
    assert IsDigit(digits[0]) && digits[0] != '+';
    assert ("+" + digits)[0] == '+' && ("+" + digits)[1..] == digits;
  }

  /** A text is read as a number exactly if it is the number's decimal form, behind any zeros and at most one plus sign,
      and the number is within the range. */
  lemma ParseIff(s: string, max: nat, n: nat)
    ensures ParseUnsigned(s, max) == Some(n)
            <==> n <= max && exists k: nat :: s == Zeros(k) + Dec(n) || s == "+" + (Zeros(k) + Dec(n))
  {
    if ParseUnsigned(s, max) == Some(n) {
      var digits := if |s| > 1 && s[0] == '+' then s[1..] else s;
      var k := DigitsAreDec(digits);
      assert |s| > 1 && s[0] == '+' ==> s == "+" + digits;
    }
    if k: nat :| s == Zeros(k) + Dec(n) || s == "+" + (Zeros(k) + Dec(n)) {
      DecIsParsed(k, n, max);
    }
  }
}
