/** Decimal numbers as strconv and fmt write and read them. */
module Decimals {
  import opened Prelude

  const INT64_MIN: int := -0x8000_0000_0000_0000

  function DigitChar(d: nat): char
    requires d < 10
  {
    '0' + (d as char)
  }

  predicate IsDigit(c: char) { '0' <= c <= '9' }

  predicate AllDigits(s: string) { forall i :: 0 <= i < |s| ==> IsDigit(s[i]) }

  function Decimal(n: nat): string {
    if n < 10 then [DigitChar(n)] else Decimal(n / 10) + [DigitChar(n % 10)]
  }

  function NumberOf(s: string): nat
    requires AllDigits(s)
  {
    if s == "" then 0 else NumberOf(s[..|s| - 1]) * 10 + (s[|s| - 1] as nat - '0' as nat)
  }

  lemma {:induction false} DecimalReadsBack(n: nat)
    ensures Decimal(n) != "" && AllDigits(Decimal(n)) && NumberOf(Decimal(n)) == n
  {
    if n >= 10 {
      DecimalReadsBack(n / 10);
      var s := Decimal(n);
      assert s[..|s| - 1] == Decimal(n / 10);
    } else {
      assert NumberOf("") == 0;
      assert Decimal(n)[..0] == "";
    }
  }

  /** The decimal text of a number: digits of that value, with no zero in front of others. */
  lemma {:induction false} DecimalIff(n: nat, s: string)
    ensures s == Decimal(n) <==> s != "" && AllDigits(s) && NumberOf(s) == n && (|s| > 1 ==> s[0] != '0')
    decreases n
  {
    DecimalReadsBack(n);
    NoZeroInFront(n);
    if s != "" && AllDigits(s) && NumberOf(s) == n && (|s| > 1 ==> s[0] != '0') {
      var front, last := s[..|s| - 1], s[|s| - 1] as nat - '0' as nat;
      assert n == NumberOf(front) * 10 + last && last < 10;
      if front == "" {
        assert s == [s[0]] && n == last;
        assert DigitChar(last) == s[0];
      } else {
        FrontIsPositive(front);
        assert n / 10 == NumberOf(front) && n % 10 == last;
        assert |front| > 1 ==> front[0] == s[0];
        DecimalIff(n / 10, front);
        assert s == front + [s[|s| - 1]];
      }
    }
  }

  lemma {:induction false} FrontIsPositive(s: string)
    requires s != "" && AllDigits(s) && s[0] != '0'
    ensures NumberOf(s) > 0
  {
    if |s| > 1 { FrontIsPositive(s[..|s| - 1]); }
  }

  lemma {:induction false} NoZeroInFront(n: nat)
    ensures Decimal(n) != "" && (n > 0 ==> Decimal(n)[0] != '0') && (n == 0 ==> Decimal(n) == "0")
  {
    if n >= 10 { NoZeroInFront(n / 10); }
  }

  function Power10(n: nat): nat { if n == 0 then 1 else 10 * Power10(n - 1) }

  lemma {:induction false} DecimalLength(n: nat, k: nat)
    requires n < Power10(k) && k > 0
    ensures |Decimal(n)| <= k
  {
    if n >= 10 {
      DecimalLength(n / 10, k - 1);
    }
  }

  /** strconv.FormatInt(n, 10). */
  function FormatInt(n: int): string { if n < 0 then "-" + Decimal(-n) else Decimal(n) }

  /** strconv.ParseInt(s, 10, 64). */
  function ParseInt(s: string): Option<int> {
    if s == "" then None
    else
      var signed := s[0] == '-' || s[0] == '+';
      var digits := if signed then s[1..] else s;
      if digits == "" || !AllDigits(digits) then None
      else
        var n: int := if s[0] == '-' then -(NumberOf(digits) as int) else NumberOf(digits);
        if INT64_MIN <= n <= INT64_MAX then Some(n) else None
  }

  lemma FormattedIsParsed(n: int)
    requires INT64_MIN <= n <= INT64_MAX
    ensures ParseInt(FormatInt(n)) == Some(n)
  {
    hide Decimal, NumberOf;
    DecimalReadsBack(if n < 0 then -n else n);
    if n >= 0 {
      assert IsDigit(Decimal(n)[0]);
    } else {
      assert FormatInt(n)[1..] == Decimal(-n);
    }
  }
}
