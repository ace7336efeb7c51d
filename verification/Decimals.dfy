/** Decimal numerals. */
module Decimals {

  function Decimal(n: nat): (s: string)
    ensures |s| > 0
  {
    if n < 10 then [('0' as int + n) as char] else Decimal(n / 10) + [('0' as int + n % 10) as char]
  }

  predicate AllDigits(s: string) {
    forall k :: 0 <= k < |s| ==> '0' <= s[k] <= '9'
  }

  function Value(s: string): nat
    requires AllDigits(s)
  {
    if |s| == 0 then 0 else Value(s[..|s| - 1]) * 10 + (s[|s| - 1] as int - '0' as int)
  }

  lemma ValueSnoc(s: string, digit: char)
    requires AllDigits(s) && '0' <= digit <= '9'
    ensures AllDigits(s + [digit]) && Value(s + [digit]) == Value(s) * 10 + (digit as int - '0' as int)
  {
    assert (s + [digit])[..|s|] == s;
  }

  /** Reading a printed number gives it back. */
  lemma {:induction false} ValueOfDecimal(n: nat)
    ensures AllDigits(Decimal(n)) && Value(Decimal(n)) == n
    ensures n > 0 ==> Decimal(n)[0] != '0'
  {
    if n < 10 {
      ValueSnoc("", ('0' as int + n) as char);
      assert "" + Decimal(n) == Decimal(n);
    } else {
      ValueOfDecimal(n / 10);
      ValueSnoc(Decimal(n / 10), ('0' as int + n % 10) as char);
    }
  }

  lemma {:induction false} PositiveValue(s: string)
    requires AllDigits(s) && |s| > 0 && s[0] != '0'
    ensures Value(s) > 0
  {
    var front := s[..|s| - 1];
    if |front| > 0 {
      PositiveValue(front);
    }
  }

  /** A numeral without superfluous leading zeros is what its value prints as. */
  lemma {:induction false} DecimalOfValue(s: string)
    requires AllDigits(s) && |s| > 0
    ensures Decimal(Value(s)) == s <==> s == "0" || s[0] != '0'
  {
    if s == "0" || s[0] != '0' {
      var front, last := s[..|s| - 1], s[|s| - 1];
      assert s == front + [last];
      ValueSnoc(front, last);
      if |front| > 0 {
        PositiveValue(front);
        DecimalOfValue(front);
      } else {
        assert s == [last];
      }
    } else {
      ValueOfDecimal(Value(s));
      ZeroPrints(Value(s));
    }
  }

  lemma ZeroPrints(n: nat)
    ensures n == 0 ==> Decimal(n) == "0"
  {
  }
}
