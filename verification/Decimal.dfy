/** Decimal notation of natural numbers. */
module Decimal {
  import opened Collections

  function Digit(d: nat): char
    requires d < 10
  {
    ('0' as int + d) as char
  }

  function FormatUint(n: nat): (s: string)
    ensures s != "" && forall i :: 0 <= i < |s| ==> '0' <= s[i] <= '9'
  {
    if n < 10 then [Digit(n)] else FormatUint(n / 10) + [Digit(n % 10)]
  }

  /** Decimal digits only; no digits read as zero. */
  function ParseDigits(s: string): Option<nat> {
    if s == "" then Some(0)
    else
      var d := s[|s| - 1];
      var high := ParseDigits(s[..|s| - 1]);
      if '0' <= d <= '9' && high.Some? then Some(10 * high.value + (d as int - '0' as int)) else None
  }

  lemma {:induction false} ParseFormat(n: nat)
    ensures ParseDigits(FormatUint(n)) == Some(n)
  {
    if n < 10 {
      assert FormatUint(n)[..0] == "";
    } else {
      ParseFormat(n / 10);
      var s := FormatUint(n);
      assert s[..|s| - 1] == FormatUint(n / 10);
    }
  }

  /** A number in decimal, without leading zeros. */
  predicate Numeral(n: nat, s: string)
    decreases |s|
  {
    && s != ""
    && s[|s| - 1] == "0123456789"[n % 10]
    && if n < 10 then |s| == 1 else Numeral(n / 10, s[..|s| - 1])
  }

  lemma {:induction false} NumeralIs(n: nat, s: string)
    ensures Numeral(n, s) <==> s == FormatUint(n)
  {
    assert Digit(n % 10) == "0123456789"[n % 10];
    if n >= 10 && s != "" {
      NumeralIs(n / 10, s[..|s| - 1]);
      assert s == s[..|s| - 1] + [s[|s| - 1]];
    } else if s != "" {
      assert |s| == 1 ==> s == [s[0]];
    }
  }
}
