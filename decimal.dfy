/**
 * Decimal text of integers, as the two ends of the upload protocol produce and
 * read it: the browser turns a chunk number into form text (`String(n)`, which
 * for integers is plain decimal), the server renders chunk numbers into path
 * names with `strconv.Itoa` and reads form fields back with `strconv.Atoi`.
 */
module Decimal {
  import opened Base

  predicate IsDigit(c: char)
  {
    '0' <= c <= '9'
  }

  predicate AllDigits(s: string)
  {
    forall i :: 0 <= i < |s| ==> IsDigit(s[i])
  }

  function DigitChar(d: nat): (c: char)
    requires d < 10
    ensures IsDigit(c) && c as int - '0' as int == d
  {
    ('0' as int + d) as char
  }

  /** The decimal digits of `n`, most significant first, without leading zeros. */
  function NatDigits(n: nat): (s: string)
    ensures |s| >= 1 && AllDigits(s)
    ensures |s| > 1 ==> s[0] != '0'
  {
    if n < 10 then [DigitChar(n)] else NatDigits(n / 10) + [DigitChar(n % 10)]
  }

  /** The number a run of decimal digits denotes (leading zeros allowed). */
  function DigitsValue(s: string): nat
    requires AllDigits(s)
  {
    if |s| == 0 then 0
    else DigitsValue(s[..|s| - 1]) * 10 + (s[|s| - 1] as int - '0' as int)
  }

  /** `strconv.Itoa(n)`, and equally JavaScript's `String(n)` for an integer `n`. */
  function Itoa(n: int): (s: string)
  {
    if n < 0 then "-" + NatDigits(-n) else NatDigits(n)
  }

  /**
   * `strconv.Atoi(s)` on a 64-bit platform: an optional `+` or `-`, then at least
   * one decimal digit and nothing else, denoting a value within `int`'s range;
   * anything else is an error (`None`).
   */
  function Atoi(s: string): (r: Option<int>)
    ensures r.Some? ==> IsInt64(r.value)
    ensures r.Some? ==> |s| >= 1 && (IsDigit(s[0]) || s[0] == '-' || s[0] == '+')
    ensures s == [] ==> r.None?
  {
    var signed := |s| > 0 && (s[0] == '-' || s[0] == '+');
    var body := if signed then s[1..] else s;
    if |body| == 0 || !AllDigits(body) then None
    else
      var magnitude: int := DigitsValue(body);
      var v := if s[0] == '-' then -magnitude else magnitude;
      if IsInt64(v) then Some(v) else None
  }

  lemma {:induction false} NatDigitsValue(n: nat)
    ensures DigitsValue(NatDigits(n)) == n
  {
    if n >= 10 {
      var s := NatDigits(n);
      var prefix := NatDigits(n / 10);
      assert s[..|s| - 1] == prefix;
      NatDigitsValue(n / 10);
    }
  }

  /** Only the first character of `Itoa(n)` can be a sign; the rest are digits. */
  lemma ItoaTail(n: int)
    ensures |Itoa(n)| >= 1
    ensures forall k :: 1 <= k < |Itoa(n)| ==> IsDigit(Itoa(n)[k])
    ensures IsDigit(Itoa(n)[0]) <==> n >= 0
    ensures Itoa(n)[0] == '-' <==> n < 0
  {
  }

  /** What the browser sends, the server reads back unchanged (within Go's `int`). */
  lemma AtoiItoa(n: int)
    requires IsInt64(n)
    ensures Atoi(Itoa(n)) == Some(n)
  {
    if n < 0 {
      AtoiNegative(n);
    } else {
      AtoiNonNegative(n);
    }
  }

  /** `AtoiItoa` for `n >= 0`, which is written without a sign. */
  lemma AtoiNonNegative(n: nat)
    requires n <= MAX_INT64
    ensures Atoi(NatDigits(n)) == Some(n)
  {
    NatDigitsValue(n);
  }

  /** `AtoiItoa` for `n < 0`, which is written as `-` and the digits of `-n`. */
  lemma AtoiNegative(n: int)
    requires MIN_INT64 <= n < 0
    ensures Atoi("-" + NatDigits(-n)) == Some(n)
  {
    NatDigitsValue(-n);
    assert ("-" + NatDigits(-n))[1..] == NatDigits(-n);
  }

  /** Distinct integers render as distinct text, so distinct chunk numbers name distinct paths. */
  lemma ItoaInjective(a: int, b: int)
    ensures Itoa(a) == Itoa(b) <==> a == b
  {
    if Itoa(a) == Itoa(b) {
      ItoaTail(a);
      ItoaTail(b);
      if a < 0 {
        assert Itoa(a)[1..] == NatDigits(-a);
        assert Itoa(b)[1..] == NatDigits(-b);
        NatDigitsValue(-a);
        NatDigitsValue(-b);
      } else {
        NatDigitsValue(a);
        NatDigitsValue(b);
      }
    }
  }
}
