/**
 * Decimal text for the numbers in a CSV snapshot: identifiers and timestamps
 * are written as unsigned digit strings, money (in cents) as a digit string
 * with an optional leading '-'.
 */
module Numerals {

  import opened Options

  predicate IsDigit(c: char)
  {
    '0' <= c <= '9'
  }

  predicate AllDigits(s: string)
  {
    forall i :: 0 <= i < |s| ==> IsDigit(s[i])
  }

  function DigitChar(d: nat): (c: char)
    requires d < 10
    ensures IsDigit(c) && c as int - '0' as int == d
  {
    ('0' as int + d) as char
  }

  /** The number a digit string denotes, most significant digit first. */
  function DigitsValue(s: string): nat
    requires AllDigits(s)
    decreases |s|
  {
    if |s| == 0 then 0
    else DigitsValue(s[..|s| - 1]) * 10 + (s[|s| - 1] as int - '0' as int)
  }

  /** The shortest decimal spelling of `n`. */
  function EncodeNat(n: nat): (s: string)
    ensures |s| >= 1 && AllDigits(s)
    decreases n
  {
    if n < 10 then [DigitChar(n)] else EncodeNat(n / 10) + [DigitChar(n % 10)]
  }

  /** Reads an unsigned number: one or more digits and nothing else. */
  function ParseNat(s: string): (r: Option<nat>)
    ensures r.Some? <==> |s| >= 1 && AllDigits(s)
  {
    if |s| >= 1 && AllDigits(s) then Some(DigitsValue(s)) else None
  }

  lemma {:induction false} DigitsValueOfEncode(n: nat)
    ensures DigitsValue(EncodeNat(n)) == n
    decreases n
  {
    var s := EncodeNat(n);
    if n >= 10 {
      DigitsValueOfEncode(n / 10);
      assert s[..|s| - 1] == EncodeNat(n / 10);
    }
  }

  /** Reading back what was written gives the same number. */
  lemma ParseEncodeNat(n: nat)
    ensures ParseNat(EncodeNat(n)) == Some(n)
  {
    DigitsValueOfEncode(n);
  }

  function EncodeInt(i: int): (s: string)
    ensures |s| >= 1
    ensures forall k :: 0 <= k < |s| ==> IsDigit(s[k]) || (k == 0 && s[k] == '-')
  {
    if i < 0 then "-" + EncodeNat(-i) else EncodeNat(i)
  }

  /** Reads a signed number: an optional '-' followed by one or more digits. */
  function ParseInt(s: string): (r: Option<int>)
    ensures r.Some? <==> (|s| >= 1 && AllDigits(s)) || (|s| >= 2 && s[0] == '-' && AllDigits(s[1..]))
  {
    if |s| >= 1 && s[0] == '-' then
      match ParseNat(s[1..])
      case Some(n) => Some(-(n as int))
      case None => None
    else
      match ParseNat(s)
      case Some(n) => Some(n)
      case None => None
  }

  lemma ParseEncodeInt(i: int)
    ensures ParseInt(EncodeInt(i)) == Some(i)
  {
    if i < 0 {
      var s := EncodeInt(i);
      assert s[1..] == EncodeNat(-i);
      ParseEncodeNat(-i);
    } else {
      ParseEncodeNat(i);
    }
  }

}
