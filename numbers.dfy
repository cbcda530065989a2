/**
 * Integer.parseInt and Long.parseLong over ASCII decimal digits, with the
 * range checks of 32- and 64-bit two's complement integers.
 */
module Numbers {
  import opened Wrappers
  import opened Text

  const IntMin: int := -0x8000_0000
  const IntMax: int := 0x7FFF_FFFF
  const LongMin: int := -0x8000_0000_0000_0000
  const LongMax: int := 0x7FFF_FFFF_FFFF_FFFF

  /**
   * The value parseInt/parseLong reads from s: an optional '+' or '-' and at
   * least one digit, within [lo, hi]; None where Java throws
   * NumberFormatException.
   */
  function ParseInteger(s: string, lo: int, hi: int): (r: Option<int>)
    ensures r.Some? ==> lo <= r.value <= hi
  {
    if s == [] then None
    else
      var negative := s[0] == '-';
      var digits := if s[0] == '-' || s[0] == '+' then s[1..] else s;
      if !AllDigits(digits) then None
      else
        var magnitude: int := DigitsValue(digits);
        var v := if negative then -magnitude else magnitude;
        if lo <= v <= hi then Some(v) else None
  }

  /** Integer.parseInt. */
  function ParseInt(s: string): Option<int>
  {
    ParseInteger(s, IntMin, IntMax)
  }

  /** Long.parseLong. */
  function ParseLong(s: string): Option<int>
  {
    ParseInteger(s, LongMin, LongMax)
  }

  /** Reading back Integer.toString/Long.toString of an in-range value gives that value. */
  lemma ParseIntegerOfToString(i: int, lo: int, hi: int)
    requires lo <= i <= hi
    ensures ParseInteger(IntToString(i), lo, hi) == Some(i)
  {
    var s := IntToString(i);
    if i < 0 {
      NatToStringValue(-i);
      assert s[1..] == NatToString(-i);
    } else {
      NatToStringValue(i);
      assert IsDigit(s[0]);
    }
  }

  /** Text with a character that is neither a sign nor a digit, such as '.' or 'e', never parses. */
  lemma ParseIntegerRejects(s: string, k: nat, lo: int, hi: int)
    requires k < |s| && !IsDigit(s[k]) && s[k] != '-' && s[k] != '+'
    ensures ParseInteger(s, lo, hi) == None
  {
    if s[0] == '-' || s[0] == '+' {
      assert s[1..][k - 1] == s[k];
    }
  }

  /** Only three shapes parse: digits, '+' and digits, '-' and digits. */
  lemma ParseIntegerForms(s: string, lo: int, hi: int)
    requires ParseInteger(s, lo, hi).Some?
    ensures exists d :: AllDigits(d) && (s == d || s == "+" + d || s == "-" + d)
  {
    if s[0] == '-' || s[0] == '+' {
      var d := s[1..];
      assert s == [s[0]] + d;
      assert s == "+" + d || s == "-" + d;
    } else {
      assert AllDigits(s) && s == s;
    }
  }

  /**
   * Each of the three shapes denotes the digits' decimal value, negated after
   * '-', and parses exactly when that value is in range.
   */
  lemma ParseIntegerSigned(d: string, lo: int, hi: int)
    requires AllDigits(d)
    ensures ParseInteger(d, lo, hi) == if lo <= DigitsValue(d) <= hi then Some(DigitsValue(d)) else None
    ensures ParseInteger("+" + d, lo, hi) == ParseInteger(d, lo, hi)
    ensures ParseInteger("-" + d, lo, hi) ==
      if lo <= -(DigitsValue(d) as int) <= hi then Option<int>.Some(-(DigitsValue(d) as int)) else None
  {
    assert ("+" + d)[0] == '+' && ("+" + d)[1..] == d;
    assert ("-" + d)[0] == '-' && ("-" + d)[1..] == d;
    assert d[0] != '+' && d[0] != '-';
  }

  /** Leading zeros do not change the value a digit string denotes. */
  lemma {:induction false} LeadingZeroValue(d: string)
    requires forall k :: 0 <= k < |d| ==> IsDigit(d[k])
    ensures DigitsValue("0" + d) == DigitsValue(d)
    decreases |d|
  {
    if d != [] {
      var z := "0" + d;
      assert z[..|z| - 1] == "0" + d[..|d| - 1];
      assert z[|z| - 1] == d[|d| - 1];
      LeadingZeroValue(d[..|d| - 1]);
    }
  }

  /** parseInt("007") is parseInt("7"): a leading zero is ignored. */
  lemma ParseIntegerLeadingZero(d: string, lo: int, hi: int)
    requires AllDigits(d)
    ensures ParseInteger("0" + d, lo, hi) == ParseInteger(d, lo, hi)
  {
    ZeroPrefixDigits(d);
    LeadingZeroValue(d);
    SameValueSameParse("0" + d, d, lo, hi);
  }

  /** After a minus sign too: parseInt("-007") is parseInt("-7"). */
  lemma ParseIntegerNegativeLeadingZero(d: string, lo: int, hi: int)
    requires AllDigits(d)
    ensures ParseInteger("-0" + d, lo, hi) == ParseInteger("-" + d, lo, hi)
  {
    var z := "0" + d;
    ZeroPrefixDigits(d);
    LeadingZeroValue(d);
    assert "-0" + d == "-" + z;
    SameValueSameParse(z, d, lo, hi);
  }

  /** Digit strings with the same value parse alike, with or without a minus sign. */
  lemma SameValueSameParse(z: string, d: string, lo: int, hi: int)
    requires AllDigits(z) && AllDigits(d) && DigitsValue(z) == DigitsValue(d)
    ensures ParseInteger(z, lo, hi) == ParseInteger(d, lo, hi)
    ensures ParseInteger("-" + z, lo, hi) == ParseInteger("-" + d, lo, hi)
  {
    ParseIntegerSigned(d, lo, hi);
    ParseIntegerSigned(z, lo, hi);
  }

  lemma ZeroPrefixDigits(d: string)
    requires AllDigits(d)
    ensures AllDigits("0" + d)
  {
    var z := "0" + d;
    forall k | 0 <= k < |z| ensures IsDigit(z[k]) {
      if k > 0 {
        assert z[k] == d[k - 1];
      }
    }
  }
}
