/** `Integer.parseInt` and `Integer.toString` of the Java platform, over
    ASCII signs and digits and the 32-bit range of `int`. */
module JavaInt {
  import opened Wrappers

  const MinInt32: int := -0x8000_0000
  const MaxInt32: int := 0x7fff_ffff

  predicate InInt32(n: int) {
    MinInt32 <= n <= MaxInt32
  }

  predicate IsDigit(c: char) {
    '0' <= c <= '9'
  }

  predicate AllDigits(s: string) {
    forall k :: 0 <= k < |s| ==> IsDigit(s[k])
  }

  function DigitValue(c: char): (d: nat)
    requires IsDigit(c)
    ensures d < 10
  {
    (c as int) - ('0' as int)
  }

  function DigitChar(d: nat): (c: char)
    requires d < 10
    ensures IsDigit(c) && DigitValue(c) == d
  {
    (('0' as int) + d) as char
  }

  /** The value of a run of decimal digits, most significant first; the
      empty run has value 0. */
  function DigitsValue(s: string): nat
    requires AllDigits(s)
  {
    if s == [] then 0 else DigitsValue(s[..|s| - 1]) * 10 + DigitValue(s[|s| - 1])
  }

  /** `Integer.parseInt(s)`: an optional `+` or `-`, then one or more digits,
      whose value fits in 32 bits; `None` where Java throws
      `NumberFormatException`. */
  function ParseInt(s: string): (r: Option<int>)
    ensures r.Some? ==> InInt32(r.value)
    ensures r.Some? ==> |s| > 0 && (IsDigit(s[0]) || s[0] == '-' || s[0] == '+')
  {
    if |s| == 0 then None
    else if s[0] == '-' || s[0] == '+' then
      if |s| == 1 || !AllDigits(s[1..]) then None
      else
        var v: int := if s[0] == '-' then 0 - DigitsValue(s[1..]) as int else DigitsValue(s[1..]);
        if InInt32(v) then Some(v) else None
    else if AllDigits(s) then
      var v := DigitsValue(s);
      if InInt32(v) then Some(v) else None
    else None
  }

  /** The decimal digits of a natural number, without leading zeros. */
  function NatToString(n: nat): (s: string)
    ensures |s| > 0 && AllDigits(s) && DigitsValue(s) == n
    ensures s[0] == '0' ==> n == 0
  {
    if n < 10 then [DigitChar(n)]
    else
      var prefix := NatToString(n / 10);
      var s := prefix + [DigitChar(n % 10)];
      assert s[..|s| - 1] == prefix;
      s
  }

  /** `Integer.toString(n)`, which is what Java's string concatenation writes
      for an `int`: a `-` for negative values, then the digits. */
  function IntToString(n: int): (s: string)
    ensures |s| > 0 && (s[0] == '-' <==> n < 0)
  {
    if n < 0 then "-" + NatToString(-n) else NatToString(n)
  }

  /** Parsing what `Integer.toString` writes gives the number back. */
  lemma ParseIntToString(n: int)
    requires InInt32(n)
    ensures ParseInt(IntToString(n)) == Some(n)
  {
    var s := IntToString(n);
    if n < 0 {
      assert s[1..] == NatToString(-n);
    } else {
      assert IsDigit(s[0]);
    }
  }

  /** `n` zeros. */
  function Zeros(n: nat): (s: string)
    ensures |s| == n && AllDigits(s)
  {
    if n == 0 then [] else "0" + Zeros(n - 1)
  }

  /** `s` without its sign, if it starts with one. */
  function Unsigned(s: string): string {
    if |s| > 0 && (s[0] == '-' || s[0] == '+') then s[1..] else s
  }

  /** A run of digits without its leading zeros; the last digit stays. */
  function StripZeros(d: string): string {
    if |d| > 1 && d[0] == '0' then StripZeros(d[1..]) else d
  }

  /** A leading digit other than `0` makes the value positive. */
  lemma {:induction false} NonZeroLeadPositive(d: string)
    requires |d| > 0 && AllDigits(d) && d[0] != '0'
    ensures DigitsValue(d) >= 1
  {
    if |d| > 1 {
      var init := d[..|d| - 1];
      assert init[0] == d[0];
      NonZeroLeadPositive(init);
    } else {
      assert d[..0] == [];
    }
  }

  /** A leading zero adds nothing to the value. */
  lemma {:induction false} LeadingZeroValue(d: string)
    requires |d| > 1 && AllDigits(d) && d[0] == '0'
    ensures DigitsValue(d) == DigitsValue(d[1..])
  {
    var init := d[..|d| - 1];
    assert d[1..][..|d| - 2] == init[1..];
    if |d| == 2 {
      assert init[..0] == [] && d[1..][..0] == [];
    } else {
      LeadingZeroValue(init);
    }
  }

  /** A run of digits without leading zeros is the decimal form of its value. */
  lemma {:induction false} CanonicalDigits(d: string)
    requires |d| > 0 && AllDigits(d) && (|d| == 1 || d[0] != '0')
    ensures NatToString(DigitsValue(d)) == d
  {
    var v := DigitsValue(d);
    var init := d[..|d| - 1];
    if |d| == 1 {
      assert init == [];
      assert DigitsValue(init) == 0 && v == DigitValue(d[0]);
      assert DigitChar(v) == d[0];
    } else {
      assert init[0] == d[0];
      NonZeroLeadPositive(init);
      CanonicalDigits(init);
      var last := DigitValue(d[|d| - 1]);
      assert v == DigitsValue(init) * 10 + last && last < 10;
      assert v / 10 == DigitsValue(init) && v % 10 == last;
      assert DigitChar(last) == d[|d| - 1];
      assert d == init + [d[|d| - 1]];
    }
  }

  /** Dropping the leading zeros of a run of digits leaves the decimal form
      of its value. */
  lemma {:induction false} StripZerosValue(d: string)
    requires |d| > 0 && AllDigits(d)
    ensures StripZeros(d) == NatToString(DigitsValue(d))
  {
    if |d| > 1 && d[0] == '0' {
      LeadingZeroValue(d);
      StripZerosValue(d[1..]);
    } else {
      CanonicalDigits(d);
    }
  }

  /** Zeros in front of a run of digits do not change its value. */
  lemma {:induction false} PaddedValue(zeros: nat, t: string)
    requires |t| > 0 && AllDigits(t)
    ensures AllDigits(Zeros(zeros) + t) && DigitsValue(Zeros(zeros) + t) == DigitsValue(t)
  {
    var d := Zeros(zeros) + t;
    assert forall k :: 0 <= k < |d| ==> IsDigit(d[k]) by {
      forall k | 0 <= k < |d| ensures IsDigit(d[k]) {
        if k < zeros {
          assert d[k] == Zeros(zeros)[k];
        } else {
          assert d[k] == t[k - zeros];
        }
      }
    }
    if zeros > 0 {
      assert d[0] == '0';
      assert d[1..] == Zeros(zeros - 1) + t;
      PaddedValue(zeros - 1, t);
      LeadingZeroValue(d);
    } else {
      assert d == t;
    }
  }

  /** `parseInt` of a sign (or none) followed by a run of digits. */
  lemma ParseIntSigned(sign: string, d: string)
    requires sign == "" || sign == "+" || sign == "-"
    requires |d| > 0 && AllDigits(d)
    ensures var v: int := if sign == "-" then 0 - DigitsValue(d) as int else DigitsValue(d);
      ParseInt(sign + d) == if InInt32(v) then Some(v) else None
  {
    var s := sign + d;
    if sign == "" {
      assert s == d && IsDigit(d[0]);
    } else {
      assert s[0] == sign[0] && s[1..] == d;
    }
  }

  /** What `parseInt` accepts is an optional sign and digits that, without
      their leading zeros, are the decimal form of the magnitude of the result;
      only a `-` gives a negative result. */
  lemma ParseIntReadsDigits(s: string, n: int)
    requires ParseInt(s) == Some(n)
    ensures |Unsigned(s)| > 0 && AllDigits(Unsigned(s))
    ensures StripZeros(Unsigned(s)) == NatToString(if n < 0 then -n else n)
    ensures n < 0 ==> s[0] == '-'
    ensures n > 0 ==> s[0] != '-'
  {
    var u := Unsigned(s);
    StripZerosValue(u);
  }

  /** Conversely, every 32-bit number is read from its decimal form with any
      number of leading zeros, after a `+`, a `-` (for a number that is not
      positive) or no sign. */
  lemma ParseIntAcceptsPadded(sign: string, zeros: nat, n: int)
    requires sign == "" || sign == "+" || sign == "-"
    requires InInt32(n) && (if sign == "-" then n <= 0 else n >= 0)
    ensures ParseInt(sign + Zeros(zeros) + NatToString(if n < 0 then -n else n)) == Some(n)
  {
    var t := NatToString(if n < 0 then -n else n);
    PaddedValue(zeros, t);
    ParseIntSigned(sign, Zeros(zeros) + t);
    assert sign + Zeros(zeros) + t == sign + (Zeros(zeros) + t);
  }

  /** Digits whose value does not fit in 32 bits are refused, with any sign
      and any leading zeros. */
  lemma ParseIntRefusesOverflow(sign: string, zeros: nat, m: nat)
    requires sign == "" || sign == "+" || sign == "-"
    requires if sign == "-" then m > -MinInt32 else m > MaxInt32
    ensures ParseInt(sign + Zeros(zeros) + NatToString(m)) == None
  {
    var t := NatToString(m);
    PaddedValue(zeros, t);
    ParseIntSigned(sign, Zeros(zeros) + t);
    assert sign + Zeros(zeros) + t == sign + (Zeros(zeros) + t);
  }

  /** For instance, `+007` is read as 7. */
  lemma ParseIntPaddedExample()
    ensures ParseInt("+007") == Some(7)
  {
    ParseIntAcceptsPadded("+", 2, 7);
    assert "+" + Zeros(2) + NatToString(7) == "+007";
  }

  /** Text that is not a signed run of digits is refused, whatever its value. */
  lemma ParseIntRejectsNonDigit(s: string, k: nat)
    requires k < |s| && !IsDigit(s[k])
    requires k > 0 || (s[0] != '-' && s[0] != '+')
    ensures ParseInt(s) == None
  {
    if s[0] == '-' || s[0] == '+' {
      assert s[1..][k - 1] == s[k];
    }
  }

  /** A sign alone, or nothing at all, is refused. */
  lemma ParseIntRejectsEmptyDigits(s: string)
    requires s == [] || s == "-" || s == "+"
    ensures ParseInt(s) == None
  {
  }
}
