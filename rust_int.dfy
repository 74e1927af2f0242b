/** The small Option type used throughout the model. */
module Wrappers {
  datatype Option<+T> = None | Some(value: T)
}

/**
 * Rust's `str::parse::<i32>()` as the live-departure example uses it:
 * an optional single `+` or `-`, then one or more ASCII digits, and a value
 * inside the 32-bit signed range; anything else is an error (`None` here).
 * `FormatInt` is the decimal rendering of an integer, the independent
 * partner the parser is proved against.
 */
module RustInt {
  import opened Wrappers

  const I32Min: int := -0x8000_0000
  const I32Max: int := 0x7fff_ffff

  predicate InI32(v: int) {
    I32Min <= v <= I32Max
  }

  predicate IsDigit(c: char) {
    '0' <= c <= '9'
  }

  predicate AllDigits(s: string) {
    forall i :: 0 <= i < |s| ==> IsDigit(s[i])
  }

  function DigitValue(c: char): (d: nat)
    requires IsDigit(c)
    ensures d < 10
  {
    (c as int) - ('0' as int)
  }

  function DigitChar(d: nat): (c: char)
    requires d < 10
    ensures IsDigit(c) && DigitValue(c) == d
  {
    (('0' as int) + d) as char
  }

  /** The value of a string of decimal digits, most significant digit first. */
  function DigitsValue(s: string): nat
    requires AllDigits(s)
  {
    if s == [] then 0 else DigitsValue(s[..|s| - 1]) * 10 + DigitValue(s[|s| - 1])
  }

  /** `s.parse::<i32>().ok()` */
  function ParseI32(s: string): (r: Option<int>)
    ensures r.Some? ==> InI32(r.value)
    ensures r.Some? ==> s != [] && (r.value < 0 ==> s[0] == '-')
    ensures r.Some? ==> IsDigit(s[0]) || (|s| >= 2 && (s[0] == '+' || s[0] == '-'))
    ensures r.Some? ==> forall i :: 0 < i < |s| ==> IsDigit(s[i])
  {
    if s == [] then None
    else
      var digits := if s[0] == '-' || s[0] == '+' then s[1..] else s;
      if digits == [] || !AllDigits(digits) then None
      else
        var magnitude: int := DigitsValue(digits);
        var v := if s[0] == '-' then -magnitude else magnitude;
        if InI32(v) then Some(v) else None
  }

  /** Canonical decimal text of a natural number: no sign, no leading zero. */
  function FormatNat(n: nat): string
    decreases n
  {
    if n < 10 then [DigitChar(n)] else FormatNat(n / 10) + [DigitChar(n % 10)]
  }

  /** Canonical decimal text of an integer, with a `-` for negative values. */
  function FormatInt(v: int): string {
    if v < 0 then "-" + FormatNat(-v) else FormatNat(v)
  }

  lemma {:induction false} FormatNatDigits(n: nat)
    ensures FormatNat(n) != [] && AllDigits(FormatNat(n))
    ensures DigitsValue(FormatNat(n)) == n
    decreases n
  {
    if n >= 10 {
      FormatNatDigits(n / 10);
      var prefix := FormatNat(n / 10);
      var s := prefix + [DigitChar(n % 10)];
      assert s[..|s| - 1] == prefix;
    }
  }

  /** Parsing the decimal text of any 32-bit value gives that value back. */
  lemma ParseFormatRoundTrip(v: int)
    requires InI32(v)
    ensures ParseI32(FormatInt(v)) == Some(v)
  {
    ParseCanonical(v);
  }

  /** Values past the 32-bit range are rejected even though their text is well formed. */
  lemma ParseRejectsOverflow(v: int)
    requires !InI32(v)
    ensures ParseI32(FormatInt(v)) == None
  {
    ParseCanonical(v);
  }

  /** The canonical text of a value is the numeral with its sign and no padding. */
  lemma ParseCanonical(v: int)
    ensures ParseI32(FormatInt(v)) == if InI32(v) then Some(v) else None
  {
    var sign := if v < 0 then "-" else "";
    var n := Abs(v);
    assert Zeros(0) == [];
    assert FormatInt(v) == sign + FormatNat(n);
    assert FormatInt(v) == Numeral(sign, 0, n);
    ParseNumeral(sign, 0, n);
  }

  function Abs(v: int): nat {
    if v < 0 then -v else v
  }

  /** `k` zero digits. */
  function Zeros(k: nat): (z: string)
    ensures |z| == k && forall i :: 0 <= i < k ==> z[i] == '0'
  {
    if k == 0 then [] else ['0'] + Zeros(k - 1)
  }

  /** A numeral as the parser accepts it: an optional sign, any number of leading zeros, then the canonical digits of `n`. */
  function Numeral(sign: string, k: nat, n: nat): string {
    sign + Zeros(k) + FormatNat(n)
  }

  predicate IsSign(sign: string) {
    sign == "" || sign == "+" || sign == "-"
  }

  /** Every padded, signed numeral parses to its signed value when that value fits in 32 bits, and is rejected otherwise. */
  lemma ParseNumeral(sign: string, k: nat, n: nat)
    requires IsSign(sign)
    ensures var v: int := if sign == "-" then -(n as int) else n;
            ParseI32(Numeral(sign, k, n)) == if InI32(v) then Some(v) else None
  {
    var digits := Zeros(k) + FormatNat(n);
    assert Numeral(sign, k, n) == sign + digits;
    FormatNatDigits(n);
    PaddedValue(k, FormatNat(n));
    ParseSigned(sign, digits, n);
  }

  /** A sign followed by a non-empty digit string parses to the signed value of the digits, when it fits. */
  lemma ParseSigned(sign: string, digits: string, m: nat)
    requires IsSign(sign) && digits != [] && AllDigits(digits) && DigitsValue(digits) == m
    ensures var v: int := if sign == "-" then -(m as int) else m;
            ParseI32(sign + digits) == if InI32(v) then Some(v) else None
  {
    var s := sign + digits;
    if sign == "" {
      assert s == digits;
      assert IsDigit(s[0]);
    } else {
      assert s[0] == sign[0];
      assert s[1..] == digits;
    }
  }

  /** Leading zeros do not change the value of a digit string. */
  lemma {:induction false} PaddedValue(k: nat, d: string)
    requires d != [] && AllDigits(d)
    ensures AllDigits(Zeros(k) + d) && DigitsValue(Zeros(k) + d) == DigitsValue(d)
    decreases k
  {
    if k > 0 {
      PaddedValue(k - 1, d);
      var tail := Zeros(k - 1) + d;
      var padded := Zeros(k) + d;
      assert padded == ['0'] + tail;
      assert AllDigits(padded) by {
        forall i | 0 <= i < |padded| ensures IsDigit(padded[i]) {
          if i > 0 {
            assert padded[i] == tail[i - 1];
          }
        }
      }
      assert padded[1..] == tail;
      LeadingZero(padded);
    } else {
      assert Zeros(k) + d == d;
    }
  }

  /** Dropping one leading zero keeps the value. */
  lemma {:induction false} LeadingZero(d: string)
    requires |d| >= 2 && d[0] == '0' && AllDigits(d)
    ensures DigitsValue(d[1..]) == DigitsValue(d)
    decreases |d|
  {
    var init := d[..|d| - 1];
    if |d| == 2 {
      assert init == "0";
      assert init[..0] == "";
      assert d[1..][..0] == "";
    } else {
      LeadingZero(init);
      assert init[1..] == d[1..][..|d| - 2];
    }
  }

  /** Conversely, every text the parser accepts is such a numeral, with a `-` only for a value that is not positive. */
  lemma ParsedIsNumeral(s: string, v: int)
    requires ParseI32(s) == Some(v)
    ensures exists sign, k: nat :: IsSign(sign) && (sign == "-" ==> v <= 0) && s == Numeral(sign, k, Abs(v))
  {
    var sign, digits := SplitSign(s, v);
    var k := DigitsAreNumeral(digits);
    NumeralOfDigits(sign, digits, k, Abs(v));
    assert IsSign(sign) && (sign == "-" ==> v <= 0) && s == Numeral(sign, k, Abs(v));
  }

  /** An accepted text splits into its sign and a non-empty digit string whose value is the magnitude of the result. */
  lemma SplitSign(s: string, v: int) returns (sign: string, digits: string)
    requires ParseI32(s) == Some(v)
    ensures IsSign(sign) && digits != [] && AllDigits(digits) && s == sign + digits
    ensures DigitsValue(digits) == Abs(v) && (sign == "-" ==> v <= 0)
  {
    if s[0] == '-' || s[0] == '+' {
      sign, digits := [s[0]], s[1..];
      forall i | 0 <= i < |digits| ensures IsDigit(digits[i]) {
        assert digits[i] == s[i + 1];
      }
    } else {
      sign, digits := "", s;
    }
  }

  lemma NumeralOfDigits(sign: string, digits: string, k: nat, n: nat)
    requires digits == Zeros(k) + FormatNat(n)
    ensures sign + digits == Numeral(sign, k, n)
  {
  }

  /** A non-empty digit string is some leading zeros followed by the canonical text of its value. */
  lemma {:induction false} DigitsAreNumeral(d: string) returns (k: nat)
    requires d != [] && AllDigits(d)
    ensures d == Zeros(k) + FormatNat(DigitsValue(d))
    decreases |d|
  {
    if |d| >= 2 && d[0] == '0' {
      var tail := d[1..];
      var k' := DigitsAreNumeral(tail);
      LeadingZero(d);
      var f := FormatNat(DigitsValue(d));
      assert tail == Zeros(k') + f;
      k := k' + 1;
      assert d == [d[0]] + tail;
      assert Zeros(k) + f == ['0'] + (Zeros(k') + f);
    } else {
      k := 0;
      CanonicalDigits(d);
      assert Zeros(0) == [];
    }
  }

  /** A digit string without a leading zero is the canonical text of its value. */
  lemma {:induction false} CanonicalDigits(d: string)
    requires d != [] && AllDigits(d) && (d[0] != '0' || |d| == 1)
    ensures FormatNat(DigitsValue(d)) == d
    decreases |d|
  {
    var init := d[..|d| - 1];
    var last := d[|d| - 1];
    if |d| == 1 {
      assert init == [];
      assert d == [last];
    } else {
      CanonicalDigits(init);
      NoLeadingZeroIsPositive(init);
      var n := DigitsValue(d);
      assert n == DigitsValue(init) * 10 + DigitValue(last);
      assert n / 10 == DigitsValue(init) && n % 10 == DigitValue(last);
      assert d == init + [last];
    }
  }

  lemma {:induction false} NoLeadingZeroIsPositive(d: string)
    requires d != [] && AllDigits(d) && d[0] != '0'
    ensures DigitsValue(d) >= 1
    decreases |d|
  {
    if |d| >= 2 {
      NoLeadingZeroIsPositive(d[..|d| - 1]);
    }
  }
}
