/**
 * The parts of Go's strconv package the storage layer relies on:
 * FormatBool, ParseBool, Itoa and Atoi, on a 64-bit platform.
 * Go functions that return `(value, err)` and whose callers keep the value even
 * when `err` is non-nil are modelled with `Parsed`, which carries both.
 */
module Strconv {
  import opened Errors

  const MaxInt64: int := 0x7fff_ffff_ffff_ffff
  const MinInt64: int := -0x8000_0000_0000_0000

  /** The two error kinds of *strconv.NumError. */
  datatype NumError = ErrSyntax | ErrRange

  datatype Parsed<T> = Parsed(value: T, err: Option<NumError>)

  /** The spellings strconv.ParseBool accepts. */
  const TrueSpellings: set<string> := {"1", "t", "T", "TRUE", "true", "True"}
  const FalseSpellings: set<string> := {"0", "f", "F", "FALSE", "false", "False"}

  function FormatBool(b: bool): (s: string)
    ensures s in TrueSpellings <==> b
    ensures s in FalseSpellings <==> !b
  {
    if b then "true" else "false"
  }

  /** strconv.ParseBool: any other spelling is a syntax error, with value false. */
  function ParseBool(s: string): (r: Parsed<bool>)
    ensures r.err.None? <==> s in TrueSpellings || s in FalseSpellings
    ensures r.value <==> s in TrueSpellings
  {
    if s in TrueSpellings then Parsed(true, None)
    else if s in FalseSpellings then Parsed(false, None)
    else Parsed(false, Some(ErrSyntax))
  }

  lemma ParseFormatBool(b: bool)
    ensures ParseBool(FormatBool(b)) == Parsed(b, None)
  {
  }

  predicate IsDigit(c: char) {
    '0' <= c <= '9'
  }

  predicate AllDigits(s: string) {
    forall i :: 0 <= i < |s| ==> IsDigit(s[i])
  }

  function DigitChar(d: nat): (c: char)
    requires d < 10
    ensures IsDigit(c)
  {
    (48 + d) as char
  }

  function DigitValue(c: char): (d: nat)
    requires IsDigit(c)
    ensures d < 10 && DigitChar(d) == c
  {
    c as int - 48
  }

  /** The decimal digits of n, most significant first, without leading zeros. */
  function Digits(n: nat): (s: string)
    ensures |s| > 0 && AllDigits(s)
    ensures s[0] == '0' ==> n == 0
    decreases n
  {
    if n < 10 then [DigitChar(n)] else Digits(n / 10) + [DigitChar(n % 10)]
  }

  /** The number a string of decimal digits denotes. */
  function DigitsValue(s: string): nat
    requires AllDigits(s)
  {
    if s == [] then 0 else DigitsValue(s[..|s| - 1]) * 10 + DigitValue(s[|s| - 1])
  }

  lemma {:induction false} DigitsRoundTrip(n: nat)
    ensures DigitsValue(Digits(n)) == n
    decreases n
  {
    if n >= 10 {
      var s := Digits(n / 10) + [DigitChar(n % 10)];
      assert s[..|s| - 1] == Digits(n / 10);
      DigitsRoundTrip(n / 10);
    }
  }

  /** strconv.Itoa: the decimal rendering of n, with a leading '-' when negative. */
  function Itoa(n: int): (s: string)
    ensures |s| > 0
    ensures s[0] == '-' <==> n < 0
    ensures n >= 0 ==> AllDigits(s)
    ensures n < 0 ==> AllDigits(s[1..])
  {
    if n < 0 then "-" + Digits(-n) else Digits(n)
  }

  const MaxUint64: int := 0xffff_ffff_ffff_ffff

  /** The longest run of decimal digits at the front of s. */
  function LeadingDigits(s: string): (d: string)
    ensures AllDigits(d) && |d| <= |s| && d == s[..|d|]
    ensures |d| < |s| ==> !IsDigit(s[|d|])
  {
    if s == [] || !IsDigit(s[0]) then []
    else [s[0]] + LeadingDigits(s[1..])
  }

  /** One more digit at the end: ten times the value plus the digit. */
  lemma DigitsValueSnoc(a: string, c: char)
    requires AllDigits(a) && IsDigit(c)
    ensures AllDigits(a + [c]) && DigitsValue(a + [c]) == DigitsValue(a) * 10 + DigitValue(c)
  {
    assert AllDigits(a + [c]);
    assert (a + [c])[..|a|] == a;
  }

  /** Appending digits never lowers the value. */
  lemma {:induction false} DigitsValueGrows(a: string, b: string)
    requires AllDigits(a) && AllDigits(b)
    ensures AllDigits(a + b) && DigitsValue(a) <= DigitsValue(a + b)
    decreases |b|
  {
    assert AllDigits(a + b);
    if b != [] {
      var init := b[..|b| - 1];
      assert a + b == (a + init) + [b[|b| - 1]];
      DigitsValueGrows(a, init);
      DigitsValueSnoc(a + init, b[|b| - 1]);
    } else {
      assert a + b == a;
    }
  }

  /**
   * The digit loop of strconv.ParseUint(s, 10, 64) from accumulated value n:
   * each byte must be a digit, and the value read so far must stay within
   * 64 bits; whichever check fails first decides the error.
   */
  function ScanUint(s: string, n: nat): (r: Parsed<nat>)
    requires n <= MaxUint64
    ensures r.value <= MaxUint64
    ensures r.err == Some(ErrSyntax) ==> r.value == 0
    ensures r.err == Some(ErrRange) ==> r.value == MaxUint64
    decreases |s|
  {
    if s == [] then Parsed(n, None)
    else if !IsDigit(s[0]) then Parsed(0, Some(ErrSyntax))
    else if n * 10 + DigitValue(s[0]) > MaxUint64 then Parsed(MaxUint64, Some(ErrRange))
    else ScanUint(s[1..], n * 10 + DigitValue(s[0]))
  }

  /**
   * What the digit loop answers after the digits p, stated without the loop:
   * a range error when the leading digits already overflow, the whole value
   * when s is all digits, a syntax error otherwise.
   */
  function ScanReference(p: string, s: string): Parsed<nat>
    requires AllDigits(p)
  {
    var lead := LeadingDigits(s);
    assert AllDigits(p + lead) && AllDigits(p + s[..|lead|]);
    if DigitsValue(p + lead) > MaxUint64 then Parsed(MaxUint64, Some(ErrRange))
    else if lead == s then Parsed(DigitsValue(p + lead), None)
    else Parsed(0, Some(ErrSyntax))
  }

  lemma {:induction false} ScanUintValue(p: string, s: string)
    requires AllDigits(p) && DigitsValue(p) <= MaxUint64
    ensures ScanUint(s, DigitsValue(p)) == ScanReference(p, s)
    decreases |s|
  {
    if s == [] || !IsDigit(s[0]) {
      assert p + LeadingDigits(s) == p;
    } else {
      var p' := p + [s[0]];
      DigitsValueSnoc(p, s[0]);
      assert p + LeadingDigits(s) == p' + LeadingDigits(s[1..]);
      if DigitsValue(p') > MaxUint64 {
        DigitsValueGrows(p', LeadingDigits(s[1..]));
      } else {
        ScanUintValue(p', s[1..]);
      }
    }
  }

  /** strconv.ParseUint(s, 10, 64), read left to right. */
  function ParseUint(s: string): (r: Parsed<nat>)
    ensures r.value <= MaxUint64
    ensures r.err == Some(ErrSyntax) ==> r.value == 0
    ensures r.err == Some(ErrRange) ==> r.value == MaxUint64
  {
    if s == [] then Parsed(0, Some(ErrSyntax)) else ScanUint(s, 0)
  }

  /**
   * ParseUint stated on the text itself: a range error when the leading
   * digits overflow 64 bits, whatever follows them; otherwise the value of a
   * non-empty all-digit text, or a syntax error.
   */
  function ParseUintReference(s: string): Parsed<nat> {
    var lead := LeadingDigits(s);
    if DigitsValue(lead) > MaxUint64 then Parsed(MaxUint64, Some(ErrRange))
    else if s == [] || lead != s then Parsed(0, Some(ErrSyntax))
    else Parsed(DigitsValue(lead), None)
  }

  lemma ParseUintValue(s: string)
    ensures ParseUint(s) == ParseUintReference(s)
  {
    if s != [] {
      ScanUintValue([], s);
      assert [] + LeadingDigits(s) == LeadingDigits(s);
    }
  }

  /** s without its sign byte. */
  function Unsigned(s: string): string {
    if |s| > 0 && (s[0] == '+' || s[0] == '-') then s[1..] else s
  }

  /** The int64 nearest to v. */
  function ClampInt64(v: int): int {
    if v > MaxInt64 then MaxInt64 else if v < MinInt64 then MinInt64 else v
  }

  /**
   * strconv.Atoi on a 64-bit platform: strconv.ParseInt(s, 10, 0), an optional
   * sign and then ParseUint. A syntax error yields 0; a range error yields the
   * int64 bound on the side of the sign. Go's fast path for strings shorter
   * than 19 bytes gives the same answers: so few digits cannot overflow.
   */
  function Atoi(s: string): (r: Parsed<int>)
    ensures r.err == Some(ErrSyntax) ==> r.value == 0
    ensures MinInt64 <= r.value <= MaxInt64
    ensures r.err == Some(ErrRange) ==> r.value == (if |s| > 0 && s[0] == '-' then MinInt64 else MaxInt64)
  {
    if s == [] then Parsed(0, Some(ErrSyntax))
    else
      var neg := s[0] == '-';
      var un := ParseUint(Unsigned(s));
      if un.err == Some(ErrSyntax) then Parsed(0, Some(ErrSyntax))
      else if !neg && un.value > MaxInt64 then Parsed(MaxInt64, Some(ErrRange))
      else if neg && un.value > -MinInt64 then Parsed(MinInt64, Some(ErrRange))
      else Parsed(if neg then -(un.value as int) else un.value, None)
  }

  /**
   * Atoi stated on the text itself: when the digits before the first bad byte
   * already exceed 64 bits, the bound on the side of the sign with a range
   * error, whatever follows; otherwise a syntax error unless a sign is
   * followed by digits only, whose value is returned, clamped to int64 with a
   * range error when it lies outside.
   */
  function AtoiReference(s: string): Parsed<int> {
    var neg := |s| > 0 && s[0] == '-';
    var body := Unsigned(s);
    var lead := LeadingDigits(body);
    if DigitsValue(lead) > MaxUint64 then Parsed(if neg then MinInt64 else MaxInt64, Some(ErrRange))
    else if body == [] || lead != body then Parsed(0, Some(ErrSyntax))
    else
      var v := if neg then -(DigitsValue(lead) as int) else DigitsValue(lead) as int;
      Parsed(ClampInt64(v), if MinInt64 <= v <= MaxInt64 then None else Some(ErrRange))
  }

  lemma AtoiMatchesReference(s: string)
    ensures Atoi(s) == AtoiReference(s)
  {
    var body := Unsigned(s);
    var lead := LeadingDigits(body);
    ParseUintValue(body);
    if s != [] {
      var un := ParseUint(body);
      if DigitsValue(lead) > MaxUint64 {
        assert un == Parsed(MaxUint64, Some(ErrRange));
      } else if body == [] || lead != body {
        assert un.err == Some(ErrSyntax);
      } else {
        assert un == Parsed(DigitsValue(lead), None);
      }
    }
  }

  /** Leading digits run through an all-digit prefix into what follows it. */
  lemma {:induction false} LeadingDigitsAppend(d: string, t: string)
    requires AllDigits(d)
    ensures LeadingDigits(d + t) == d + LeadingDigits(t)
    decreases |d|
  {
    if d == [] {
      assert d + t == t;
    } else {
      assert (d + t)[1..] == d[1..] + t;
      LeadingDigitsAppend(d[1..], t);
    }
  }

  /**
   * Digits that overflow 64 bits decide Atoi before any later byte is looked
   * at: whatever follows, the answer is the int64 bound with a range error,
   * not a syntax error.
   */
  lemma AtoiOverflowFirst(d: string, t: string)
    requires AllDigits(d) && DigitsValue(d) > MaxUint64
    ensures Atoi(d + t) == Parsed(MaxInt64, Some(ErrRange))
  {
    OverflowingLead(d, t);
    assert Unsigned(d + t) == d + t;
    AtoiMatchesReference(d + t);
  }

  /** The same with a minus sign: the lower bound. */
  lemma AtoiOverflowFirstNegative(d: string, t: string)
    requires AllDigits(d) && DigitsValue(d) > MaxUint64
    ensures Atoi("-" + d + t) == Parsed(MinInt64, Some(ErrRange))
  {
    OverflowingLead(d, t);
    var s := "-" + d + t;
    assert s == ['-'] + (d + t) && s[0] == '-';
    assert Unsigned(s) == d + t;
    AtoiMatchesReference(s);
  }

  lemma OverflowingLead(d: string, t: string)
    requires AllDigits(d) && DigitsValue(d) > MaxUint64
    ensures d != [] && IsDigit(d[0]) && (d + t)[0] == d[0]
    ensures DigitsValue(LeadingDigits(d + t)) > MaxUint64
  {
    LeadingDigitsAppend(d, t);
    DigitsValueGrows(d, LeadingDigits(t));
  }

  /** An all-digit text is its own leading run. */
  lemma LeadingDigitsAll(s: string)
    requires AllDigits(s)
    ensures LeadingDigits(s) == s
  {
    var d := LeadingDigits(s);
    assert |d| == |s|;
  }

  /** Atoi reads back exactly what Itoa wrote, for every int64 value. */
  lemma AtoiItoa(n: int)
    requires MinInt64 <= n <= MaxInt64
    ensures Atoi(Itoa(n)) == Parsed(n, None)
  {
    var s := Itoa(n);
    AtoiMatchesReference(s);
    var m := if n < 0 then -n else n;
    assert Unsigned(s) == Digits(m) by {
      if n < 0 {
        assert s[1..] == Digits(-n);
      }
    }
    LeadingDigitsAll(Digits(m));
    DigitsRoundTrip(m);
  }

  /** Distinct integers have distinct renderings. */
  lemma ItoaInjective(a: int, b: int)
    requires Itoa(a) == Itoa(b)
    ensures a == b
  {
    if a < 0 {
      assert Itoa(a)[1..] == Digits(-a) && Itoa(b)[1..] == Digits(-b);
      DigitsRoundTrip(-a);
      DigitsRoundTrip(-b);
    } else {
      DigitsRoundTrip(a);
      DigitsRoundTrip(b);
    }
  }
}
