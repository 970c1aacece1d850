/**
  The parts of Python's text/number conversions the program relies on:
  `int(s)` on a string (base 10), `str(n)` on an int, and the `02d` format
  specification used for the timer display.
 */
module PyText {
  import opened Wrappers

  /**
    The characters `int()` strips around its argument: the C-locale spaces
    for ASCII characters, the Unicode whitespace set for the others. This is
    not `str.isspace()`, which also counts U+001C..U+001F.
   */
  predicate IsSpace(c: char) {
    var k := c as int;
    (9 <= k <= 13) || k == 32 || k == 0x85 || k == 0xA0 || k == 0x1680
    || (0x2000 <= k <= 0x200A) || k == 0x2028 || k == 0x2029 || k == 0x202F
    || k == 0x205F || k == 0x3000
  }

  predicate AllSpace(s: string) {
    forall i :: 0 <= i < |s| ==> IsSpace(s[i])
  }

  predicate IsDigit(c: char) {
    '0' <= c <= '9'
  }

  predicate AllDigits(s: string) {
    forall i :: 0 <= i < |s| ==> IsDigit(s[i])
  }

  function DigitValue(c: char): (d: nat)
    requires IsDigit(c)
    ensures d < 10
  {
    c as int - '0' as int
  }

  function DigitChar(d: nat): (c: char)
    requires d < 10
    ensures IsDigit(c) && DigitValue(c) == d
  {
    (d + '0' as int) as char
  }

  /** The number a string of decimal digits denotes (most significant first). */
  function ValueOf(s: string): nat
    requires AllDigits(s)
  {
    if s == [] then 0 else ValueOf(s[..|s| - 1]) * 10 + DigitValue(s[|s| - 1])
  }

  // ---------------------------------------------------------------------------
  // int(s)
  // ---------------------------------------------------------------------------

  function StripLeft(s: string): string {
    if |s| > 0 && IsSpace(s[0]) then StripLeft(s[1..]) else s
  }

  function StripRight(s: string): string {
    if |s| > 0 && IsSpace(s[|s| - 1]) then StripRight(s[..|s| - 1]) else s
  }

  /** `s` without its leading and trailing whitespace. */
  function Strip(s: string): string {
    StripRight(StripLeft(s))
  }

  /**
    The digit part `int()` accepts in base 10: digits, where single
    underscores may separate two digits (`1_000`).
   */
  predicate IsDigitRun(s: string) {
    && |s| > 0
    && IsDigit(s[0])
    && IsDigit(s[|s| - 1])
    && (forall i :: 0 <= i < |s| ==> IsDigit(s[i]) || s[i] == '_')
    && (forall i :: 0 <= i < |s| - 1 && s[i] == '_' ==> s[i + 1] != '_')
  }

  /** The digits of a digit run, separators dropped. */
  function DropUnderscores(s: string): (r: string)
    ensures (forall i :: 0 <= i < |s| ==> IsDigit(s[i]) || s[i] == '_') ==> AllDigits(r)
    ensures AllDigits(s) ==> r == s
  {
    if s == [] then []
    else (if s[0] == '_' then [] else [s[0]]) + DropUnderscores(s[1..])
  }

  function RunValue(s: string): nat
    requires IsDigitRun(s)
  {
    ValueOf(DropUnderscores(s))
  }

  /**
    Python's `int(s)`: surrounding whitespace, then an optional sign, then a
    digit run; anything else is a `ValueError`, modelled as `None`.
   */
  function ParseInt(s: string): Option<int> {
    var t := Strip(s);
    if |t| > 0 && (t[0] == '+' || t[0] == '-') then
      if IsDigitRun(t[1..]) then
        var v: int := RunValue(t[1..]);
        Some(if t[0] == '-' then -v else v)
      else None
    else if IsDigitRun(t) then Some(RunValue(t))
    else None
  }

  // ---------------------------------------------------------------------------
  // str(n) and format(n, "02d")
  // ---------------------------------------------------------------------------

  /** The decimal digits of `n`, without leading zeros. */
  function Digits(n: nat): (r: string)
    ensures |r| >= 1 && AllDigits(r)
    ensures r[0] == '0' ==> n == 0
  {
    if n < 10 then [DigitChar(n)] else Digits(n / 10) + [DigitChar(n % 10)]
  }

  /** Python's `str(n)` for an int. */
  function Decimal(n: int): string {
    if n < 0 then "-" + Digits(-n) else Digits(n)
  }

  /** Python's `f"{n:02d}"` for a non-negative int: zero-padded to two digits. */
  function ZeroPad2(n: nat): (r: string)
    ensures AllDigits(r)
  {
    if n < 10 then "0" + Digits(n) else Digits(n)
  }

  // ---------------------------------------------------------------------------
  // Lemmas
  // ---------------------------------------------------------------------------

  /** `Digits` is inverted by reading the digits back. */
  lemma {:induction false} DigitsValue(n: nat)
    ensures ValueOf(Digits(n)) == n
  {
    if n >= 10 {
      DigitsValue(n / 10);
      var d := Digits(n);
      assert d[..|d| - 1] == Digits(n / 10);
    }
  }

  /** `str(n)` has one character below 10, and at most two below 100. */
  lemma {:induction false} DigitsWidth(n: nat)
    ensures |Digits(n)| == 1 <==> n < 10
    ensures |Digits(n)| <= 2 <==> n < 100
  {
    if n >= 10 {
      DigitsWidth(n / 10);
    }
  }

  /** A `02d` field is at least two characters wide, and exactly two below 100. */
  lemma ZeroPad2Width(n: nat)
    ensures |ZeroPad2(n)| >= 2
    ensures |ZeroPad2(n)| == 2 <==> n < 100
  {
    DigitsWidth(n);
  }

  lemma {:induction false} StripLeftAppend(s: string, u: string)
    ensures StripLeft(s + u) == if StripLeft(s) == [] then StripLeft(u) else StripLeft(s) + u
  {
    if |s| > 0 && IsSpace(s[0]) {
      assert (s + u)[1..] == s[1..] + u;
      StripLeftAppend(s[1..], u);
    } else if s == [] {
      assert s + u == u;
    }
  }

  lemma {:induction false} StripLeftSpaces(w: string)
    requires AllSpace(w)
    ensures StripLeft(w) == []
  {
    if w != [] {
      StripLeftSpaces(w[1..]);
    }
  }

  lemma {:induction false} StripRightAppendSpaces(s: string, w: string)
    requires AllSpace(w)
    ensures StripRight(s + w) == StripRight(s)
  {
    if w != [] {
      var sw := s + w;
      assert sw[..|sw| - 1] == s + w[..|w| - 1];
      StripRightAppendSpaces(s, w[..|w| - 1]);
    } else {
      assert s + w == s;
    }
  }

  lemma {:induction false} StripRightOfStripped(s: string)
    requires AllSpace(s)
    ensures StripRight(s) == []
  {
    if s != [] {
      StripRightOfStripped(s[..|s| - 1]);
    }
  }

  /** `int()` ignores whitespace around its argument. */
  lemma StripIgnoresSpaces(w1: string, s: string, w2: string)
    requires AllSpace(w1) && AllSpace(w2)
    ensures Strip(w1 + s + w2) == Strip(s)
  {
    assert w1 + s + w2 == w1 + (s + w2);
    StripLeftAppend(w1, s + w2);
    StripLeftSpaces(w1);
    StripLeftAppend(s, w2);
    if StripLeft(s) == [] {
      StripLeftSpaces(w2);
      StripRightOfStripped([]);
    } else {
      StripRightAppendSpaces(StripLeft(s), w2);
    }
  }

  lemma ParseIntIgnoresSpaces(w1: string, s: string, w2: string)
    requires AllSpace(w1) && AllSpace(w2)
    ensures ParseInt(w1 + s + w2) == ParseInt(s)
  {
    StripIgnoresSpaces(w1, s, w2);
  }

  /** A string that starts and ends with a non-space character is its own `Strip`. */
  lemma StripFixed(t: string)
    requires |t| > 0 && !IsSpace(t[0]) && !IsSpace(t[|t| - 1])
    ensures Strip(t) == t
  {
  }

  /** A plain digit string is a digit run worth its value. */
  lemma DigitsAreRun(d: string)
    requires |d| > 0 && AllDigits(d)
    ensures IsDigitRun(d) && RunValue(d) == ValueOf(d)
  {
  }

  /** `int()` of a plain digit string is its value. */
  lemma ParseRun(d: string)
    requires |d| > 0 && AllDigits(d)
    ensures ParseInt(d) == Some(ValueOf(d))
  {
    DigitsAreRun(d);
    StripFixed(d);
    assert IsDigit(d[0]);
  }

  /** `int()` of an already stripped string made of a sign and a digit run. */
  lemma ParseSigned(t: string)
    requires |t| > 1 && (t[0] == '+' || t[0] == '-') && Strip(t) == t && IsDigitRun(t[1..])
    ensures ParseInt(t) == Some(if t[0] == '-' then -(RunValue(t[1..]) as int) else RunValue(t[1..]))
  {
  }

  /** `int()` of a minus sign followed by a digit run is its negated value. */
  lemma ParseNegativeRun(d: string)
    requires IsDigitRun(d)
    ensures ParseInt("-" + d) == Some(-(RunValue(d) as int))
  {
    var t := "-" + d;
    assert t[1..] == d;
    assert t[|t| - 1] == d[|d| - 1];
    StripFixed(t);
    ParseSigned(t);
  }

  lemma ParseDigits(m: nat)
    ensures ParseInt(Digits(m)) == Some(m as int)
  {
    DigitsValue(m);
    ParseRun(Digits(m));
  }

  lemma ParseNegativeDigits(m: nat)
    ensures ParseInt("-" + Digits(m)) == Some(-(m as int))
  {
    DigitsValue(m);
    DigitsAreRun(Digits(m));
    ParseNegativeRun(Digits(m));
  }

  /** `int(str(n)) == n` for every int. */
  lemma ParseDecimal(n: int)
    ensures ParseInt(Decimal(n)) == Some(n)
  {
    if n < 0 {
      ParseNegativeDigits(-n);
      assert Decimal(n) == "-" + Digits(-n);
    } else {
      ParseDigits(n);
      assert Decimal(n) == Digits(n);
    }
  }

  /** `int()` reads back every `02d` rendering, leading zero included. */
  lemma ParseZeroPad2(n: nat)
    ensures ParseInt(ZeroPad2(n)) == Some(n as int)
  {
    if n < 10 {
      var r := "0" + [DigitChar(n)];
      assert ZeroPad2(n) == r;
      assert r[..1] == "0" && r[1] == DigitChar(n);
      assert ValueOf(r) == ValueOf(r[..1]) * 10 + DigitValue(r[1]);
      ParseRun(r);
    } else {
      DigitsValue(n);
      ParseRun(Digits(n));
    }
  }

  /** `int()` with surrounding whitespace reads back what `str()` wrote. */
  lemma ParseSpacedDecimal(w1: string, n: int, w2: string)
    requires AllSpace(w1) && AllSpace(w2)
    ensures ParseInt(w1 + Decimal(n) + w2) == Some(n)
  {
    ParseIntIgnoresSpaces(w1, Decimal(n), w2);
    ParseDecimal(n);
  }

  /** U+001C (a separator `str.isspace()` accepts) is not stripped: `int("\x1c5")` is an error. */
  lemma SeparatorIsNotSpace()
    ensures ParseInt([28 as char] + "5") == None
  {
    var s := [28 as char] + "5";
    assert !IsSpace(s[0]) && !IsSpace(s[|s| - 1]);
    assert Strip(s) == s;
  }
}
