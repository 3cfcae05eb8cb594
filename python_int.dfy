/**
 * The parts of Python's integer <-> text conversions that the application relies on:
 * `str.isspace`, `int(s)` (base 10), `int(s, 0)` (base from prefix), `str(n)` and `hex(n)`.
 */
module PyInt {
  import opened Results

  /** Python's `str.isspace()` for one character. */
  predicate IsSpace(c: char) {
    var n := c as int;
    n == 32 || 9 <= n <= 13 || 28 <= n <= 31 || n == 0x85 || n == 0xa0 || n == 0x1680
    || 0x2000 <= n <= 0x200a || n == 0x2028 || n == 0x2029 || n == 0x202f || n == 0x205f || n == 0x3000
  }

  /**
   * The whitespace `int()` strips: `str.isspace()` without the separators U+001C..U+001F.
   * Characters below 127 reach the parser unchanged, and it skips only ASCII whitespace;
   * wider whitespace becomes a space first.
   */
  predicate IsIntSpace(c: char) {
    IsSpace(c) && !(28 <= c as int <= 31)
  }

  /** Removes leading and trailing whitespace, as `int()` does before parsing. */
  function Strip(s: string): (r: string)
    decreases |s|
  {
    if |s| > 0 && IsIntSpace(s[0]) then Strip(s[1..])
    else if |s| > 0 && IsIntSpace(s[|s| - 1]) then Strip(s[..|s| - 1])
    else s
  }

  /** The value of a digit character in any base up to 36; 37 for a character that is no digit. */
  function DigitValue(c: char): nat {
    if '0' <= c <= '9' then c as int - '0' as int
    else if 'a' <= c <= 'z' then c as int - 'a' as int + 10
    else if 'A' <= c <= 'Z' then c as int - 'A' as int + 10
    else 37
  }

  /** The lower-case digit character for a value below 16. */
  function DigitChar(d: nat): (c: char)
    requires d < 16
    ensures DigitValue(c) == d && '0' <= c <= 'f'
  {
    if d < 10 then ('0' as int + d) as char else ('a' as int + d - 10) as char
  }

  /**
   * A run of digits in `radix` with single underscores between digits: no leading,
   * trailing or doubled underscore, and at least one digit.
   */
  predicate IsDigitRun(s: string, radix: nat) {
    && |s| > 0 && s[0] != '_' && s[|s| - 1] != '_'
    && (forall i :: 0 <= i < |s| ==> s[i] == '_' || DigitValue(s[i]) < radix)
    && (forall i :: 0 <= i < |s| - 1 ==> s[i] != '_' || s[i + 1] != '_')
  }

  /** The number a run of digits denotes, underscores ignored. */
  function RunValue(s: string, radix: nat): nat
    decreases |s|
  {
    if |s| == 0 then 0
    else
      var c := s[|s| - 1];
      if c == '_' then RunValue(s[..|s| - 1], radix)
      else RunValue(s[..|s| - 1], radix) * radix + (if DigitValue(c) < radix then DigitValue(c) else 0)
  }

  /** Splits off an optional leading sign: whether it is negative, and the rest. */
  function SplitSign(s: string): (bool, string) {
    if |s| > 0 && (s[0] == '+' || s[0] == '-') then (s[0] == '-', s[1..]) else (false, s)
  }

  function Signed(negative: bool, n: nat): int {
    var v: int := n;
    if negative then -v else v
  }

  /** Python's ValueError from `int()`: the literal and the base it was parsed in. */
  datatype ValueError = InvalidLiteral(literal: string, base: nat)

  /** Python's `int(s)`: optional whitespace, optional sign, decimal digits with underscores. */
  function IntBase10(s: string): Result<int, ValueError> {
    var (negative, body) := SplitSign(Strip(s));
    if IsDigitRun(body, 10) then Ok(Signed(negative, RunValue(body, 10)))
    else Err(InvalidLiteral(s, 10))
  }

  /**
   * The base `int(s, 0)` reads a sign-less body in, and the digits after the prefix:
   * `0x`/`0X` hexadecimal, `0o`/`0O` octal, `0b`/`0B` binary, each followed by at most one
   * underscore that is skipped; anything else is decimal.
   */
  function PrefixedBase(body: string): (nat, string) {
    if |body| >= 2 && body[0] == '0' && body[1] in "xXoObB" then
      var radix := if body[1] in "xX" then 16 else if body[1] in "oO" then 8 else 2;
      var rest := body[2..];
      (radix, if |rest| > 0 && rest[0] == '_' then rest[1..] else rest)
    else (10, body)
  }

  /**
   * Python's `int(s, 0)`: like `int(s)`, but the base comes from the prefix, and a decimal
   * body that starts with `0` must denote zero (old-style octal literals are refused).
   */
  function IntBase0(s: string): Result<int, ValueError> {
    var (negative, body) := SplitSign(Strip(s));
    var (radix, digits) := PrefixedBase(body);
    if IsDigitRun(digits, radix) && (radix == 10 && body[0] == '0' ==> RunValue(digits, 10) == 0)
    then Ok(Signed(negative, RunValue(digits, radix)))
    else Err(InvalidLiteral(s, 0))
  }

  /** The lower-case digits of `n` in `radix`, most significant first, without leading zeros. */
  function Digits(n: nat, radix: nat): (r: string)
    requires 2 <= radix <= 16
    decreases n
  {
    if n < radix then [DigitChar(n)] else Digits(n / radix, radix) + [DigitChar(n % radix)]
  }

  /** Python's `str(n)` for an integer. */
  function IntToString(n: int): string {
    if n < 0 then "-" + Digits(-n, 10) else Digits(n, 10)
  }

  /** Python's `hex(n)` for a non-negative integer. */
  function Hex(n: nat): string {
    "0x" + Digits(n, 16)
  }

  /** A digit character is no whitespace. */
  lemma DigitIsNotSpace(c: char)
    requires DigitValue(c) < 36
    ensures !IsSpace(c)
  {
  }

  /** Every character of `s` is a digit in `radix`. */
  predicate AllDigits(s: string, radix: nat) {
    forall i :: 0 <= i < |s| ==> DigitValue(s[i]) < radix
  }

  /** The digits of `n` are digits in `radix`, and there is at least one. */
  lemma {:induction false} DigitsAreDigits(n: nat, radix: nat)
    requires 2 <= radix <= 16
    ensures |Digits(n, radix)| > 0 && AllDigits(Digits(n, radix), radix)
    decreases n
  {
    if n >= radix {
      DigitsAreDigits(n / radix, radix);
    }
  }

  /** Euclidean division of `n` by `radix`, and that the quotient is smaller. */
  lemma DivMod(n: nat, radix: nat)
    requires 2 <= radix <= n
    ensures n == (n / radix) * radix + n % radix && 0 <= n % radix < radix
    ensures 1 <= n / radix < n
  {
  }

  /** The digits of `n` denote `n`. */
  lemma {:induction false} DigitsValue(n: nat, radix: nat)
    requires 2 <= radix <= 16
    ensures RunValue(Digits(n, radix), radix) == n
    decreases n
  {
    if n >= radix {
      var s := Digits(n, radix);
      var p := Digits(n / radix, radix);
      var q, r := n / radix, n % radix;
      DivMod(n, radix);
      DigitsValue(q, radix);
      var c := DigitChar(r);
      assert s == p + [c];
      assert s[..|s| - 1] == p;
      assert c != '_' && DigitValue(c) == r < radix;
      assert RunValue(s, radix) == RunValue(p, radix) * radix + r;
      assert n == q * radix + r;
    }
  }

  /** The digits of `n` form a digit run that denotes `n`. */
  lemma DigitsRoundTrip(n: nat, radix: nat)
    requires 2 <= radix <= 16
    ensures IsDigitRun(Digits(n, radix), radix) && AllDigits(Digits(n, radix), radix)
    ensures RunValue(Digits(n, radix), radix) == n
  {
    DigitsAreDigits(n, radix);
    DigitsValue(n, radix);
  }

  /** A string with no whitespace at either end is what `Strip` leaves of it. */
  lemma StripNoSpace(s: string)
    requires |s| > 0 && !IsSpace(s[0]) && !IsSpace(s[|s| - 1])
    ensures Strip(s) == s
  {
  }

  /** `int()` reads decimal digits after an optional sign: `int("-" + str(m))` is `-m`. */
  lemma IntOfSignedDigits(sign: string, m: nat)
    requires sign == "" || sign == "+" || sign == "-"
    ensures IntBase10(sign + Digits(m, 10)) == Ok(Signed(sign == "-", m))
  {
    DigitsRoundTrip(m, 10);
    var d := Digits(m, 10);
    var s := sign + d;
    assert s[|s| - 1] == d[|d| - 1];
    DigitIsNotSpace(d[|d| - 1]);
    if sign == "" {
      assert s == d;
      DigitIsNotSpace(d[0]);
      StripNoSpace(s);
      assert SplitSign(s) == (false, d);
    } else {
      assert s[0] == sign[0] && s[1..] == d;
      StripNoSpace(s);
      assert SplitSign(s) == (sign == "-", d);
    }
  }

  /** A sign that follows a sign makes `int()` refuse the literal, as in `"+-5"` or `"--5"`. */
  lemma IntOfDoubleSign(sign: char, m: nat)
    requires sign == '+' || sign == '-'
    ensures IntBase10([sign] + "-" + Digits(m, 10)).Err?
  {
    DigitsAreDigits(m, 10);
    var d := Digits(m, 10);
    var s := [sign] + "-" + d;
    assert Strip(s) == s by {
      assert s[|s| - 1] == d[|d| - 1];
      DigitIsNotSpace(d[|d| - 1]);
      StripNoSpace(s);
    }
    var body := s[1..];
    assert SplitSign(s) == (sign == '-', body);
    assert !IsDigitRun(body, 10) by {
      assert body[0] == '-';
    }
  }

  /**
   * `str.isspace()` holds for U+001C..U+001F, but `int()` does not strip them: `int("\x1c5")`
   * and `int("\x1f0x2737", 0)` are refused, while `int(" 5")` is 5.
   */
  lemma SeparatorIsNotStripped()
    ensures IsSpace('\U{1c}') && IntBase10("\U{1c}5").Err?
    ensures IsSpace('\U{1f}') && IntBase0("\U{1f}0x2737").Err?
    ensures IntBase10(" 5") == Ok(5)
  {
    var t := "\U{1f}0x2737";
    assert !IsIntSpace(t[0]) && !IsIntSpace(t[|t| - 1]);
    assert Strip(t) == t;
    assert PrefixedBase(t) == (10, t);
    assert DigitValue(t[0]) == 37;
    var s := "\U{1c}5";
    assert !IsIntSpace(s[0]) && !IsIntSpace(s[1]);
    assert Strip(s) == s;
    assert DigitValue(s[0]) == 37;
    assert Strip(" 5") == Strip("5");
    StripNoSpace("5");
    assert "5"[..0] == "";
  }

  /** `int(hex(n), 0)` is `n`: the type code a device reports survives its text form. */
  lemma IntOfHex(n: nat)
    ensures IntBase0(Hex(n)) == Ok(n)
  {
    DigitsRoundTrip(n, 16);
    var d := Digits(n, 16);
    var s := Hex(n);
    assert s[|s| - 1] == d[|d| - 1];
    StripNoSpace(s);
    assert SplitSign(s) == (false, s);
    assert s[2..] == d;
    assert PrefixedBase(s) == (16, d);
  }
}
