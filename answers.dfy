/**
 * Answers to follow-up questions arrive as loosely typed JSON values. The
 * scorer only ever asks two things of one: whether it is truthy, and what
 * Python's `int()` makes of it (a `ValueError` or `TypeError` from `int()`
 * is caught by the scorer, so it is modelled here as `None`).
 */
module Answers {
  import opened Wrappers

  /** A JSON value as the request body delivers it. */
  datatype Answer =
    | Str(s: string)
    | Int(n: int)
    | Float(x: real)         // the value of a finite Python float (the double nearest the JSON text)
    | NaN                    // the float `NaN`, which Python's JSON reader accepts
    | Bool(b: bool)
    | Null
    | Container(size: nat)   // a JSON array or object with `size` entries

  /** Python truthiness of a value. */
  predicate Truthy(a: Answer) {
    match a
    case Str(s) => |s| > 0
    case Int(n) => n != 0
    case Float(x) => x != 0.0
    case NaN => true
    case Bool(b) => b
    case Null => false
    case Container(size) => size > 0
  }

  /** `int(x)` for a float: the integer part, rounded toward zero. */
  function Truncate(x: real): (n: int)
    ensures 0.0 <= x ==> n as real <= x < n as real + 1.0
    ensures x < 0.0 ==> n as real - 1.0 < x <= n as real
  {
    if x >= 0.0 then x.Floor else -((-x).Floor)
  }

  /**
   * Python's `int(a)`: `None` where it raises `ValueError` (a string that is not an
   * integer, or `NaN`) or `TypeError` (`None`, a list, a dict).
   */
  function ToInt(a: Answer): (r: Option<int>)
    ensures (a.Null? || a.Container? || a.NaN?) ==> r.None?
    ensures a.Int? ==> r == Some(a.n)
    ensures a.Bool? ==> r == Some(if a.b then 1 else 0)
    ensures a.Float? ==> r == Some(Truncate(a.x))
    ensures a.Str? ==> r == ParseInt(a.s)
    ensures a.Str? && r.Some? ==> exists i :: 0 <= i < |a.s| && IsDigit(a.s[i])
  {
    match a
    case Str(s) => ParseInt(s)
    case Int(n) => Some(n)
    case Float(x) => Some(Truncate(x))
    case NaN => None
    case Bool(b) => Some(if b then 1 else 0)
    case Null => None
    case Container(_) => None
  }

  /**
   * The whitespace `int()` skips on both sides of a number: tab, line feed,
   * vertical tab, form feed, carriage return and space among the ASCII
   * characters, and the non-ASCII characters `str.isspace` accepts. The ASCII
   * separators 0x1C to 0x1F count as space for `str.isspace` but not for `int()`.
   */
  predicate IsSpace(c: char) {
    var k := c as int;
    || 9 <= k <= 13 || k == 32 || k == 0x85 || k == 0xA0 || k == 0x1680
    || 0x2000 <= k <= 0x200A || k == 0x2028 || k == 0x2029 || k == 0x202F || k == 0x205F || k == 0x3000
  }

  predicate IsDigit(c: char) {
    '0' <= c <= '9'
  }

  predicate AllDigits(s: string) {
    forall i :: 0 <= i < |s| ==> IsDigit(s[i])
  }

  /** How many whitespace characters `s` starts with. */
  function LeadingSpaces(s: string): (n: nat)
    ensures n <= |s|
    ensures forall k :: 0 <= k < n ==> IsSpace(s[k])
    ensures n < |s| ==> !IsSpace(s[n])
  {
    if s != [] && IsSpace(s[0]) then 1 + LeadingSpaces(s[1..]) else 0
  }

  /** Where the run of whitespace that ends `s[lo..hi]` begins. */
  function TrailingStart(s: string, lo: nat, hi: nat): (n: nat)
    requires lo <= hi <= |s|
    ensures lo <= n <= hi
    ensures forall k :: n <= k < hi ==> IsSpace(s[k])
    ensures lo < n ==> !IsSpace(s[n - 1])
    decreases hi
  {
    if lo < hi && IsSpace(s[hi - 1]) then TrailingStart(s, lo, hi - 1) else hi
  }

  /**
   * `s` without the whitespace `int()` skips on either side: `s` is whitespace,
   * then the result, then whitespace, and the result neither starts nor ends
   * with whitespace.
   */
  function Strip(s: string): (r: string)
    ensures r != [] ==> !IsSpace(r[0]) && !IsSpace(r[|r| - 1])
    ensures var i := LeadingSpaces(s);
      && i + |r| <= |s| && r == s[i..i + |r|]
      && (forall k :: 0 <= k < i ==> IsSpace(s[k]))
      && (forall k :: i + |r| <= k < |s| ==> IsSpace(s[k]))
  {
    var i := LeadingSpaces(s);
    s[i..TrailingStart(s, i, |s|)]
  }

  /**
   * The contract of `Strip` determines it: whenever `s` is whitespace, then
   * `s[i..j]`, then whitespace, and `s[i..j]` neither starts nor ends with
   * whitespace, `Strip(s)` is `s[i..j]`.
   */
  lemma StripUnique(s: string, i: nat, j: nat)
    requires i <= j <= |s|
    requires forall k :: 0 <= k < i ==> IsSpace(s[k])
    requires forall k :: j <= k < |s| ==> IsSpace(s[k])
    requires i < j ==> !IsSpace(s[i]) && !IsSpace(s[j - 1])
    ensures Strip(s) == s[i..j]
  {
    var r := Strip(s);
    var l := LeadingSpaces(s);
    if i < j {
      assert l == i;
    }
  }

  /** Digits and signs are not whitespace. */
  lemma DigitNotSpace(c: char)
    requires IsDigit(c) || c == '-' || c == '+'
    ensures !IsSpace(c)
  {
  }

  /** The value of a string of decimal digits, most significant first. */
  function DigitsValue(s: string): nat
    requires AllDigits(s)
  {
    if s == [] then 0 else DigitsValue(s[..|s| - 1]) * 10 + (s[|s| - 1] as int - '0' as int)
  }

  /** A non-empty run of decimal digits, leading zeros allowed. */
  function ParseUnsigned(s: string): Option<nat> {
    if |s| > 0 && AllDigits(s) then Some(DigitsValue(s)) else None
  }

  /** An optional sign followed by at least one decimal digit, and nothing else. */
  function ParseSigned(t: string): (r: Option<int>)
    ensures r.Some? ==> exists i :: 0 <= i < |t| && IsDigit(t[i])
    ensures r.Some? && r.value < 0 ==> t[0] == '-'
  {
    if |t| > 0 && (t[0] == '-' || t[0] == '+') then
      match ParseUnsigned(t[1..])
      case Some(v) => var n: int := v; Some(if t[0] == '-' then -n else n)
      case None => None
    else
      ParseUnsigned(t)
  }

  /**
   * Python's `int(s)` for a string in base 10: surrounding whitespace is ignored,
   * then an optional sign and at least one decimal digit must make up the rest.
   */
  function ParseInt(s: string): (r: Option<int>)
    ensures r.Some? ==> exists i :: 0 <= i < |s| && IsDigit(s[i])
    ensures r.Some? && r.value < 0 ==> '-' in s
  {
    var t := Strip(s);
    var r := ParseSigned(t);
    assert r.Some? ==> exists i :: 0 <= i < |s| && IsDigit(s[i]) by {
      if r.Some? {
        var j :| 0 <= j < |t| && IsDigit(t[j]);
        assert t[j] in s;
      }
    }
    assert r.Some? && r.value < 0 ==> '-' in s by {
      if r.Some? && r.value < 0 {
        assert t[0] in s;
      }
    }
    r
  }

  /** A string that is a sign or nothing, then digits, once stripped, converts to their value with that sign. */
  lemma ParseIntAccepts(s: string, sign: string, d: string)
    requires sign == "" || sign == "+" || sign == "-"
    requires |d| > 0 && AllDigits(d) && Strip(s) == sign + d
    ensures ParseInt(s) == Some(if sign == "-" then -(DigitsValue(d) as int) else DigitsValue(d))
  {
    SignedAccepts(Strip(s), sign, d);
  }

  /** A sign or nothing, then digits, reads as their value with that sign. */
  lemma SignedAccepts(t: string, sign: string, d: string)
    requires sign == "" || sign == "+" || sign == "-"
    requires |d| > 0 && AllDigits(d) && t == sign + d
    ensures ParseSigned(t) == Some(if sign == "-" then -(DigitsValue(d) as int) else DigitsValue(d))
  {
    if sign == "" {
      assert t == d;
    } else {
      assert t[1..] == d;
    }
  }

  /** Only such strings convert: a converted string is, once stripped, a sign or nothing, then digits. */
  lemma ParseIntOnlyNumerals(s: string, n: int)
    requires ParseInt(s) == Some(n)
    ensures exists sign, d :: (sign == "" || sign == "+" || sign == "-")
                              && |d| > 0 && AllDigits(d) && Strip(s) == sign + d
                              && DigitsValue(d) == (if n < 0 then -n else n) && (n < 0 ==> sign == "-")
  {
    SignedOnlyNumerals(Strip(s), n);
  }

  /** What `ParseSigned` reads is a sign or nothing, then digits. */
  lemma SignedOnlyNumerals(t: string, n: int)
    requires ParseSigned(t) == Some(n)
    ensures exists sign, d :: (sign == "" || sign == "+" || sign == "-")
                              && |d| > 0 && AllDigits(d) && t == sign + d
                              && DigitsValue(d) == (if n < 0 then -n else n) && (n < 0 ==> sign == "-")
  {
    if t[0] == '-' || t[0] == '+' {
      var sign, d := t[..1], t[1..];
      assert t == sign + d;
      assert sign == "-" || sign == "+";
    } else {
      assert t == "" + t;
    }
  }

  /** The digit character for 0 <= d < 10. */
  function DigitChar(d: nat): (c: char)
    requires d < 10
    ensures IsDigit(c) && c as int - '0' as int == d
  {
    ('0' as int + d) as char
  }

  /** The decimal rendering of a natural number, without leading zeros. */
  function FormatNat(n: nat): (s: string)
    ensures |s| > 0 && AllDigits(s)
  {
    if n < 10 then [DigitChar(n)] else FormatNat(n / 10) + [DigitChar(n % 10)]
  }

  /** The decimal rendering of an integer, with a leading '-' when negative (Python's `str(n)`). */
  function FormatInt(n: int): string {
    if n < 0 then "-" + FormatNat(-n) else FormatNat(n)
  }

  lemma {:induction false} DigitsValueOfFormatNat(n: nat)
    ensures DigitsValue(FormatNat(n)) == n
  {
    if n >= 10 {
      var s := FormatNat(n);
      assert s[..|s| - 1] == FormatNat(n / 10);
      DigitsValueOfFormatNat(n / 10);
    }
  }

  /** `int()` reads back every integer that `str()` writes. */
  lemma ParseFormatRoundTrip(n: int)
    ensures ParseInt(FormatInt(n)) == Some(n)
  {
    FormatIntStripped(n);
    FormatIntSigned(n);
  }

  /** `str(n)` has no surrounding whitespace. */
  lemma FormatIntStripped(n: int)
    ensures Strip(FormatInt(n)) == FormatInt(n)
  {
    var s := FormatInt(n);
    var digits := FormatNat(if n < 0 then -n else n);
    assert s == if n < 0 then "-" + digits else digits;
    DigitNotSpace(s[0]);
    assert s[|s| - 1] == digits[|digits| - 1];
    DigitNotSpace(s[|s| - 1]);
    StripUnique(s, 0, |s|);
  }

  /** The sign and digits of `str(n)` read back as `n`. */
  lemma FormatIntSigned(n: int)
    ensures ParseSigned(FormatInt(n)) == Some(n)
  {
    var m: nat := if n < 0 then -n else n;
    var digits := FormatNat(m);
    DigitsValueOfFormatNat(m);
    assert ParseUnsigned(digits) == Some(m);
    if n < 0 {
      var s := FormatInt(n);
      assert s == "-" + digits;
      assert s[1..] == digits;
    } else {
      DigitNotSpace(digits[0]);
    }
  }

  /** A whitespace character in front does not change what `int()` reads. */
  lemma LeadingSpaceIgnored(s: string, c: char)
    requires IsSpace(c)
    ensures ParseInt([c] + s) == ParseInt(s)
  {
    StripLeadingSpace(s, c);
  }

  /** `Strip` removes a whitespace character in front. */
  lemma StripLeadingSpace(s: string, c: char)
    requires IsSpace(c)
    ensures Strip([c] + s) == Strip(s)
  {
    var t := [c] + s;
    assert t[1..] == s;
    StripDropSpace(t);
  }

  /** Dropping a leading whitespace character does not change what `Strip` keeps. */
  lemma StripDropSpace(t: string)
    requires t != [] && IsSpace(t[0])
    ensures Strip(t) == Strip(t[1..])
  {
    var s := t[1..];
    var l := LeadingSpaces(s);
    var m := TrailingStart(s, l, |s|);
    TrailingStartDrop(t, l, |s|);
    StripBetween(t, l + 1, m + 1);
    SliceOfTail(t, l, m);
  }

  /** A slice of `t[1..]` is the slice of `t` one place further on. */
  lemma SliceOfTail(t: string, i: nat, j: nat)
    requires i <= j < |t|
    ensures t[1..][i..j] == t[i + 1..j + 1]
  {
  }

  /** `Strip` keeps what lies between the leading and the trailing whitespace. */
  lemma StripBetween(s: string, i: nat, j: nat)
    requires i == LeadingSpaces(s) && j == TrailingStart(s, i, |s|)
    ensures Strip(s) == s[i..j]
  {
  }

  /** Dropping the first character of `t` moves where its trailing whitespace starts by one. */
  lemma {:induction false} TrailingStartDrop(t: string, lo: nat, hi: nat)
    requires t != [] && lo < hi + 1 <= |t|
    ensures TrailingStart(t, lo + 1, hi + 1) == TrailingStart(t[1..], lo, hi) + 1
    decreases hi
  {
    if lo < hi {
      assert t[1..][hi - 1] == t[hi];
      if IsSpace(t[hi]) {
        TrailingStartDrop(t, lo, hi - 1);
      }
    }
  }

  /** A whitespace character at the end does not change what `int()` reads. */
  lemma TrailingSpaceIgnored(s: string, c: char)
    requires IsSpace(c)
    ensures ParseInt(s + [c]) == ParseInt(s)
  {
    StripTrailingSpace(s, c);
  }

  /** `Strip` removes a whitespace character at the end. */
  lemma StripTrailingSpace(s: string, c: char)
    requires IsSpace(c)
    ensures Strip(s + [c]) == Strip(s)
  {
    var r, l := Strip(s), LeadingSpaces(s);
    StripUnique(s + [c], l, l + |r|);
    SliceBeforeEnd(s, c, l, l + |r|);
  }

  /** A slice of `s + [c]` that stops within `s` is a slice of `s`. */
  lemma SliceBeforeEnd(s: string, c: char, i: nat, j: nat)
    requires i <= j <= |s|
    ensures (s + [c])[i..j] == s[i..j]
  {
  }

  /** `int()` does not skip the ASCII separator 0x1C: "\x1c3" raises `ValueError`. */
  lemma SeparatorNotSkipped()
    ensures ParseInt([28 as char, '3']) == None
  {
    var s := [28 as char, '3'];
    StripUnique(s, 0, 2);
    assert Strip(s) == s;
    assert !IsDigit(s[0]);
  }

  /** The answer "3" used in a dryness scenario reads as 3. */
  lemma ParseThree()
    ensures ParseInt("3") == Some(3)
  {
    ParseFormatRoundTrip(3);
    assert FormatInt(3) == "3";
  }
}
