/**
 * The pieces of JavaScript's string and number built-ins that the application
 * relies on: `Number.prototype.toString` on integers, `String.prototype.padStart`,
 * `parseInt`, ASCII `toLowerCase`, `includes`, the truncating `%` operator and the
 * white-space test behind `trim`.
 */
module JsText {
  import opened Wrappers

  predicate IsDigit(c: char) {
    '0' <= c <= '9'
  }

  predicate AllDigits(s: string) {
    forall k :: 0 <= k < |s| ==> IsDigit(s[k])
  }

  /** A digit string as `toString` prints a natural number: no leading zero unless it is "0". */
  predicate Canonical(s: string) {
    |s| >= 1 && AllDigits(s) && (s[0] == '0' ==> |s| == 1)
  }

  /** The value of a decimal digit (0 for any other character). */
  function DigitValue(c: char): (d: nat)
    ensures d < 10
  {
    if IsDigit(c) then c as int - '0' as int else 0
  }

  function DigitChar(d: nat): (c: char)
    requires d < 10
    ensures IsDigit(c) && DigitValue(c) == d
  {
    ('0' as int + d) as char
  }

  /** `n.toString()` for a non-negative integer `n`. */
  function NatToString(n: nat): (s: string)
    ensures Canonical(s)
    ensures |s| == 1 <==> n < 10
    decreases n
  {
    if n < 10 then [DigitChar(n)] else NatToString(n / 10) + [DigitChar(n % 10)]
  }

  /** `i.toString()` for any integer `i`: a minus sign, then the digits of its magnitude. */
  function IntToString(i: int): (s: string)
    ensures i >= 0 ==> s == NatToString(i)
    ensures i < 0 ==> s == "-" + NatToString(-i)
  {
    if i < 0 then "-" + NatToString(-i) else NatToString(i)
  }

  /** The value of a decimal digit string (leading zeros allowed, "" reads as 0). */
  function ParseNat(s: string): nat {
    if s == [] then 0 else ParseNat(s[..|s| - 1]) * 10 + DigitValue(s[|s| - 1])
  }

  lemma {:induction false} ParseNatToString(n: nat)
    ensures ParseNat(NatToString(n)) == n
    decreases n
  {
    var s := NatToString(n);
    if n >= 10 {
      assert s[..|s| - 1] == NatToString(n / 10);
      ParseNatToString(n / 10);
    }
  }

  lemma {:induction false} NatToStringParse(s: string)
    requires Canonical(s)
    ensures NatToString(ParseNat(s)) == s
    decreases |s|
  {
    if |s| > 1 {
      var init := s[..|s| - 1];
      assert Canonical(init);
      NatToStringParse(init);
      ParseNatLeading(s);
      assert ParseNat(s) / 10 == ParseNat(init) && ParseNat(s) % 10 == DigitValue(s[|s| - 1]);
      assert s == init + [s[|s| - 1]];
    }
  }

  /** A canonical string of two or more digits reads as at least 10. */
  lemma {:induction false} ParseNatLeading(s: string)
    requires Canonical(s) && |s| >= 2
    ensures ParseNat(s) >= 10
    decreases |s|
  {
    var init := s[..|s| - 1];
    if |init| >= 2 {
      assert Canonical(init);
      ParseNatLeading(init);
    } else {
      assert init == [s[0]];
      assert ParseNat(init) == DigitValue(s[0]) >= 1;
    }
  }

  /** A leading zero does not change the value of a digit string. */
  lemma {:induction false} ParseNatZeroPrefix(s: string)
    requires AllDigits(s)
    ensures AllDigits("0" + s) && ParseNat("0" + s) == ParseNat(s)
    decreases |s|
  {
    if s != [] {
      var init := s[..|s| - 1];
      assert ("0" + s)[..|"0" + s| - 1] == "0" + init;
      ParseNatZeroPrefix(init);
    }
  }

  lemma NatToStringInjective(a: nat, b: nat)
    requires NatToString(a) == NatToString(b)
    ensures a == b
  {
    ParseNatToString(a);
    ParseNatToString(b);
  }

  lemma IntToStringInjective(a: int, b: int)
    requires IntToString(a) == IntToString(b)
    ensures a == b
  {
    var sa, sb := IntToString(a), IntToString(b);
    if a < 0 && b < 0 {
      assert sa[1..] == NatToString(-a) && sb[1..] == NatToString(-b);
      NatToStringInjective(-a, -b);
    } else if a >= 0 && b >= 0 {
      NatToStringInjective(a, b);
    } else {
      assert false;
    }
  }

  /** `s.padStart(width, fill)` with a one-character fill string. */
  function PadStart(s: string, width: nat, fill: char): (r: string)
    ensures |r| == if |s| >= width then |s| else width
    ensures r[|r| - |s|..] == s
    ensures forall k :: 0 <= k < |r| - |s| ==> r[k] == fill
  {
    if |s| >= width then s else seq(width - |s|, _ => fill) + s
  }

  /** A natural number below 100 printed with `toString().padStart(2, '0')`. */
  lemma TwoDigits(n: nat)
    requires n < 100
    ensures var r := PadStart(NatToString(n), 2, '0');
      |r| == 2 && AllDigits(r) && ParseNat(r) == n
  {
    var s := NatToString(n);
    ParseNatToString(n);
    if n < 10 {
      assert PadStart(s, 2, '0') == "0" + s;
      ParseNatZeroPrefix(s);
    } else {
      assert |s| == 2 by {
        var init := s[..|s| - 1];
        assert init == NatToString(n / 10);
      }
    }
  }

  /** JavaScript's `a % b` for a positive divisor: the remainder takes the sign of `a`. */
  function JsRem(a: int, b: int): (r: int)
    requires b > 0
    ensures a >= 0 ==> 0 <= r < b && r == a % b
    ensures a < 0 ==> -b < r <= 0
  {
    if a >= 0 then a % b else -((-a) % b)
  }

  /** For a negative dividend `%` truncates: `a` is the remainder minus a whole multiple of `b`. */
  lemma JsRemTruncates(a: int, b: int)
    requires b > 0 && a < 0
    ensures a == JsRem(a, b) - b * ((-a) / b)
  {
    assert -a == b * ((-a) / b) + (-a) % b;
  }

  /**
   * The field splitter of the read-back parsers `ParseClock` and `ParseDuration`:
   * the pieces between the occurrences of `sep`.
   */
  function Split(s: string, sep: char): (parts: seq<string>)
    ensures |parts| >= 1
  {
    if s == [] then [""]
    else
      var rest := Split(s[1..], sep);
      if s[0] == sep then [""] + rest else [[s[0]] + rest[0]] + rest[1..]
  }

  lemma {:induction false} SplitNoSep(a: string, sep: char)
    requires sep !in a
    ensures Split(a, sep) == [a]
    decreases |a|
  {
    if a != [] {
      SplitNoSep(a[1..], sep);
      assert [a[0]] + a[1..] == a;
    }
  }

  lemma {:induction false} SplitAt(a: string, sep: char, b: string)
    requires sep !in a
    ensures Split(a + [sep] + b, sep) == [a] + Split(b, sep)
    decreases |a|
  {
    var s := a + [sep] + b;
    if a == [] {
      assert s[1..] == b;
    } else {
      assert s[1..] == a[1..] + [sep] + b;
      SplitAt(a[1..], sep, b);
      assert [a[0]] + a[1..] == a;
    }
  }

  // ---- Case, search and white space ----

  /** `toLowerCase` on one character; only the ASCII letters are mapped. */
  function LowerChar(c: char): (r: char)
    ensures 'A' <= c <= 'Z' ==> r as int == c as int + 32
    ensures !('A' <= c <= 'Z') ==> r == c
  {
    if 'A' <= c <= 'Z' then (c as int + 32) as char else c
  }

  function ToLowerCase(s: string): (r: string)
    ensures |r| == |s| && forall k :: 0 <= k < |s| ==> r[k] == LowerChar(s[k])
  {
    seq(|s|, k requires 0 <= k < |s| => LowerChar(s[k]))
  }

  lemma ToLowerCaseAppend(a: string, b: string)
    ensures ToLowerCase(a + b) == ToLowerCase(a) + ToLowerCase(b)
  {
  }

  /** `p` occurs in `s` starting at index `i`. */
  predicate MatchAt(s: string, p: string, i: int) {
    0 <= i && i + |p| <= |s| && s[i..i + |p|] == p
  }

  /** `s.includes(p)`. */
  predicate Contains(s: string, p: string) {
    exists i :: 0 <= i <= |s| - |p| && MatchAt(s, p, i)
  }

  /** A pattern cannot occur where one of its characters is missing. */
  lemma {:induction false} AbsentChar(s: string, p: string, j: nat)
    requires j < |p| && p[j] !in s
    ensures !Contains(s, p)
  {
  }

  /** A pattern cannot occur where no separator-free stretch of text holds it. */
  lemma ContainsAcross(a: string, c: char, b: string, p: string)
    requires c !in p
    ensures Contains(a + [c] + b, p) <==> Contains(a, p) || Contains(b, p)
  {
    var s := a + [c] + b;
    if Contains(s, p) {
      var i :| 0 <= i <= |s| - |p| && MatchAt(s, p, i);
      MatchBesideSeparator(a, c, b, p, i);
    }
    if Contains(a, p) {
      var i :| 0 <= i <= |a| - |p| && MatchAt(a, p, i);
      MatchFromLeft(a, c, b, p, i);
    }
    if Contains(b, p) {
      var i :| 0 <= i <= |b| - |p| && MatchAt(b, p, i);
      MatchFromRight(a, c, b, p, i);
    }
  }

  /** A match in `a + [c] + b` of a pattern without `c` lies wholly in `a` or wholly in `b`. */
  lemma MatchBesideSeparator(a: string, c: char, b: string, p: string, i: int)
    requires c !in p && MatchAt(a + [c] + b, p, i)
    ensures MatchAt(a, p, i) || MatchAt(b, p, i - |a| - 1)
  {
    var s := a + [c] + b;
    assert s[|a|] == c;
    if i <= |a| < i + |p| {
      assert false;
    } else if i + |p| <= |a| {
      assert a[i..i + |p|] == s[i..i + |p|];
    } else {
      assert b[i - |a| - 1..i - |a| - 1 + |p|] == s[i..i + |p|];
    }
  }

  lemma MatchFromLeft(a: string, c: char, b: string, p: string, i: int)
    requires MatchAt(a, p, i)
    ensures MatchAt(a + [c] + b, p, i)
  {
    assert (a + [c] + b)[i..i + |p|] == a[i..i + |p|];
  }

  lemma MatchFromRight(a: string, c: char, b: string, p: string, i: int)
    requires MatchAt(b, p, i)
    ensures MatchAt(a + [c] + b, p, |a| + 1 + i)
  {
    assert (a + [c] + b)[|a| + 1 + i..|a| + 1 + i + |p|] == b[i..i + |p|];
  }

  /** The characters `String.prototype.trim` strips: ECMAScript's WhiteSpace and LineTerminator. */
  predicate IsJsWhitespace(c: char) {
    c == '\t' || c == '\n' || c == '\U{000B}' || c == '\U{000C}' || c == '\r' || c == ' '
    || c == '\U{00A0}' || c == '\U{1680}' || ('\U{2000}' <= c <= '\U{200A}')
    || c == '\U{2028}' || c == '\U{2029}' || c == '\U{202F}' || c == '\U{205F}'
    || c == '\U{3000}' || c == '\U{FEFF}'
  }

  function TrimStart(s: string): (r: string)
    ensures |r| <= |s| && r == s[|s| - |r|..]
    ensures r != [] ==> !IsJsWhitespace(r[0])
    ensures forall k :: 0 <= k < |s| - |r| ==> IsJsWhitespace(s[k])
  {
    if s != [] && IsJsWhitespace(s[0]) then TrimStart(s[1..]) else s
  }

  function TrimEnd(s: string): (r: string)
    ensures |r| <= |s| && r == s[..|r|]
    ensures r != [] ==> !IsJsWhitespace(r[|r| - 1])
    ensures forall k :: |r| <= k < |s| ==> IsJsWhitespace(s[k])
  {
    if s != [] && IsJsWhitespace(s[|s| - 1]) then TrimEnd(s[..|s| - 1]) else s
  }

  predicate Blank(s: string) {
    forall k :: 0 <= k < |s| ==> IsJsWhitespace(s[k])
  }

  /**
   * `s.trim()`: the white space at both ends is removed, so the result neither starts
   * nor ends with white space, and it is empty exactly when every character is white space.
   */
  function Trim(s: string): (r: string)
    ensures |r| <= |s|
    ensures r != [] ==> !IsJsWhitespace(r[0]) && !IsJsWhitespace(r[|r| - 1])
    ensures r == [] <==> Blank(s)
  {
    TrimEnd(TrimStart(s))
  }

  /** Whether `s.trim()` is the empty string, the falsy case of the submit guard. */
  method TrimsToEmpty(s: string) returns (empty: bool)
    ensures empty <==> Blank(s)
  {
    empty := Trim(s) == [];
  }

  // ---- Reading numbers out of text ----

  /** The longest prefix of `s` made of decimal digits. */
  function DigitPrefix(s: string): (d: string)
    ensures |d| <= |s| && AllDigits(d) && d == s[..|d|]
    ensures |d| < |s| ==> !IsDigit(s[|d|])
  {
    if s != [] && IsDigit(s[0]) then [s[0]] + DigitPrefix(s[1..]) else []
  }

  /** What `parseInt` yields: `NaN` or an integer. */
  datatype ParsedInt = NaN | Int(value: int)

  /**
   * `parseInt(s)` with no radix: leading white space is skipped, one sign is read,
   * then the longest run of decimal digits; without a digit the result is `NaN`.
   */
  function ParseInt(s: string): (r: ParsedInt)
    ensures r.NaN? <==> DigitPrefix(SignStripped(TrimStart(s))) == []
  {
    var t := TrimStart(s);
    var u := SignStripped(t);
    var d := DigitPrefix(u);
    if d == [] then NaN
    else
      var v: int := ParseNat(d);
      if t[0] == '-' then Int(-v) else Int(v)
  }

  function SignStripped(t: string): string {
    if t != [] && (t[0] == '-' || t[0] == '+') then t[1..] else t
  }

  /** `parseInt` of a non-empty string of digits is its value. */
  lemma ParseIntOfDigits(d: string)
    requires d != [] && AllDigits(d)
    ensures ParseInt(d) == Int(ParseNat(d))
  {
    DigitPrefixOfDigits(d);
    assert !IsJsWhitespace(d[0]);
  }

  lemma {:induction false} DigitPrefixOfDigits(d: string)
    requires AllDigits(d)
    ensures DigitPrefix(d) == d
    decreases |d|
  {
    if d != [] {
      DigitPrefixOfDigits(d[1..]);
    }
  }

  /**
   * `parseInt` in general: white space, then a printed integer, then text that does not
   * go on with a digit ("1e3" reads as 1) yields that integer, its sign included.
   */
  lemma ParseIntOfText(w: string, i: int, rest: string)
    requires Blank(w) && (rest == [] || !IsDigit(rest[0]))
    ensures ParseInt(w + IntToString(i) + rest) == Int(i)
  {
    var t := IntToString(i) + rest;
    assert w + IntToString(i) + rest == w + t;
    ParseIntAfterBlank(w, t);
    ParseIntOfPrinted(i, rest);
  }

  lemma ParseIntAfterBlank(w: string, t: string)
    requires Blank(w)
    ensures ParseInt(w + t) == ParseInt(t)
  {
    TrimStartBlank(w, t);
  }

  lemma ParseIntOfPrinted(i: int, rest: string)
    requires rest == [] || !IsDigit(rest[0])
    ensures ParseInt(IntToString(i) + rest) == Int(i)
  {
    var t := IntToString(i) + rest;
    var n: nat := if i < 0 then -i else i;
    var d := NatToString(n);
    ParseNatToString(n);
    if i < 0 {
      assert t == "-" + d + rest;
      ParseIntMinus(t, d, rest);
    } else {
      assert t == d + rest;
      ParseIntPlain(t, d, rest);
    }
  }

  lemma ParseIntMinus(t: string, d: string, rest: string)
    requires t == "-" + d + rest
    requires d != [] && AllDigits(d) && (rest == [] || !IsDigit(rest[0]))
    ensures ParseInt(t) == Int(-(ParseNat(d) as int))
  {
    NotSpace(t[0]);
    assert TrimStart(t) == t;
    assert SignStripped(t) == d + rest;
    DigitPrefixThen(d, rest);
  }

  lemma ParseIntPlain(t: string, d: string, rest: string)
    requires t == d + rest
    requires d != [] && AllDigits(d) && (rest == [] || !IsDigit(rest[0]))
    ensures ParseInt(t) == Int(ParseNat(d))
  {
    assert t[0] == d[0] && IsDigit(t[0]);
    NotSpace(t[0]);
    assert TrimStart(t) == t;
    assert SignStripped(t) == t;
    DigitPrefixThen(d, rest);
  }

  lemma NotSpace(c: char)
    requires c == '-' || IsDigit(c)
    ensures !IsJsWhitespace(c)
  {
  }

  /** `parseInt(i.toString())` is `i` for every integer. */
  lemma ParseIntToString(i: int)
    ensures ParseInt(IntToString(i)) == Int(i)
  {
    ParseIntOfText([], i, []);
    assert [] + IntToString(i) + [] == IntToString(i);
  }

  lemma {:induction false} TrimStartBlank(w: string, t: string)
    requires Blank(w)
    ensures TrimStart(w + t) == TrimStart(t)
    decreases |w|
  {
    if w != [] {
      assert (w + t)[0] == w[0] && IsJsWhitespace(w[0]);
      assert (w + t)[1..] == w[1..] + t;
      assert TrimStart(w + t) == TrimStart(w[1..] + t);
      TrimStartBlank(w[1..], t);
    } else {
      assert w + t == t;
    }
  }

  lemma {:induction false} DigitPrefixThen(d: string, rest: string)
    requires AllDigits(d) && (rest == [] || !IsDigit(rest[0]))
    ensures DigitPrefix(d + rest) == d
    decreases |d|
  {
    if d != [] {
      assert (d + rest)[1..] == d[1..] + rest;
      DigitPrefixThen(d[1..], rest);
    }
  }

  /** The first maximal run of digits in `s`, as `s.match(/\d+/g)[0]` finds it. */
  function FirstNumber(s: string): (r: Option<string>)
    ensures r.None? <==> forall k :: 0 <= k < |s| ==> !IsDigit(s[k])
    ensures r.Some? ==> IsFirstNumber(s, r.value)
  {
    if s == [] then None
    else if IsDigit(s[0]) then
      var d := DigitPrefix(s);
      assert FirstNumberAt(s, d, 0);
      Some(d)
    else
      var r := FirstNumber(s[1..]);
      if r.Some? then
        var i :| 0 <= i <= |s[1..]| && FirstNumberAt(s[1..], r.value, i);
        assert forall k :: 1 <= k < |s| ==> s[k] == s[1..][k - 1];
        assert FirstNumberAt(s, r.value, i + 1);
        r
      else r
  }

  /** Text without digits in front of `b` does not change the first number found. */
  lemma {:induction false} FirstNumberSkip(a: string, b: string)
    requires NoDigits(a)
    ensures FirstNumber(a + b) == FirstNumber(b)
    decreases |a|
  {
    if a == [] {
      assert a + b == b;
    } else {
      assert (a + b)[0] == a[0] && (a + b)[1..] == a[1..] + b;
      FirstNumberSkip(a[1..], b);
    }
  }

  /** A run of digits at the front, ended by the end of text or a non-digit, is the first number. */
  lemma FirstNumberLeading(d: string, rest: string)
    requires d != [] && AllDigits(d) && (rest != [] ==> !IsDigit(rest[0]))
    ensures FirstNumber(d + rest) == Some(d)
  {
    DigitPrefixStops(d, rest);
    assert (d + rest)[0] == d[0];
  }

  lemma {:induction false} DigitPrefixStops(d: string, rest: string)
    requires AllDigits(d) && (rest != [] ==> !IsDigit(rest[0]))
    ensures DigitPrefix(d + rest) == d
    decreases |d|
  {
    if d == [] {
      assert d + rest == rest;
    } else {
      assert (d + rest)[0] == d[0] && (d + rest)[1..] == d[1..] + rest;
      DigitPrefixStops(d[1..], rest);
    }
  }

  predicate NoDigits(s: string) {
    forall k :: 0 <= k < |s| ==> !IsDigit(s[k])
  }

  lemma NoDigitsConcat(a: string, b: string)
    ensures NoDigits(a + b) <==> NoDigits(a) && NoDigits(b)
  {
    if NoDigits(a + b) {
      forall k | 0 <= k < |a| ensures !IsDigit(a[k]) {
        assert a[k] == (a + b)[k];
      }
      forall k | 0 <= k < |b| ensures !IsDigit(b[k]) {
        assert b[k] == (a + b)[|a| + k];
      }
    }
    if NoDigits(a) && NoDigits(b) {
      forall k | 0 <= k < |a + b| ensures !IsDigit((a + b)[k]) {
        if k >= |a| {
          assert (a + b)[k] == b[k - |a|];
        }
      }
    }
  }

  /** `d` is the first maximal run of digits of `s`, and it starts at index `i`. */
  predicate FirstNumberAt(s: string, d: string, i: int) {
    && 0 <= i && |d| >= 1 && i + |d| <= |s| && s[i..i + |d|] == d && AllDigits(d)
    && (forall k :: 0 <= k < i ==> !IsDigit(s[k]))
    && (i + |d| < |s| ==> !IsDigit(s[i + |d|]))
  }

  predicate IsFirstNumber(s: string, d: string) {
    exists i :: 0 <= i <= |s| && FirstNumberAt(s, d, i)
  }
}
