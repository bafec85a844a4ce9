/** The Python string built-ins that the parser relies on: `str.isspace`,
    `str.strip()`, `str.split(sep)`, `int(str)` and `str(int)`. */
module PyText {
  import opened Results

  /** `c.isspace()`: the characters Python classifies as whitespace. */
  predicate IsSpace(c: char) {
    var n := c as int;
    (9 <= n <= 13) || (28 <= n <= 32) || n == 0x85 || n == 0xA0 || n == 0x1680
    || (0x2000 <= n <= 0x200A) || n == 0x2028 || n == 0x2029 || n == 0x202F
    || n == 0x205F || n == 0x3000
  }

  /** The whitespace `int()` skips around its digits: ASCII tab, line
      feed, vertical tab, form feed, carriage return and space, and the
      non-ASCII characters `str.isspace` accepts (CPython turns those into
      spaces first). The ASCII separators U+001C..U+001F are whitespace for
      `str.isspace` but not for `int()`. */
  predicate IsIntSpace(c: char) {
    var n := c as int;
    (9 <= n <= 13) || n == 32 || (n >= 128 && IsSpace(c))
  }

  /** Number of characters of the class `space` at the start of `s`. */
  function LeadingSpaces(s: string, space: char -> bool): (n: nat)
    ensures n <= |s|
    ensures forall k :: 0 <= k < n ==> space(s[k])
    ensures n < |s| ==> !space(s[n])
  {
    if s == [] || !space(s[0]) then 0 else 1 + LeadingSpaces(s[1..], space)
  }

  /** Number of characters of the class `space` at the end of `s`. */
  function TrailingSpaces(s: string, space: char -> bool): (n: nat)
    ensures n <= |s|
    ensures forall k :: |s| - n <= k < |s| ==> space(s[k])
    ensures n < |s| ==> !space(s[|s| - 1 - n])
  {
    if s == [] || !space(s[|s| - 1]) then 0 else 1 + TrailingSpaces(s[..|s| - 1], space)
  }

  /** `s.strip()` with `space` = `IsSpace`: the part of `s` between its
      leading and trailing whitespace; an all-whitespace string strips to
      "". With `space` = `IsIntSpace` it is the trimming `int()` does. */
  function Strip(s: string, space: char -> bool): (r: string)
    ensures LeadingSpaces(s, space) + |r| <= |s|
    ensures r == s[LeadingSpaces(s, space)..LeadingSpaces(s, space) + |r|]
    ensures forall k :: LeadingSpaces(s, space) + |r| <= k < |s| ==> space(s[k])
    ensures r != [] ==> !space(r[0]) && !space(r[|r| - 1])
  {
    var t := s[LeadingSpaces(s, space)..];
    t[..|t| - TrailingSpaces(t, space)]
  }

  /** A string whose two ends are not whitespace is its own strip. */
  lemma StripUnchanged(s: string, space: char -> bool)
    requires s != [] && !space(s[0]) && !space(s[|s| - 1])
    ensures Strip(s, space) == s
  {
    var t := s[LeadingSpaces(s, space)..];
    assert t == s;
    assert TrailingSpaces(t, space) == 0;
  }

  /** `s.split(sep)`: the pieces between occurrences of `sep`, keeping empty
      pieces. */
  function Split(s: string, sep: char): (parts: seq<string>)
    ensures |parts| >= 1
    ensures forall i :: 0 <= i < |parts| ==> sep !in parts[i]
  {
    if s == [] then [""]
    else
      var rest := Split(s[1..], sep);
      if s[0] == sep then [""] + rest
      else [[s[0]] + rest[0]] + rest[1..]
  }

  /** Joining the pieces of a split with the separator gives back the
      string. */
  lemma {:induction false} SplitJoin(s: string, sep: char)
    ensures Join(Split(s, sep), sep) == s
  {
    if s != [] {
      var rest := Split(s[1..], sep);
      SplitJoin(s[1..], sep);
      var parts := Split(s, sep);
      if s[0] == sep {
        assert parts[1..] == rest;
      } else {
        assert parts[1..] == rest[1..];
        assert s == [s[0]] + s[1..];
      }
    }
  }

  /** `n` separators always give `n + 1` pieces. */
  lemma {:induction false} SplitCount(s: string, sep: char)
    ensures |Split(s, sep)| == multiset(s)[sep] + 1
  {
    if s != [] {
      SplitCount(s[1..], sep);
      assert s == [s[0]] + s[1..];
      assert multiset(s) == multiset([s[0]]) + multiset(s[1..]);
    }
  }

  /** `sep.join(parts)`, the inverse of `Split`. */
  function Join(parts: seq<string>, sep: char): string
    requires |parts| >= 1
  {
    if |parts| == 1 then parts[0] else parts[0] + [sep] + Join(parts[1..], sep)
  }

  predicate IsDigit(c: char) {
    '0' <= c <= '9'
  }

  predicate AllDigits(s: string) {
    forall i :: 0 <= i < |s| ==> IsDigit(s[i])
  }

  function DigitValue(c: char): nat
    requires IsDigit(c)
  {
    (c as int) - ('0' as int)
  }

  /** The number that a string of decimal digits denotes. */
  function DigitsValue(ds: string): nat
    requires AllDigits(ds)
  {
    if ds == [] then 0 else DigitsValue(ds[..|ds| - 1]) * 10 + DigitValue(ds[|ds| - 1])
  }

  /** The digit part Python's `int()` accepts in base 10: digits, with single
      underscores allowed between two digits ("1_000"). */
  predicate IsDigitGroups(s: string) {
    && |s| > 0
    && IsDigit(s[0])
    && IsDigit(s[|s| - 1])
    && (forall i :: 0 <= i < |s| ==> IsDigit(s[i]) || s[i] == '_')
    && (forall i :: 0 <= i < |s| - 1 ==> s[i] == '_' ==> s[i + 1] != '_')
  }

  /** `s` without its underscores. */
  function DropUnderscores(s: string): (r: string)
    ensures (forall i :: 0 <= i < |s| ==> IsDigit(s[i]) || s[i] == '_') ==> AllDigits(r)
    ensures '_' !in s ==> r == s
  {
    if s == [] then []
    else if s[0] == '_' then DropUnderscores(s[1..])
    else [s[0]] + DropUnderscores(s[1..])
  }

  /** `int(s)` in base 10: the whitespace of `IsIntSpace` around the
      number is skipped, then one optional sign, then digit groups; anything
      else (including "") is rejected, which Python reports as a
      ValueError. */
  function ParseInt(s: string): (r: Option<int>)
    ensures s != [] && AllDigits(s) ==> r == Some(DigitsValue(s))
    ensures r.Some? ==> exists k :: 0 <= k < |s| && IsDigit(s[k])
  {
    var t := Strip(s, IsIntSpace);
    var negative := |t| > 0 && t[0] == '-';
    var body := if |t| > 0 && (t[0] == '-' || t[0] == '+') then t[1..] else t;
    if IsDigitGroups(body) then
      var magnitude: int := DigitsValue(DropUnderscores(body));
      var offset := LeadingSpaces(s, IsIntSpace) + |t| - |body|;
      assert s[offset] == body[0];
      DigitsReadAsThemselves(s);
      Some(if negative then -magnitude else magnitude)
    else
      DigitsReadAsThemselves(s);
      None
  }

  /** A non-empty string of digits has nothing to strip, no sign and no
      underscore: it is its own digit group. */
  lemma DigitsReadAsThemselves(s: string)
    ensures s != [] && AllDigits(s) ==>
      Strip(s, IsIntSpace) == s && IsDigitGroups(s) && DropUnderscores(s) == s
  {
    if s != [] && AllDigits(s) {
      StripUnchanged(s, IsIntSpace);
      assert forall k :: 0 <= k < |s| ==> s[k] != '_';
      assert '_' !in s;
    }
  }

  function DigitChar(d: nat): (c: char)
    requires d < 10
    ensures IsDigit(c) && DigitValue(c) == d
  {
    ('0' as int + d) as char
  }

  /** `str(n)` for a natural number: its shortest decimal spelling. */
  function NatToDecimal(n: nat): (r: string)
    ensures r != [] && AllDigits(r)
    ensures DigitsValue(r) == n
    ensures r[0] == '0' ==> n == 0
  {
    if n < 10 then [DigitChar(n)]
    else
      var r := NatToDecimal(n / 10) + [DigitChar(n % 10)];
      assert r[..|r| - 1] == NatToDecimal(n / 10);
      r
  }

  /** `str(i)` for any integer: a minus sign before the digits of a
      negative number. */
  function IntToDecimal(i: int): (r: string)
    ensures r != [] && !IsSpace(r[0]) && !IsSpace(r[|r| - 1])
    ensures r[0] == '-' <==> i < 0
    ensures AllDigits(if i < 0 then r[1..] else r)
    ensures DigitsValue(if i < 0 then r[1..] else r) == (if i < 0 then -i else i)
    ensures (if i < 0 then r[1..] else r)[0] == '0' ==> i == 0
  {
    if i < 0 then
      var r := "-" + NatToDecimal(-i);
      assert r[1..] == NatToDecimal(-i);
      r
    else NatToDecimal(i)
  }

  /** Reading back what `str` printed gives the same integer. */
  lemma ParseIntRoundTrip(i: int)
    ensures ParseInt(IntToDecimal(i)) == Some(i)
  {
    var s := IntToDecimal(i);
    StripUnchanged(s, IsIntSpace);
    var n: nat := if i < 0 then -i else i;
    var digits := NatToDecimal(n);
    DecimalIsDigitGroups(n);
    if i < 0 {
      assert s[1..] == digits;
    } else {
      assert s == digits;
      assert s[0] != '-' && s[0] != '+';
    }
  }

  /** The decimal spelling of a natural number is a digit group without
      underscores that reads back as the number. */
  lemma DecimalIsDigitGroups(n: nat)
    ensures IsDigitGroups(NatToDecimal(n))
    ensures DigitsValue(DropUnderscores(NatToDecimal(n))) == n
  {
    var digits := NatToDecimal(n);
    assert forall k :: 0 <= k < |digits| ==> digits[k] != '_';
    assert '_' !in digits;
  }

  /** `int("")` raises: there is no digit at all. */
  lemma ParseIntRejectsEmpty()
    ensures ParseInt("") == None
  {
  }

  /** `int("123_not")` raises: a letter is not a digit. */
  lemma ParseIntRejectsTrailingText()
    ensures ParseInt("123_not") == None
  {
    StripUnchanged("123_not", IsIntSpace);
    assert !IsDigit("123_not"[4]);
  }

  /** `int("1410")` is 1410. */
  lemma ParseIntReadsDigits()
    ensures ParseInt("1410") == Some(1410)
  {
    assert NatToDecimal(1) == "1";
    assert NatToDecimal(14) == "14";
    assert NatToDecimal(141) == "141";
    assert IntToDecimal(1410) == "1410";
    ParseIntRoundTrip(1410);
  }
}
