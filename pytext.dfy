/**
 * The Python string operations the pipeline relies on, restricted to ASCII:
 * `str.lower`, `str.strip`, `str.rstrip(c)`, `str.title`, the regular
 * expression class `\d`, `int(digits)` and the decimal form of an integer.
 */
module PyText {

  predicate IsDigit(c: char) { '0' <= c <= '9' }

  predicate IsUpper(c: char) { 'A' <= c <= 'Z' }

  predicate IsLower(c: char) { 'a' <= c <= 'z' }

  /** ASCII letters are the only cased characters. */
  predicate IsCased(c: char) { IsUpper(c) || IsLower(c) }

  /** Python's `str.isspace` on ASCII: space, \t \n \x0b \x0c \r and \x1c-\x1f. */
  predicate IsSpace(c: char) {
    c == ' ' || (9 <= c as int <= 13) || (28 <= c as int <= 31)
  }

  function LowerChar(c: char): (r: char)
    ensures !IsUpper(r)
    ensures IsUpper(c) || r == c
  {
    if IsUpper(c) then (c as int + 32) as char else c
  }

  function UpperChar(c: char): (r: char)
    ensures !IsLower(r)
    ensures IsLower(c) || r == c
  {
    if IsLower(c) then (c as int - 32) as char else c
  }

  /** `s.lower()` */
  function Lower(s: string): (r: string)
    ensures |r| == |s|
    ensures forall i :: 0 <= i < |s| ==> r[i] == LowerChar(s[i])
  {
    seq(|s|, i requires 0 <= i < |s| => LowerChar(s[i]))
  }

  /** `s.rstrip(c)`: drops every trailing occurrence of `c`. */
  function RStripChar(s: string, c: char): (r: string)
    ensures r <= s
    ensures r == [] || r[|r| - 1] != c
    ensures forall i :: |r| <= i < |s| ==> s[i] == c
  {
    if s == [] || s[|s| - 1] != c then s else RStripChar(s[..|s| - 1], c)
  }

  function LStripSpace(s: string): (r: string)
    ensures r == [] || !IsSpace(r[0])
    ensures |r| <= |s| && r == s[|s| - |r|..]
    ensures forall i :: 0 <= i < |s| - |r| ==> IsSpace(s[i])
  {
    if s == [] || !IsSpace(s[0]) then s else LStripSpace(s[1..])
  }

  function RStripSpace(s: string): (r: string)
    ensures r <= s
    ensures r == [] || !IsSpace(r[|r| - 1])
    ensures forall i :: |r| <= i < |s| ==> IsSpace(s[i])
  {
    if s == [] || !IsSpace(s[|s| - 1]) then s else RStripSpace(s[..|s| - 1])
  }

  /** `s.strip()` */
  function Strip(s: string): (r: string)
    ensures r == [] || (!IsSpace(r[0]) && !IsSpace(r[|r| - 1]))
  {
    LStripSpace(RStripSpace(s))
  }

  /**
   * `s.title()` continued after a character that was (`afterCased`) or was not
   * a letter: a letter is upper-cased when the character before it is not a
   * letter and lower-cased otherwise; other characters are kept.
   */
  function TitleFrom(s: string, afterCased: bool): (r: string)
    ensures |r| == |s|
    ensures forall i :: 0 <= i < |s| && !IsCased(s[i]) ==> r[i] == s[i]
    ensures |s| > 0 && IsCased(s[0]) ==> r[0] == if afterCased then LowerChar(s[0]) else UpperChar(s[0])
    ensures forall i :: 0 < i < |s| && IsCased(s[i]) ==>
              r[i] == if IsCased(s[i - 1]) then LowerChar(s[i]) else UpperChar(s[i])
  {
    if s == [] then []
    else
      var c := s[0];
      var t := if !IsCased(c) then c else if afterCased then LowerChar(c) else UpperChar(c);
      [t] + TitleFrom(s[1..], IsCased(c))
  }

  /**
   * `s.title()`: every letter that starts a run of letters is upper-cased, every
   * other letter lower-cased, and every other character kept.
   */
  function Title(s: string): (r: string)
    ensures |r| == |s|
    ensures forall i :: 0 <= i < |s| && !IsCased(s[i]) ==> r[i] == s[i]
    ensures forall i :: 0 <= i < |s| && IsCased(s[i]) ==>
              r[i] == if i > 0 && IsCased(s[i - 1]) then LowerChar(s[i]) else UpperChar(s[i])
  {
    TitleFrom(s, false)
  }

  function DigitChar(d: nat): (c: char)
    requires d < 10
    ensures IsDigit(c)
  {
    ('0' as int + d) as char
  }

  function DigitValue(c: char): (d: nat)
    requires IsDigit(c)
    ensures d < 10 && DigitChar(d) == c
  {
    c as int - '0' as int
  }

  /** `str(n)` for a non-negative integer. */
  function DecimalString(n: nat): (r: string)
    ensures r != []
    ensures forall i :: 0 <= i < |r| ==> IsDigit(r[i])
  {
    if n < 10 then [DigitChar(n)] else DecimalString(n / 10) + [DigitChar(n % 10)]
  }

  /** `str(i)` for any integer. */
  function IntString(i: int): string {
    if i < 0 then "-" + DecimalString(-i) else DecimalString(i)
  }

  /** `int(ds)` for a string of decimal digits; without a leading zero, `str` gives the digits back. */
  function DigitsValue(ds: string): (r: nat)
    requires forall i :: 0 <= i < |ds| ==> IsDigit(ds[i])
    ensures ds != [] && ds[0] != '0' ==> DecimalString(r) == ds
  {
    if ds == [] then 0 else DigitsValue(ds[..|ds| - 1]) * 10 + DigitValue(ds[|ds| - 1])
  }

  /** The longest prefix of `s` made of digits. */
  function DigitPrefix(s: string): (r: string)
    ensures r <= s
    ensures forall i :: 0 <= i < |r| ==> IsDigit(r[i])
    ensures |r| == |s| || !IsDigit(s[|r|])
  {
    if s == [] || !IsDigit(s[0]) then [] else [s[0]] + DigitPrefix(s[1..])
  }

  /** The match of `re.search(r"(\d+)", s)`: the first maximal run of digits, if any. */
  function FirstDigitRun(s: string): (r: string)
    ensures forall i :: 0 <= i < |r| ==> IsDigit(r[i])
    ensures r == [] <==> forall i :: 0 <= i < |s| ==> !IsDigit(s[i])
  {
    if s == [] then []
    else if IsDigit(s[0]) then DigitPrefix(s)
    else FirstDigitRun(s[1..])
  }

  /** `int(str(n)) == n`: reading back a decimal rendering gives the number. */
  lemma {:induction false} DecimalRoundTrip(n: nat)
    ensures DigitsValue(DecimalString(n)) == n
  {
    if n >= 10 {
      var s := DecimalString(n);
      assert s[..|s| - 1] == DecimalString(n / 10);
      DecimalRoundTrip(n / 10);
    }
  }

  /** The first digit run of `p + s` is that of `s` when `p` holds no digit. */
  lemma {:induction false} FirstDigitRunSkips(p: string, s: string)
    requires forall i :: 0 <= i < |p| ==> !IsDigit(p[i])
    ensures FirstDigitRun(p + s) == FirstDigitRun(s)
  {
    if p == [] {
      assert p + s == s;
    } else {
      assert (p + s)[0] == p[0] && (p + s)[1..] == p[1..] + s;
      FirstDigitRunSkips(p[1..], s);
    }
  }

  /** The first digit run of `ds + t` is `ds` when `ds` is digits and `t` starts with a non-digit. */
  lemma {:induction false} FirstDigitRunOfNumber(ds: string, t: string)
    requires ds != [] && forall i :: 0 <= i < |ds| ==> IsDigit(ds[i])
    requires t == [] || !IsDigit(t[0])
    ensures FirstDigitRun(ds + t) == ds
  {
    DigitPrefixConcat(ds, t);
  }

  lemma {:induction false} DigitPrefixConcat(ds: string, t: string)
    requires forall i :: 0 <= i < |ds| ==> IsDigit(ds[i])
    requires t == [] || !IsDigit(t[0])
    ensures DigitPrefix(ds + t) == ds
  {
    if ds == [] {
      assert ds + t == t;
    } else {
      assert (ds + t)[1..] == ds[1..] + t;
      DigitPrefixConcat(ds[1..], t);
    }
  }

  /** Lower-casing is idempotent. */
  lemma LowerIdempotent(s: string)
    ensures Lower(Lower(s)) == Lower(s)
  {
  }

  /** `rstrip(c)` commutes with lower-casing when `c` is not a letter. */
  lemma {:induction false} RStripLowerCommute(s: string, c: char)
    requires !IsCased(c)
    ensures RStripChar(Lower(s), c) == Lower(RStripChar(s, c))
  {
    if s != [] && s[|s| - 1] == c {
      assert Lower(s)[..|s| - 1] == Lower(s[..|s| - 1]);
      RStripLowerCommute(s[..|s| - 1], c);
    }
  }

  /** `strip()` commutes with lower-casing, as whitespace is not cased. */
  lemma {:induction false} StripLowerCommute(s: string)
    ensures Strip(Lower(s)) == Lower(Strip(s))
  {
    RStripSpaceLower(s);
    LStripSpaceLower(RStripSpace(s));
  }

  lemma {:induction false} RStripSpaceLower(s: string)
    ensures RStripSpace(Lower(s)) == Lower(RStripSpace(s))
  {
    if s != [] && IsSpace(s[|s| - 1]) {
      assert Lower(s)[..|s| - 1] == Lower(s[..|s| - 1]);
      RStripSpaceLower(s[..|s| - 1]);
    }
  }

  lemma {:induction false} LStripSpaceLower(s: string)
    ensures LStripSpace(Lower(s)) == Lower(LStripSpace(s))
  {
    if s != [] && IsSpace(s[0]) {
      assert Lower(s)[1..] == Lower(s[1..]);
      LStripSpaceLower(s[1..]);
    }
  }

  /** A string that neither starts nor ends with whitespace is its own strip. */
  lemma StripNoSpace(s: string)
    requires s == [] || (!IsSpace(s[0]) && !IsSpace(s[|s| - 1]))
    ensures Strip(s) == s
  {
  }
}
