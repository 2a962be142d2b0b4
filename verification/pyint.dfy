/** Python 2 `int(text)` for a base-10 ASCII string: surrounding whitespace
    is ignored, then one optional sign, optional whitespace, and one or more
    decimal digits. */
module PyInt {
  import opened Wrappers

  /** The characters Python's `str.isspace` accepts: space, \t, \n, \v, \f, \r. */
  predicate IsSpace(c: char) {
    c == ' ' || ('\t' <= c <= '\r')
  }

  predicate IsDigit(c: char) {
    '0' as int <= c as int <= '9' as int
  }

  /** Python `s.lstrip()`: drops the leading whitespace and nothing else. */
  function StripLeft(s: string): string {
    if s != [] && IsSpace(s[0]) then StripLeft(s[1..]) else s
  }

  /** Python `s.rstrip()`: drops the trailing whitespace and nothing else. */
  function StripRight(s: string): string {
    if s != [] && IsSpace(s[|s| - 1]) then StripRight(s[..|s| - 1]) else s
  }

  /** Python `s.strip()`. */
  function Strip(s: string): string {
    StripRight(StripLeft(s))
  }

  predicate IsDigits(d: string) {
    |d| > 0 && forall i :: 0 <= i < |d| ==> IsDigit(d[i])
  }

  /** The value of a string of decimal digits, most significant first. */
  function DigitsValue(d: string): nat
    requires forall i :: 0 <= i < |d| ==> IsDigit(d[i])
  {
    if d == [] then 0
    else
      assert IsDigit(d[|d| - 1]);
      10 * DigitsValue(d[..|d| - 1]) + (d[|d| - 1] as int - '0' as int)
  }

  /** Python `int(text)`; None stands for the ValueError it raises. As in
      CPython 2, whitespace may also separate the sign from the digits. */
  function ParseInt(text: string): (r: Option<int>)
  {
    var t := Strip(text);
    if |t| > 0 && (t[0] == '-' || t[0] == '+') then
      var d := StripLeft(t[1..]);
      if IsDigits(d) then
        var v: int := DigitsValue(d);
        Some(if t[0] == '-' then -v else v)
      else None
    else if IsDigits(t) then Some(DigitsValue(t))
    else None
  }

  predicate NoDigit(s: string) {
    forall i :: 0 <= i < |s| ==> !IsDigit(s[i])
  }

  /** Stripping whitespace keeps every character it does not remove. */
  lemma {:induction false} StripKeepsNoDigit(s: string)
    requires NoDigit(s)
    ensures NoDigit(StripLeft(s)) && NoDigit(StripRight(s))
    decreases |s|
  {
    if s != [] {
      if IsSpace(s[0]) {
        StripKeepsNoDigit(s[1..]);
      }
      if IsSpace(s[|s| - 1]) {
        StripKeepsNoDigit(s[..|s| - 1]);
      }
    }
  }

  /** `int()` rejects every text without a decimal digit. */
  lemma ParseRejectsDigitless(text: string)
    requires NoDigit(text)
    ensures ParseInt(text) == None
  {
    StripKeepsNoDigit(text);
    var t := Strip(text);
    StripKeepsNoDigit(StripLeft(text));
    if |t| > 0 {
      StripKeepsNoDigit(t[1..]);
    }
  }

  /** Leading whitespace before a non-space character is all `StripLeft` removes. */
  lemma {:induction false} StripLeftBlanks(blanks: string, s: string)
    requires forall i :: 0 <= i < |blanks| ==> IsSpace(blanks[i])
    requires s != [] && !IsSpace(s[0])
    ensures StripLeft(blanks + s) == s
    decreases |blanks|
  {
    if blanks != [] {
      assert (blanks + s)[1..] == blanks[1..] + s;
      StripLeftBlanks(blanks[1..], s);
    } else {
      assert blanks + s == s;
    }
  }

  /** Decimal digits of a natural number, without leading zeros: `str(n)`. */
  function ShowNat(n: nat): (d: string)
    ensures IsDigits(d)
  {
    if n < 10 then ['0' + n as char]
    else ShowNat(n / 10) + ['0' + (n % 10) as char]
  }

  /** `str(n)` for any integer. */
  function Show(n: int): string {
    if n < 0 then "-" + ShowNat(-n) else ShowNat(n)
  }

  lemma {:induction false} DigitsValueOfShowNat(n: nat)
    ensures DigitsValue(ShowNat(n)) == n
    decreases n
  {
    if n >= 10 {
      var d := ShowNat(n);
      assert d[..|d| - 1] == ShowNat(n / 10);
      DigitsValueOfShowNat(n / 10);
    }
  }

  lemma StripUnpadded(s: string)
    requires |s| > 0 && !IsSpace(s[0]) && !IsSpace(s[|s| - 1])
    ensures Strip(s) == s
  {
  }

  /** Whitespace between a minus sign and the digits is skipped: `int("- 42")`
      is -42. */
  lemma ParseSignThenBlanks(blanks: string, n: nat)
    requires forall i :: 0 <= i < |blanks| ==> IsSpace(blanks[i])
    ensures ParseInt("-" + blanks + ShowNat(n)) == Some(-(n as int))
  {
    var d := ShowNat(n);
    var text := "-" + blanks + d;
    DigitsValueOfShowNat(n);
    StripUnpadded(text);
    assert text[1..] == blanks + d;
    StripLeftBlanks(blanks, d);
  }

  /** `int(str(n)) == n`: the parser reads back every integer it is shown. */
  lemma ParseShow(n: int)
    ensures ParseInt(Show(n)) == Some(n)
  {
    var s := Show(n);
    var m := if n < 0 then -n else n;
    DigitsValueOfShowNat(m);
    StripUnpadded(s);
    if n < 0 {
      assert s[1..] == ShowNat(m);
      assert StripLeft(s[1..]) == s[1..];
    }
  }
}
