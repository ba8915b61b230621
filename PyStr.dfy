/** The Python string operations the model relies on, for ASCII text. */
module PyStr {
  import opened Common

  /** Whitespace as `str.strip` removes it, restricted to ASCII and the C0 separators. */
  predicate IsSpace(c: char) {
    c == ' ' || '\t' <= c <= '\r' || '\U{1C}' <= c <= '\U{1F}'
  }

  /** `s` without its leading whitespace. */
  function StripLeft(s: string): (r: string)
    ensures |r| <= |s| && r == s[|s| - |r|..]
    ensures forall k | 0 <= k < |s| - |r| :: IsSpace(s[k])
    ensures r != [] ==> !IsSpace(r[0])
  {
    if s != [] && IsSpace(s[0]) then StripLeft(s[1..]) else s
  }

  /** `s` without its trailing whitespace. */
  function StripRight(s: string): (r: string)
    ensures |r| <= |s| && r == s[..|r|]
    ensures forall k | |r| <= k < |s| :: IsSpace(s[k])
    ensures r != [] ==> !IsSpace(r[|r| - 1])
  {
    if s != [] && IsSpace(s[|s| - 1]) then StripRight(s[..|s| - 1]) else s
  }

  /** `s.strip()`. */
  function Strip(s: string): string {
    StripRight(StripLeft(s))
  }

  /** ASCII `str.lower` of one character. */
  function LowerChar(c: char): char {
    if 'A' <= c <= 'Z' then (c as int + 32) as char else c
  }

  /** ASCII `str.lower` of a string, character by character. */
  function Lower(t: string): (r: string)
    ensures |r| == |t|
  {
    if t == [] then [] else Lower(t[..|t| - 1]) + [LowerChar(t[|t| - 1])]
  }

  /** Lower-casing maps every character through `LowerChar`, so no upper-case letter is left. */
  lemma {:induction false} LowerSpec(t: string)
    ensures forall k | 0 <= k < |t| :: Lower(t)[k] == LowerChar(t[k]) && !('A' <= Lower(t)[k] <= 'Z')
  {
    if t != [] {
      LowerSpec(t[..|t| - 1]);
    }
  }

  /** `s.replace(c, '')`: `s` without any occurrence of `c`, the other characters in order. */
  function Remove(s: string, c: char): (r: string)
    ensures |r| <= |s| && c !in r
    ensures forall d | d != c :: d in r <==> d in s
  {
    if s == [] then []
    else
      var r := Remove(s[..|s| - 1], c);
      assert forall d :: d in s <==> d in s[..|s| - 1] || d == s[|s| - 1];
      if s[|s| - 1] == c then r else r + [s[|s| - 1]]
  }

  /** An ASCII decimal digit. */
  predicate IsDigit(c: char) {
    '0' <= c <= '9'
  }

  /** A non-empty run of decimal digits. */
  predicate Digits(s: string) {
    |s| > 0 && forall k | 0 <= k < |s| :: IsDigit(s[k])
  }

  /** The value of one decimal digit. */
  function DecDigitValue(c: char): (v: nat)
    requires IsDigit(c)
    ensures v < 10
  {
    c as int - '0' as int
  }

  /** The value of decimal digits, most significant first. */
  function DecValue(s: string): nat
    requires forall k | 0 <= k < |s| :: IsDigit(s[k])
  {
    if s == [] then 0 else DecValue(s[..|s| - 1]) * 10 + DecDigitValue(s[|s| - 1])
  }

  /**
   * `int(s)` on decimal text: surrounding whitespace, an optional sign and at least one digit; `None` where Python
   * raises `ValueError`.
   */
  function ParseInt(s: string): (r: Option<int>)
    ensures r.Some? ==> Strip(s) != [] && IsDigit(Strip(s)[|Strip(s)| - 1])
  {
    var t := Strip(s);
    if t != [] && (t[0] == '+' || t[0] == '-') then
      if Digits(t[1..]) then Some(if t[0] == '-' then -(DecValue(t[1..]) as int) else DecValue(t[1..])) else None
    else if Digits(t) then Some(DecValue(t)) else None
  }

  /** `str(n)` for a natural number: its decimal digits without leading zeros. */
  function DecimalText(n: nat): (r: string)
    ensures Digits(r) && (|r| > 1 ==> r[0] != '0')
  {
    if n < 10 then [('0' as int + n) as char] else DecimalText(n / 10) + [('0' as int + n % 10) as char]
  }

  /** Reading back the decimal text of `n` gives `n`. */
  lemma {:induction false} DecimalValue(n: nat)
    ensures DecValue(DecimalText(n)) == n
  {
    if n >= 10 {
      DecimalValue(n / 10);
      var r := DecimalText(n);
      assert r[..|r| - 1] == DecimalText(n / 10);
    }
  }

  /** Text without whitespace at either end is its own `strip()`. */
  lemma StripNoSpace(t: string)
    requires t != [] && !IsSpace(t[0]) && !IsSpace(t[|t| - 1])
    ensures Strip(t) == t
  {
  }

  /** `int(str(n)) == n`. */
  lemma ParseDecimal(n: nat)
    ensures ParseInt(DecimalText(n)) == Some(n)
  {
    var d := DecimalText(n);
    DecimalValue(n);
    StripNoSpace(d);
    assert d[0] != '+' && d[0] != '-';
  }

  /** Two digits read as a number below 100, a leading zero included (`int('07') == 7`). */
  lemma ParseTwoDigits(a: char, b: char)
    requires IsDigit(a) && IsDigit(b)
    ensures ParseInt([a, b]) == Some(10 * DecDigitValue(a) + DecDigitValue(b))
  {
    var t := [a, b];
    StripNoSpace(t);
    assert t[..1] == [a] && [a][..0] == [];
    assert DecValue([a]) == DecDigitValue(a);
    assert Digits(t);
  }

  /** Removing a character from a concatenation removes it from each part. */
  lemma {:induction false} RemoveAppend(a: string, b: string, c: char)
    ensures Remove(a + b, c) == Remove(a, c) + Remove(b, c)
  {
    if b == [] {
      assert a + b == a;
    } else {
      RemoveAppend(a, b[..|b| - 1], c);
      assert (a + b)[..|a + b| - 1] == a + b[..|b| - 1];
    }
  }

  /** Text without `c` is left as it is. */
  lemma {:induction false} RemoveAbsent(s: string, c: char)
    requires c !in s
    ensures Remove(s, c) == s
  {
    if s != [] {
      RemoveAbsent(s[..|s| - 1], c);
    }
  }
}
