/**
 * Hexadecimal text as `hex`, `int(_, 16)` and `zfill` write and read it, the bit operations on octets, and a MAC
 * address as the text `xx:xx:xx:xx:xx:xx`.
 */
module Hex {
  /** A hexadecimal digit of either case, as `int(_, 16)` accepts it. */
  predicate IsHexDigit(c: char) {
    '0' <= c <= '9' || 'a' <= c <= 'f' || 'A' <= c <= 'F'
  }

  /** The value of one hexadecimal digit. */
  function DigitValue(c: char): (v: nat)
    requires IsHexDigit(c)
    ensures v < 16
  {
    if '0' <= c <= '9' then c as int - '0' as int
    else if 'a' <= c <= 'f' then c as int - 'a' as int + 10
    else c as int - 'A' as int + 10
  }

  /** The lower-case digit of `v`, as `hex` writes it. */
  function Digit(v: nat): (c: char)
    requires v < 16
    ensures IsHexDigit(c) && DigitValue(c) == v
    ensures !('A' <= c <= 'F')
  {
    if v < 10 then ('0' as int + v) as char else ('a' as int + v - 10) as char
  }

  /** A string of hexadecimal digits only. */
  predicate AllHex(s: string) {
    forall k | 0 <= k < |s| :: IsHexDigit(s[k])
  }

  /** `int(s, 16)` for a string of hexadecimal digits (0 for the empty string). */
  function Value(s: string): nat
    requires AllHex(s)
  {
    if s == [] then 0 else Value(s[..|s| - 1]) * 16 + DigitValue(s[|s| - 1])
  }

  /** The value of one or two digits. */
  lemma ValueShort(s: string)
    requires AllHex(s) && 1 <= |s| <= 2
    ensures |s| == 1 ==> Value(s) == DigitValue(s[0])
    ensures |s| == 2 ==> Value(s) == DigitValue(s[0]) * 16 + DigitValue(s[1])
  {
    if |s| == 2 {
      assert s[..1][..0] == [];
    } else {
      assert s[..0] == [];
    }
  }

  /** The octet written by the two digits `hi` and `lo`, as `int(hi + lo, 16)` reads it. */
  function Pair(hi: char, lo: char): (v: nat)
    requires IsHexDigit(hi) && IsHexDigit(lo)
    ensures v < 256
  {
    DigitValue(hi) * 16 + DigitValue(lo)
  }

  /** `hex(v)[2:].zfill(2)` for an octet: exactly two lower-case digits, which read back as `v`. */
  function Hex2(v: nat): (r: string)
    requires v < 256
    ensures |r| == 2 && IsHexDigit(r[0]) && IsHexDigit(r[1]) && Pair(r[0], r[1]) == v
  {
    [Digit(v / 16), Digit(v % 16)]
  }

  /** `hex(v)[2:]` for an octet: no leading zero, and "0" for zero; it reads back as `v`. */
  function HexShort(v: nat): (r: string)
    requires v < 256
    ensures 1 <= |r| <= 2 && AllHex(r) && Value(r) == v
    ensures v >= 16 <==> |r| == 2
  {
    var r := if v < 16 then [Digit(v)] else Hex2(v);
    ValueShort(r);
    r
  }

  /** Two octets are written the same exactly when they are equal. */
  lemma Hex2Injective(u: nat, v: nat)
    requires u < 256 && v < 256
    ensures Hex2(u) == Hex2(v) <==> u == v
  {
  }

  /** Appending digits shifts the value of the first part by four bits per digit. */
  lemma {:induction false} ValueAppend(a: string, b: string)
    requires AllHex(a) && AllHex(b)
    ensures AllHex(a + b) && Value(a + b) == Value(a) * Pow16(|b|) + Value(b)
  {
    if b == [] {
      assert a + b == a;
    } else {
      var b' := b[..|b| - 1];
      var d := DigitValue(b[|b| - 1]);
      assert AllHex(b');
      ValueAppend(a, b');
      assert (a + b)[..|a + b| - 1] == a + b';
      assert AllHex(a + b) by {
        forall k | 0 <= k < |a + b| ensures IsHexDigit((a + b)[k]) {
          if k < |a| { assert (a + b)[k] == a[k]; } else { assert (a + b)[k] == b[k - |a|]; }
        }
      }
      assert Value(a + b) == Value(a + b') * 16 + d;
      assert Value(b) == Value(b') * 16 + d;
      ShiftDigit(Value(a), Pow16(|b'|), Value(b'), d);
    }
  }

  /** One more digit multiplies the shift by 16. */
  lemma ShiftDigit(x: nat, p: nat, w: nat, d: nat)
    ensures (x * p + w) * 16 + d == x * (16 * p) + (w * 16 + d)
  {
    calc {
      (x * p + w) * 16 + d;
      (x * p) * 16 + w * 16 + d;
      { assert (x * p) * 16 == x * (p * 16); }
      x * (16 * p) + (w * 16 + d);
    }
  }

  /** `16 ** n`. */
  function Pow16(n: nat): (r: nat)
    ensures r >= 1
  {
    if n == 0 then 1 else 16 * Pow16(n - 1)
  }

  /** `a | b`, bit by bit from the lowest. */
  function BitOr(a: nat, b: nat): nat
    decreases a + b
  {
    if a == 0 then b else if b == 0 then a
    else 2 * BitOr(a / 2, b / 2) + (if a % 2 == 1 || b % 2 == 1 then 1 else 0)
  }

  /** `a & b`, bit by bit from the lowest. */
  function BitAnd(a: nat, b: nat): nat
    decreases a + b
  {
    if a == 0 || b == 0 then 0
    else 2 * BitAnd(a / 2, b / 2) + (if a % 2 == 1 && b % 2 == 1 then 1 else 0)
  }

  /** `a ^ b`, bit by bit from the lowest. */
  function BitXor(a: nat, b: nat): nat
    decreases a + b
  {
    if a == 0 then b else if b == 0 then a
    else 2 * BitXor(a / 2, b / 2) + (if a % 2 != b % 2 then 1 else 0)
  }

  /** `m` is `2 ** k - 1` for some `k`: all its set bits are the lowest ones. */
  predicate LowMask(m: nat) {
    m == 0 || (m % 2 == 1 && LowMask(m / 2))
  }

  /** Masking with low ones keeps a value that fits under the mask. */
  lemma {:induction false} AndLowMask(u: nat, m: nat)
    requires LowMask(m) && u <= m
    ensures BitAnd(u, m) == u
  {
    if u != 0 {
      AndLowMask(u / 2, m / 2);
    }
  }

  /** `v | 0x02` sets bit 1 and keeps the others. */
  lemma OrTwo(v: nat)
    ensures BitOr(v, 2) == 4 * (v / 4) + 2 + v % 2
  {
    if v != 0 {
      assert BitOr(v, 2) == 2 * BitOr(v / 2, 1) + v % 2;
      if v / 2 != 0 {
        assert BitOr(v / 2, 1) == 2 * BitOr(v / 4, 0) + 1;
      }
    }
  }

  /** `w & 0xfe` clears bit 0 of an octet and keeps the others. */
  lemma AndFE(w: nat)
    requires w < 256
    ensures BitAnd(w, 0xfe) == 2 * (w / 2)
  {
    if w != 0 {
      assert LowMask(0x7f);
      AndLowMask(w / 2, 0x7f);
    }
  }

  /** `v & 0xf8` clears the three low bits of an octet and keeps the others. */
  lemma AndF8(v: nat)
    requires v < 256
    ensures BitAnd(v, 0xf8) == 8 * (v / 8)
  {
    assert LowMask(31);
    AndLowMask(v / 8, 31);
    AndEven(v, 0x7c);
    AndEven(v / 2, 0x3e);
    AndEven(v / 4, 0x1f);
    assert v / 2 / 2 == v / 4 && v / 4 / 2 == v / 8;
  }

  /** Masking with an even mask clears bit 0 and masks the rest with the mask shifted down. */
  lemma AndEven(v: nat, m: nat)
    requires m > 0
    ensures BitAnd(v, 2 * m) == 2 * BitAnd(v / 2, m)
  {
  }

  /** `v ^ 0x02` flips bit 1 and keeps the others. */
  lemma XorTwo(v: nat)
    ensures BitXor(v, 2) == if v % 4 >= 2 then v - 2 else v + 2
  {
    if v != 0 {
      assert BitXor(v, 2) == 2 * BitXor(v / 2, 1) + v % 2;
      if v / 2 != 0 {
        assert BitXor(v / 2, 1) == 2 * BitXor(v / 4, 0) + (if (v / 2) % 2 == 1 then 0 else 1);
      }
    }
  }

  /** A MAC address as text: six two-digit hexadecimal octets separated by colons. */
  predicate IsMac(s: string) {
    && |s| == 17
    && IsHexDigit(s[0]) && IsHexDigit(s[1]) && s[2] == ':'
    && IsHexDigit(s[3]) && IsHexDigit(s[4]) && s[5] == ':'
    && IsHexDigit(s[6]) && IsHexDigit(s[7]) && s[8] == ':'
    && IsHexDigit(s[9]) && IsHexDigit(s[10]) && s[11] == ':'
    && IsHexDigit(s[12]) && IsHexDigit(s[13]) && s[14] == ':'
    && IsHexDigit(s[15]) && IsHexDigit(s[16])
  }

  /** Octet `k` (from 0) of a MAC address, as `int(mac[3k:3k+2], 16)` reads it. */
  function Octet(s: string, k: nat): (v: nat)
    requires IsMac(s) && k < 6
    ensures v < 256
  {
    Pair(s[3 * k], s[3 * k + 1])
  }
}
