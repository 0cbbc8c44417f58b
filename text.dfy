/** Digit characters, numerals and their readings (the `%02X`, `%0Nd` and `std::to_string` formats). */
module Text {
  import opened Bytes

  predicate IsDecimalDigit(c: char) { '0' <= c <= '9' }

  predicate IsUpperHexDigit(c: char) { IsDecimalDigit(c) || 'A' <= c <= 'F' }

  predicate AllDecimal(s: string) { forall i :: 0 <= i < |s| ==> IsDecimalDigit(s[i]) }

  predicate AllUpperHex(s: string) { forall i :: 0 <= i < |s| ==> IsUpperHexDigit(s[i]) }

  /** The value of a digit character; 0 for anything else. */
  function DigitValue(c: char): nat
  {
    if IsDecimalDigit(c) then c as int - '0' as int
    else if 'A' <= c <= 'F' then c as int - 'A' as int + 10
    else 0
  }

  /** The character printed for digit n, upper-case beyond 9. */
  function DigitChar(n: nat): (c: char)
    requires n < 16
    ensures IsUpperHexDigit(c) && DigitValue(c) == n
    ensures IsDecimalDigit(c) <==> n < 10
  {
    if n < 10 then ('0' as int + n) as char else ('A' as int + n - 10) as char
  }

  /** The number a string of digits denotes in the given base, most significant digit first. */
  function ParseBase(s: string, base: nat): nat
  {
    if |s| == 0 then 0 else ParseBase(s[..|s| - 1], base) * base + DigitValue(s[|s| - 1])
  }

  lemma {:induction false} ParseAppend(a: string, b: string, base: nat)
    ensures ParseBase(a + b, base) == ParseBase(a, base) * Pow(base, |b|) + ParseBase(b, base)
    decreases |b|
  {
    if |b| == 0 {
      assert a + b == a;
    } else {
      var b' := b[..|b| - 1];
      var last := DigitValue(b[|b| - 1]);
      assert (a + b)[..|a + b| - 1] == a + b';
      assert (a + b)[|a + b| - 1] == b[|b| - 1];
      assert ParseBase(a + b, base) == ParseBase(a + b', base) * base + last;
      assert ParseBase(b, base) == ParseBase(b', base) * base + last;
      assert Pow(base, |b|) == base * Pow(base, |b'|);
      ParseAppend(a, b', base);
      ShiftDigit(ParseBase(a, base), Pow(base, |b'|), ParseBase(b', base), base, last);
    }
  }

  /** (x·p + y)·base + d == x·(base·p) + (y·base + d) */
  lemma ShiftDigit(x: nat, p: nat, y: nat, base: nat, d: nat)
    ensures (x * p + y) * base + d == x * (base * p) + (y * base + d)
  {
    calc {
      (x * p + y) * base + d;
      x * p * base + y * base + d;
      { assert x * p * base == x * (base * p); }
      x * (base * p) + (y * base + d);
    }
  }

  lemma ParsePair(c: char, d: char, base: nat)
    ensures ParseBase([c, d], base) == DigitValue(c) * base + DigitValue(d)
  {
    var s := [c, d];
    assert s[..1] == [c];
    assert [c][..0] == [];
    assert ParseBase([c], base) == DigitValue(c);
    assert ParseBase(s, base) == ParseBase([c], base) * base + DigitValue(d);
  }

  /** `%02X` of one byte. */
  function Hex2(b: Byte): (s: string)
    ensures |s| == 2 && AllUpperHex(s) && ParseBase(s, 16) == b
  {
    ParsePair(DigitChar(b / 16), DigitChar(b % 16), 16);
    [DigitChar(b / 16), DigitChar(b % 16)]
  }

  /** `%04X` of a 16-bit value. */
  function Hex4(v: nat): (s: string)
    requires v < 0x10000
    ensures |s| == 4 && AllUpperHex(s) && ParseBase(s, 16) == v
  {
    var s := Hex2(v / 256) + Hex2(v % 256);
    ParseAppend(Hex2(v / 256), Hex2(v % 256), 16);
    assert Pow(16, 2) == 256;
    s
  }

  /** Decimal numeral without leading zeros (`std::to_string`, `operator<<` on an unsigned). */
  function NatToString(n: nat): (s: string)
    ensures |s| >= 1 && AllDecimal(s) && ParseBase(s, 10) == n
    ensures s[0] == '0' ==> n == 0
  {
    if n < 10 then
      ParsePair('0', DigitChar(n), 10);
      assert ['0', DigitChar(n)][..1] == ['0'];
      assert ParseBase([DigitChar(n)], 10) == n by {
        assert [DigitChar(n)][..0] == [];
      }
      [DigitChar(n)]
    else
      var p := NatToString(n / 10);
      assert (p + [DigitChar(n % 10)])[..|p|] == p;
      p + [DigitChar(n % 10)]
  }

  /** Different numbers have different numerals. */
  lemma NatToStringInjective(a: nat, b: nat)
    requires NatToString(a) == NatToString(b)
    ensures a == b
  {
  }

  lemma {:induction false} ParseZeros(n: nat, base: nat)
    ensures ParseBase(seq(n, _ => '0'), base) == 0
  {
    if n > 0 {
      assert seq(n, _ => '0')[..n - 1] == seq(n - 1, _ => '0');
      ParseZeros(n - 1, base);
    }
  }

  /** `%0<width>d` of a non-negative number: zero-padded to at least `width` characters. */
  function PadDecimal(n: nat, width: nat): (s: string)
    ensures |s| == if |NatToString(n)| < width then width else |NatToString(n)|
    ensures AllDecimal(s) && ParseBase(s, 10) == n
  {
    var digits := NatToString(n);
    var zeros := seq(if |digits| < width then width - |digits| else 0, _ => '0');
    ParseAppend(zeros, digits, 10);
    ParseZeros(|zeros|, 10);
    zeros + digits
  }

  /** A number below 10^k has at most k digits. */
  lemma {:induction false} NatToStringLength(n: nat, k: nat)
    requires n < Pow(10, k) && k > 0
    ensures |NatToString(n)| <= k
    decreases k
  {
    if n >= 10 {
      assert k > 1;
      assert n / 10 < Pow(10, k - 1);
      NatToStringLength(n / 10, k - 1);
    }
  }
}
