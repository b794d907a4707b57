/**
 * Text and byte encodings the capability core relies on: UTF-8 (RFC 3629),
 * Python's decimal rendering of integers, and the facts about them that the
 * size check and the canonical signing bytes need.
 */
module Text {

  type byte = x: int | 0 <= x < 256

  predicate IsDigit(c: char) {
    '0' <= c <= '9'
  }

  predicate AllDigits(s: string) {
    forall i :: 0 <= i < |s| ==> IsDigit(s[i])
  }

  predicate IsAscii(s: string) {
    forall i :: 0 <= i < |s| ==> s[i] as int < 128
  }

  // ---------------------------------------------------------------- UTF-8

  /** The UTF-8 encoding of one Unicode scalar value (`str.encode()` for one character). */
  function Utf8Char(c: char): (bs: seq<byte>)
    ensures 1 <= |bs| <= 4
    ensures c as int < 0x80 <==> |bs| == 1
  {
    var n := c as int;
    if n < 0x80 then [n]
    else if n < 0x800 then [0xC0 + n / 64, 0x80 + n % 64]
    else if n < 0x10000 then [0xE0 + n / 4096, 0x80 + (n / 64) % 64, 0x80 + n % 64]
    else [0xF0 + n / 262144, 0x80 + (n / 4096) % 64, 0x80 + (n / 64) % 64, 0x80 + n % 64]
  }

  /** `s.encode()`: Dafny characters are scalar values, so the encoding never fails. */
  function Utf8Encode(s: string): seq<byte> {
    if s == [] then [] else Utf8Char(s[0]) + Utf8Encode(s[1..])
  }

  /** An ASCII string encodes to one byte per character, each equal to the character's code. */
  lemma {:induction false} Utf8OfAscii(s: string)
    requires IsAscii(s)
    ensures |Utf8Encode(s)| == |s|
    ensures forall i :: 0 <= i < |s| ==> Utf8Encode(s)[i] == s[i] as int
  {
    if s != [] {
      assert IsAscii(s[1..]) by {
        forall i | 0 <= i < |s[1..]| ensures s[1..][i] as int < 128 {
          assert s[1..][i] == s[i + 1];
        }
      }
      Utf8OfAscii(s[1..]);
    }
  }

  /** Distinct ASCII strings have distinct UTF-8 encodings. */
  lemma Utf8AsciiInjective(a: string, b: string)
    requires IsAscii(a) && IsAscii(b)
    requires Utf8Encode(a) == Utf8Encode(b)
    ensures a == b
  {
    Utf8OfAscii(a);
    Utf8OfAscii(b);
    assert |a| == |b|;
    forall i | 0 <= i < |a| ensures a[i] == b[i] {
      assert a[i] as int == Utf8Encode(a)[i] == Utf8Encode(b)[i] == b[i] as int;
    }
  }

  /** The encoded length is never below the number of characters, and equals it exactly for ASCII. */
  lemma {:induction false} Utf8LengthBounds(s: string)
    ensures |s| <= |Utf8Encode(s)| <= 4 * |s|
    ensures |Utf8Encode(s)| == |s| <==> IsAscii(s)
  {
    if s != [] {
      Utf8LengthBounds(s[1..]);
      if IsAscii(s) {
        assert IsAscii(s[1..]) by {
          forall i | 0 <= i < |s[1..]| ensures s[1..][i] as int < 128 {
            assert s[1..][i] == s[i + 1];
          }
        }
      }
      if !IsAscii(s) && s[0] as int < 0x80 {
        assert !IsAscii(s[1..]) by {
          var i :| 0 <= i < |s| && s[i] as int >= 128;
          assert s[1..][i - 1] == s[i];
        }
      }
    }
  }

  lemma AsciiAppend(a: string, b: string)
    ensures IsAscii(a + b) <==> IsAscii(a) && IsAscii(b)
  {
    if IsAscii(a + b) {
      assert forall i :: 0 <= i < |a| ==> a[i] == (a + b)[i];
      assert forall i :: 0 <= i < |b| ==> b[i] == (a + b)[|a| + i];
    }
    if IsAscii(a) && IsAscii(b) {
      forall i | 0 <= i < |a + b| ensures (a + b)[i] as int < 128 {
        if i >= |a| {
          assert (a + b)[i] == b[i - |a|];
        }
      }
    }
  }

  /** A lower-case hexadecimal digit. */
  function HexLower(d: nat): (c: char)
    requires d < 16
    ensures IsAscii([c])
  {
    if d < 10 then (48 + d) as char else (87 + d) as char
  }

  // ------------------------------------------------------- decimal integers

  function DigitChar(d: nat): (c: char)
    requires d < 10
    ensures IsDigit(c)
  {
    (48 + d) as char
  }

  function DigitValue(c: char): nat
    requires IsDigit(c)
  {
    c as int - 48
  }

  /** Decimal digits of a natural number, most significant first, no leading zero. */
  function NatToDecimal(n: nat): (s: string)
    ensures |s| >= 1 && AllDigits(s)
    decreases n
  {
    if n < 10 then [DigitChar(n)] else NatToDecimal(n / 10) + [DigitChar(n % 10)]
  }

  /** Python's `str(i)` for an `int`: an optional minus sign, then the digits. */
  function IntToDecimal(i: int): string {
    if i < 0 then "-" + NatToDecimal(-i) else NatToDecimal(i)
  }

  /** Reading decimal digits back as a number. */
  function DecimalValue(s: string): nat
    requires AllDigits(s)
  {
    if s == [] then 0 else DecimalValue(s[..|s| - 1]) * 10 + DigitValue(s[|s| - 1])
  }

  lemma {:induction false} DecimalRoundTrip(n: nat)
    ensures DecimalValue(NatToDecimal(n)) == n
    decreases n
  {
    if n >= 10 {
      DecimalRoundTrip(n / 10);
      var s := NatToDecimal(n);
      assert s[..|s| - 1] == NatToDecimal(n / 10);
    }
  }

  lemma IntToDecimalAscii(i: int)
    ensures IsAscii(IntToDecimal(i))
    ensures |IntToDecimal(i)| >= 1
  {
  }

  /** Length of the run of digits a string starts with. */
  function DigitRun(s: string): (n: nat)
    ensures n <= |s| && AllDigits(s[..n])
    ensures n < |s| ==> !IsDigit(s[n])
  {
    if s == [] || !IsDigit(s[0]) then 0 else 1 + DigitRun(s[1..])
  }

  lemma {:induction false} DigitRunOfDigits(a: string, x: string)
    requires AllDigits(a)
    requires x == [] || !IsDigit(x[0])
    ensures DigitRun(a + x) == |a|
  {
    if a != [] {
      assert (a + x)[1..] == a[1..] + x;
      DigitRunOfDigits(a[1..], x);
    }
  }

  /** Digits followed by a non-digit (or nothing) delimit themselves. */
  lemma NatDecimalPrefixFree(m: nat, n: nat, x: string, y: string)
    requires NatToDecimal(m) + x == NatToDecimal(n) + y
    requires x == [] || !IsDigit(x[0])
    requires y == [] || !IsDigit(y[0])
    ensures m == n && x == y
  {
    var a, b := NatToDecimal(m), NatToDecimal(n);
    var w := a + x;
    DigitRunOfDigits(a, x);
    DigitRunOfDigits(b, y);
    assert a == w[..|a|] == b;
    assert x == w[|a|..] == y;
    DecimalRoundTrip(m);
    DecimalRoundTrip(n);
  }

  /** The sign of an integer's decimal rendering is its first character. */
  lemma DecimalSign(i: int, x: string)
    ensures (IntToDecimal(i) + x)[0] == '-' <==> i < 0
    ensures i < 0 ==> (IntToDecimal(i) + x)[1..] == NatToDecimal(-i) + x
    ensures i >= 0 ==> IntToDecimal(i) + x == NatToDecimal(i) + x
  {
    if i < 0 {
      assert ("-" + NatToDecimal(-i) + x)[1..] == NatToDecimal(-i) + x;
    } else {
      assert IsDigit(NatToDecimal(i)[0]);
    }
  }

  /** The decimal rendering of an integer, followed by a non-digit, delimits itself. */
  lemma IntDecimalPrefixFree(i: int, j: int, x: string, y: string)
    requires IntToDecimal(i) + x == IntToDecimal(j) + y
    requires x == [] || !IsDigit(x[0])
    requires y == [] || !IsDigit(y[0])
    ensures i == j && x == y
  {
    DecimalSign(i, x);
    DecimalSign(j, y);
    if i < 0 {
      NatDecimalPrefixFree(-i, -j, x, y);
    } else {
      NatDecimalPrefixFree(i, j, x, y);
    }
  }
}
