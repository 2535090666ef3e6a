/** Character-level conversions the server relies on: the UTF-8 encoder
    behind `writeLine` and `String.getBytes`, `Integer.toString`, the
    ASCII part of `String.toUpperCase`, and the `(char)` cast of a byte. */
module Text {
  import opened Base

  const CRLF: string := "\r\n"

  /** The UTF-8 form of one Unicode scalar value (section 3 of RFC 3629). */
  function EncodeChar(c: char): (bs: seq<Byte>)
    ensures 1 <= |bs| <= 4
    ensures c as int < 0x80 <==> |bs| == 1
    ensures c as int < 0x80 ==> bs[0] == c as int
    ensures forall i :: 1 <= i < |bs| ==> 0x80 <= bs[i] < 0xC0
  {
    var n := c as int;
    if n < 0x80 then [n]
    else if n < 0x800 then [0xC0 + n / 0x40, 0x80 + n % 0x40]
    else if n < 0x1_0000 then [0xE0 + n / 0x1000, 0x80 + n / 0x40 % 0x40, 0x80 + n % 0x40]
    else [0xF0 + n / 0x4_0000, 0x80 + n / 0x1000 % 0x40, 0x80 + n / 0x40 % 0x40, 0x80 + n % 0x40]
  }

  /** The UTF-8 encoding of a string, character by character. */
  function Utf8(s: string): (b: seq<Byte>)
    ensures |b| == 0 <==> |s| == 0
  {
    if |s| == 0 then [] else EncodeChar(s[0]) + Utf8(s[1..])
  }

  /** Each character takes one to four bytes. */
  lemma {:induction false} Utf8Length(s: string)
    ensures |s| <= |Utf8(s)| <= 4 * |s|
    decreases |s|
  {
    if |s| > 0 {
      Utf8Length(s[1..]);
    }
  }

  /** Encoding distributes over concatenation: writing two strings one after
      the other puts the same bytes on the wire as writing their join. */
  lemma {:induction false} Utf8Append(a: string, b: string)
    ensures Utf8(a + b) == Utf8(a) + Utf8(b)
    decreases |a|
  {
    if |a| == 0 {
      assert a + b == b;
    } else {
      assert (a + b)[1..] == a[1..] + b;
      Utf8Append(a[1..], b);
    }
  }

  predicate IsAscii(s: string) {
    forall i :: 0 <= i < |s| ==> s[i] as int < 0x80
  }

  /** On ASCII text the encoder emits one byte per character, equal to its code. */
  lemma {:induction false} Utf8Ascii(s: string)
    requires IsAscii(s)
    ensures |Utf8(s)| == |s|
    ensures forall i :: 0 <= i < |s| ==> Utf8(s)[i] == s[i] as int
    decreases |s|
  {
    if |s| > 0 {
      Utf8Ascii(s[1..]);
    }
  }

  function DigitChar(d: nat): (c: char)
    requires d < 10
    ensures '0' <= c <= '9'
    ensures c as int - '0' as int == d
  {
    ('0' as int + d) as char
  }

  /** `Integer.toString` of a non-negative value: decimal, no leading zero. */
  function Digits(n: nat): (s: string)
    ensures |s| >= 1
    ensures forall i :: 0 <= i < |s| ==> '0' <= s[i] <= '9'
    ensures |s| > 1 ==> s[0] != '0'
    ensures n < 10 <==> |s| == 1
    decreases n
  {
    if n < 10 then [DigitChar(n)] else Digits(n / 10) + [DigitChar(n % 10)]
  }

  /** `Integer.toString` of any int: a minus sign before the magnitude's digits. */
  function IntToString(i: int): (s: string)
    ensures |s| >= 1
    ensures s[0] == '-' <==> i < 0
    ensures i < 0 ==> s[1..] == Digits(-i)
    ensures i >= 0 ==> s == Digits(i)
  {
    if i < 0 then "-" + Digits(-i) else Digits(i)
  }

  predicate IsDecimal(s: string) {
    forall i :: 0 <= i < |s| ==> '0' <= s[i] <= '9'
  }

  /** The value a string of decimal digits denotes (what a client reading
      `Content-Length` computes); the reference against which `Digits` is checked. */
  function DecimalValue(s: string): nat
    requires IsDecimal(s)
  {
    if |s| == 0 then 0 else DecimalValue(s[..|s| - 1]) * 10 + (s[|s| - 1] as int - '0' as int)
  }

  /** Reading back the digits `Integer.toString` wrote gives the number. */
  lemma {:induction false} DigitsRoundTrip(n: nat)
    ensures IsDecimal(Digits(n)) && DecimalValue(Digits(n)) == n
    decreases n
  {
    if n >= 10 {
      var d := Digits(n);
      assert d[..|d| - 1] == Digits(n / 10);
      DigitsRoundTrip(n / 10);
    }
  }

  /** `Character.toUpperCase` restricted to ASCII letters. */
  function UpperChar(c: char): char {
    if 'a' <= c <= 'z' then (c as int - 32) as char else c
  }

  /** `String.toUpperCase` on ASCII letters; every other character is kept. */
  function ToUpper(s: string): (u: string)
    ensures |u| == |s|
    ensures forall i :: 0 <= i < |s| && 'a' <= s[i] <= 'z' ==> u[i] as int == s[i] as int - 32
    ensures forall i :: 0 <= i < |s| && !('a' <= s[i] <= 'z') ==> u[i] == s[i]
    ensures forall i :: 0 <= i < |u| ==> !('a' <= u[i] <= 'z')
  {
    seq(|s|, i requires 0 <= i < |s| => UpperChar(s[i]))
  }

  /** Text with no lower-case ASCII letter is left as it is, so upper-casing
      twice is upper-casing once. */
  lemma ToUpperKeepsUpper(s: string)
    requires forall i :: 0 <= i < |s| ==> !('a' <= s[i] <= 'z')
    ensures ToUpper(s) == s
  {
  }

  /** `(char) b` for a Java byte: values 0x80..0xFF are negative bytes, and the
      widening sign-extends them to the characters U+FF80..U+FFFF. */
  function ByteToChar(b: Byte): (c: char)
    ensures b < 0x80 ==> c as int == b
    ensures b >= 0x80 ==> c as int == b + 0xFF00
    ensures c == '\n' <==> b == 0x0A
  {
    if b < 0x80 then b as char else (b + 0xFF00) as char
  }

  /** The characters `read` builds from the buffer, one per byte. */
  function Chars(bs: seq<Byte>): (s: string)
    ensures |s| == |bs|
    ensures forall i :: 0 <= i < |bs| ==> s[i] == ByteToChar(bs[i])
  {
    seq(|bs|, i requires 0 <= i < |bs| => ByteToChar(bs[i]))
  }

  /** On ASCII text, the cast of each encoded byte gives the character back. */
  lemma CharsOfAscii(s: string)
    requires IsAscii(s)
    ensures Chars(Utf8(s)) == s
  {
    Utf8Ascii(s);
  }
}
