/**
 * encodeURIComponent (ECMAScript 2024, section 19.2.6.5): every character
 * outside the unreserved set is written as the percent-escaped bytes of its
 * UTF-8 encoding. A Dafny `char` is a Unicode scalar value, so the lone
 * surrogates for which the JavaScript function throws cannot occur.
 */
module Uri {
  import opened Common

  /** The characters encodeURIComponent leaves alone: letters, digits and `-_.!~*'()`. */
  predicate IsUnreserved(c: char) {
    || IsAsciiAlnum(c)
    || c == '-' || c == '_' || c == '.' || c == '!' || c == '~' || c == '*' || c == '\'' || c == '(' || c == ')'
  }

  predicate IsUpperHexDigit(c: char) {
    ('0' <= c <= '9') || ('A' <= c <= 'F')
  }

  /** The character a URI may carry after encoding: an unreserved one, `%`, or an upper-case hex digit. */
  predicate IsEncodedChar(c: char) {
    IsUnreserved(c) || c == '%' || IsUpperHexDigit(c)
  }

  function HexDigit(d: int): (c: char)
    requires 0 <= d < 16
    ensures IsUpperHexDigit(c)
  {
    if d < 10 then ('0' as int + d) as char else ('A' as int + d - 10) as char
  }

  /** The UTF-8 encoding of one scalar value. */
  function Utf8(c: char): (bytes: seq<int>)
    ensures 1 <= |bytes| <= 4
    ensures forall i :: 0 <= i < |bytes| ==> 0 <= bytes[i] < 256
    ensures (c as int < 0x80) <==> |bytes| == 1
  {
    var n := c as int;
    if n < 0x80 then [n]
    else if n < 0x800 then [0xC0 + n / 0x40, 0x80 + n % 0x40]
    else if n < 0x1_0000 then [0xE0 + n / 0x1000, 0x80 + (n / 0x40) % 0x40, 0x80 + n % 0x40]
    else [0xF0 + n / 0x4_0000, 0x80 + (n / 0x1000) % 0x40, 0x80 + (n / 0x40) % 0x40, 0x80 + n % 0x40]
  }

  /** `%XY` for every byte, with upper-case hex digits. */
  function PercentEscape(bytes: seq<int>): (r: string)
    requires forall i :: 0 <= i < |bytes| ==> 0 <= bytes[i] < 256
    ensures |r| == 3 * |bytes|
    ensures forall i :: 0 <= i < |r| ==> r[i] == '%' || IsUpperHexDigit(r[i])
    ensures bytes != [] ==> r[0] == '%'
  {
    if bytes == [] then ""
    else ['%', HexDigit(bytes[0] / 16), HexDigit(bytes[0] % 16)] + PercentEscape(bytes[1..])
  }

  /** The text encodeURIComponent writes for one character. */
  function EncodeChar(c: char): (r: string)
    ensures IsUnreserved(c) ==> r == [c]
    ensures !IsUnreserved(c) ==> 3 <= |r| <= 12 && r[0] == '%'
    ensures forall i :: 0 <= i < |r| ==> IsEncodedChar(r[i])
  {
    if IsUnreserved(c) then [c] else PercentEscape(Utf8(c))
  }

  function EncodeUriComponent(s: string): (r: string)
    ensures |r| >= |s|
    ensures forall i :: 0 <= i < |r| ==> IsEncodedChar(r[i])
  {
    if s == [] then "" else EncodeUriComponent(s[..|s| - 1]) + EncodeChar(s[|s| - 1])
  }

  lemma {:induction false} EncodeKeepsUnreserved(s: string)
    requires forall i :: 0 <= i < |s| ==> IsUnreserved(s[i])
    ensures EncodeUriComponent(s) == s
  {
    if s != [] {
      EncodeKeepsUnreserved(s[..|s| - 1]);
      assert s == s[..|s| - 1] + [s[|s| - 1]];
    }
  }

  lemma {:induction false} EncodeGrowsOnReserved(s: string, k: nat)
    requires k < |s| && !IsUnreserved(s[k])
    ensures |EncodeUriComponent(s)| >= |s| + 2
  {
    if k < |s| - 1 {
      EncodeGrowsOnReserved(s[..|s| - 1], k);
    }
  }

  /** Encoding changes a string exactly when it holds a character outside the unreserved set. */
  lemma EncodeIdentityIff(s: string)
    ensures EncodeUriComponent(s) == s <==> forall i :: 0 <= i < |s| ==> IsUnreserved(s[i])
  {
    if forall i :: 0 <= i < |s| ==> IsUnreserved(s[i]) {
      EncodeKeepsUnreserved(s);
    } else {
      var k :| 0 <= k < |s| && !IsUnreserved(s[k]);
      EncodeGrowsOnReserved(s, k);
    }
  }
}
