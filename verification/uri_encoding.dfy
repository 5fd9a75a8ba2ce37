/**
 * `encodeURIComponent` as the ECMAScript standard defines it (the Encode
 * abstract operation with the unreserved URI set): every character outside
 * the unreserved set becomes its UTF-8 bytes, each written `%XY` with
 * upper-case hexadecimal digits.
 */
module UriEncoding {

  /** Letters, digits and the marks - _ . ! ~ * ' ( ) pass through unescaped. */
  predicate IsUnreserved(c: char) {
    || 'a' <= c <= 'z' || 'A' <= c <= 'Z' || '0' <= c <= '9'
    || c == '-' || c == '_' || c == '.' || c == '!' || c == '~'
    || c == '*' || c == '\'' || c == '(' || c == ')'
  }

  predicate IsHexDigit(c: char) {
    '0' <= c <= '9' || 'A' <= c <= 'F'
  }

  function HexValue(c: char): (n: nat)
    requires IsHexDigit(c)
    ensures n < 16
  {
    if c <= '9' then c as int - '0' as int else c as int - 'A' as int + 10
  }

  /** The upper-case hexadecimal digit of `n`. */
  function HexDigit(n: nat): (c: char)
    requires n < 16
    ensures IsHexDigit(c) && HexValue(c) == n
  {
    if n < 10 then ('0' as int + n) as char else ('A' as int + n - 10) as char
  }

  /** One byte as `%XY`. */
  function PercentByte(b: nat): (r: string)
    requires b < 256
    ensures |r| == 3 && r[0] == '%' && IsHexDigit(r[1]) && IsHexDigit(r[2])
    ensures HexValue(r[1]) * 16 + HexValue(r[2]) == b
  {
    ['%', HexDigit(b / 16), HexDigit(b % 16)]
  }

  predicate IsContinuation(b: nat) { 0x80 <= b < 0xC0 }

  /** The byte sequences UTF-8 uses for one scalar value, by their shape. */
  predicate IsUtf8Shaped(bytes: seq<nat>) {
    || (|bytes| == 1 && bytes[0] < 0x80)
    || (|bytes| == 2 && 0xC0 <= bytes[0] < 0xE0 && IsContinuation(bytes[1]))
    || (|bytes| == 3 && 0xE0 <= bytes[0] < 0xF0 && IsContinuation(bytes[1]) && IsContinuation(bytes[2]))
    || (|bytes| == 4 && 0xF0 <= bytes[0] < 0xF8 && IsContinuation(bytes[1]) && IsContinuation(bytes[2])
        && IsContinuation(bytes[3]))
  }

  /** The code point a well-shaped UTF-8 sequence stands for. */
  function Utf8Value(bytes: seq<nat>): int
    requires IsUtf8Shaped(bytes)
  {
    if |bytes| == 1 then bytes[0]
    else if |bytes| == 2 then (bytes[0] - 0xC0) * 0x40 + (bytes[1] - 0x80)
    else if |bytes| == 3 then (bytes[0] - 0xE0) * 0x1000 + (bytes[1] - 0x80) * 0x40 + (bytes[2] - 0x80)
    else (bytes[0] - 0xF0) * 0x40000 + (bytes[1] - 0x80) * 0x1000 + (bytes[2] - 0x80) * 0x40 + (bytes[3] - 0x80)
  }

  /** The low six bits of `n` as a continuation byte, and the bits above them. */
  lemma SplitSixBits(n: nat)
    ensures IsContinuation(0x80 + n % 0x40) && n == (n / 0x40) * 0x40 + n % 0x40
  {
  }

  /** The shortest UTF-8 encoding of one character. */
  function Utf8(c: char): (bytes: seq<nat>)
    ensures IsUtf8Shaped(bytes) && Utf8Value(bytes) == c as int
    ensures |bytes| == 1 <==> c as int < 0x80
    ensures |bytes| == if c as int < 0x80 then 1 else if c as int < 0x800 then 2 else if c as int < 0x10000 then 3 else 4
  {
    var n := c as int;
    if n < 0x80 then [n]
    else
      var b3, n1 := 0x80 + n % 0x40, n / 0x40;
      SplitSixBits(n);
      if n < 0x800 then [0xC0 + n1, b3]
      else
        var b2, n2 := 0x80 + n1 % 0x40, n1 / 0x40;
        SplitSixBits(n1);
        if n < 0x10000 then [0xE0 + n2, b2, b3]
        else
          var b1, n3 := 0x80 + n2 % 0x40, n2 / 0x40;
          SplitSixBits(n2);
          [0xF0 + n3, b1, b2, b3]
  }

  function PercentBytes(bytes: seq<nat>): (r: string)
    requires forall i :: 0 <= i < |bytes| ==> bytes[i] < 256
    ensures |r| == 3 * |bytes|
    ensures forall i :: 0 <= i < |r| ==> r[i] == '%' || IsUnreserved(r[i])
  {
    if bytes == [] then [] else PercentByte(bytes[0]) + PercentBytes(bytes[1..])
  }

  function EncodeChar(c: char): (r: string)
    ensures IsUnreserved(c) ==> r == [c]
    ensures !IsUnreserved(c) ==> 3 <= |r| <= 12 && r[0] == '%'
    ensures forall i :: 0 <= i < |r| ==> r[i] == '%' || IsUnreserved(r[i])
  {
    if IsUnreserved(c) then [c]
    else
      var bytes := Utf8(c);
      PercentBytes(bytes)
  }

  /** `encodeURIComponent(s)`: the result is made of unreserved characters and `%` only. */
  function EncodeURIComponent(s: string): (r: string)
    ensures |r| >= |s|
    ensures forall i :: 0 <= i < |r| ==> r[i] == '%' || IsUnreserved(r[i])
  {
    if s == [] then [] else EncodeChar(s[0]) + EncodeURIComponent(s[1..])
  }

  /** A string of unreserved characters is left as it is. */
  lemma {:induction false} EncodeUnreservedIdentity(s: string)
    requires forall i :: 0 <= i < |s| ==> IsUnreserved(s[i])
    ensures EncodeURIComponent(s) == s
  {
    if s != [] {
      EncodeUnreservedIdentity(s[1..]);
    }
  }

  /** Encoding leaves the string unchanged exactly when no character of it needs escaping. */
  lemma {:induction false} EncodeChangesIffReserved(s: string)
    ensures EncodeURIComponent(s) == s <==> forall i :: 0 <= i < |s| ==> IsUnreserved(s[i])
  {
    if forall i :: 0 <= i < |s| ==> IsUnreserved(s[i]) {
      EncodeUnreservedIdentity(s);
    } else {
      var i :| 0 <= i < |s| && !IsUnreserved(s[i]);
      EncodeLonger(s, i);
    }
  }

  /** A character that needs escaping makes the result strictly longer. */
  lemma {:induction false} EncodeLonger(s: string, i: nat)
    requires i < |s| && !IsUnreserved(s[i])
    ensures |EncodeURIComponent(s)| > |s|
  {
    if i > 0 {
      EncodeLonger(s[1..], i - 1);
    }
  }
}
