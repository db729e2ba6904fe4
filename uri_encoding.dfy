/** The ECMAScript URI component functions of section 15.1.3 of ECMA-262 (5.1 edition):
    encodeURIComponent (15.1.3.4) and, as its inverse, decodeURIComponent (15.1.3.2).
    Characters are Unicode scalar values, so every string here is well-formed UTF-16
    on the JavaScript side. */
module UriEncoding {
  import opened Wrappers

  /** uriUnreserved: letters, decimal digits and the marks - _ . ! ~ * ' ( ) */
  predicate Unreserved(c: char) {
    ('A' <= c <= 'Z') || ('a' <= c <= 'z') || ('0' <= c <= '9')
    || c in {'-', '_', '.', '!', '~', '*', '\'', '(', ')'}
  }

  /** An upper-case hexadecimal digit. */
  predicate UpperHex(c: char) {
    ('0' <= c <= '9') || ('A' <= c <= 'F')
  }

  /** The upper-case hexadecimal digit of a value below 16. */
  function HexDigit(d: int): (c: char)
    requires 0 <= d < 16
    ensures UpperHex(c)
  {
    if d < 10 then ('0' as int + d) as char else ('A' as int + d - 10) as char
  }

  predicate IsByte(b: int) {
    0 <= b < 256
  }

  /** One octet as an escape `%XY` with upper-case hexadecimal digits. */
  function Escape(b: int): (r: string)
    requires IsByte(b)
    ensures |r| == 3 && r[0] == '%' && UpperHex(r[1]) && UpperHex(r[2])
  {
    ['%', HexDigit(b / 16), HexDigit(b % 16)]
  }

  /** The UTF-8 octets of a code point (Table 21 of ECMA-262). */
  function Utf8(cp: int): (bs: seq<int>)
    requires 0 <= cp < 0x110000
    ensures 1 <= |bs| <= 4
    ensures forall i :: 0 <= i < |bs| ==> IsByte(bs[i])
  {
    if cp < 0x80 then [cp]
    else if cp < 0x800 then [0xC0 + cp / 64, 0x80 + cp % 64]
    else if cp < 0x10000 then [0xE0 + cp / 64 / 64, 0x80 + cp / 64 % 64, 0x80 + cp % 64]
    else [0xF0 + cp / 64 / 64 / 64, 0x80 + cp / 64 / 64 % 64, 0x80 + cp / 64 % 64, 0x80 + cp % 64]
  }

  function EscapeAll(bs: seq<int>): (r: string)
    requires forall i :: 0 <= i < |bs| ==> IsByte(bs[i])
    ensures |r| == 3 * |bs|
  {
    if bs == [] then "" else Escape(bs[0]) + EscapeAll(bs[1..])
  }

  /** One character as encodeURIComponent writes it. */
  function EncodeChar(c: char): (r: string)
    ensures |r| > 0
  {
    if Unreserved(c) then [c] else EscapeAll(Utf8(c as int))
  }

  /** encodeURIComponent on a well-formed string. */
  function EncodeUriComponent(s: string): (r: string)
    ensures forall i :: 0 <= i < |r| ==> Unreserved(r[i]) || r[i] == '%' || UpperHex(r[i])
  {
    if s == [] then ""
    else
      EscapeAllChars(Utf8(s[0] as int));
      EncodeChar(s[0]) + EncodeUriComponent(s[1..])
  }

  lemma {:induction false} EscapeAllChars(bs: seq<int>)
    requires forall i :: 0 <= i < |bs| ==> IsByte(bs[i])
    ensures forall i :: 0 <= i < |EscapeAll(bs)| ==> EscapeAll(bs)[i] == '%' || UpperHex(EscapeAll(bs)[i])
  {
    if bs != [] {
      EscapeAllChars(bs[1..]);
    }
  }

  /** The URI delimiters that would end or split a query parameter never appear unescaped. */
  lemma EncodedHasNoDelimiters(s: string)
    ensures forall c :: c in {'&', '=', '?', '#', '/', '+', ' '} ==> c !in EncodeUriComponent(s)
  {
    var r := EncodeUriComponent(s);
    forall i | 0 <= i < |r| ensures r[i] !in {'&', '=', '?', '#', '/', '+', ' '} {
      assert Unreserved(r[i]) || r[i] == '%' || UpperHex(r[i]);
    }
  }

  // ---- decoding ----

  function HexValue(c: char): Option<int> {
    if '0' <= c <= '9' then Some(c as int - '0' as int)
    else if 'A' <= c <= 'F' then Some(c as int - 'A' as int + 10)
    else if 'a' <= c <= 'f' then Some(c as int - 'a' as int + 10)
    else None
  }

  /** The octet of the escape `%XY` at index k, if there is one. */
  function ByteAt(s: string, k: nat): (r: Option<int>)
    ensures r.Some? ==> IsByte(r.value)
  {
    if k + 3 <= |s| && s[k] == '%' && HexValue(s[k + 1]).Some? && HexValue(s[k + 2]).Some? then
      Some(16 * HexValue(s[k + 1]).value + HexValue(s[k + 2]).value)
    else None
  }

  /** n consecutive escapes from index k. */
  function ReadBytes(s: string, k: nat, n: nat): (r: Option<seq<int>>)
    ensures r.Some? ==> |r.value| == n && forall i :: 0 <= i < n ==> IsByte(r.value[i])
    decreases n
  {
    if n == 0 then Some([])
    else match ByteAt(s, k)
      case None => None
      case Some(b) =>
        match ReadBytes(s, k + 3, n - 1)
        case None => None
        case Some(rest) => Some([b] + rest)
  }

  /** Number of octets announced by a leading octet: its leading one bits; 0 marks the
      octets decodeURIComponent rejects as leaders (10xxxxxx, and five or more ones). */
  function SequenceLength(b: int): nat {
    if b < 0x80 then 1
    else if 0xC0 <= b < 0xE0 then 2
    else if 0xE0 <= b < 0xF0 then 3
    else if 0xF0 <= b < 0xF8 then 4
    else 0
  }

  predicate Continuation(b: int) {
    0x80 <= b < 0xC0
  }

  /** The code point that a well-shaped octet sequence spells. */
  function CodePoint(bs: seq<int>): int
    requires 1 <= |bs| <= 4
  {
    if |bs| == 1 then bs[0]
    else if |bs| == 2 then (bs[0] - 0xC0) * 64 + (bs[1] - 0x80)
    else if |bs| == 3 then ((bs[0] - 0xE0) * 64 + (bs[1] - 0x80)) * 64 + (bs[2] - 0x80)
    else (((bs[0] - 0xF0) * 64 + (bs[1] - 0x80)) * 64 + (bs[2] - 0x80)) * 64 + (bs[3] - 0x80)
  }

  /** A valid UTF-8 encoding uses the shortest form and names a scalar value. */
  predicate ValidUtf8(v: int, n: nat) {
    if n == 1 then 0 <= v < 0x80
    else if n == 2 then 0x80 <= v < 0x800
    else if n == 3 then 0x800 <= v < 0x10000 && !(0xD800 <= v < 0xE000)
    else n == 4 && 0x10000 <= v < 0x110000
  }

  /** The character an escape sequence at the start of s stands for, and the length of
      that sequence; None where decodeURIComponent throws URIError. */
  function DecodeEscape(s: string): (r: Option<(char, nat)>)
    ensures r.Some? ==> 0 < r.value.1 <= |s|
  {
    match ByteAt(s, 0)
    case None => None
    case Some(b0) =>
      var n := SequenceLength(b0);
      if n == 0 then None
      else match ReadBytes(s, 0, n)
        case None => None
        case Some(bs) =>
          if (forall i :: 1 <= i < n ==> Continuation(bs[i])) && ValidUtf8(CodePoint(bs), n) then
            assert 3 * n <= |s| by { ReadBytesLength(s, 0, n); }
            Some((CodePoint(bs) as char, 3 * n))
          else None
  }

  lemma {:induction false} ReadBytesLength(s: string, k: nat, n: nat)
    requires ReadBytes(s, k, n).Some?
    ensures k + 3 * n <= |s| || n == 0
    decreases n
  {
    if n > 1 {
      ReadBytesLength(s, k + 3, n - 1);
    }
  }

  function Prepend(c: char, r: Option<string>): Option<string> {
    match r
    case None => None
    case Some(t) => Some([c] + t)
  }

  /** decodeURIComponent: None where it throws URIError. */
  function DecodeUriComponent(s: string): (r: Option<string>)
    decreases |s|
  {
    if s == [] then Some("")
    else if s[0] != '%' then Prepend(s[0], DecodeUriComponent(s[1..]))
    else match DecodeEscape(s)
      case None => None
      case Some((c, n)) => Prepend(c, DecodeUriComponent(s[n..]))
  }

  // ---- the round trip ----

  lemma HexDigitValue(d: int)
    requires 0 <= d < 16
    ensures HexValue(HexDigit(d)) == Some(d)
  {
  }

  lemma EscapeRead(b: int, rest: string)
    requires IsByte(b)
    ensures ByteAt(Escape(b) + rest, 0) == Some(b)
  {
    var s := Escape(b) + rest;
    assert s[0] == '%' && s[1] == HexDigit(b / 16) && s[2] == HexDigit(b % 16);
    HexDigitValue(b / 16);
    HexDigitValue(b % 16);
  }

  lemma ByteAtShift(x: string, y: string, k: nat)
    ensures ByteAt(x + y, |x| + k) == ByteAt(y, k)
  {
    if k + 3 <= |y| {
      assert (x + y)[|x| + k] == y[k];
      assert (x + y)[|x| + k + 1] == y[k + 1];
      assert (x + y)[|x| + k + 2] == y[k + 2];
    }
  }

  lemma {:induction false} EscapeAllAt(bs: seq<int>, j: nat, rest: string)
    requires forall i :: 0 <= i < |bs| ==> IsByte(bs[i])
    requires j < |bs|
    ensures ByteAt(EscapeAll(bs) + rest, 3 * j) == Some(bs[j])
  {
    var tail := EscapeAll(bs[1..]) + rest;
    var e0 := Escape(bs[0]);
    assert EscapeAll(bs) == e0 + EscapeAll(bs[1..]);
    assert EscapeAll(bs) + rest == e0 + tail;
    if j == 0 {
      EscapeRead(bs[0], tail);
    } else {
      EscapeAllAt(bs[1..], j - 1, rest);
      ByteAtShift(e0, tail, 3 * (j - 1));
      assert |e0| + 3 * (j - 1) == 3 * j;
    }
  }

  lemma {:induction false} ReadEscaped(bs: seq<int>, j: nat, rest: string)
    requires forall i :: 0 <= i < |bs| ==> IsByte(bs[i])
    requires j <= |bs|
    ensures ReadBytes(EscapeAll(bs) + rest, 3 * j, |bs| - j) == Some(bs[j..])
    decreases |bs| - j
  {
    if j < |bs| {
      EscapeAllAt(bs, j, rest);
      ReadEscaped(bs, j + 1, rest);
      assert bs[j..] == [bs[j]] + bs[j + 1..];
    }
  }

  lemma Utf8Decodes(cp: int)
    requires 0 <= cp < 0xD800 || 0xE000 <= cp < 0x110000
    ensures SequenceLength(Utf8(cp)[0]) == |Utf8(cp)|
    ensures forall i :: 1 <= i < |Utf8(cp)| ==> Continuation(Utf8(cp)[i])
    ensures CodePoint(Utf8(cp)) == cp
    ensures ValidUtf8(cp, |Utf8(cp)|)
  {
    var a := cp / 64;
    var b := a / 64;
    var c := b / 64;
    assert cp == a * 64 + cp % 64;
    assert a == b * 64 + a % 64;
    assert b == c * 64 + b % 64;
  }

  lemma EncodedCharEscape(c: char, rest: string)
    requires !Unreserved(c)
    ensures DecodeEscape(EncodeChar(c) + rest) == Some((c, |EncodeChar(c)|))
  {
    var bs := Utf8(c as int);
    var s := EscapeAll(bs) + rest;
    Utf8Decodes(c as int);
    EscapeAllAt(bs, 0, rest);
    ReadEscaped(bs, 0, rest);
    assert bs[0..] == bs;
    DecodeEscapeOf(s, bs);
  }

  /** An escape sequence that reads as a well-formed octet sequence decodes to its code point. */
  lemma DecodeEscapeOf(s: string, bs: seq<int>)
    requires 1 <= |bs| <= 4 && SequenceLength(bs[0]) == |bs|
    requires ByteAt(s, 0) == Some(bs[0]) && ReadBytes(s, 0, |bs|) == Some(bs)
    requires forall i :: 1 <= i < |bs| ==> Continuation(bs[i])
    requires ValidUtf8(CodePoint(bs), |bs|)
    ensures DecodeEscape(s) == Some((CodePoint(bs) as char, 3 * |bs|))
  {
  }

  /** decodeURIComponent reads back the one character that EncodeChar wrote. */
  lemma DecodeEncodedChar(c: char, rest: string)
    ensures DecodeUriComponent(EncodeChar(c) + rest) == Prepend(c, DecodeUriComponent(rest))
  {
    var s := EncodeChar(c) + rest;
    if Unreserved(c) {
      assert s[1..] == rest;
    } else {
      EncodedCharEscape(c, rest);
      assert s[0] == '%';
      assert s[|EncodeChar(c)|..] == rest;
    }
  }

  /** decodeURIComponent(encodeURIComponent(s)) === s for every well-formed string. */
  lemma {:induction false} DecodeEncode(s: string)
    ensures DecodeUriComponent(EncodeUriComponent(s)) == Some(s)
  {
    if s != [] {
      DecodeEncode(s[1..]);
      DecodeEncodedChar(s[0], EncodeUriComponent(s[1..]));
      assert [s[0]] + s[1..] == s;
    }
  }
}
