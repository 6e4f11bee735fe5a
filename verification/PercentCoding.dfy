/**
 * Percent-encoding of URL paths: how the URL parser escapes a path segment, and what
 * `decodeURIComponent` makes of the escapes, which must be UTF-8 (RFC 3629).
 */
module PercentCoding {
  import opened Common
  import opened Text

  function HexDigit(d: int): char
    requires 0 <= d < 16
  {
    if d < 10 then ('0' as int + d) as char else ('A' as int + d - 10) as char
  }

  function HexValue(c: char): (r: Option<int>)
    ensures r.Some? ==> 0 <= r.value < 16
  {
    if IsDigit(c) then Some(c as int - '0' as int)
    else if 'A' <= c <= 'F' then Some(c as int - 'A' as int + 10)
    else if 'a' <= c <= 'f' then Some(c as int - 'a' as int + 10)
    else None
  }

  // ----- encoding --------------------------------------------------------------------------

  /** The URL standard's path percent-encode set. */
  predicate InPathEncodeSet(c: char) {
    c <= ' ' || c > '~' || c in "\"#<>?^`{}"
  }

  type Byte = b: int | 0 <= b < 256

  /** UTF-8: the bytes of a code point. */
  function Utf8(c: char): seq<Byte> {
    var n := c as int;
    if n < 0x80 then [n]
    else if n < 0x800 then [0xC0 + n / 64, 0x80 + n % 64]
    else if n < 0x1_0000 then [0xE0 + n / 64 / 64, 0x80 + n / 64 % 64, 0x80 + n % 64]
    else [0xF0 + n / 64 / 64 / 64, 0x80 + n / 64 / 64 % 64, 0x80 + n / 64 % 64, 0x80 + n % 64]
  }

  function Escape(b: Byte): string {
    ['%', HexDigit(b / 16), HexDigit(b % 16)]
  }

  function EscapeAll(bytes: seq<Byte>): (r: string)
    ensures |r| == 3 * |bytes|
  {
    if bytes == [] then "" else Escape(bytes[0]) + EscapeAll(bytes[1..])
  }

  function EncodeChar(c: char): string {
    if InPathEncodeSet(c) then EscapeAll(Utf8(c)) else [c]
  }

  function EncodeSegment(segment: string): string {
    if segment == "" then "" else EncodeChar(segment[0]) + EncodeSegment(segment[1..])
  }

  // ----- decoding --------------------------------------------------------------------------

  /** The byte of the escape at `i`. */
  function ByteAt(s: string, i: nat): (r: Option<Byte>)
    ensures r.Some? ==> i + 3 <= |s|
  {
    if |s| < i + 3 || s[i] != '%' then None
    else
      match (HexValue(s[i + 1]), HexValue(s[i + 2]))
      case (Some(high), Some(low)) => Some(high * 16 + low)
      case _ => None
  }

  /** The six bits of the continuation byte at `i`. */
  function TailAt(s: string, i: nat): (r: Option<int>)
    ensures r.Some? ==> i + 3 <= |s| && 0 <= r.value < 64
  {
    match ByteAt(s, i)
    case Some(b) => if 0x80 <= b < 0xC0 then Some(b - 0x80) else None
    case None => None
  }

  /** A decoded character, and how much of the text it took. */
  datatype Decoded = Decoded(c: char, length: nat)

  /** Neither overlong, nor a surrogate, nor out of range: at least `least`. */
  function Scalar(n: int, least: int, length: nat): Option<Decoded>
    requires 0 <= n
  {
    if n < least || 0xD800 <= n < 0xE000 || n >= 0x11_0000 then None else Some(Decoded(n as char, length))
  }

  /** The character whose escaped UTF-8 bytes begin `s`. */
  function DecodeScalar(s: string): (r: Option<Decoded>)
    ensures r.Some? ==> 0 < r.value.length <= |s|
  {
    match ByteAt(s, 0)
    case None => None
    case Some(b) =>
      if b < 0x80 then Scalar(b, 0, 3)
      else if b < 0xC0 then None
      else if b < 0xE0 then
        match TailAt(s, 3)
        case Some(x) => Scalar((b - 0xC0) * 64 + x, 0x80, 6)
        case None => None
      else if b < 0xF0 then
        match (TailAt(s, 3), TailAt(s, 6))
        case (Some(x), Some(y)) => Scalar((b - 0xE0) * 4096 + x * 64 + y, 0x800, 9)
        case _ => None
      else if b < 0xF8 then
        match (TailAt(s, 3), TailAt(s, 6), TailAt(s, 9))
        case (Some(x), Some(y), Some(z)) => Scalar((b - 0xF0) * 262144 + x * 4096 + y * 64 + z, 0x1_0000, 12)
        case _ => None
      else None
  }

  /** `decodeURIComponent`: none where it throws. */
  function DecodeSegment(segment: string): Option<string>
    decreases |segment|
  {
    if segment == "" then Some("")
    else
      var first := if segment[0] != '%' then Some(Decoded(segment[0], 1)) else DecodeScalar(segment);
      if first.None? then None
      else
        match DecodeSegment(segment[first.value.length..])
        case Some(rest) => Some([first.value.c] + rest)
        case None => None
  }

  /** The URL parser escapes control characters, spaces, ten signs and everything outside ASCII. */
  lemma EscapedExactly(c: char)
    ensures EncodeChar(c) == [c] <==>
            ' ' < c <= '~' && c != '"' && c != '#' && c != '<' && c != '>' && c != '?'
            && c != '^' && c != '`' && c != '{' && c != '}'
  {
  }

  // ----- the round trip --------------------------------------------------------------------

  lemma HexBack(d: int)
    requires 0 <= d < 16
    ensures HexValue(HexDigit(d)) == Some(d)
  {
  }

  lemma EscapeBack(b: Byte, rest: string)
    ensures ByteAt(Escape(b) + rest, 0) == Some(b)
  {
    HexBack(b / 16);
    HexBack(b % 16);
  }

  lemma ByteLater(first: string, rest: string, i: nat)
    ensures ByteAt(first + rest, |first| + i) == ByteAt(rest, i)
  {
  }

  lemma {:induction false} EscapedByte(bytes: seq<Byte>, rest: string, i: nat)
    requires i < |bytes|
    ensures ByteAt(EscapeAll(bytes) + rest, 3 * i) == Some(bytes[i])
  {
    var first, more := Escape(bytes[0]), EscapeAll(bytes[1..]);
    assert EscapeAll(bytes) + rest == first + (more + rest);
    if i == 0 {
      EscapeBack(bytes[0], more + rest);
    } else {
      EscapedByte(bytes[1..], rest, i - 1);
      ByteLater(first, more + rest, 3 * (i - 1));
    }
  }

  lemma SixBits(n: nat)
    ensures n == n / 64 * 64 + n % 64
  {
  }

  /** The text begins with the escaped bytes. */
  ghost predicate Begins(s: string, bytes: seq<Byte>) {
    forall i :: 0 <= i < |bytes| ==> ByteAt(s, 3 * i) == Some(bytes[i])
  }

  lemma TwoBytesBack(c: char, s: string)
    requires |Utf8(c)| == 2 && Begins(s, Utf8(c))
    ensures DecodeScalar(s) == Some(Decoded(c, 6))
  {
    var n := c as int;
    SixBits(n);
    assert ByteAt(s, 3 * 0) == Some(0xC0 + n / 64);
    assert ByteAt(s, 3 * 1) == Some(0x80 + n % 64);
    assert TailAt(s, 3) == Some(n % 64);
  }

  lemma ThreeBytesBack(c: char, s: string)
    requires |Utf8(c)| == 3 && Begins(s, Utf8(c))
    ensures DecodeScalar(s) == Some(Decoded(c, 9))
  {
    var n := c as int;
    SixBits(n);
    SixBits(n / 64);
    assert ByteAt(s, 3 * 0) == Some(0xE0 + n / 64 / 64);
    assert ByteAt(s, 3 * 1) == Some(0x80 + n / 64 % 64);
    assert ByteAt(s, 3 * 2) == Some(0x80 + n % 64);
    assert TailAt(s, 3) == Some(n / 64 % 64) && TailAt(s, 6) == Some(n % 64);
  }

  lemma FourBytesBack(c: char, s: string)
    requires |Utf8(c)| == 4 && Begins(s, Utf8(c))
    ensures DecodeScalar(s) == Some(Decoded(c, 12))
  {
    var n := c as int;
    SixBits(n);
    SixBits(n / 64);
    SixBits(n / 64 / 64);
    assert ByteAt(s, 3 * 0) == Some(0xF0 + n / 64 / 64 / 64);
    assert ByteAt(s, 3 * 1) == Some(0x80 + n / 64 / 64 % 64);
    assert ByteAt(s, 3 * 2) == Some(0x80 + n / 64 % 64);
    assert ByteAt(s, 3 * 3) == Some(0x80 + n % 64);
    assert TailAt(s, 3) == Some(n / 64 / 64 % 64) && TailAt(s, 6) == Some(n / 64 % 64) && TailAt(s, 9) == Some(n % 64);
  }

  lemma Utf8Back(c: char, s: string)
    requires Begins(s, Utf8(c))
    ensures DecodeScalar(s) == Some(Decoded(c, 3 * |Utf8(c)|))
  {
    var n := c as int;
    if n < 0x80 {
      assert ByteAt(s, 3 * 0) == Some(n);
    } else if n < 0x800 {
      TwoBytesBack(c, s);
    } else if n < 0x1_0000 {
      ThreeBytesBack(c, s);
    } else {
      FourBytesBack(c, s);
    }
  }

  /** Each escaped character decodes to itself, whatever follows. */
  lemma ScalarBack(c: char, rest: string)
    ensures DecodeScalar(EscapeAll(Utf8(c)) + rest) == Some(Decoded(c, |EscapeAll(Utf8(c))|))
  {
    var s := EscapeAll(Utf8(c)) + rest;
    forall i | 0 <= i < |Utf8(c)|
      ensures ByteAt(s, 3 * i) == Some(Utf8(c)[i])
    {
      EscapedByte(Utf8(c), rest, i);
    }
    Utf8Back(c, s);
  }

  lemma EncodeCharBack(c: char, rest: string)
    requires c != '%'
    ensures DecodeSegment(EncodeChar(c) + rest)
         == match DecodeSegment(rest) case Some(decoded) => Some([c] + decoded) case None => None
  {
    var s := EncodeChar(c) + rest;
    if InPathEncodeSet(c) {
      ScalarBack(c, rest);
      assert s[0] == '%';
      assert s[|EscapeAll(Utf8(c))|..] == rest;
    } else {
      assert s[1..] == rest;
    }
  }

  /**
   * Decoding undoes the URL parser's escaping of every text without a percent sign, in any
   * script; a percent sign itself is not escaped.
   */
  lemma {:induction false} EncodeSegmentBack(segment: string)
    requires '%' !in segment
    ensures DecodeSegment(EncodeSegment(segment)) == Some(segment)
  {
    if segment != "" {
      EncodeSegmentBack(segment[1..]);
      EncodeCharBack(segment[0], EncodeSegment(segment[1..]));
      assert [segment[0]] + segment[1..] == segment;
    }
  }

  lemma {:induction false} EscapesHaveNoSlash(bytes: seq<Byte>)
    ensures '/' !in EscapeAll(bytes)
  {
    if bytes != [] {
      EscapesHaveNoSlash(bytes[1..]);
    }
  }

  /** Escaping introduces no separator. */
  lemma {:induction false} EncodedHasNoSlash(segment: string)
    requires '/' !in segment
    ensures '/' !in EncodeSegment(segment)
  {
    if segment != "" {
      assert segment[0] in segment;
      EscapesHaveNoSlash(Utf8(segment[0]));
      EncodedHasNoSlash(segment[1..]);
    }
  }

  lemma {:induction false} EncodeConcat(s: string, t: string)
    ensures EncodeSegment(s + t) == EncodeSegment(s) + EncodeSegment(t)
  {
    if s == "" {
      assert s + t == t;
    } else {
      assert (s + t)[1..] == s[1..] + t;
      EncodeConcat(s[1..], t);
    }
  }

  function EncodeSegments(segments: seq<string>): (r: seq<string>)
    ensures |r| == |segments|
  {
    seq(|segments|, i requires 0 <= i < |segments| => EncodeSegment(segments[i]))
  }

  lemma SlashStays()
    ensures EncodeSegment("/") == "/"
  {
    assert "/"[1..] == "" && EncodeChar('/') == "/";
  }

  lemma EncodeThree(a: string, b: string, c: string)
    ensures EncodeSegment(a + b + c) == EncodeSegment(a) + EncodeSegment(b) + EncodeSegment(c)
  {
    EncodeConcat(a + b, c);
    EncodeConcat(a, b);
  }

  /** A path's segments may be escaped one by one. */
  lemma {:induction false} EncodeJoined(segments: seq<string>)
    ensures EncodeSegment(Join(segments, '/')) == Join(EncodeSegments(segments), '/')
  {
    if |segments| > 1 {
      EncodeJoined(segments[1..]);
      assert EncodeSegments(segments)[1..] == EncodeSegments(segments[1..]);
      EncodeThree(segments[0], ['/'], Join(segments[1..], '/'));
      SlashStays();
    }
  }
}
