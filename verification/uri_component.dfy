/** Percent-encoding of a URI component as ECMAScript's `encodeURIComponent`
    and `decodeURIComponent` perform it: every character outside the
    unreserved set is written as the percent-escapes (section 2.1 of RFC 3986)
    of its UTF-8 bytes (section 3 of RFC 3629), and decoding accepts escapes in
    either case, fails on a malformed escape or a byte sequence that is not
    well-formed UTF-8, and decodes every escape, reserved characters included. */
module UriComponent {
  import opened Base
  import opened Numerals

  /** The characters `encodeURIComponent` copies unchanged. */
  predicate IsUnreserved(c: char)
  {
    || ('A' <= c <= 'Z') || ('a' <= c <= 'z') || ('0' <= c <= '9')
    || c == '-' || c == '_' || c == '.' || c == '!' || c == '~'
    || c == '*' || c == '\'' || c == '(' || c == ')'
  }

  predicate IsContinuation(b: byte)
  {
    0x80 <= b < 0xC0
  }

  /** The UTF-8 encoding of one code point. */
  function Utf8Encode(c: char): (bs: seq<byte>)
    ensures 1 <= |bs| <= 4
    ensures forall i :: 1 <= i < |bs| ==> IsContinuation(bs[i])
  {
    var v := c as int;
    if v < 0x80 then [v]
    else if v < 0x800 then [0xC0 + v / 64, 0x80 + v % 64]
    else if v < 0x1_0000 then [0xE0 + v / 4096, 0x80 + (v / 64) % 64, 0x80 + v % 64]
    else [0xF0 + v / 262144, 0x80 + (v / 4096) % 64, 0x80 + (v / 64) % 64, 0x80 + v % 64]
  }

  /** The length of the sequence a byte announces when it leads one, or 0
      when it cannot lead one (a continuation byte, or five or more leading ones). */
  function SequenceLength(b: byte): (n: nat)
    ensures n <= 4
  {
    if b < 0x80 then 1
    else if 0xC0 <= b < 0xE0 then 2
    else if 0xE0 <= b < 0xF0 then 3
    else if 0xF0 <= b < 0xF8 then 4
    else 0
  }

  /** The code point a byte sequence encodes, or `None` when the sequence is not
      well-formed UTF-8: wrong continuation bytes, an overlong form, a
      surrogate, or a value above U+10FFFF. */
  function Utf8Decode(bs: seq<byte>): Option<char>
  {
    if |bs| == 1 && bs[0] < 0x80 then Some(bs[0] as char)
    else if |bs| == 2 && 0xC0 <= bs[0] < 0xE0 && IsContinuation(bs[1]) then
      var v := (bs[0] as int - 0xC0) * 64 + (bs[1] as int - 0x80);
      if v < 0x80 then None else Some(v as char)
    else if |bs| == 3 && 0xE0 <= bs[0] < 0xF0 && IsContinuation(bs[1]) && IsContinuation(bs[2]) then
      var v := (bs[0] as int - 0xE0) * 4096 + (bs[1] as int - 0x80) * 64 + (bs[2] as int - 0x80);
      if v < 0x800 || (0xD800 <= v < 0xE000) then None else Some(v as char)
    else if |bs| == 4 && 0xF0 <= bs[0] < 0xF8 && IsContinuation(bs[1])
            && IsContinuation(bs[2]) && IsContinuation(bs[3]) then
      var v := (bs[0] as int - 0xF0) * 262144 + (bs[1] as int - 0x80) * 4096
               + (bs[2] as int - 0x80) * 64 + (bs[3] as int - 0x80);
      if v < 0x1_0000 || v > 0x10_FFFF then None else Some(v as char)
    else None
  }

  /** Decoding the encoding of a code point gives it back, and its lead byte
      announces the sequence's length. */
  lemma Utf8RoundTrip(c: char)
    ensures SequenceLength(Utf8Encode(c)[0]) == |Utf8Encode(c)|
    ensures Utf8Decode(Utf8Encode(c)) == Some(c)
  {
    var v := c as int;
    if v < 0x80 {
    } else if v < 0x800 {
      Utf8TwoBytes(c);
    } else if v < 0x1_0000 {
      Utf8ThreeBytes(c);
    } else {
      Utf8FourBytes(c);
    }
  }

  lemma Utf8TwoBytes(c: char)
    requires 0x80 <= c as int < 0x800
    ensures SequenceLength(Utf8Encode(c)[0]) == 2 == |Utf8Encode(c)|
    ensures Utf8Decode(Utf8Encode(c)) == Some(c)
  {
    var v := c as int;
    var bs := Utf8Encode(c);
    assert (bs[0] as int - 0xC0) * 64 + (bs[1] as int - 0x80) == v;
  }

  lemma Utf8ThreeBytes(c: char)
    requires 0x800 <= c as int < 0x1_0000
    ensures SequenceLength(Utf8Encode(c)[0]) == 3 == |Utf8Encode(c)|
    ensures Utf8Decode(Utf8Encode(c)) == Some(c)
  {
    var v := c as int;
    var bs := Utf8Encode(c);
    var q := v / 64;
    assert v == q * 64 + v % 64;
    assert q == (v / 4096) * 64 + q % 64;
    assert (bs[0] as int - 0xE0) * 4096 + (bs[1] as int - 0x80) * 64 + (bs[2] as int - 0x80) == v;
  }

  lemma Utf8FourBytes(c: char)
    requires 0x1_0000 <= c as int
    ensures SequenceLength(Utf8Encode(c)[0]) == 4 == |Utf8Encode(c)|
    ensures Utf8Decode(Utf8Encode(c)) == Some(c)
  {
    var v := c as int;
    var bs := Utf8Encode(c);
    var q := v / 64;
    var p := v / 4096;
    assert v == q * 64 + v % 64;
    assert q == p * 64 + q % 64;
    assert p == (v / 262144) * 64 + p % 64;
    assert p == q / 64;
    assert (bs[0] as int - 0xF0) * 262144 + (bs[1] as int - 0x80) * 4096
           + (bs[2] as int - 0x80) * 64 + (bs[3] as int - 0x80) == v;
  }

  /** The percent-escape of one byte, with upper-case hexadecimal digits. */
  function Escape(b: byte): (r: string)
    ensures |r| == 3 && r[0] == '%'
  {
    ['%', UpperDigit(b / 16), UpperDigit(b % 16)]
  }

  /** The percent-escapes of a byte sequence, one after the other. */
  function EscapeAll(bs: seq<byte>): (r: string)
    ensures |r| == 3 * |bs|
  {
    if |bs| == 0 then "" else Escape(bs[0]) + EscapeAll(bs[1..])
  }

  /** What `encodeURIComponent` writes for one character. */
  function EncodeChar(c: char): string
  {
    if IsUnreserved(c) then [c] else EscapeAll(Utf8Encode(c))
  }

  /** `encodeURIComponent(s)`. */
  function Encode(s: string): string
  {
    if |s| == 0 then "" else EncodeChar(s[0]) + Encode(s[1..])
  }

  /** The byte written by a percent-escape at the start of `s`, if there is one. */
  function ReadEscape(s: string): (r: Option<byte>)
    ensures r.Some? ==> |s| >= 3 && s[0] == '%'
  {
    if |s| >= 3 && s[0] == '%' && IsHexDigit(s[1]) && IsHexDigit(s[2])
    then Some(HexValue(s[1]) * 16 + HexValue(s[2]))
    else None
  }

  /** The bytes written by `k` consecutive percent-escapes at the start of `s`. */
  function ReadEscapes(s: string, k: nat): (r: Option<seq<byte>>)
    ensures r.Some? ==> |r.value| == k && |s| >= 3 * k
    decreases k
  {
    if k == 0 then Some([])
    else match ReadEscape(s)
      case None => None
      case Some(b) =>
        match ReadEscapes(s[3..], k - 1)
        case None => None
        case Some(rest) => Some([b] + rest)
  }

  function Prepend(c: char, o: Option<string>): Option<string>
  {
    match o
    case None => None
    case Some(t) => Some([c] + t)
  }

  /** `decodeURIComponent(s)`, with `None` standing for the `URIError` it throws. */
  function Decode(s: string): (r: Option<string>)
    decreases |s|
  {
    if |s| == 0 then Some("")
    else if s[0] != '%' then Prepend(s[0], Decode(s[1..]))
    else match ReadEscape(s)
      case None => None
      case Some(b) =>
        var n := SequenceLength(b);
        if n == 0 then None
        else match ReadEscapes(s, n)
          case None => None
          case Some(bs) =>
            match Utf8Decode(bs)
            case None => None
            case Some(c) => Prepend(c, Decode(s[3 * n..]))
  }

  /** An escape reads back as the byte it was written for. */
  lemma ReadEscapeOfEscape(b: byte, t: string)
    ensures ReadEscape(Escape(b) + t) == Some(b)
  {
  }

  /** A run of escapes reads back as the bytes it was written for. */
  lemma {:induction false} ReadEscapesOfEscapeAll(bs: seq<byte>, t: string)
    ensures ReadEscapes(EscapeAll(bs) + t, |bs|) == Some(bs)
    decreases |bs|
  {
    if |bs| > 0 {
      var s := EscapeAll(bs) + t;
      assert s == Escape(bs[0]) + (EscapeAll(bs[1..]) + t);
      ReadEscapeOfEscape(bs[0], EscapeAll(bs[1..]) + t);
      assert s[3..] == EscapeAll(bs[1..]) + t;
      ReadEscapesOfEscapeAll(bs[1..], t);
      assert [bs[0]] + bs[1..] == bs;
    }
  }

  /** Decoding one encoded character followed by anything yields that
      character followed by the decoding of the rest. */
  lemma DecodeEncodeChar(c: char, t: string)
    ensures Decode(EncodeChar(c) + t) == Prepend(c, Decode(t))
  {
    if IsUnreserved(c) {
      var s := EncodeChar(c) + t;
      assert s[0] == c && s[1..] == t;
    } else {
      var bs := Utf8Encode(c);
      assert EncodeChar(c) == EscapeAll(bs);
      EscapeRunHead(bs, t);
      ReadEscapesOfEscapeAll(bs, t);
      assert (EscapeAll(bs) + t)[3 * |bs|..] == t;
      Utf8RoundTrip(c);
      DecodeAtEscape(EscapeAll(bs) + t, bs, c);
    }
  }

  /** A run of escapes followed by `t` starts with the escape of its first byte. */
  lemma EscapeRunHead(bs: seq<byte>, t: string)
    requires |bs| > 0
    ensures var s := EscapeAll(bs) + t;
            |s| > 0 && s[0] == '%' && ReadEscape(s) == Some(bs[0])
  {
    var rest := EscapeAll(bs[1..]) + t;
    assert EscapeAll(bs) + t == Escape(bs[0]) + rest;
    ReadEscapeOfEscape(bs[0], rest);
  }

  /** One step of decoding at a well-formed run of escapes. */
  lemma DecodeAtEscape(s: string, bs: seq<byte>, c: char)
    requires |bs| > 0 && |s| > 0 && s[0] == '%'
    requires ReadEscape(s) == Some(bs[0]) && SequenceLength(bs[0]) == |bs|
    requires ReadEscapes(s, |bs|) == Some(bs) && Utf8Decode(bs) == Some(c)
    ensures Decode(s) == Prepend(c, Decode(s[3 * |bs|..]))
  {
  }

  /** Decoding undoes encoding: `decodeURIComponent(encodeURIComponent(s)) === s`. */
  lemma {:induction false} DecodeEncode(s: string)
    ensures Decode(Encode(s)) == Some(s)
    decreases |s|
  {
    if |s| > 0 {
      DecodeEncodeChar(s[0], Encode(s[1..]));
      DecodeEncode(s[1..]);
      assert [s[0]] + s[1..] == s;
    }
  }

  /** A worked example: a space is sent as `%20` and decodes back to a space. */
  lemma SpaceExample()
    ensures Encode("x y") == "x%20y"
    ensures Decode("x%20y") == Some("x y")
  {
    assert Utf8Encode(' ') == [0x20];
    DecodeEncode("x y");
  }

  /** Encoding distributes over concatenation. */
  lemma {:induction false} EncodeConcat(a: string, b: string)
    ensures Encode(a + b) == Encode(a) + Encode(b)
    decreases |a|
  {
    if |a| > 0 {
      assert (a + b)[0] == a[0] && (a + b)[1..] == a[1..] + b;
      EncodeConcat(a[1..], b);
    } else {
      assert a + b == b;
    }
  }

  /** A string of unreserved characters is its own encoding. */
  lemma {:induction false} EncodeUnreserved(s: string)
    requires forall i :: 0 <= i < |s| ==> IsUnreserved(s[i])
    ensures Encode(s) == s
    decreases |s|
  {
    if |s| > 0 {
      EncodeUnreserved(s[1..]);
      assert [s[0]] + s[1..] == s;
    }
  }
}
