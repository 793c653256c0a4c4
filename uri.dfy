/**
  JavaScript's encodeURI (ECMA-262, section 19.2.6, URI Handling Functions), over
  Dafny strings, whose characters are Unicode scalar values. Every character outside
  the set the standard leaves alone is written as its UTF-8 bytes (section 3 of RFC 3629),
  each byte as '%' followed by two upper-case hexadecimal digits (section 2.1 of RFC 3986).

  The partner is PercentDecode, a decoder of such escapes: decoding an encoded string
  gives the string back, so a path that went through EncodeUri is encoded exactly once.
*/
module Uri {
  import opened Wrappers
  import opened Seqs

  type Byte = b: int | 0 <= b < 256

  /** The characters encodeURI copies unchanged: uriAlpha, DecimalDigit, uriMark,
      uriReserved and '#'. */
  predicate Unescaped(c: char) {
    || ('a' <= c <= 'z') || ('A' <= c <= 'Z') || ('0' <= c <= '9')
    || c in "-_.!~*'()"
    || c in ";/?:@&=+$,"
    || c == '#'
  }

  /** The UTF-8 encoding of one scalar value. */
  function Utf8(c: char): (bs: seq<Byte>)
    ensures 1 <= |bs| <= 4
  {
    var cp := c as int;
    if cp < 0x80 then [cp]
    else if cp < 0x800 then [0xC0 + cp / 64, 0x80 + cp % 64]
    else if cp < 0x10000 then
      var q1 := cp / 64;
      [0xE0 + q1 / 64, 0x80 + q1 % 64, 0x80 + cp % 64]
    else
      var q1 := cp / 64;
      var q2 := q1 / 64;
      [0xF0 + q2 / 64, 0x80 + q2 % 64, 0x80 + q1 % 64, 0x80 + cp % 64]
  }

  function HexDigit(d: int): (c: char)
    requires 0 <= d < 16
  {
    if d < 10 then ('0' as int + d) as char else ('A' as int + d - 10) as char
  }

  /** One byte as a percent-escape, "%XY". */
  function Escape(b: Byte): (e: string) {
    ['%', HexDigit(b / 16), HexDigit(b % 16)]
  }

  function EscapeAll(bs: seq<Byte>): (e: string)
    ensures |e| == 3 * |bs|
  {
    if bs == [] then [] else Escape(bs[0]) + EscapeAll(bs[1..])
  }

  function EncodeChar(c: char): (e: string) {
    if Unescaped(c) then [c] else EscapeAll(Utf8(c))
  }

  /** encodeURI. */
  function EncodeUri(s: string): (e: string)
    ensures |e| >= |s|
  {
    if s == [] then [] else EncodeChar(s[0]) + EncodeUri(s[1..])
  }

  /** The output of encodeURI holds only characters encodeURI leaves alone, besides the
      '%' that opens each escape. */
  lemma {:induction false} EncodeUriSafe(s: string)
    ensures forall i :: 0 <= i < |EncodeUri(s)| ==> Unescaped(EncodeUri(s)[i]) || EncodeUri(s)[i] == '%'
  {
    if s != [] {
      var head := EncodeChar(s[0]);
      if !Unescaped(s[0]) {
        EscapeAllSafe(Utf8(s[0]));
      }
      EncodeUriSafe(s[1..]);
      assert EncodeUri(s) == head + EncodeUri(s[1..]);
    }
  }

  lemma {:induction false} EscapeAllSafe(bs: seq<Byte>)
    ensures forall i :: 0 <= i < |EscapeAll(bs)| ==> Unescaped(EscapeAll(bs)[i]) || EscapeAll(bs)[i] == '%'
  {
    if bs != [] {
      EscapeAllSafe(bs[1..]);
    }
  }

  // ---- The decoder ----

  function HexValue(c: char): Option<int> {
    if '0' <= c <= '9' then Some(c as int - '0' as int)
    else if 'A' <= c <= 'F' then Some(c as int - 'A' as int + 10)
    else if 'a' <= c <= 'f' then Some(c as int - 'a' as int + 10)
    else None
  }

  /** The byte written by the escape that starts at index i, if one does. */
  function ByteAt(s: string, i: nat): (r: Option<Byte>)
    requires i + 3 <= |s|
  {
    if s[i] != '%' then None
    else match (HexValue(s[i + 1]), HexValue(s[i + 2]))
      case (Some(hi), Some(lo)) => if 0 <= hi < 16 && 0 <= lo < 16 then Some(16 * hi + lo) else None
      case _ => None
  }

  /** The bytes written by a run of escapes. */
  function UnescapeAll(s: string): (r: Option<seq<Byte>>)
    requires |s| % 3 == 0
    ensures r.Some? ==> 3 * |r.value| == |s|
  {
    if s == [] then Some([])
    else match (ByteAt(s, 0), UnescapeAll(s[3..]))
      case (Some(b), Some(rest)) => Some([b] + rest)
      case _ => None
  }

  /** How many bytes a UTF-8 sequence with this first byte has; 0 for no valid first byte. */
  function SequenceLength(lead: Byte): nat {
    if lead < 0x80 then 1
    else if 0xC0 <= lead < 0xE0 then 2
    else if 0xE0 <= lead < 0xF0 then 3
    else if 0xF0 <= lead < 0xF8 then 4
    else 0
  }

  predicate Continuation(b: int) {
    0x80 <= b < 0xC0
  }

  /** The scalar value that a UTF-8 sequence of one to four bytes encodes. */
  function FromUtf8(bs: seq<Byte>): Option<char> {
    var b := seq(|bs|, i requires 0 <= i < |bs| => bs[i] as int);
    var cp: int :=
      if |b| == 1 then b[0]
      else if |b| == 2 && Continuation(b[1]) then (b[0] - 0xC0) * 64 + (b[1] - 0x80)
      else if |b| == 3 && Continuation(b[1]) && Continuation(b[2]) then
        ((b[0] - 0xE0) * 64 + (b[1] - 0x80)) * 64 + (b[2] - 0x80)
      else if |b| == 4 && Continuation(b[1]) && Continuation(b[2]) && Continuation(b[3]) then
        (((b[0] - 0xF0) * 64 + (b[1] - 0x80)) * 64 + (b[2] - 0x80)) * 64 + (b[3] - 0x80)
      else -1;
    if 0 <= cp < 0xD800 || 0xE000 <= cp < 0x11_0000 then Some(cp as char) else None
  }

  /** Percent-decoding: every escape run is read back as the UTF-8 sequence of one
      character; any other character stands for itself. None when an escape is malformed. */
  function PercentDecode(s: string): (r: Option<string>)
    decreases |s|
  {
    if s == [] then Some([])
    else if s[0] != '%' then
      match PercentDecode(s[1..])
      case None => None
      case Some(t) => Some([s[0]] + t)
    else if |s| < 3 then None
    else match ByteAt(s, 0)
      case None => None
      case Some(lead) =>
        var n := SequenceLength(lead);
        if n == 0 || |s| < 3 * n then None
        else match (UnescapeAll(s[..3 * n]), PercentDecode(s[3 * n..]))
          case (Some(bs), Some(t)) =>
            (match FromUtf8(bs)
             case Some(c) => Some([c] + t)
             case None => None)
          case _ => None
  }

  // ---- Properties ----

  lemma EscapeRead(b: Byte)
    ensures ByteAt(Escape(b), 0) == Some(b)
  {
  }

  lemma {:induction false} UnescapeEscapeAll(bs: seq<Byte>)
    ensures UnescapeAll(EscapeAll(bs)) == Some(bs)
  {
    if bs != [] {
      var e := EscapeAll(bs);
      var head := Escape(bs[0]);
      assert e == head + EscapeAll(bs[1..]);
      assert e[0] == head[0] && e[1] == head[1] && e[2] == head[2];
      assert e[3..] == EscapeAll(bs[1..]);
      EscapeRead(bs[0]);
      assert ByteAt(e, 0) == Some(bs[0]);
      UnescapeEscapeAll(bs[1..]);
      assert [bs[0]] + bs[1..] == bs;
    }
  }

  lemma Utf8RoundTrip(c: char)
    ensures SequenceLength(Utf8(c)[0]) == |Utf8(c)|
    ensures FromUtf8(Utf8(c)) == Some(c)
  {
    var cp := c as int;
    var q1 := cp / 64;
    var q2 := q1 / 64;
    if cp < 0x80 {
    } else if cp < 0x800 {
      assert cp == q1 * 64 + cp % 64;
    } else if cp < 0x10000 {
      assert cp == q1 * 64 + cp % 64;
      assert q1 == q2 * 64 + q1 % 64;
    } else {
      assert cp == q1 * 64 + cp % 64;
      assert q1 == q2 * 64 + q1 % 64;
      assert q2 == (q2 / 64) * 64 + q2 % 64;
    }
  }

  /** Decoding one encoded character followed by anything reads that character back. */
  lemma DecodeEncodedChar(c: char, rest: string)
    ensures PercentDecode(EncodeChar(c) + rest) ==
      match PercentDecode(rest)
      case None => None
      case Some(t) => Some([c] + t)
  {
    var s := EncodeChar(c) + rest;
    if Unescaped(c) {
      assert s[0] == c && s[1..] == rest;
    } else {
      var bs := Utf8(c);
      var e := EscapeAll(bs);
      var n := |bs|;
      assert e[..3] == Escape(bs[0]);
      assert s[..3] == e[..3];
      EscapeRead(bs[0]);
      Utf8RoundTrip(c);
      TakeAppend(e, rest);
      DropAppend(e, rest);
      UnescapeEscapeAll(bs);
      DecodeLeadingEscape(s, bs, c);
    }
  }

  /** One unfolding of the decoder at an escape that starts a complete, valid sequence. */
  lemma DecodeLeadingEscape(s: string, bs: seq<Byte>, c: char)
    requires 0 < |bs| && 3 * |bs| <= |s| && s[0] == '%'
    requires ByteAt(s, 0) == Some(bs[0]) && SequenceLength(bs[0]) == |bs|
    requires UnescapeAll(s[..3 * |bs|]) == Some(bs) && FromUtf8(bs) == Some(c)
    ensures PercentDecode(s) ==
      match PercentDecode(s[3 * |bs|..])
      case None => None
      case Some(t) => Some([c] + t)
  {
  }


  /** decode(encode(s)) == s: EncodeUri loses nothing, and a path passed through it once
      is read back by one decoding. */
  lemma {:induction false} DecodeEncode(s: string)
    ensures PercentDecode(EncodeUri(s)) == Some(s)
  {
    if s != [] {
      DecodeEncode(s[1..]);
      DecodeEncodedChar(s[0], EncodeUri(s[1..]));
      assert [s[0]] + s[1..] == s;
    }
  }

  /** Encoding distributes over concatenation. */
  lemma {:induction false} EncodeUriAppend(a: string, b: string)
    ensures EncodeUri(a + b) == EncodeUri(a) + EncodeUri(b)
  {
    if a != [] {
      assert (a + b)[0] == a[0] && (a + b)[1..] == a[1..] + b;
      EncodeUriAppend(a[1..], b);
    } else {
      assert a + b == b;
    }
  }

  /** A character of the unescaped set, such as the path separator, is left alone. */
  lemma EncodeUriKeeps(c: char)
    requires Unescaped(c)
    ensures EncodeUri([c]) == [c]
  {
    assert EncodeUri([c]) == EncodeChar(c) + EncodeUri([]);
  }

  /** encodeURI changes a string exactly when it holds a character outside the
      unescaped set. */
  lemma {:induction false} EncodeUriIdentity(s: string)
    ensures EncodeUri(s) == s <==> forall i :: 0 <= i < |s| ==> Unescaped(s[i])
  {
    if s != [] {
      EncodeUriIdentity(s[1..]);
      if !Unescaped(s[0]) {
        assert |EncodeChar(s[0])| >= 3;
        assert |EncodeUri(s)| > |s|;
      } else {
        assert EncodeUri(s) == [s[0]] + EncodeUri(s[1..]);
        if EncodeUri(s) == s {
          assert EncodeUri(s[1..]) == EncodeUri(s)[1..];
        }
        assert forall i :: 1 <= i < |s| ==> s[i] == s[1..][i - 1];
      }
    }
  }
}
