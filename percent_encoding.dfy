/**
 * Percent-encoding as the sources use it: JavaScript's `encodeURIComponent` and
 * `decodeURIComponent` (UTF-8 based) and Python's `urllib.parse.unquote`.
 */
module PercentEncoding {
  import opened Wrappers
  import Strings

  type Byte = b: int | 0 <= b < 256

  /** The upper-case hexadecimal digit for `d`. */
  function HexDigit(d: nat): char
    requires d < 16
  {
    if d < 10 then ('0' as int + d) as char else ('A' as int + d - 10) as char
  }

  /** The value of a hexadecimal digit of either case. */
  function HexValue(c: char): (r: Option<nat>)
    ensures r.Some? ==> r.value < 16
  {
    if '0' <= c <= '9' then Some(c as int - '0' as int)
    else if 'A' <= c <= 'F' then Some(c as int - 'A' as int + 10)
    else if 'a' <= c <= 'f' then Some(c as int - 'a' as int + 10)
    else None
  }

  lemma HexRoundTrip(d: nat)
    requires d < 16
    ensures HexValue(HexDigit(d)) == Some(d)
  {
  }

  /** The UTF-8 encoding of one Unicode scalar value. */
  function Utf8(c: char): (bs: seq<Byte>)
    ensures 1 <= |bs| <= 4
    ensures (|bs| == 1) == (c as int < 0x80)
  {
    var n := c as int;
    if n < 0x80 then [n]
    else if n < 0x800 then [0xC0 + n / 64, 0x80 + n % 64]
    else if n < 0x10000 then [0xE0 + n / 4096, 0x80 + (n / 64) % 64, 0x80 + n % 64]
    else [0xF0 + n / 262144, 0x80 + (n / 4096) % 64, 0x80 + (n / 64) % 64, 0x80 + n % 64]
  }

  /** `%XX` for each byte, with upper-case hexadecimal digits. */
  function Escape(bs: seq<Byte>): (r: string)
    ensures |r| == 3 * |bs|
  {
    if |bs| == 0 then ""
    else ['%', HexDigit(bs[0] / 16), HexDigit(bs[0] % 16)] + Escape(bs[1..])
  }

  /** The characters `encodeURIComponent` leaves as they are. */
  predicate IsUnreserved(c: char)
  {
    ('A' <= c <= 'Z') || ('a' <= c <= 'z') || ('0' <= c <= '9') || c in "-_.!~*'()"
  }

  /** `encodeURIComponent(s)`. */
  function EncodeURIComponent(s: string): (r: string)
  {
    if |s| == 0 then ""
    else (if IsUnreserved(s[0]) then [s[0]] else Escape(Utf8(s[0]))) + EncodeURIComponent(s[1..])
  }

  /** The byte written as `%XX` at index `i` of `s`, if there is one. */
  function EscapedByte(s: string, i: nat): (r: Option<Byte>)
    ensures r.Some? ==> i + 3 <= |s| && s[i] == '%'
  {
    if i + 3 <= |s| && s[i] == '%' && HexValue(s[i + 1]).Some? && HexValue(s[i + 2]).Some? then
      Some(16 * HexValue(s[i + 1]).value + HexValue(s[i + 2]).value)
    else None
  }

  /** The low six bits of a UTF-8 continuation byte written as `%XX` at index `i`. */
  function Continuation(s: string, i: nat): (r: Option<nat>)
    ensures r.Some? ==> r.value < 64 && i + 3 <= |s|
  {
    match EscapedByte(s, i)
    case Some(b) => if 0x80 <= b < 0xC0 then Some(b - 0x80) else None
    case None => None
  }

  /**
   * One UTF-8 sequence written as escapes at index `i`: the character it encodes
   * and the number of characters of `s` it spans, or None when it is not a
   * well-formed encoding of a Unicode scalar value (overlong forms, surrogates
   * and values above U+10FFFF are ill-formed).
   */
  function DecodeSequenceAt(s: string, i: nat): (r: Option<(char, nat)>)
    ensures r.Some? ==> 3 <= r.value.1 && i + r.value.1 <= |s|
  {
    match EscapedByte(s, i)
    case None => None
    case Some(b0) =>
      if b0 < 0x80 then Some((b0 as char, 3))
      else if 0xC0 <= b0 < 0xE0 then
        match Continuation(s, i + 3)
        case None => None
        case Some(c1) =>
          var cp := (b0 - 0xC0) * 64 + c1;
          if cp >= 0x80 then Some((cp as char, 6)) else None
      else if 0xE0 <= b0 < 0xF0 then
        match (Continuation(s, i + 3), Continuation(s, i + 6))
        case (Some(c1), Some(c2)) =>
          var cp := (b0 - 0xE0) * 4096 + c1 * 64 + c2;
          if cp >= 0x800 && !(0xD800 <= cp < 0xE000) then Some((cp as char, 9)) else None
        case _ => None
      else if 0xF0 <= b0 < 0xF8 then
        match (Continuation(s, i + 3), Continuation(s, i + 6), Continuation(s, i + 9))
        case (Some(c1), Some(c2), Some(c3)) =>
          var cp := (b0 - 0xF0) * 262144 + c1 * 4096 + c2 * 64 + c3;
          if 0x10000 <= cp < 0x110000 then Some((cp as char, 12)) else None
        case _ => None
      else None
  }

  /** `decodeURIComponent(s)`: a `%` that does not start a well-formed sequence throws URIError. */
  function DecodeURIComponent(s: string): (r: Result<string, string>)
    decreases |s|
  {
    if |s| == 0 then Ok("")
    else if s[0] != '%' then
      match DecodeURIComponent(s[1..])
      case Ok(t) => Ok([s[0]] + t)
      case Err(e) => Err(e)
    else
      match DecodeSequenceAt(s, 0)
      case None => Err("URIError: URI malformed")
      case Some((c, n)) =>
        match DecodeURIComponent(s[n..])
        case Ok(t) => Ok([c] + t)
        case Err(e) => Err(e)
  }

  /**
   * Python's `unquote(s)`: every well-formed escaped UTF-8 sequence is decoded,
   * any other `%` stays as it is.
   */
  function Unquote(s: string): (r: string)
    decreases |s|
  {
    if |s| == 0 then ""
    else if s[0] != '%' then [s[0]] + Unquote(s[1..])
    else
      match DecodeSequenceAt(s, 0)
      case None => [s[0]] + Unquote(s[1..])
      case Some((c, n)) => [c] + Unquote(s[n..])
  }

  /** Each character's encoding is decoded back to that character. */
  lemma DecodeEscapedChar(c: char, rest: string)
    ensures DecodeSequenceAt(Escape(Utf8(c)) + rest, 0) == Some((c, |Escape(Utf8(c))|))
  {
    var n := c as int;
    if n < 0x80 {
      DecodeOne(c, rest);
    } else if n < 0x800 {
      DecodeTwo(c, rest);
    } else if n < 0x10000 {
      DecodeThree(c, rest);
    } else {
      DecodeFour(c, rest);
    }
  }

  lemma DecodeOne(c: char, rest: string)
    requires c as int < 0x80
    ensures DecodeSequenceAt(Escape(Utf8(c)) + rest, 0) == Some((c, |Escape(Utf8(c))|))
  {
    EscapeAt(Utf8(c), rest, 0);
  }

  lemma DecodeTwo(c: char, rest: string)
    requires 0x80 <= c as int < 0x800
    ensures DecodeSequenceAt(Escape(Utf8(c)) + rest, 0) == Some((c, |Escape(Utf8(c))|))
  {
    var b0, c1 := Utf8Two(c);
    EscapedTwo(Utf8(c), rest, b0, c1);
  }

  lemma DecodeThree(c: char, rest: string)
    requires 0x800 <= c as int < 0x10000
    ensures DecodeSequenceAt(Escape(Utf8(c)) + rest, 0) == Some((c, |Escape(Utf8(c))|))
  {
    var b0, c1, c2 := Utf8Three(c);
    EscapedThree(Utf8(c), rest, b0, c1, c2);
  }

  lemma DecodeFour(c: char, rest: string)
    requires 0x10000 <= c as int
    ensures DecodeSequenceAt(Escape(Utf8(c)) + rest, 0) == Some((c, |Escape(Utf8(c))|))
  {
    var b0, c1, c2, c3 := Utf8Four(c);
    EscapedFour(Utf8(c), rest, b0, c1, c2, c3);
  }

  /** The escapes of a well-formed two-byte sequence decode to the value its bits carry. */
  lemma EscapedTwo(bs: seq<Byte>, rest: string, b0: nat, c1: nat)
    requires 2 <= b0 < 32 && c1 < 64 && bs == [0xC0 + b0, 0x80 + c1]
    ensures DecodeSequenceAt(Escape(bs) + rest, 0) == Some(((b0 * 64 + c1) as char, |Escape(bs)|))
  {
    EscapeAt(bs, rest, 0);
    ContinuationAt(bs, rest, 1);
    SequenceTwo(Escape(bs) + rest, b0, c1);
  }

  /** The escapes of a well-formed three-byte sequence decode to the value its bits carry. */
  lemma EscapedThree(bs: seq<Byte>, rest: string, b0: nat, c1: nat, c2: nat)
    requires b0 < 16 && c1 < 64 && c2 < 64 && bs == [0xE0 + b0, 0x80 + c1, 0x80 + c2]
    requires 0x800 <= b0 * 4096 + c1 * 64 + c2 && !(0xD800 <= b0 * 4096 + c1 * 64 + c2 < 0xE000)
    ensures DecodeSequenceAt(Escape(bs) + rest, 0) == Some(((b0 * 4096 + c1 * 64 + c2) as char, |Escape(bs)|))
  {
    EscapeAt(bs, rest, 0);
    ContinuationAt(bs, rest, 1);
    ContinuationAt(bs, rest, 2);
    SequenceThree(Escape(bs) + rest, b0, c1, c2);
  }

  /** The escapes of a well-formed four-byte sequence decode to the value its bits carry. */
  lemma EscapedFour(bs: seq<Byte>, rest: string, b0: nat, c1: nat, c2: nat, c3: nat)
    requires b0 < 5 && c1 < 64 && c2 < 64 && c3 < 64 && bs == [0xF0 + b0, 0x80 + c1, 0x80 + c2, 0x80 + c3]
    requires 0x10000 <= b0 * 262144 + c1 * 4096 + c2 * 64 + c3 < 0x110000
    ensures DecodeSequenceAt(Escape(bs) + rest, 0) == Some(((b0 * 262144 + c1 * 4096 + c2 * 64 + c3) as char, |Escape(bs)|))
  {
    EscapeAt(bs, rest, 0);
    ContinuationAt(bs, rest, 1);
    ContinuationAt(bs, rest, 2);
    ContinuationAt(bs, rest, 3);
    SequenceFour(Escape(bs) + rest, b0, c1, c2, c3);
  }

  /** The escape of a continuation byte is read as its low six bits. */
  lemma ContinuationAt(bs: seq<Byte>, rest: string, k: nat)
    requires k < |bs| && 0x80 <= bs[k] < 0xC0
    ensures Continuation(Escape(bs) + rest, 3 * k) == Some(bs[k] - 0x80)
  {
    EscapeAt(bs, rest, k);
  }

  /** A two-byte sequence whose value needs two bytes is decoded to that value. */
  lemma SequenceTwo(s: string, b0: nat, c1: nat)
    requires 2 <= b0 < 32 && c1 < 64
    requires EscapedByte(s, 0) == Some(0xC0 + b0) && Continuation(s, 3) == Some(c1)
    ensures DecodeSequenceAt(s, 0) == Some(((b0 * 64 + c1) as char, 6))
  {
  }

  /** A three-byte sequence whose value needs three bytes and is no surrogate is decoded to that value. */
  lemma SequenceThree(s: string, b0: nat, c1: nat, c2: nat)
    requires b0 < 16 && c1 < 64 && c2 < 64
    requires 0x800 <= b0 * 4096 + c1 * 64 + c2 && !(0xD800 <= b0 * 4096 + c1 * 64 + c2 < 0xE000)
    requires EscapedByte(s, 0) == Some(0xE0 + b0) && Continuation(s, 3) == Some(c1) && Continuation(s, 6) == Some(c2)
    ensures DecodeSequenceAt(s, 0) == Some(((b0 * 4096 + c1 * 64 + c2) as char, 9))
  {
  }

  /** A four-byte sequence whose value needs four bytes and is a scalar value is decoded to that value. */
  lemma SequenceFour(s: string, b0: nat, c1: nat, c2: nat, c3: nat)
    requires b0 < 5 && c1 < 64 && c2 < 64 && c3 < 64
    requires 0x10000 <= b0 * 262144 + c1 * 4096 + c2 * 64 + c3 < 0x110000
    requires EscapedByte(s, 0) == Some(0xF0 + b0)
    requires Continuation(s, 3) == Some(c1) && Continuation(s, 6) == Some(c2) && Continuation(s, 9) == Some(c3)
    ensures DecodeSequenceAt(s, 0) == Some(((b0 * 262144 + c1 * 4096 + c2 * 64 + c3) as char, 12))
  {
  }

  /** The two bytes of a character from U+0080 to U+07FF and the bits they carry. */
  lemma Utf8Two(c: char) returns (b0: nat, c1: nat)
    requires 0x80 <= c as int < 0x800
    ensures 2 <= b0 < 32 && c1 < 64
    ensures Utf8(c) == [0xC0 + b0, 0x80 + c1]
    ensures b0 * 64 + c1 == c as int
  {
    var n := c as int;
    b0, c1 := n / 64, n % 64;
  }

  /** The three bytes of a character from U+0800 to U+FFFF and the bits they carry. */
  lemma Utf8Three(c: char) returns (b0: nat, c1: nat, c2: nat)
    requires 0x800 <= c as int < 0x10000
    ensures b0 < 16 && c1 < 64 && c2 < 64
    ensures Utf8(c) == [0xE0 + b0, 0x80 + c1, 0x80 + c2]
    ensures b0 * 4096 + c1 * 64 + c2 == c as int
  {
    var n := c as int;
    b0, c1, c2 := n / 4096, (n / 64) % 64, n % 64;
    assert (n / 64) / 64 == n / 4096;
  }

  /** The four bytes of a character from U+10000 on and the bits they carry. */
  lemma Utf8Four(c: char) returns (b0: nat, c1: nat, c2: nat, c3: nat)
    requires 0x10000 <= c as int
    ensures b0 < 5 && c1 < 64 && c2 < 64 && c3 < 64
    ensures Utf8(c) == [0xF0 + b0, 0x80 + c1, 0x80 + c2, 0x80 + c3]
    ensures b0 * 262144 + c1 * 4096 + c2 * 64 + c3 == c as int
  {
    var n := c as int;
    b0, c1, c2, c3 := n / 262144, (n / 4096) % 64, (n / 64) % 64, n % 64;
    assert (n / 64) / 64 == n / 4096;
    assert (n / 4096) / 64 == n / 262144;
  }

  /** The escape for byte `k` stands at index `3k`. */
  lemma {:induction false} EscapeAt(bs: seq<Byte>, rest: string, k: nat)
    requires k < |bs|
    ensures EscapedByte(Escape(bs) + rest, 3 * k) == Some(bs[k])
    decreases k
  {
    var head := ['%', HexDigit(bs[0] / 16), HexDigit(bs[0] % 16)];
    var t := Escape(bs[1..]) + rest;
    EscapeCons(bs, rest);
    if k == 0 {
      EscapeHead(bs[0], t);
    } else {
      EscapeAt(bs[1..], rest, k - 1);
      EscapedByteShift(head, t, 3 * (k - 1));
    }
  }

  lemma EscapeCons(bs: seq<Byte>, rest: string)
    requires |bs| > 0
    ensures Escape(bs) + rest == ['%', HexDigit(bs[0] / 16), HexDigit(bs[0] % 16)] + (Escape(bs[1..]) + rest)
  {
    var head := ['%', HexDigit(bs[0] / 16), HexDigit(bs[0] % 16)];
    assert Escape(bs) == head + Escape(bs[1..]);
    Assoc(head, Escape(bs[1..]), rest);
  }

  lemma Assoc(a: string, b: string, c: string)
    ensures (a + b) + c == a + (b + c)
  {
  }

  /** A byte's own escape is read back as that byte. */
  lemma EscapeHead(b: Byte, t: string)
    ensures EscapedByte(['%', HexDigit(b / 16), HexDigit(b % 16)] + t, 0) == Some(b)
  {
    var s := ['%', HexDigit(b / 16), HexDigit(b % 16)] + t;
    HexRoundTrip(b / 16);
    HexRoundTrip(b % 16);
    assert s[1] == HexDigit(b / 16) && s[2] == HexDigit(b % 16);
  }

  /** Whether an escape stands at an index depends only on the text from there on. */
  lemma EscapedByteShift(h: string, t: string, i: nat)
    ensures EscapedByte(h + t, |h| + i) == EscapedByte(t, i)
  {
    if i + 3 <= |t| {
      assert (h + t)[|h| + i] == t[i];
      assert (h + t)[|h| + i + 1] == t[i + 1];
      assert (h + t)[|h| + i + 2] == t[i + 2];
    }
  }

  /** Decoding undoes `encodeURIComponent` on every string. */
  lemma {:induction false} DecodeEncode(s: string)
    ensures DecodeURIComponent(EncodeURIComponent(s)) == Ok(s)
    decreases |s|
  {
    if |s| > 0 {
      var c := s[0];
      var t := EncodeURIComponent(s[1..]);
      DecodeEncode(s[1..]);
      if IsUnreserved(c) {
        var e := [c] + t;
        assert EncodeURIComponent(s) == e;
        assert e[1..] == t;
        assert c != '%';
        assert [c] + s[1..] == s;
      } else {
        var piece := Escape(Utf8(c));
        var e := piece + t;
        assert EncodeURIComponent(s) == e;
        DecodeEscapedChar(c, t);
        assert e[|piece|..] == t;
        assert [c] + s[1..] == s;
      }
    }
  }

  /** `encodeURIComponent` output holds only unreserved characters and `%`. */
  lemma {:induction false} EncodedCharacters(s: string)
    ensures forall i :: 0 <= i < |EncodeURIComponent(s)| ==>
      IsUnreserved(EncodeURIComponent(s)[i]) || EncodeURIComponent(s)[i] == '%'
    decreases |s|
  {
    if |s| > 0 {
      EncodedCharacters(s[1..]);
      if !IsUnreserved(s[0]) {
        EscapeCharacters(Utf8(s[0]));
      }
    }
  }

  lemma {:induction false} EscapeCharacters(bs: seq<Byte>)
    ensures forall i :: 0 <= i < |Escape(bs)| ==> IsUnreserved(Escape(bs)[i]) || Escape(bs)[i] == '%'
  {
    if |bs| > 0 {
      EscapeCharacters(bs[1..]);
    }
  }

  /** A custom encoder that only turns `/` into `%2F` (Python's `path.replace('/', '%2F')`). */
  function EncodeSlashes(s: string): string
  {
    Strings.ReplaceChar(s, '/', "%2F")
  }

  /** `unquote` undoes the slash encoding of a text without `%` of its own. */
  lemma {:induction false} UnquoteEncodeSlashes(s: string)
    requires '%' !in s
    ensures Unquote(EncodeSlashes(s)) == s
    decreases |s|
  {
    if |s| > 0 {
      var t := EncodeSlashes(s[1..]);
      UnquoteEncodeSlashes(s[1..]);
      assert EncodeSlashes(s) == (if s[0] == '/' then "%2F" else [s[0]]) + t;
      if s[0] == '/' {
        var e := "%2F" + t;
        assert EscapedByte(e, 0) == Some(0x2F);
        assert e[3..] == t;
      } else {
        assert ([s[0]] + t)[1..] == t;
      }
      assert [s[0]] + s[1..] == s;
    }
  }
}
