/**
 * `encodeURIComponent` (section 19.2.6.5 of ECMA-262) as the client uses
 * it for the address in `DELETE /blacklist/{ip}`, and its inverse
 * `decodeURIComponent` (section 19.2.6.3), which on the well-formed escapes
 * the client sends agrees with the server's percent-decoding of the path.
 * Characters are Unicode scalar values, so the lone surrogates for which
 * encoding throws do not arise.
 */
module Uri {
  import opened Wrappers

  /** uriUnreserved: letters, digits and `- _ . ! ~ * ' ( )` are kept as they are. */
  predicate Unreserved(c: char) {
    'A' <= c <= 'Z' || 'a' <= c <= 'z' || '0' <= c <= '9'
    || c == '-' || c == '_' || c == '.' || c == '!' || c == '~' || c == '*' || c == '\'' || c == '(' || c == ')'
  }

  predicate IsByte(b: int) { 0 <= b < 256 }

  /** The UTF-8 encoding of one code point (section 3.9 of the Unicode Standard). */
  function Utf8(c: char): (bytes: seq<int>)
    ensures 1 <= |bytes| <= 4
    ensures forall i | 0 <= i < |bytes| :: IsByte(bytes[i])
  {
    var cp := c as int;
    if cp < 0x80 then [cp]
    else if cp < 0x800 then [0xC0 + cp / 64, 0x80 + cp % 64]
    else if cp < 0x10000 then [0xE0 + cp / 4096, 0x80 + cp / 64 % 64, 0x80 + cp % 64]
    else [0xF0 + cp / 262144, 0x80 + cp / 4096 % 64, 0x80 + cp / 64 % 64, 0x80 + cp % 64]
  }

  /** An upper-case hexadecimal digit. */
  function HexDigit(n: int): (c: char)
    requires 0 <= n < 16
  {
    if n < 10 then ('0' as int + n) as char else ('A' as int + n - 10) as char
  }

  /** The value of a hexadecimal digit of either case, or -1. */
  function HexValue(c: char): (v: int)
    ensures -1 <= v < 16
  {
    if '0' <= c <= '9' then c as int - '0' as int
    else if 'A' <= c <= 'F' then c as int - 'A' as int + 10
    else if 'a' <= c <= 'f' then c as int - 'a' as int + 10
    else -1
  }

  /** "%XX" for one byte. */
  function Escape(b: int): string
    requires IsByte(b)
  {
    ['%', HexDigit(b / 16), HexDigit(b % 16)]
  }

  function EscapeAll(bytes: seq<int>): (s: string)
    requires forall i | 0 <= i < |bytes| :: IsByte(bytes[i])
    ensures |s| == 3 * |bytes|
  {
    if bytes == [] then [] else Escape(bytes[0]) + EscapeAll(bytes[1..])
  }

  function EncodeChar(c: char): string {
    if Unreserved(c) then [c] else EscapeAll(Utf8(c))
  }

  /** `encodeURIComponent(s)`. */
  function EncodeUriComponent(s: string): string {
    if s == [] then [] else EncodeChar(s[0]) + EncodeUriComponent(s[1..])
  }

  // ------------------------------------------------------------ decoding

  /** The byte written as "%XX" at position `i`, or -1 when there is none. */
  function EscapedByte(s: string, i: nat): (b: int)
    ensures b == -1 || IsByte(b)
  {
    if i + 3 <= |s| && s[i] == '%' && HexValue(s[i + 1]) >= 0 && HexValue(s[i + 2]) >= 0
    then 16 * HexValue(s[i + 1]) + HexValue(s[i + 2])
    else -1
  }

  predicate Continuation(b: int) { 0x80 <= b < 0xC0 }

  /** How many bytes a UTF-8 sequence starting with `b` has (0: not a lead byte). */
  function SequenceLength(b: int): nat {
    if 0 <= b < 0x80 then 1
    else if 0xC0 <= b < 0xE0 then 2
    else if 0xE0 <= b < 0xF0 then 3
    else if 0xF0 <= b < 0xF8 then 4
    else 0
  }

  /** The code point of a UTF-8 sequence of escaped bytes at the head of `s`, if it is well formed. */
  function DecodeEscaped(s: string): (r: Option<(char, nat)>)
    ensures r.Some? ==> 0 < r.value.1 <= |s|
  {
    var b0 := EscapedByte(s, 0);
    var n := SequenceLength(b0);
    if n == 0 then None
    else if n == 1 then Some((b0 as char, 3))
    else
      var b1 := EscapedByte(s, 3);
      if !Continuation(b1) then None
      else if n == 2 then
        var cp := (b0 - 0xC0) * 64 + (b1 - 0x80);
        if cp < 0x80 then None else Some((cp as char, 6))
      else
        var b2 := EscapedByte(s, 6);
        if !Continuation(b2) then None
        else if n == 3 then
          var cp := (b0 - 0xE0) * 4096 + (b1 - 0x80) * 64 + (b2 - 0x80);
          if cp < 0x800 || 0xD800 <= cp < 0xE000 then None else Some((cp as char, 9))
        else
          var b3 := EscapedByte(s, 9);
          if !Continuation(b3) then None
          else
            var cp := (b0 - 0xF0) * 262144 + (b1 - 0x80) * 4096 + (b2 - 0x80) * 64 + (b3 - 0x80);
            if cp < 0x10000 || cp > 0x10FFFF then None else Some((cp as char, 12))
  }

  /** `decodeURIComponent(s)`: None where it throws URIError on a malformed escape. */
  function DecodeUriComponent(s: string): Option<string>
    decreases |s|
  {
    if s == [] then Some([])
    else if s[0] != '%' then
      match DecodeUriComponent(s[1..])
      case Some(rest) => Some([s[0]] + rest)
      case None => None
    else
      match DecodeEscaped(s)
      case None => None
      case Some((c, used)) =>
        match DecodeUriComponent(s[used..])
        case Some(rest) => Some([c] + rest)
        case None => None
  }

  // -------------------------------------------------------------- lemmas

  lemma HexRoundTrip(b: int)
    requires IsByte(b)
    ensures HexValue(HexDigit(b / 16)) == b / 16 && HexValue(HexDigit(b % 16)) == b % 16
  {
  }

  /** An escaped byte reads back as that byte. */
  lemma EscapeReadsBack(bytes: seq<int>, rest: string, k: nat)
    requires forall i | 0 <= i < |bytes| :: IsByte(bytes[i])
    requires k < |bytes|
    ensures EscapedByte(EscapeAll(bytes) + rest, 3 * k) == bytes[k]
    decreases k
  {
    HexRoundTrip(bytes[0]);
    if k > 0 {
      EscapeReadsBack(bytes[1..], rest, k - 1);
      assert EscapeAll(bytes) + rest == Escape(bytes[0]) + (EscapeAll(bytes[1..]) + rest);
    }
  }

  /** The UTF-8 bytes of a code point decode to that code point. */
  lemma DecodeOneChar(c: char, rest: string)
    requires !Unreserved(c)
    ensures DecodeEscaped(EncodeChar(c) + rest) == Some((c, 3 * |Utf8(c)|))
  {
    var bytes := Utf8(c);
    var s := EncodeChar(c) + rest;
    var cp := c as int;
    EscapeReadsBack(bytes, rest, 0);
    if cp < 0x80 {
      assert EscapedByte(s, 0) == cp;
    } else if cp < 0x800 {
      EscapeReadsBack(bytes, rest, 1);
      DecodeTwo(s, cp);
    } else if cp < 0x10000 {
      EscapeReadsBack(bytes, rest, 1);
      EscapeReadsBack(bytes, rest, 2);
      DecodeThree(s, cp);
    } else {
      EscapeReadsBack(bytes, rest, 1);
      EscapeReadsBack(bytes, rest, 2);
      EscapeReadsBack(bytes, rest, 3);
      DecodeFour(s, cp);
    }
  }

  lemma DecodeTwo(s: string, cp: int)
    requires 0x80 <= cp < 0x800
    requires EscapedByte(s, 0) == 0xC0 + cp / 64 && EscapedByte(s, 3) == 0x80 + cp % 64
    ensures DecodeEscaped(s) == Some((cp as char, 6))
  {
  }

  lemma DecodeThree(s: string, cp: int)
    requires 0x800 <= cp < 0x10000 && !(0xD800 <= cp < 0xE000)
    requires EscapedByte(s, 0) == 0xE0 + cp / 4096 && EscapedByte(s, 3) == 0x80 + cp / 64 % 64
    requires EscapedByte(s, 6) == 0x80 + cp % 64
    ensures DecodeEscaped(s) == Some((cp as char, 9))
  {
    ThreeSixBitGroups(cp);
  }

  /** A code point below 0x10000 splits into a 4-bit group and two 6-bit groups that add back up to it. */
  lemma ThreeSixBitGroups(cp: int)
    requires 0x800 <= cp < 0x10000
    ensures 0 <= cp / 4096 < 16
    ensures (cp / 4096) * 4096 + (cp / 64 % 64) * 64 + cp % 64 == cp
  {
    var lo := cp % 4096;
    assert cp == (cp / 4096) * 4096 + lo;
    assert lo == (cp / 64 % 64) * 64 + cp % 64;
  }

  lemma DecodeFour(s: string, cp: int)
    requires 0x10000 <= cp <= 0x10FFFF
    requires EscapedByte(s, 0) == 0xF0 + cp / 262144 && EscapedByte(s, 3) == 0x80 + cp / 4096 % 64
    requires EscapedByte(s, 6) == 0x80 + cp / 64 % 64 && EscapedByte(s, 9) == 0x80 + cp % 64
    ensures DecodeEscaped(s) == Some((cp as char, 12))
  {
    FourSixBitGroups(cp);
  }

  /** A code point splits into a 3-bit group and three 6-bit groups that add back up to it. */
  lemma FourSixBitGroups(cp: int)
    requires 0x10000 <= cp <= 0x10FFFF
    ensures 0 <= cp / 262144 < 8
    ensures (cp / 262144) * 262144 + (cp / 4096 % 64) * 4096 + (cp / 64 % 64) * 64 + cp % 64 == cp
  {
    var hi, lo := cp / 4096, cp % 4096;
    assert cp == hi * 4096 + lo;
    assert hi == (cp / 262144) * 64 + cp / 4096 % 64;
    assert lo == (cp / 64 % 64) * 64 + cp % 64;
  }

  /** Decoding undoes one encoded character. */
  lemma DecodeCons(c: char, rest: string)
    ensures DecodeUriComponent(EncodeChar(c) + rest) ==
            match DecodeUriComponent(rest)
            case Some(r) => Some([c] + r)
            case None => None
  {
    var s := EncodeChar(c) + rest;
    if Unreserved(c) {
      assert s[0] == c && s[1..] == rest;
    } else {
      DecodeOneChar(c, rest);
      var bytes := Utf8(c);
      EscapeReadsBack(bytes, rest, 0);
      assert s[0] == '%';
      assert s[3 * |bytes|..] == rest;
    }
  }

  /** `decodeURIComponent` inverts `encodeURIComponent`: decoding gives back exactly the encoded text. */
  lemma {:induction false} DecodeEncode(s: string)
    ensures DecodeUriComponent(EncodeUriComponent(s)) == Some(s)
  {
    if s != [] {
      DecodeEncode(s[1..]);
      DecodeCons(s[0], EncodeUriComponent(s[1..]));
      assert s == [s[0]] + s[1..];
    }
  }

  /** Encoding is injective: distinct addresses give distinct paths. */
  lemma EncodeInjective(s: string, t: string)
    requires EncodeUriComponent(s) == EncodeUriComponent(t)
    ensures s == t
  {
    DecodeEncode(s);
    DecodeEncode(t);
  }

  /** The encoded text holds only unreserved characters, "%" and hexadecimal digits: no "/", "?" or "#". */
  lemma {:induction false} EncodedIsSafe(s: string)
    ensures forall c | c in EncodeUriComponent(s) :: Unreserved(c) || c == '%'
  {
    if s != [] {
      EncodedIsSafe(s[1..]);
      if !Unreserved(s[0]) {
        EscapeAllIsSafe(Utf8(s[0]));
      }
    }
  }

  lemma {:induction false} EscapeAllIsSafe(bytes: seq<int>)
    requires forall i | 0 <= i < |bytes| :: IsByte(bytes[i])
    ensures forall c | c in EscapeAll(bytes) :: Unreserved(c) || c == '%'
  {
    if bytes != [] {
      EscapeAllIsSafe(bytes[1..]);
    }
  }

  /** Text without "%" before the escapes decodes to itself, followed by the decoded rest. */
  lemma {:induction false} DecodePlainPrefix(prefix: string, rest: string)
    requires '%' !in prefix
    ensures DecodeUriComponent(prefix + rest) ==
            match DecodeUriComponent(rest)
            case Some(r) => Some(prefix + r)
            case None => None
  {
    if prefix != [] {
      DecodePlainPrefix(prefix[1..], rest);
      assert prefix[0] in prefix && (prefix + rest)[0] == prefix[0];
      assert (prefix + rest)[1..] == prefix[1..] + rest;
      assert prefix == [prefix[0]] + prefix[1..];
      match DecodeUriComponent(rest)
      case Some(r) =>
        assert DecodeUriComponent(prefix[1..] + rest) == Some(prefix[1..] + r);
        assert [prefix[0]] + (prefix[1..] + r) == prefix + r;
      case None =>
    } else {
      assert prefix + rest == rest;
      match DecodeUriComponent(rest)
      case Some(r) => assert prefix + r == r;
      case None =>
    }
  }
}
