/**
 * `WebUtility.UrlEncode`, as the library uses it for file names and info
 * values: the text as UTF-8 bytes; letters, digits and `-_.!*()` kept; a space
 * becomes `+`; every other byte becomes `%` and two upper-case hex digits.
 */
module UrlEncoding {
  import opened Wrappers
  import Hex

  /** The characters `UrlEncode` leaves as they are. */
  predicate IsUrlSafe(c: char) {
    ('a' <= c <= 'z') || ('A' <= c <= 'Z') || ('0' <= c <= '9')
    || c == '-' || c == '_' || c == '.' || c == '!' || c == '*' || c == '(' || c == ')'
  }

  /** The UTF-8 encoding of one character. */
  function Utf8(c: char): (r: seq<Hex.byte>)
    ensures 1 <= |r| <= 4
    ensures (c as int < 0x80) <==> |r| == 1
    ensures |r| == 1 ==> r[0] == c as int
    ensures |r| > 1 ==> forall i :: 0 <= i < |r| ==> r[i] >= 0x80
  {
    var n := c as int;
    if n < 0x80 then [n]
    else if n < 0x800 then [0xC0 + n / 64, 0x80 + n % 64]
    else if n < 0x10000 then [0xE0 + n / 4096, 0x80 + (n / 64) % 64, 0x80 + n % 64]
    else [0xF0 + n / 262144, 0x80 + (n / 4096) % 64, 0x80 + (n / 64) % 64, 0x80 + n % 64]
  }

  /** One byte of the UTF-8 text, encoded. */
  function EncodeByte(b: Hex.byte): (r: string)
    ensures |r| == 1 || |r| == 3
  {
    if b < 0x80 && IsUrlSafe(b as char) then [b as char]
    else if b == 0x20 then "+"
    else "%" + Hex.HexPair(b)
  }

  function EncodeBytes(bs: seq<Hex.byte>): string
    decreases |bs|
  {
    if |bs| == 0 then "" else EncodeByte(bs[0]) + EncodeBytes(bs[1..])
  }

  /** `WebUtility.UrlEncode(s)` for a non-null string. */
  function UrlEncode(s: string): string
    decreases |s|
  {
    if |s| == 0 then "" else EncodeBytes(Utf8(s[0])) + UrlEncode(s[1..])
  }

  /** The characters `UrlEncode` can produce. */
  predicate IsEncodedChar(c: char) {
    IsUrlSafe(c) || c == '+' || c == '%' || Hex.IsHexChar(c)
  }

  lemma {:induction false} EncodeBytesAlphabet(bs: seq<Hex.byte>)
    ensures forall i :: 0 <= i < |EncodeBytes(bs)| ==> IsEncodedChar(EncodeBytes(bs)[i])
    decreases |bs|
  {
    if |bs| > 0 {
      EncodeBytesAlphabet(bs[1..]);
      var head := EncodeByte(bs[0]);
      var rest := EncodeBytes(bs[1..]);
      forall i | 0 <= i < |head + rest|
        ensures IsEncodedChar((head + rest)[i])
      {
        if i >= |head| {
          assert (head + rest)[i] == rest[i - |head|];
        }
      }
    }
  }

  /** The encoding contains no space, no separator and nothing outside its small alphabet. */
  lemma {:induction false} UrlEncodeAlphabet(s: string)
    ensures forall i :: 0 <= i < |UrlEncode(s)| ==> IsEncodedChar(UrlEncode(s)[i])
    decreases |s|
  {
    if |s| > 0 {
      UrlEncodeAlphabet(s[1..]);
      EncodeBytesAlphabet(Utf8(s[0]));
      var head := EncodeBytes(Utf8(s[0]));
      var rest := UrlEncode(s[1..]);
      forall i | 0 <= i < |head + rest|
        ensures IsEncodedChar((head + rest)[i])
      {
        if i >= |head| {
          assert (head + rest)[i] == rest[i - |head|];
        }
      }
    }
  }

  /**
   * The decoding of text in which every escape stands for an ASCII byte: `+` is a
   * space and `%XY` the character with that code; a malformed escape has none.
   */
  function UrlDecodeAscii(s: string): Option<string>
    decreases |s|
  {
    if |s| == 0 then Some("")
    else if s[0] == '+' then
      match UrlDecodeAscii(s[1..])
      case None => None
      case Some(rest) => Some(" " + rest)
    else if s[0] == '%' then
      if |s| < 3 then None
      else match (Hex.HexValue(s[1]), Hex.HexValue(s[2]), UrlDecodeAscii(s[3..]))
        case (Some(h), Some(l), Some(rest)) => Some([(h * 16 + l) as char] + rest)
        case _ => None
    else
      match UrlDecodeAscii(s[1..])
      case None => None
      case Some(rest) => Some([s[0]] + rest)
  }

  /** Encoding one ASCII character and decoding it gives it back, whatever follows. */
  lemma DecodeOneAscii(c: char, tail: string, decodedTail: string)
    requires c as int < 0x80
    requires UrlDecodeAscii(tail) == Some(decodedTail)
    ensures UrlDecodeAscii(EncodeByte(c as int) + tail) == Some([c] + decodedTail)
  {
    var b: Hex.byte := c as int;
    var e := EncodeByte(b);
    if b < 0x80 && IsUrlSafe(b as char) {
      assert (e + tail)[1..] == tail;
    } else if b == 0x20 {
      assert (e + tail)[1..] == tail;
    } else {
      Hex.HexPairDecodes(b);
      assert (e + tail)[1] == Hex.HexPair(b)[0];
      assert (e + tail)[2] == Hex.HexPair(b)[1];
      assert (e + tail)[3..] == tail;
      assert (b / 16 * 16 + b % 16) as char == c;
    }
  }

  /** For ASCII text, decoding undoes `UrlEncode`. */
  lemma {:induction false} AsciiRoundTrip(s: string)
    requires forall i :: 0 <= i < |s| ==> s[i] as int < 0x80
    ensures UrlDecodeAscii(UrlEncode(s)) == Some(s)
    decreases |s|
  {
    if |s| > 0 {
      AsciiRoundTrip(s[1..]);
      EncodeAsciiChar(s[0]);
      assert UrlEncode(s) == EncodeByte(s[0] as int) + UrlEncode(s[1..]);
      DecodeOneAscii(s[0], UrlEncode(s[1..]), s[1..]);
      assert [s[0]] + s[1..] == s;
    }
  }

  /** Encoding a one-byte character is encoding its byte. */
  lemma EncodeAsciiChar(c: char)
    requires c as int < 0x80
    ensures EncodeBytes(Utf8(c)) == EncodeByte(c as int)
  {
    assert Utf8(c) == [c as int];
    assert [c as int][1..] == [];
  }

  /** A name with a space and a slash encodes as the web form does. */
  lemma EncodeExample()
    ensures UrlEncode("a b/c") == "a+b%2Fc"
  {
    EncodeAsciiChar('a');
    EncodeAsciiChar(' ');
    EncodeAsciiChar('b');
    EncodeAsciiChar('/');
    EncodeAsciiChar('c');
    assert EncodeByte(0x2F) == "%2F";
    assert UrlEncode("c") == "c" + UrlEncode("");
    assert UrlEncode("/c") == "%2F" + UrlEncode("c");
    assert UrlEncode("b/c") == "b" + UrlEncode("/c");
    assert UrlEncode(" b/c") == "+" + UrlEncode("b/c");
    assert UrlEncode("a b/c") == "a" + UrlEncode(" b/c");
  }
}
