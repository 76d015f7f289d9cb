/**
 * Hexadecimal rendering of digests as the library does it:
 * `BitConverter.ToString(bytes).Replace("-", "")`.
 */
module Hex {
  import opened Wrappers

  type byte = x: int | 0 <= x < 256

  /** A SHA-1 digest: twenty bytes. */
  type Digest = s: seq<byte> | |s| == 20 witness seq(20, i => 0)

  /** An upper-case hexadecimal digit. */
  predicate IsHexChar(c: char) {
    '0' <= c <= '9' || 'A' <= c <= 'F'
  }

  function HexDigit(n: nat): (c: char)
    requires n < 16
    ensures IsHexChar(c)
  {
    if n < 10 then ('0' as int + n) as char else ('A' as int + n - 10) as char
  }

  /** The two upper-case hex characters `BitConverter` prints for one byte. */
  function HexPair(b: byte): string {
    [HexDigit(b / 16), HexDigit(b % 16)]
  }

  /** `BitConverter.ToString`: byte pairs separated by dashes ("0A-FF-10"). */
  function BitConverterToString(bs: seq<byte>): string {
    if |bs| == 0 then ""
    else if |bs| == 1 then HexPair(bs[0])
    else HexPair(bs[0]) + "-" + BitConverterToString(bs[1..])
  }

  /** `String.Replace("-", "")`. */
  function RemoveDashes(s: string): string {
    if |s| == 0 then ""
    else (if s[0] == '-' then "" else [s[0]]) + RemoveDashes(s[1..])
  }

  /** The dash-free rendering: two hex characters per byte, concatenated. */
  function HexConcat(bs: seq<byte>): string {
    if |bs| == 0 then "" else HexPair(bs[0]) + HexConcat(bs[1..])
  }

  lemma {:induction false} RemoveDashesAppend(a: string, b: string)
    ensures RemoveDashes(a + b) == RemoveDashes(a) + RemoveDashes(b)
    decreases |a|
  {
    if |a| == 0 {
      assert a + b == b;
    } else {
      assert (a + b)[1..] == a[1..] + b;
      RemoveDashesAppend(a[1..], b);
    }
  }

  lemma HexPairHasNoDash(b: byte)
    ensures RemoveDashes(HexPair(b)) == HexPair(b)
  {
    var p := HexPair(b);
    assert p[0] != '-' && p[1] != '-';
    assert p[1..][1..] == "";
    assert RemoveDashes(p[1..]) == [p[1]] + RemoveDashes("");
  }

  /** Removing the dashes of `BitConverter`'s output leaves exactly the byte pairs. */
  lemma {:induction false} DashedThenStripped(bs: seq<byte>)
    ensures RemoveDashes(BitConverterToString(bs)) == HexConcat(bs)
    decreases |bs|
  {
    if |bs| == 1 {
      HexPairHasNoDash(bs[0]);
      assert HexConcat(bs[1..]) == "";
    } else if |bs| > 1 {
      RemoveDashesAppend(HexPair(bs[0]) + "-", BitConverterToString(bs[1..]));
      RemoveDashesAppend(HexPair(bs[0]), "-");
      HexPairHasNoDash(bs[0]);
      DashedThenStripped(bs[1..]);
    }
  }

  lemma {:induction false} HexConcatShape(bs: seq<byte>)
    ensures |HexConcat(bs)| == 2 * |bs|
    ensures forall i :: 0 <= i < |HexConcat(bs)| ==> IsHexChar(HexConcat(bs)[i])
    decreases |bs|
  {
    if |bs| > 0 {
      HexConcatShape(bs[1..]);
      var p := HexPair(bs[0]);
      var rest := HexConcat(bs[1..]);
      assert HexConcat(bs) == p + rest;
      forall i | 0 <= i < |HexConcat(bs)|
        ensures IsHexChar(HexConcat(bs)[i])
      {
        if i >= 2 {
          assert HexConcat(bs)[i] == rest[i - 2];
        }
      }
    }
  }

  /** The value of one upper-case hex character. */
  function HexValue(c: char): Option<nat> {
    if '0' <= c <= '9' then Some(c as int - '0' as int)
    else if 'A' <= c <= 'F' then Some(c as int - 'A' as int + 10)
    else None
  }

  /** Reads a dash-free rendering back into bytes. */
  function HexDecode(s: string): Option<seq<byte>>
    decreases |s|
  {
    if |s| == 0 then Some([])
    else if |s| == 1 then None
    else match (HexValue(s[0]), HexValue(s[1]), HexDecode(s[2..]))
      case (Some(h), Some(l), Some(rest)) =>
        if h < 16 && l < 16 then Some([h * 16 + l] + rest) else None
      case _ => None
  }

  lemma HexPairDecodes(b: byte)
    ensures HexValue(HexPair(b)[0]) == Some(b / 16)
    ensures HexValue(HexPair(b)[1]) == Some(b % 16)
  {
  }

  lemma {:induction false} DecodeConcat(bs: seq<byte>)
    ensures HexDecode(HexConcat(bs)) == Some(bs)
    decreases |bs|
  {
    if |bs| > 0 {
      var s := HexConcat(bs);
      HexConcatShape(bs[1..]);
      assert s[2..] == HexConcat(bs[1..]);
      HexPairDecodes(bs[0]);
      DecodeConcat(bs[1..]);
      assert [bs[0] / 16 * 16 + bs[0] % 16] + bs[1..] == bs;
    }
  }

  /**
   * `BitConverter.ToString(bytes).Replace("-", "")`: upper-case hex, two characters
   * per byte, no separators, and a faithful rendering (it decodes back to the bytes).
   */
  function Sha1Hex(bs: seq<byte>): (r: string)
    ensures |r| == 2 * |bs|
    ensures forall i :: 0 <= i < |r| ==> IsHexChar(r[i])
    ensures HexDecode(r) == Some(bs)
  {
    DashedThenStripped(bs);
    HexConcatShape(bs);
    DecodeConcat(bs);
    RemoveDashes(BitConverterToString(bs))
  }

  /** A SHA-1 digest renders to exactly forty characters. */
  lemma DigestRendersToForty(d: Digest)
    ensures |Sha1Hex(d)| == 40
  {
  }
}
