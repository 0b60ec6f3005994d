/**
 * The text form of a digest: `String.format("%02x", b)` for every byte, in
 * order. Java bytes are signed; the `x` conversion of a negative `Byte` adds
 * 2^8 first, so every byte gives exactly two lower-case hex digits.
 */
module Hex {
  import opened Options

  /** A Java `byte`. */
  type JByte = b: int | -128 <= b < 128

  /** The value `%x` prints for a byte: a negative byte has 2^8 added. */
  function Unsigned(b: JByte): (u: nat)
    ensures u < 256
    ensures b >= 0 ==> u == b
    ensures b < 0 ==> u == b + 256
  {
    if b < 0 then b + 256 else b
  }

  const HexDigits: string := "0123456789abcdef"

  /** The two lower-case digits `%02x` gives for a byte: high nibble first. */
  function HexPair(b: JByte): (s: string)
    ensures |s| == 2
  {
    [HexDigits[Unsigned(b) / 16], HexDigits[Unsigned(b) % 16]]
  }

  /** The digits of all bytes, in byte order, as the `StringBuilder` loop appends them. */
  function HexEncode(bs: seq<JByte>): (s: string)
    ensures |s| == 2 * |bs|
  {
    if bs == [] then "" else HexEncode(bs[..|bs| - 1]) + HexPair(bs[|bs| - 1])
  }

  /** Byte `k` of the input is spelled by characters `2k` and `2k + 1` of the output. */
  lemma {:induction false} HexEncodeAt(bs: seq<JByte>, k: nat)
    requires k < |bs|
    ensures HexEncode(bs)[2 * k..2 * k + 2] == HexPair(bs[k])
  {
    var front := bs[..|bs| - 1];
    if k < |bs| - 1 {
      HexEncodeAt(front, k);
      assert front[k] == bs[k];
      assert HexEncode(bs)[2 * k..2 * k + 2] == HexEncode(front)[2 * k..2 * k + 2];
    } else {
      assert HexEncode(bs)[2 * k..2 * k + 2] == HexPair(bs[k]);
    }
  }

  /** The output uses only lower-case hex digits. */
  lemma {:induction false} HexEncodeLowercase(bs: seq<JByte>)
    ensures forall i :: 0 <= i < |HexEncode(bs)| ==> HexEncode(bs)[i] in HexDigits
  {
    if bs != [] {
      HexEncodeLowercase(bs[..|bs| - 1]);
      var s := HexEncode(bs);
      var front := HexEncode(bs[..|bs| - 1]);
      var pair := HexPair(bs[|bs| - 1]);
      forall i | 0 <= i < |s| ensures s[i] in HexDigits {
        if i < |front| {
          assert s[i] == front[i];
        } else {
          assert s[i] == pair[i - |front|];
        }
      }
    }
  }

  /** The value of a lower-case hex digit. */
  function DigitValue(c: char): (v: int)
    ensures -1 <= v < 16
    ensures 0 <= v ==> HexDigits[v] == c
  {
    if '0' <= c <= '9' then c as int - '0' as int
    else if 'a' <= c <= 'f' then c as int - 'a' as int + 10
    else -1
  }

  /** Every digit reads back as the nibble it was printed for. */
  lemma DigitValueOfDigit(n: nat)
    requires n < 16
    ensures DigitValue(HexDigits[n]) == n
  {
  }

  /** The byte whose `%02x` spelling is `hi` then `lo`, given their nibble values. */
  function ByteOf(hi: int, lo: int): JByte
    requires 0 <= hi < 16 && 0 <= lo < 16
  {
    var u := 16 * hi + lo;
    if u >= 128 then u - 256 else u
  }

  /** Reads a hex spelling back into bytes; fails on an odd length or a character that is not a lower-case hex digit. */
  function HexDecode(s: string): Option<seq<JByte>>
    decreases |s|
  {
    if s == [] then Some([])
    else if |s| == 1 then None
    else
      var hi, lo := DigitValue(s[|s| - 2]), DigitValue(s[|s| - 1]);
      if hi < 0 || lo < 0 then None
      else
        match HexDecode(s[..|s| - 2])
        case None => None
        case Some(front) => Some(front + [ByteOf(hi, lo)])
  }

  /** One byte printed and read back is that byte. */
  lemma PairRoundTrip(b: JByte)
    ensures DigitValue(HexPair(b)[0]) == Unsigned(b) / 16
    ensures DigitValue(HexPair(b)[1]) == Unsigned(b) % 16
    ensures ByteOf(Unsigned(b) / 16, Unsigned(b) % 16) == b
  {
    DigitValueOfDigit(Unsigned(b) / 16);
    DigitValueOfDigit(Unsigned(b) % 16);
  }

  /** Reading back the spelling of a digest gives the digest. */
  lemma {:induction false} HexRoundTrip(bs: seq<JByte>)
    ensures HexDecode(HexEncode(bs)) == Some(bs)
  {
    if bs != [] {
      var front := bs[..|bs| - 1];
      var b := bs[|bs| - 1];
      var s := HexEncode(bs);
      HexRoundTrip(front);
      PairRoundTrip(b);
      assert s[..|s| - 2] == HexEncode(front);
      assert s[|s| - 2] == HexPair(b)[0] && s[|s| - 1] == HexPair(b)[1];
      assert front + [b] == bs;
    }
  }

  /** Different digests have different spellings. */
  lemma HexInjective(a: seq<JByte>, b: seq<JByte>)
    requires HexEncode(a) == HexEncode(b)
    ensures a == b
  {
    HexRoundTrip(a);
    HexRoundTrip(b);
  }
}
