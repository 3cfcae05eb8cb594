/** Bytes, and the hexadecimal text the application uses to carry learned codes. */
module Bytes {
  import opened Results
  import opened PyInt

  /** A Python `bytes`/`bytearray` element. */
  type byte = b: int | 0 <= b < 256

  /** `format(b, '02x')`: two lower-case hexadecimal digits. */
  function Hex2(b: byte): string {
    [DigitChar(b / 16), DigitChar(b % 16)]
  }

  /** `''.join(format(x, '02x') for x in bs)`. */
  function ToHex(bs: seq<byte>): (s: string)
    decreases |bs|
  {
    if |bs| == 0 then "" else Hex2(bs[0]) + ToHex(bs[1..])
  }

  /**
   * The hex rendering has two characters per byte, those of `format(b, '02x')` in order,
   * and every character is a lower-case hex digit.
   */
  lemma {:induction false} ToHexBytes(bs: seq<byte>)
    ensures |ToHex(bs)| == 2 * |bs|
    ensures forall j :: 0 <= j < |ToHex(bs)| ==> '0' <= ToHex(bs)[j] <= '9' || 'a' <= ToHex(bs)[j] <= 'f'
    ensures forall i :: 0 <= i < |bs| ==> ToHex(bs)[2 * i..2 * i + 2] == Hex2(bs[i])
    decreases |bs|
  {
    if |bs| > 0 {
      ToHexBytes(bs[1..]);
      var s, tail := ToHex(bs), ToHex(bs[1..]);
      assert s == Hex2(bs[0]) + tail;
      forall i | 0 <= i < |bs|
        ensures s[2 * i..2 * i + 2] == Hex2(bs[i])
      {
        if i > 0 {
          assert s[2 * i..2 * i + 2] == tail[2 * (i - 1)..2 * (i - 1) + 2];
          assert bs[1..][i - 1] == bs[i];
        }
      }
    }
  }

  /** The whitespace `bytearray.fromhex` skips between byte pairs. */
  predicate IsAsciiSpace(c: char) {
    c == ' ' || '\t' <= c <= '\r'
  }

  /** The ValueError of `bytearray.fromhex`, with the position it reports. */
  datatype HexError = NonHexAt(position: nat)

  /** The position of the first non-ASCII character at or after `i`, if any. */
  function FirstNonAscii(s: string, i: nat): (r: Option<nat>)
    ensures r.Some? ==> i <= r.value < |s| && s[r.value] as int >= 128
    ensures r.Some? ==> forall j :: i <= j < r.value ==> (s[j] as int) < 128
    ensures r.None? ==> forall j :: i <= j < |s| ==> (s[j] as int) < 128
    decreases |s| - i
  {
    if i >= |s| then None
    else if s[i] as int >= 128 then Some(i)
    else FirstNonAscii(s, i + 1)
  }

  /** The byte pairs of an ASCII string from position `i` on, whitespace between pairs skipped. */
  function PairsFrom(s: string, i: nat): Result<seq<byte>, HexError>
    decreases |s| - i
  {
    if i >= |s| then Ok([])
    else if IsAsciiSpace(s[i]) then PairsFrom(s, i + 1)
    else if DigitValue(s[i]) >= 16 then Err(NonHexAt(i))
    else if i + 1 >= |s| || DigitValue(s[i + 1]) >= 16 then Err(NonHexAt(i + 1))
    else
      match PairsFrom(s, i + 2)
      case Ok(rest) => Ok([DigitValue(s[i]) * 16 + DigitValue(s[i + 1])] + rest)
      case Err(e) => Err(e)
  }

  /**
   * `bytearray.fromhex(s)`: a string with a non-ASCII character is refused at that
   * character; otherwise pairs of hex digits (either case) are read, whitespace allowed
   * only between pairs.
   */
  function FromHex(s: string): Result<seq<byte>, HexError> {
    match FirstNonAscii(s, 0)
    case Some(i) => Err(NonHexAt(i))
    case None => PairsFrom(s, 0)
  }

  /** Reading the pairs of a hex rendering gives the bytes back. */
  lemma {:induction false} PairsFromHex(s: string, i: nat, bs: seq<byte>)
    requires i <= |s| && s[i..] == ToHex(bs)
    ensures PairsFrom(s, i) == Ok(bs)
    decreases |bs|
  {
    if |bs| > 0 {
      var b := bs[0];
      assert s[i..] == Hex2(b) + ToHex(bs[1..]);
      assert s[i] == DigitChar(b / 16) && s[i + 1] == DigitChar(b % 16);
      assert s[i + 2..] == ToHex(bs[1..]);
      PairsFromHex(s, i + 2, bs[1..]);
      assert bs == [b] + bs[1..];
    }
  }

  /** A hex rendering is ASCII. */
  lemma {:induction false} ToHexIsAscii(bs: seq<byte>)
    ensures forall j :: 0 <= j < |ToHex(bs)| ==> (ToHex(bs)[j] as int) < 128
    decreases |bs|
  {
    if |bs| > 0 {
      ToHexIsAscii(bs[1..]);
    }
  }

  /** `bytearray.fromhex` undoes the hex rendering of learned data. */
  lemma FromHexToHex(bs: seq<byte>)
    ensures FromHex(ToHex(bs)) == Ok(bs)
  {
    ToHexIsAscii(bs);
    var s := ToHex(bs);
    assert s[0..] == s;
    PairsFromHex(s, 0, bs);
  }
}
