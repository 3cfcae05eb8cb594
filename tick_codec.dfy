/**
 * The Broadlink raw IR signal format and its conversion to and from microsecond durations.
 *
 * A raw signal is a 4-byte header (token 0x26, a zero byte, the entry count low and high)
 * followed by one byte per tick count; a zero byte escapes a big-endian 16-bit count. The
 * tick is 32.84 microseconds, modelled exactly as the rational 3284/100.
 */
module TickCodec {
  import opened Results
  import opened Bytes

  const IrToken: byte := 0x26
  const HeaderSize: nat := 4
  /** The tick count after which decoding stops (the trailing gap marker). */
  const Sentinel: int := 0x0d05

  /** Python's exceptions on these paths. */
  datatype CodecError =
    | IndexOutOfRange          // IndexError: an escape byte without its two follow-on bytes
    | ByteOutOfRange(value: int) // ValueError: `bytearray.append` of a value outside 0..255
    | FloatGiven               // TypeError: `bytearray.append` of a float

  /**
   * `int(round(t * TICK))`: the integer nearest to `t * 32.84`. The bound is strict on both
   * sides, so no input is a tie and the rounding rule for ties never matters.
   */
  function TicksToMicros(t: int): (us: int)
    ensures -50 < t * 3284 - 100 * us < 50
  {
    var us := (t * 3284 + 50) / 100;
    assert t * 3284 + 50 != 100 * us;
    us
  }

  /** `int(round(d / TICK))`: the integer nearest to `d / 32.84`, again never a tie. */
  function MicrosToTicks(d: int): (n: int)
    ensures -1642 < 100 * d - 3284 * n < 1642
  {
    var n := (d * 100 + 1642) / 3284;
    assert d * 100 + 1642 != 3284 * n;
    n
  }

  /**
   * The tick counts of a tick stream (the bytes after the header). A zero byte introduces
   * a count `256 * hi + lo`; the entry equal to `Sentinel` is the last one read.
   */
  function Ticks(t: seq<byte>): (r: Result<seq<int>, CodecError>)
    ensures r.Ok? ==> |r.value| <= |t|
    ensures r.Ok? ==> forall j :: 0 <= j < |r.value| ==> 0 <= r.value[j] <= 65535
    ensures r.Ok? ==> forall j :: 0 <= j < |r.value| - 1 ==> r.value[j] != Sentinel
    decreases |t|
  {
    if |t| == 0 then Ok([])
    else if Truncated(t) then Err(IndexOutOfRange)
    else if HeadTick(t) == Sentinel then Ok([HeadTick(t)])
    else Cons(HeadTick(t), Ticks(t[Width(t)..]))
  }

  /** The stream starts with an escape byte that lacks its two follow-on bytes. */
  predicate Truncated(t: seq<byte>)
    requires |t| > 0
  {
    t[0] == 0 && |t| < 3
  }

  /** The first tick count of a stream. */
  function HeadTick(t: seq<byte>): int
    requires |t| > 0 && !Truncated(t)
  {
    if t[0] != 0 then t[0] else 256 * (t[1] as int) + t[2] as int
  }

  /** The number of bytes the first tick count takes. */
  function Width(t: seq<byte>): (w: nat)
    requires |t| > 0 && !Truncated(t)
    ensures 1 <= w <= |t|
  {
    if t[0] != 0 then 1 else 3
  }

  /** The first entry of a stream is read the same whatever follows the stream. */
  lemma HeadOfAppend(a: seq<byte>, b: seq<byte>)
    requires |a| > 0 && !Truncated(a)
    ensures |a + b| > 0 && !Truncated(a + b)
    ensures HeadTick(a + b) == HeadTick(a) && Width(a + b) == Width(a)
    ensures (a + b)[Width(a)..] == a[Width(a)..] + b
  {
    assert (a + b)[0] == a[0];
    if a[0] == 0 {
      assert (a + b)[1] == a[1] && (a + b)[2] == a[2];
    }
  }

  /** Prefixes one count to a successful decoding. */
  function Cons(v: int, r: Result<seq<int>, CodecError>): Result<seq<int>, CodecError> {
    match r
    case Ok(rest) => Ok([v] + rest)
    case Err(e) => Err(e)
  }

  /** The bytes from position `i` on (none when `i` is past the end). */
  function Rest(s: seq<byte>, i: nat): seq<byte> {
    if i <= |s| then s[i..] else []
  }

  /** Microsecond values of tick counts. */
  function Micros(ticks: seq<int>): seq<int> {
    seq(|ticks|, j requires 0 <= j < |ticks| => TicksToMicros(ticks[j]))
  }

  /** The decoding of a tick stream, given the microsecond values already produced. */
  function Resume(done: seq<int>, rest: Result<seq<int>, CodecError>): Result<seq<int>, CodecError> {
    match rest
    case Ok(ts) => Ok(done + Micros(ts))
    case Err(e) => Err(e)
  }

  /** Producing one more value first is the same as decoding it as part of the rest. */
  lemma ResumeCons(done: seq<int>, v: int, rest: Result<seq<int>, CodecError>)
    ensures Resume(done, Cons(v, rest)) == Resume(done + [TicksToMicros(v)], rest)
    ensures Resume(done, Ok([v])) == Ok(done + [TicksToMicros(v)])
  {
    var m := TicksToMicros(v);
    assert Micros([v]) == [m];
    if rest.Ok? {
      assert Micros([v] + rest.value) == [m] + Micros(rest.value);
      assert done + ([m] + Micros(rest.value)) == (done + [m]) + Micros(rest.value);
    }
  }

  /** `to_microseconds(bytes)`: the header is skipped unread, the tick stream decoded. */
  function Decode(s: seq<byte>): (r: Result<seq<int>, CodecError>)
    ensures r.Ok? ==> |r.value| <= |Rest(s, HeaderSize)|
  {
    Resume([], Ticks(Rest(s, HeaderSize)))
  }

  /** `to_microseconds`, as the source computes it: a loop that advances an index. */
  method ToMicroseconds(bytes: seq<byte>) returns (r: Result<seq<int>, CodecError>)
    ensures r == Decode(bytes)
  {
    var result: seq<int> := [];
    var index: nat := HeaderSize;
    while index < |bytes|
      invariant HeaderSize <= index && (index <= |bytes| || index == HeaderSize)
      invariant Decode(bytes) == Resume(result, Ticks(Rest(bytes, index)))
      decreases |bytes| - index
    {
      ghost var t, start := bytes[index..], index;
      assert t[0] == bytes[index];
      var chunk: int := bytes[index];
      index := index + 1;
      if chunk == 0 {
        if index + 1 >= |bytes| {
          return Err(IndexOutOfRange);
        }
        chunk := 256 * (bytes[index] as int) + bytes[index + 1] as int;
        index := index + 2;
      }
      assert t[index - start..] == Rest(bytes, index);
      ResumeCons(result, chunk, Ticks(Rest(bytes, index)));
      result := result + [TicksToMicros(chunk)];
      assert chunk == HeadTick(t) && index - start == Width(t);
      if chunk == Sentinel {
        assert Ticks(t) == Ok([chunk]);
        return Ok(result);
      }
    }
    assert Rest(bytes, index) == [] && Micros([]) == [] && result + [] == result;
    return Ok(result);
  }

  /** The bytes one tick count is written as: one byte, or an escape and two bytes. */
  function EncodeTick(num: int): Result<seq<byte>, CodecError> {
    if num > 255 then
      if num / 256 > 255 then Err(ByteOutOfRange(num / 256)) else Ok([0, num / 256, num % 256])
    else Ok([num % 256])
  }

  /** Prefixes bytes to a successful encoding. */
  function Prepend(done: seq<byte>, r: Result<seq<byte>, CodecError>): Result<seq<byte>, CodecError> {
    match r
    case Ok(rest) => Ok(done + rest)
    case Err(e) => Err(e)
  }

  /** The tick stream for `ds`; the first duration that cannot be written fails it. */
  function EncodeBody(ds: seq<int>): Result<seq<byte>, CodecError>
    decreases |ds|
  {
    if |ds| == 0 then Ok([])
    else
      match EncodeTick(MicrosToTicks(ds[0]))
      case Err(e) => Err(e)
      case Ok(b) => Prepend(b, EncodeBody(ds[1..]))
  }

  /** The header for `n` entries: the count of durations, not of payload bytes. */
  function Header(n: nat): Result<seq<byte>, CodecError> {
    if n / 256 > 255 then Err(ByteOutOfRange(n / 256)) else Ok([IrToken, 0, n % 256, n / 256])
  }

  /** `durations_to_broadlink(ds)`, with `/` read as the integer division it intends. */
  function Encode(ds: seq<int>): Result<seq<byte>, CodecError> {
    match Header(|ds|)
    case Err(e) => Err(e)
    case Ok(h) => Prepend(h, EncodeBody(ds))
  }

  /** `durations_to_broadlink`, as the source computes it: appending to a buffer in a loop. */
  method DurationsToBroadlink(durations: seq<int>) returns (r: Result<seq<byte>, CodecError>)
    ensures r == Encode(durations)
  {
    var n := |durations|;
    if n / 256 > 255 {
      return Err(ByteOutOfRange(n / 256));
    }
    var result: seq<byte> := [IrToken, 0, n % 256, n / 256];
    for i := 0 to |durations|
      invariant Encode(durations) == Prepend(result, EncodeBody(durations[i..]))
    {
      assert durations[i..][1..] == durations[i + 1..];
      var num := MicrosToTicks(durations[i]);
      if num > 255 {
        if num / 256 > 255 {
          return Err(ByteOutOfRange(num / 256));
        }
        result := result + [0, num / 256];
      }
      result := result + [num % 256];
      PrependAssoc(result, EncodeBody(durations[i + 1..]));
    }
    assert durations[|durations|..] == [] && result + [] == result;
    return Ok(result);
  }

  lemma PrependAssoc(done: seq<byte>, r: Result<seq<byte>, CodecError>)
    ensures forall a, b | done == a + b :: Prepend(done, r) == Prepend(a, Prepend(b, r))
  {
    if r.Ok? {
      forall a, b | done == a + b ensures Prepend(done, r) == Prepend(a, Prepend(b, r)) {
        assert done + r.value == a + (b + r.value);
      }
    }
  }

  /** Encoding fails exactly when the count or some tick count does not fit in 16 bits. */
  lemma {:induction false} EncodeBodyOk(ds: seq<int>)
    ensures EncodeBody(ds).Ok? <==> forall j :: 0 <= j < |ds| ==> MicrosToTicks(ds[j]) <= 65535
    decreases |ds|
  {
    if |ds| > 0 {
      EncodeBodyOk(ds[1..]);
      assert forall j :: 1 <= j < |ds| ==> ds[1..][j - 1] == ds[j];
    }
  }

  /** `durations_to_broadlink` succeeds iff at most 65535 durations and every tick count fits 16 bits. */
  lemma EncodeOk(ds: seq<int>)
    ensures Encode(ds).Ok? <==>
      |ds| <= 65535 && forall j :: 0 <= j < |ds| ==> MicrosToTicks(ds[j]) <= 65535
  {
    EncodeBodyOk(ds);
  }

  /** The header is token 0x26, a zero byte, and the number of durations, little-endian. */
  lemma EncodeHeader(ds: seq<int>)
    requires Encode(ds).Ok?
    ensures |Encode(ds).value| >= HeaderSize
    ensures Encode(ds).value[..HeaderSize] == [IrToken, 0, |ds| % 256, |ds| / 256]
    ensures Encode(ds).value[2] as int + 256 * (Encode(ds).value[3] as int) == |ds|
  {
    var h := [IrToken, 0, |ds| % 256, |ds| / 256];
    assert Encode(ds).value == h + EncodeBody(ds).value;
  }

  /** The tick count each duration is written as. */
  function TickCounts(ds: seq<int>): seq<int> {
    seq(|ds|, j requires 0 <= j < |ds| => MicrosToTicks(ds[j]))
  }

  /** The durations the tick format round-trips: counts in 1..65535, the sentinel only last. */
  predicate Encodable(ds: seq<int>) {
    && (forall j :: 0 <= j < |ds| ==> 1 <= MicrosToTicks(ds[j]) <= 65535)
    && (forall j :: 0 <= j < |ds| - 1 ==> MicrosToTicks(ds[j]) != Sentinel)
  }

  /** Decoding the tick stream of encodable durations gives back their tick counts. */
  lemma {:induction false} TicksOfEncodeBody(ds: seq<int>)
    requires Encodable(ds)
    ensures EncodeBody(ds).Ok? && Ticks(EncodeBody(ds).value) == Ok(TickCounts(ds))
    decreases |ds|
  {
    if |ds| > 0 {
      var num := MicrosToTicks(ds[0]);
      assert num == TickCounts(ds)[0];
      assert forall j :: 1 <= j < |ds| ==> ds[1..][j - 1] == ds[j];
      TicksOfEncodeBody(ds[1..]);
      var b := EncodeTick(num).value;
      var rest := EncodeBody(ds[1..]).value;
      var t := b + rest;
      assert EncodeBody(ds).value == t;
      assert TickCounts(ds) == [num] + TickCounts(ds[1..]);
      if num <= 255 {
        assert t[0] == num && t[1..] == rest;
      } else {
        assert t[0] == 0 && 256 * (t[1] as int) + t[2] as int == num;
        assert t[3..] == rest;
        if num == Sentinel {
          assert |ds| == 1 && ds[1..] == [];
          assert rest == [] && t == b;
          assert HeadTick(t) == Sentinel;
          assert TickCounts(ds) == [num];
        }
      }
    }
  }

  /** Every decoded duration is within TICK/2 (16.42 microseconds) of the one encoded. */
  lemma MicrosNear(d: int)
    ensures -16 <= TicksToMicros(MicrosToTicks(d)) - d <= 16
  {
  }

  /**
   * The round trip: decoding an encoding gives back, for each duration, the microsecond
   * value of its tick count, and that value is within TICK/2 of the duration.
   */
  lemma RoundTrip(ds: seq<int>)
    requires |ds| <= 65535 && Encodable(ds)
    ensures Encode(ds).Ok?
    ensures Decode(Encode(ds).value) == Ok(Micros(TickCounts(ds)))
    ensures |Decode(Encode(ds).value).value| == |ds|
    ensures forall j :: 0 <= j < |ds| ==> -16 <= Decode(Encode(ds).value).value[j] - ds[j] <= 16
  {
    TicksOfEncodeBody(ds);
    var h := [IrToken, 0, |ds| % 256, |ds| / 256];
    var s := h + EncodeBody(ds).value;
    assert Encode(ds).value == s;
    assert Rest(s, HeaderSize) == EncodeBody(ds).value;
    assert Micros(TickCounts(ds)) == [] + Micros(TickCounts(ds));
    forall j | 0 <= j < |ds| ensures -16 <= Micros(TickCounts(ds))[j] - ds[j] <= 16 {
      MicrosNear(ds[j]);
    }
  }

  /**
   * One entry of the stream: a nonzero byte is a count by itself, a zero byte and the two
   * bytes after it are the count `256 * hi + lo`, and a zero byte with fewer than two bytes
   * after it fails.
   */
  lemma TicksStep(b: byte, hi: byte, lo: byte, rest: seq<byte>)
    ensures b != 0 ==> Ticks([b] + rest) == Cons(b, Ticks(rest))
    ensures Ticks([0, hi, lo] + rest) ==
      if 256 * hi + lo == Sentinel then Ok([Sentinel]) else Cons(256 * hi + lo, Ticks(rest))
    ensures Ticks([0]) == Err(IndexOutOfRange) && Ticks([0, hi]) == Err(IndexOutOfRange)
  {
    assert ([b] + rest)[1..] == rest;
    assert ([0, hi, lo] + rest)[3..] == rest;
  }

  /** The header is never read: any four bytes in front of a tick stream decode alike. */
  lemma DecodeIgnoresHeader(h1: seq<byte>, h2: seq<byte>, t: seq<byte>)
    requires |h1| == HeaderSize && |h2| == HeaderSize
    ensures Decode(h1 + t) == Decode(h2 + t)
  {
    assert Rest(h1 + t, HeaderSize) == t == Rest(h2 + t, HeaderSize);
  }

  /** Bytes after the sentinel entry are never read. */
  lemma {:induction false} TicksStopAtSentinel(t: seq<byte>, extra: seq<byte>)
    requires Ticks(t).Ok? && |Ticks(t).value| > 0
    requires Ticks(t).value[|Ticks(t).value| - 1] == Sentinel
    ensures Ticks(t + extra) == Ticks(t)
    decreases |t|
  {
    HeadOfAppend(t, extra);
    if HeadTick(t) != Sentinel {
      TicksStopAtSentinel(t[Width(t)..], extra);
    }
  }

  /** Decoding stops right after the sentinel entry, whatever bytes follow. */
  lemma DecodeStopsAtSentinel(s: seq<byte>, extra: seq<byte>)
    requires |s| >= HeaderSize
    requires Ticks(Rest(s, HeaderSize)).Ok? && |Ticks(Rest(s, HeaderSize)).value| > 0
    requires Ticks(Rest(s, HeaderSize)).value[|Ticks(Rest(s, HeaderSize)).value| - 1] == Sentinel
    ensures Decode(s + extra) == Decode(s)
  {
    assert Rest(s + extra, HeaderSize) == Rest(s, HeaderSize) + extra;
    TicksStopAtSentinel(Rest(s, HeaderSize), extra);
  }

  /** Without a sentinel, decoding reads the whole stream: two streams decode one after the other. */
  lemma {:induction false} TicksAppend(a: seq<byte>, b: seq<byte>)
    requires Ticks(a).Ok?
    requires forall j :: 0 <= j < |Ticks(a).value| ==> Ticks(a).value[j] != Sentinel
    ensures Ticks(a + b) == Cons2(Ticks(a).value, Ticks(b))
    decreases |a|
  {
    if |a| == 0 {
      assert a + b == b;
      if Ticks(b).Ok? {
        assert [] + Ticks(b).value == Ticks(b).value;
      }
    } else {
      HeadOfAppend(a, b);
      var v, rest := HeadTick(a), Ticks(a[Width(a)..]);
      assert Ticks(a) == Cons(v, rest) && v != Sentinel by {
        assert Ticks(a).value[0] == v;
      }
      assert forall j :: 0 <= j < |rest.value| ==> rest.value[j] == Ticks(a).value[j + 1];
      TicksAppend(a[Width(a)..], b);
      assert Ticks(a + b) == Cons(v, Cons2(rest.value, Ticks(b)));
      ConsCons2(v, rest.value, Ticks(b));
    }
  }

  /** Prefixing a count after a prefix of counts is prefixing both. */
  lemma ConsCons2(v: int, prefix: seq<int>, r: Result<seq<int>, CodecError>)
    ensures Cons(v, Cons2(prefix, r)) == Cons2([v] + prefix, r)
  {
    if r.Ok? {
      assert [v] + (prefix + r.value) == ([v] + prefix) + r.value;
    }
  }

  /** Prefixes counts to a successful decoding. */
  function Cons2(prefix: seq<int>, r: Result<seq<int>, CodecError>): Result<seq<int>, CodecError> {
    match r
    case Ok(rest) => Ok(prefix + rest)
    case Err(e) => Err(e)
  }

  /** An escape byte without two bytes after it makes decoding fail. */
  lemma TruncatedEscape(s: seq<byte>, hi: byte)
    requires |s| >= HeaderSize
    requires Ticks(Rest(s, HeaderSize)).Ok?
    requires forall j :: 0 <= j < |Ticks(Rest(s, HeaderSize)).value| ==> Ticks(Rest(s, HeaderSize)).value[j] != Sentinel
    ensures Decode(s + [0]).Err? && Decode(s + [0, hi]).Err?
  {
    var t := Rest(s, HeaderSize);
    assert Rest(s + [0], HeaderSize) == t + [0];
    assert Rest(s + [0, hi], HeaderSize) == t + [0, hi];
    TicksAppend(t, [0]);
    TicksAppend(t, [0, hi]);
  }

  /** A duration under 17 microseconds has tick count 0, written as a zero byte: an escape. */
  lemma ShortDurationIsNotEncodable()
    ensures MicrosToTicks(16) == 0 && Encode([16]) == Ok([IrToken, 0, 1, 0, 0])
    ensures Decode([IrToken, 0, 1, 0, 0]) == Err(IndexOutOfRange)
  {
    var zero: seq<byte> := [0];
    assert MicrosToTicks(16) == 0;
    assert EncodeTick(0) == Ok(zero);
    assert [16][1..] == [];
    assert EncodeBody([]) == Ok([]) && zero + [] == zero;
    assert EncodeBody([16]) == Ok(zero);
    var h: seq<byte> := [IrToken, 0, 1, 0];
    assert Header(|[16]|) == Ok(h);
    assert h + zero == [IrToken, 0, 1, 0, 0];
    assert Rest([IrToken, 0, 1, 0, 0], HeaderSize) == [0];
  }

  // The encoder as written, run by Python 3, where `/` on two integers yields a float.

  /** A Python number: an integer or the float that true division yields. */
  datatype PyNumber = PyInt(i: int) | PyFloat(x: real)

  /** `a / b` under Python 3. */
  function TrueDivide(a: int, b: int): PyNumber
    requires b != 0
  {
    PyFloat(a as real / b as real)
  }

  /** `buf.append(v)` on a `bytearray`: a float is a TypeError, an integer outside 0..255 a ValueError. */
  function Append(buf: Result<seq<byte>, CodecError>, v: PyNumber): Result<seq<byte>, CodecError> {
    match buf
    case Err(e) => Err(e)
    case Ok(b) =>
      match v
      case PyFloat(_) => Err(FloatGiven)
      case PyInt(i) => if 0 <= i < 256 then Ok(b + [i]) else Err(ByteOutOfRange(i))
  }

  /** The loop over the durations as written, with `num / 256` a true division. */
  function BodyAsWritten(buf: Result<seq<byte>, CodecError>, ds: seq<int>): Result<seq<byte>, CodecError>
    decreases |ds|
  {
    if |ds| == 0 then buf
    else
      var num := MicrosToTicks(ds[0]);
      var escaped := if num > 255 then Append(Append(buf, PyInt(0)), TrueDivide(num, 256)) else buf;
      BodyAsWritten(Append(escaped, PyInt(num % 256)), ds[1..])
  }

  /** `durations_to_broadlink(ds)` as written, with `len(durations) / 256` a true division. */
  function EncodeAsWritten(ds: seq<int>): Result<seq<byte>, CodecError> {
    var n := |ds|;
    var header := Append(Append(Append(Append(Ok([]), PyInt(IrToken)), PyInt(0)), PyInt(n % 256)), TrueDivide(n, 256));
    BodyAsWritten(header, ds)
  }

  /** Once an append has raised, the rest of the loop never runs. */
  lemma {:induction false} BodyAsWrittenKeepsError(e: CodecError, ds: seq<int>)
    ensures BodyAsWritten(Err(e), ds) == Err(e)
    decreases |ds|
  {
    if |ds| > 0 {
      BodyAsWrittenKeepsError(e, ds[1..]);
    }
  }

  /**
   * As written, the fourth append is handed a float, so every call raises TypeError, the
   * empty list included, where the integer-division reading `Encode` returns a header.
   */
  lemma EncodeAsWrittenAlwaysFails(ds: seq<int>)
    ensures EncodeAsWritten(ds) == Err(FloatGiven)
    ensures Encode([]) == Ok([IrToken, 0, 0, 0])
  {
    var empty: seq<byte> := [];
    var h1: seq<byte> := [IrToken];
    var h2: seq<byte> := [IrToken, 0];
    var h3: seq<byte> := [IrToken, 0, |ds| % 256];
    assert empty + [IrToken as int] == h1 && h1 + [0] == h2 && h2 + [|ds| % 256] == h3;
    assert Append(Ok(empty), PyInt(IrToken)) == Ok(h1);
    assert Append(Ok(h1), PyInt(0)) == Ok(h2);
    assert Append(Ok(h2), PyInt(|ds| % 256)) == Ok(h3);
    BodyAsWrittenKeepsError(FloatGiven, ds);
    var h: seq<byte> := [IrToken, 0, 0, 0];
    assert Header(0) == Ok(h) && h + [] == h;
  }
}
