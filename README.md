# Broadlink Manager core, modelled in Dafny

Broadlink Manager is a small web application for Broadlink IR/RF remotes. It discovers the
devices on the network, learns IR and RF codes from them, and sends codes back. This project
models the logic inside that application's request handlers and proves what that logic
guarantees:

- **the raw IR signal codec** (`TickCodec`):
  - `to_microseconds` turns a Broadlink raw signal into microsecond durations;
  - `durations_to_broadlink` encodes durations as a raw signal;
  - the format is a 4-byte header (token `0x26`, a zero byte, then the entry count low and
    high), then one byte per tick count;
  - a zero byte escapes a big-endian 16-bit count, and decoding stops after the count `0x0d05`;
- **the duration text form** (`DurationText`): `format_durations` and `parse_durations`,
  which write and read texts such as `+9024 -4512 +564`;
- **device descriptors** (`DeviceTypes`):
  - the device-name table `getDeviceName`;
  - `initDevice`, which rewrites exactly `'0x6539'` to `'0x610F'` and then parses the type with
    `int(x, 0)`, and parses the MAC with `bytearray.fromhex`;
- **the bounded waits** (`Polling`): the IR learn wait, the RF frequency sweep wait and the RF
  packet capture wait;
- **RF learning** (`RfLearning`):
  - the three module globals that `/rf/status` reports (a class `RfSession`);
  - `/rf/continue`;
  - the `/rf/learn` handler as a class `SweepHandler`, one method per phase, plus a method
    `Learn` that runs a whole request.

The Python built-ins these operations rely on are modelled in helper modules:
- `PyInt`: `str.isspace`, `int(s)`, `int(s, 0)`, `str(n)` and `hex(n)`. The whitespace `int()`
  strips is not quite `str.isspace`: it leaves the separators U+001C..U+001F in place;
- `PyText`: `str.split` and `' '.join`;
- `Bytes`: `format(b, '02x')` joined, and `bytearray.fromhex`.

Modelling choices:
- **Tick length.** The tick of 32.84 microseconds is the exact rational 3284/100.
  - `round(t * TICK)` is modelled as `(t*3284 + 50) / 100`.
  - `round(d / TICK)` is modelled as `(d*100 + 1642) / 3284`.
  - Both functions prove a strict bound |exact − result| < ½. So no input is a tie, and
    Python's rule for rounding ties never matters.
- **Time.** Real time is replaced by a simulated clock. Each wait starts at second 0, and only
  its one-second sleeps advance the clock. What the device answers at second `t` is a function
  parameter (`check: nat -> CheckData`, `nat -> bool`). So each wait is exactly the source's
  loop: "sleep, poll, stop at the first answer, give up once 30 seconds have passed".
- **The busy wait.** The loop on `_continu_to_sweep` (lines 392-393) becomes
  `SweepHandler.AwaitContinue`, one evaluation of its guard per call. The operator's click is
  the explicit event `RfSession.Continue`. `Learn` runs the wait as a loop, with the click
  arriving after a given number of guard evaluations.
- **Device calls.** The calls the RF handler makes on the device are recorded in
  `SweepHandler.calls`, in order. They are what "cancel the sweep exactly once" is stated
  about.

Two behaviours of the code that are easy to misread:
- **Escaped counts.** An escaped count is written as a zero byte, then the high byte, then the
  low byte (lines 231-234). The low byte is not dropped.
- **Negative durations.** They do not survive `format_durations` followed by
  `parse_durations`.
  - `str(-5)` is `-5`, so a negative entry is written `+-5` or `--5`.
  - `int()` rejects both spellings.
  - So parsing a formatted list gives the list back when every entry is at least 0. When any
    entry is negative, parsing fails (`DurationText.ParseFormatted`). It does not give the
    magnitudes back.

## Model

| member | source | states |
|---|---|---|
| TickCodec.TicksToMicros | broadlinkmanager/broadlinkmanager.py:218 | the result is within 1/2 of `t * 32.84`, strictly, so it is the nearest integer and no tie exists |
| TickCodec.MicrosToTicks | broadlinkmanager/broadlinkmanager.py:230 | the result is within 1/2 of `d / 32.84`, strictly, so it is the nearest integer and no tie exists |
| TickCodec.Ticks | broadlinkmanager/broadlinkmanager.py:211-220 | a decoded tick stream has no more entries than bytes, each entry is in 0..65535, and only the last entry can be the sentinel `0x0d05` |
| TickCodec.Decode | broadlinkmanager/broadlinkmanager.py:207-221 | decoding yields no more values than there are bytes after the 4-byte header |
| TickCodec.ToMicroseconds | broadlinkmanager/broadlinkmanager.py:207-221 | the index-advancing loop returns exactly `Decode(bytes)`: the same values, or the same IndexError on a truncated escape |
| TickCodec.TicksStep | broadlinkmanager/broadlinkmanager.py:212-217 | a nonzero byte is one count, a zero byte plus two bytes is the count `256*hi + lo`, and a zero byte with fewer than two bytes after it is an IndexError |
| TickCodec.DecodeIgnoresHeader | broadlinkmanager/broadlinkmanager.py:210 | the header is never read: any two 4-byte headers before the same stream decode alike |
| TickCodec.TicksStopAtSentinel | broadlinkmanager/broadlinkmanager.py:219-220 | once an entry equals `0x0d05`, bytes appended after it do not change the decoded stream |
| TickCodec.DecodeStopsAtSentinel | broadlinkmanager/broadlinkmanager.py:219-220 | a signal whose decoding ends with the sentinel decodes the same whatever bytes follow it |
| TickCodec.TruncatedEscape | broadlinkmanager/broadlinkmanager.py:214-216 | appending an escape byte with none or only one byte after it to a stream that has no sentinel makes decoding fail |
| TickCodec.DurationsToBroadlink | broadlinkmanager/broadlinkmanager.py:223-235 | the appending loop returns exactly `Encode(durations)` (with `/` read as integer division) |
| TickCodec.EncodeOk | broadlinkmanager/broadlinkmanager.py:224-234 | encoding succeeds iff there are at most 65535 durations and every tick count is at most 65535 |
| TickCodec.EncodeBodyOk | broadlinkmanager/broadlinkmanager.py:229-234 | the body can be written iff every tick count is at most 65535 |
| TickCodec.EncodeHeader | broadlinkmanager/broadlinkmanager.py:224-228 | an encoding starts with `0x26, 0, n % 256, n / 256`, and its count bytes add up to the number of durations, not of payload bytes |
| TickCodec.TicksOfEncodeBody | broadlinkmanager/broadlinkmanager.py:229-234 | for durations whose tick counts are 1..65535, with only the last one allowed to be `0x0d05`, the body decodes to exactly those tick counts |
| TickCodec.MicrosNear | broadlinkmanager/broadlinkmanager.py:230 | converting to ticks and back moves a duration by at most 16 microseconds, that is, less than half a tick |
| TickCodec.RoundTrip | broadlinkmanager/broadlinkmanager.py:207-235 | decoding the encoding of encodable durations gives the microsecond values of their tick counts, one per duration, each within 16 of its input |
| TickCodec.ShortDurationIsNotEncodable | broadlinkmanager/broadlinkmanager.py:229-234 | a duration of 16 microseconds becomes tick 0, is written as a lone zero byte, and its encoding fails to decode |
| TickCodec.BodyAsWrittenKeepsError | broadlinkmanager/broadlinkmanager.py:229-234 | once an append has raised, the rest of the loop changes nothing |
| TickCodec.EncodeAsWrittenAlwaysFails | broadlinkmanager/broadlinkmanager.py:228 | as written, under Python 3, `len(durations) / 256` is a float and the fourth append raises TypeError for every input |
| PyInt.DigitsRoundTrip | broadlinkmanager/broadlinkmanager.py:242 | the digits `str(n)` writes are digits of the radix, and reading them back gives `n` |
| PyInt.IntOfSignedDigits | broadlinkmanager/broadlinkmanager.py:248 | `int()` of an optional `+` or `-` followed by the decimal digits of `m` is `m` or `-m` |
| PyInt.IntOfDoubleSign | broadlinkmanager/broadlinkmanager.py:248 | `int()` rejects a sign followed by `-` and digits, which is how a negative entry is written |
| PyInt.SeparatorIsNotStripped | broadlinkmanager/broadlinkmanager.py:255 | U+001C..U+001F count as whitespace for `str.isspace` and `split()`, but `int()` does not strip them: `int("\x1c5")` and `int("\x1f0x2737", 0)` (a device type with a leading U+001F) are refused, while `int(" 5")` is 5 |
| PyInt.IntOfHex | broadlinkmanager/broadlinkmanager.py:204-205 | `int(hex(n), 0)` (what `auto_int` computes) is `n` |
| PyText.SplitJoin | broadlinkmanager/broadlinkmanager.py:247 | splitting words joined by single spaces on whitespace gives the words back |
| PyText.JoinEnds | broadlinkmanager/broadlinkmanager.py:240-241 | words joined by single spaces have no leading or trailing whitespace, and the result is non-empty when there are words |
| Bytes.ToHexBytes | broadlinkmanager/broadlinkmanager.py:340 | the `'02x'` join of some bytes has two characters per byte, byte `i` rendered at positions `2i` and `2i+1` as `format(b, '02x')`, and every character is a lower-case hex digit |
| Bytes.FromHexToHex | broadlinkmanager/broadlinkmanager.py:352 | `bytearray.fromhex` of the two-digit lower-case hex text of some bytes gives those bytes back |
| DurationText.FormatDurations | broadlinkmanager/broadlinkmanager.py:237-243 | the string-growing loop builds the entries, each a sign followed by the value, joined by single spaces |
| DurationText.FormattedWords | broadlinkmanager/broadlinkmanager.py:237-243 | the formatted text splits into exactly its entries, and it has no leading or trailing whitespace |
| DurationText.ParseToken | broadlinkmanager/broadlinkmanager.py:242-248 | `int()` reads a non-negative entry as its value, negated at odd positions, and rejects a negative entry |
| DurationText.ParseDurations | broadlinkmanager/broadlinkmanager.py:245-249 | `parse_durations(s)` succeeds iff every word of `s.split()` parses with `int()`; then it gives one value per word, each `abs(int(word))`. `DurationText.ParseFormatted` shows it undoes `format_durations` on non-negative lists |
| DurationText.ParseTokens | broadlinkmanager/broadlinkmanager.py:245-249 | the parse succeeds iff every token parses with `int()`; then there is one value per token, each `abs(int(token))`; a failed parse names a token `int()` rejects |
| DurationText.ParseTokensFrom | broadlinkmanager/broadlinkmanager.py:242-248 | parsing the entries of a list gives the list back iff all its values are non-negative, and fails otherwise |
| DurationText.ParseFormatted | broadlinkmanager/broadlinkmanager.py:237-249 | `parse_durations(format_durations(d)) == d` when every entry is non-negative, and the parse fails when any entry is negative |
| DeviceTypes.DeviceName | broadlinkmanager/broadlinkmanager.py:132-201 | every code gets a non-empty name: the lookup is total |
| DeviceTypes.DeviceNames | broadlinkmanager/broadlinkmanager.py:132-201 | listed codes give their table names (`0x2737` "RM Mini", `0x6539` "RM4c Mini", `0x610F` "RM4c"), and codes below `0x2711` or above `0x947a` (outside the range of listed codes) give "Not Supported" |
| DeviceTypes.AliasedType | broadlinkmanager/broadlinkmanager.py:252-255 | the type `"0x6539"` resolves to the code `0x610F`, and so does `"0x610F"` itself |
| DeviceTypes.AliasIsTextual | broadlinkmanager/broadlinkmanager.py:252-255 | the rewrite compares text: `"0X6539"` keeps type `0x6539` and resolves differently from `"0x6539"` |
| DeviceTypes.ResolveHex | broadlinkmanager/broadlinkmanager.py:251-255 | the type text `hex(code)` resolves to `code`, except that `0x6539` becomes `0x610F` |
| DeviceTypes.InitDevice | broadlinkmanager/broadlinkmanager.py:251-258 | `initDevice` succeeds iff the type converts with `int(x, 0)` after the alias and the MAC with `bytearray.fromhex`; it then links to the host on port 80 with that type and those MAC bytes; a good type with a bad MAC fails on the MAC. `DeviceTypes.InitBadType` adds that a bad type fails first, and `DeviceTypes.InitDiscovered` covers discovered descriptors |
| DeviceTypes.InitDiscovered | broadlinkmanager/broadlinkmanager.py:251-258 | a descriptor as discovery writes it (`hex(devtype)` and the hex MAC) gives a link with the aliased type, port 80 and the same MAC bytes |
| DeviceTypes.InitBadType | broadlinkmanager/broadlinkmanager.py:255 | a type that `int(x, 0)` rejects makes `initDevice` fail with that ValueError |
| Polling.Outcome | broadlinkmanager/broadlinkmanager.py:331-336 | a wait ends by timing out exactly on a "not yet" answer, and with data exactly when the device answered with data |
| Polling.FirstWhere | broadlinkmanager/broadlinkmanager.py:329-330 | the reference stopping second: the first second in 1..30 at which the stop condition holds, or 30 if there is none |
| Polling.FirstWhereIs | broadlinkmanager/broadlinkmanager.py:329-330 | a wait that was not stopped before second `n`, and stopped at `n` or ran out there, stopped at `FirstWhere` |
| Polling.PollForData | broadlinkmanager/broadlinkmanager.py:328-337 | at most 30 polls, at seconds 1..n; all answers before the last are ReadError/StorageError; a "not yet" last answer means the budget is spent; the result is that last answer |
| Polling.PollForFrequency | broadlinkmanager/broadlinkmanager.py:375-380 | at most 30 polls; all before the last said no; it is found iff the last poll said yes, and not found only after 30 polls |
| Polling.LearnIr | broadlinkmanager/broadlinkmanager.py:322-342 | a refused descriptor fails before any poll; otherwise the reply is the code learned at the first data answer, hex-encoded so that `fromhex` gives it back, or "No Data Received" after 30 "not yet" answers, or a failure on any other exception; the reply equals the reference `IrReference` |
| RfLearning.RfSession.constructor | broadlinkmanager/broadlinkmanager.py:101-103 | the globals start false, empty and false |
| RfLearning.RfSession.Status | broadlinkmanager/broadlinkmanager.py:425-429 | `/rf/status` reports the three globals and changes nothing |
| RfLearning.RfSession.Continue | broadlinkmanager/broadlinkmanager.py:433-438 | `/rf/continue` sets both flags, keeps the message and reports the new values |
| RfLearning.SweepHandler.constructor | broadlinkmanager/broadlinkmanager.py:366-374 | the globals are reset; a refused descriptor ends the request with no device call; otherwise auth and the sweep are started and the "Learning RF Frequency" message is shown |
| RfLearning.SweepHandler.SweepForFrequency | broadlinkmanager/broadlinkmanager.py:375-386 | found: "1 of 2" is shown and the polls are logged; missed after 30 polls: "RF Frequency not found!" is shown, the sweep is cancelled once and the request ends; the flags are untouched |
| RfLearning.SweepHandler.AnnounceRelease | broadlinkmanager/broadlinkmanager.py:388-391 | the release message is shown and the status becomes true |
| RfLearning.SweepHandler.AwaitContinue | broadlinkmanager/broadlinkmanager.py:392-397 | while continue is false the wait shows "Click The Continue button"; once it is true the wait ends, asks for the button press and clears the status |
| RfLearning.SweepHandler.CapturePacket | broadlinkmanager/broadlinkmanager.py:399-420 | `find_rf_packet` and the polls are logged; data ends with "RF Scan Completed Successfully" and its hex; 30 "not yet" answers end with "No Data Found"; any other exception ends the request with the message unchanged |
| RfLearning.Learn | broadlinkmanager/broadlinkmanager.py:362-420 | a whole request returns `RfReference` (failure, frequency not found, no data, or the first packet's hex), and it calls `cancel_sweep_frequency` exactly once if the frequency was not found, and never otherwise |
| RfLearning.ExamplePacketHex | broadlinkmanager/broadlinkmanager.py:416 | the packet `[0x26, 0, 4, 0, 10, 20, 30, 0x0d, 0x05]` is reported as `260004000a141e0d05` (the general rendering is `Bytes.ToHexBytes`) |
| RfLearning.LearnExample | broadlinkmanager/broadlinkmanager.py:362-420 | the frequency is found at second 3, the operator continues at once, and the packet arrives at second 2 of the capture: the reply is that packet as `260004000a141e0d05` |

## Findings

| source | as written | input that shows it | evidently intended | confidence | as-written member | corrected member |
|---|---|---|---|---|---|---|
| broadlinkmanager/broadlinkmanager.py:228 | `result.append(len(durations) / 256)`; under Python 3, `/` on integers yields a float, and `bytearray.append` raises TypeError; line 233 `num / 256` has the same defect | every input, the empty list included (`durations_to_broadlink([])`) | integer division `//`, giving the header `0x26, 0, n % 256, n // 256` and the escape `0, num // 256, num % 256` | high, not executed | TickCodec.EncodeAsWrittenAlwaysFails | TickCodec.RoundTrip |

The as-written encoder is `TickCodec.EncodeAsWritten`: it models Python 3's true division and
what `bytearray.append` does with a float. The rest of the model uses the corrected encoder
`TickCodec.Encode` and its loop `TickCodec.DurationsToBroadlink`.

## Left out

- Web plumbing is left out: the FastAPI application, routes, middleware, HTML pages, and the
  JSON text of the replies. A reply is modelled as a datatype (`IrReply`, `RfReply`,
  `Snapshot`).
- File I/O is left out: the version file, the analytics code, and saving and loading the
  devices file.
- Subprocess calls are left out: local IP lookup and the `fping` status check.
- The `broadlink` library is foreign code. Its behaviour is represented as follows:
  - in the RF handler, `auth`, `sweep_frequency`, `check_frequency`,
    `cancel_sweep_frequency`, `find_rf_packet` and `check_data` are entries in the call log
    of `SweepHandler`, with no effect of their own;
  - in the IR handler, `auth` and `enter_learning` (line 327, made only by IR learning) are
    not represented: `Polling.LearnIr` starts at the `check_data` wait;
  - `check_data` and `check_frequency` are the answer functions of the waits;
  - only `check_data` may raise in the model (`CheckData.Failed`); exceptions raised by
    `auth`, `enter_learning`, `sweep_frequency`, `check_frequency`, `find_rf_packet` or
    `cancel_sweep_frequency` are not modelled;
  - `gendevice` is represented by its arguments, `DeviceTypes.LinkParams`;
  - `discover`, `send_data` and `check_temperature` are not modelled.
- Discovery's JSON listing is not modelled. Only the format of each descriptor's type and MAC
  fields is used, in `DeviceTypes.InitDiscovered`.
- The temperature handler and `writeXml` are left out: they cannot run as written.
- Logging and command-line defaults are left out.
- Real time and concurrency are left out.
  - Each wait counts simulated seconds from 0. The time spent before a wait and the sleeps
    between phases are not modelled.
  - `/rf/continue` during the sweep comes from a request running at the same time. Only one
    case is modelled: the click arrives while the handler waits for it (`Learn`).
- `RfLearning.SweepHandler.CapturePacket`: the message "Found RF Frequency - 2 of 2!" is
  overwritten by "RF Scan Completed Successfully" with no sleep in between, so the model shows
  only the second message.
- `PyInt.IntBase10` and `PyInt.IntBase0` accept ASCII digits only. Python's `int()` also
  accepts other Unicode decimal digits, which are left out.
- `DeviceTypes.DeviceNames` states three listed codes and every code below the smallest listed
  code (`0x2711`) or above the largest (`0x947a`). The full table is the body of `DeviceTypes.DeviceName`, one case per entry of the
  source's dictionary. The dictionary has no repeated key, so "the last entry wins" never
  applies.
- Floating point is left out. The tick is the exact rational 3284/100, not the binary double
  nearest to 32.84.
  - In decoding, the exact product is never closer than 1/100 to a rounding boundary.
  - In encoding, the exact quotient is never closer than 1/3284 to a rounding boundary.
  - Both margins are far larger than the double's error for counts and durations of
    realistic size.
