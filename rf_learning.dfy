/**
 * RF learning: the three module globals the `/rf/status` page reads, and the `/rf/learn`
 * handler that walks through its phases (sweep for the frequency, let the operator release
 * the button, wait for the operator's continue, capture the packet) while updating them.
 */
module RfLearning {
  import opened Results
  import opened Bytes
  import opened DeviceTypes
  import opened Polling
  import opened PyInt

  const LearningFrequency := "Learning RF Frequency, press and hold the button to learn..."
  const FrequencyMissing := "RF Frequency not found!"
  const FoundFirst := "Found RF Frequency - 1 of 2!"
  const LetGo := "You can now let go of the button"
  const ClickContinue := "Click The Continue button"
  const PressToLearn := "To complete learning, single press the button you want to learn"
  const NoData := "No Data Found"
  const Completed := "RF Scan Completed Successfully"

  /** What `/rf/status` and `/rf/continue` report: the three globals. */
  datatype Snapshot = Snapshot(continueToSweep: bool, message: string, sweepStatus: bool)

  /** The globals `_continu_to_sweep`, `_rf_sweep_message` and `_rf_sweep_status`. */
  class RfSession {
    var continueToSweep: bool
    var message: string
    var sweepStatus: bool

    /** Their values when the module is loaded. */
    constructor()
      ensures !continueToSweep && message == "" && !sweepStatus
    {
      continueToSweep := false;
      message := "";
      sweepStatus := false;
    }

    function State(): Snapshot
      reads this
    {
      Snapshot(continueToSweep, message, sweepStatus)
    }

    /** `rfstatus`: reports the globals and changes nothing. */
    method Status() returns (s: Snapshot)
      ensures s.continueToSweep == continueToSweep
      ensures s.message == message
      ensures s.sweepStatus == sweepStatus
    {
      s := State();
    }

    /** `rfcontinue`: raises both flags, keeps the message and reports the result. */
    method Continue() returns (s: Snapshot)
      modifies this
      ensures continueToSweep && sweepStatus && message == old(message)
      ensures s == Snapshot(true, old(message), true)
    {
      sweepStatus := true;
      continueToSweep := true;
      s := State();
    }
  }

  /** The device operations the handler performs, in the order it performs them. */
  datatype DeviceCall =
    | Auth
    | SweepFrequency
    | CheckFrequency
    | CancelSweepFrequency
    | FindRfPacket
    | CheckDataCall

  /** The reply of `/rf/learn`. */
  datatype RfReply = FrequencyNotFound | NoDataFound | RfLearned(data: string) | RfFailed

  /** Where the handler is: the phase it runs next, or the reply it ended with. */
  datatype Step = Sweeping | FrequencyFound | WaitingForContinue | Capturing | Done(reply: RfReply)

  /** `n` calls of `c` in a row. */
  function Repeat(c: DeviceCall, n: nat): (r: seq<DeviceCall>)
    ensures |r| == n && forall i :: 0 <= i < n ==> r[i] == c
  {
    seq(n, _ => c)
  }

  /** How often `c` appears in `calls`. */
  function Occurrences(calls: seq<DeviceCall>, c: DeviceCall): nat
    decreases |calls|
  {
    if |calls| == 0 then 0
    else Occurrences(calls[..|calls| - 1], c) + (if calls[|calls| - 1] == c then 1 else 0)
  }

  lemma {:induction false} OccurrencesAppend(a: seq<DeviceCall>, b: seq<DeviceCall>, c: DeviceCall)
    ensures Occurrences(a + b, c) == Occurrences(a, c) + Occurrences(b, c)
    decreases |b|
  {
    if |b| == 0 {
      assert a + b == a;
    } else {
      var b' := b[..|b| - 1];
      assert (a + b)[..|a + b| - 1] == a + b';
      OccurrencesAppend(a, b', c);
    }
  }

  lemma {:induction false} OccurrencesRepeat(d: DeviceCall, n: nat, c: DeviceCall)
    requires d != c
    ensures Occurrences(Repeat(d, n), c) == 0
  {
    if n > 0 {
      assert Repeat(d, n)[..n - 1] == Repeat(d, n - 1);
      OccurrencesRepeat(d, n - 1, c);
    }
  }

  /** The reply the capture wait's last answer leads to. */
  function RfReplyOf(r: PollResult): RfReply {
    match r
    case Received(d) => RfLearned(ToHex(d))
    case TimedOut => NoDataFound
    case Raised => RfFailed
  }

  /** One run of `sweep`, phase by phase, on the session it shares with the status pages. */
  class SweepHandler {
    const session: RfSession
    var step: Step
    var calls: seq<DeviceCall>

    /**
     * `cancel_sweep_frequency` has been called exactly when the sweep missed the frequency,
     * and only then.
     */
    predicate CancelsOnlyOnMiss()
      reads this
    {
      Occurrences(calls, CancelSweepFrequency) == if step == Done(FrequencyNotFound) then 1 else 0
    }

    /**
     * The start of `sweep`: reset the globals, initialise the device, authenticate and start
     * the frequency sweep. A descriptor `initDevice` refuses fails the request right there.
     */
    constructor(session: RfSession, dtype: string, host: string, mac: string)
      modifies session
      ensures this.session == session
      ensures !session.continueToSweep && !session.sweepStatus
      ensures InitDevice(dtype, host, mac).Err? ==>
        session.message == "" && step == Done(RfFailed) && calls == []
      ensures InitDevice(dtype, host, mac).Ok? ==>
        session.message == LearningFrequency && step == Sweeping && calls == [Auth, SweepFrequency]
      ensures CancelsOnlyOnMiss()
    {
      this.session := session;
      session.continueToSweep := false;
      session.message := "";
      session.sweepStatus := false;
      if InitDevice(dtype, host, mac).Err? {
        step := Done(RfFailed);
        calls := [];
      } else {
        step := Sweeping;
        calls := [Auth, SweepFrequency];
        session.message := LearningFrequency;
      }
    }

    /**
     * The frequency wait. Found: report "1 of 2". Missed after `Timeout` polls: report it,
     * cancel the sweep once and end the request.
     */
    method SweepForFrequency(check: nat -> bool) returns (polls: nat)
      requires step == Sweeping && CancelsOnlyOnMiss()
      modifies this, session
      ensures session.continueToSweep == old(session.continueToSweep)
      ensures session.sweepStatus == old(session.sweepStatus)
      ensures 1 <= polls <= Timeout && forall u :: 1 <= u < polls ==> !check(u)
      ensures check(polls) ==>
        session.message == FoundFirst && step == FrequencyFound
        && calls == old(calls) + Repeat(CheckFrequency, polls)
      ensures !check(polls) ==>
        polls == Timeout && session.message == FrequencyMissing && step == Done(FrequencyNotFound)
        && calls == old(calls) + Repeat(CheckFrequency, Timeout) + [CancelSweepFrequency]
      ensures CancelsOnlyOnMiss()
    {
      var found;
      found, polls := PollForFrequency(check);
      OccurrencesAppend(calls, Repeat(CheckFrequency, polls), CancelSweepFrequency);
      OccurrencesRepeat(CheckFrequency, polls, CancelSweepFrequency);
      calls := calls + Repeat(CheckFrequency, polls);
      if found {
        session.message := FoundFirst;
        step := FrequencyFound;
      } else {
        session.message := FrequencyMissing;
        OccurrencesAppend(calls, [CancelSweepFrequency], CancelSweepFrequency);
        assert Occurrences([CancelSweepFrequency], CancelSweepFrequency) == 1 by {
          assert [CancelSweepFrequency][..0] == [];
        }
        calls := calls + [CancelSweepFrequency];
        step := Done(FrequencyNotFound);
      }
    }

    /** One second after the frequency is found: tell the operator to release the button. */
    method AnnounceRelease()
      requires step == FrequencyFound && CancelsOnlyOnMiss()
      modifies this, session
      ensures session.message == LetGo && session.sweepStatus
      ensures session.continueToSweep == old(session.continueToSweep)
      ensures step == WaitingForContinue && calls == old(calls)
      ensures CancelsOnlyOnMiss()
    {
      session.message := LetGo;
      session.sweepStatus := true;
      step := WaitingForContinue;
    }

    /**
     * One evaluation of the guard of the busy wait on `_continu_to_sweep`: still false, ask
     * for the continue button; true, end the wait and ask for the button to learn.
     */
    method AwaitContinue()
      requires step == WaitingForContinue && CancelsOnlyOnMiss()
      modifies this, session
      ensures session.continueToSweep == old(session.continueToSweep)
      ensures calls == old(calls)
      ensures !session.continueToSweep ==>
        session.message == ClickContinue && session.sweepStatus == old(session.sweepStatus)
        && step == WaitingForContinue
      ensures session.continueToSweep ==>
        session.message == PressToLearn && !session.sweepStatus && step == Capturing
      ensures CancelsOnlyOnMiss()
    {
      if !session.continueToSweep {
        session.message := ClickContinue;
      } else {
        session.message := PressToLearn;
        session.sweepStatus := false;
        step := Capturing;
      }
    }

    /**
     * Ask the device for the packet and wait for it: data is returned as hex text, a spent
     * budget reports "No Data Found", and any other exception fails the request as it is.
     */
    method CapturePacket(check: nat -> CheckData) returns (polls: nat)
      requires step == Capturing && CancelsOnlyOnMiss()
      modifies this, session
      ensures session.continueToSweep == old(session.continueToSweep)
      ensures session.sweepStatus == old(session.sweepStatus)
      ensures 1 <= polls <= Timeout && forall u :: 1 <= u < polls ==> NotReady(check(u))
      ensures NotReady(check(polls)) ==> polls == Timeout
      ensures calls == old(calls) + [FindRfPacket] + Repeat(CheckDataCall, polls)
      ensures step == Done(RfReplyOf(Outcome(check(polls))))
      ensures check(polls).Ready? ==> session.message == Completed
      ensures NotReady(check(polls)) ==> session.message == NoData
      ensures check(polls).Failed? ==> session.message == old(session.message)
      ensures CancelsOnlyOnMiss()
    {
      var r;
      r, polls := PollForData(check);
      var added := [FindRfPacket] + Repeat(CheckDataCall, polls);
      OccurrencesAppend([FindRfPacket], Repeat(CheckDataCall, polls), CancelSweepFrequency);
      assert Occurrences([FindRfPacket], CancelSweepFrequency) == 0 by {
        assert [FindRfPacket][..0] == [];
      }
      OccurrencesRepeat(CheckDataCall, polls, CancelSweepFrequency);
      OccurrencesAppend(calls, added, CancelSweepFrequency);
      calls := calls + added;
      step := Done(RfReplyOf(r));
      if r.Received? {
        session.message := Completed;
      } else if r.TimedOut? {
        session.message := NoData;
      }
    }
  }

  /** The reply of `/rf/learn` for a descriptor and the device's answers over time. */
  function RfReference(dtype: string, host: string, mac: string,
                       checkFrequency: nat -> bool, checkData: nat -> CheckData): RfReply
  {
    if InitDevice(dtype, host, mac).Err? then RfFailed
    else if !checkFrequency(FirstWhere(checkFrequency, 1)) then FrequencyNotFound
    else RfReplyOf(Outcome(checkData(FirstWhere(Answered(checkData), 1))))
  }

  /**
   * A whole `/rf/learn` request: the handler runs its phases in order, and while it waits
   * the operator's `/rf/continue` arrives after `pressAfter` evaluations of the wait's guard.
   */
  method Learn(session: RfSession, dtype: string, host: string, mac: string,
               checkFrequency: nat -> bool, pressAfter: nat, checkData: nat -> CheckData)
    returns (reply: RfReply, handler: SweepHandler)
    modifies session
    ensures fresh(handler) && handler.session == session
    ensures handler.step == Done(reply)
    ensures reply == RfReference(dtype, host, mac, checkFrequency, checkData)
    ensures Occurrences(handler.calls, CancelSweepFrequency) == if reply == FrequencyNotFound then 1 else 0
  {
    handler := new SweepHandler(session, dtype, host, mac);
    if handler.step == Sweeping {
      var swept := handler.SweepForFrequency(checkFrequency);
      FirstWhereIs(checkFrequency, swept);
      if handler.step == FrequencyFound {
        handler.AnnounceRelease();
        var waited := 0;
        while handler.step == WaitingForContinue
          invariant handler.session == session
          invariant handler.step == WaitingForContinue || handler.step == Capturing
          invariant handler.CancelsOnlyOnMiss()
          invariant waited <= pressAfter + 1
          invariant waited <= pressAfter ==> !session.continueToSweep
          invariant waited > pressAfter ==> handler.step == Capturing
          decreases pressAfter + 1 - waited
        {
          if waited == pressAfter {
            var _ := session.Continue();
          }
          handler.AwaitContinue();
          waited := waited + 1;
        }
        var captured := handler.CapturePacket(checkData);
        FirstWhereIs(Answered(checkData), captured);
      }
    }
    reply := handler.step.reply;
  }

  /** The bytes of the example below, each as two lower-case hex digits. */
  lemma ExampleByteHex()
    ensures Hex2(0x26) == "26" && Hex2(0) == "00" && Hex2(4) == "04" && Hex2(10) == "0a"
    ensures Hex2(20) == "14" && Hex2(30) == "1e" && Hex2(0x0d) == "0d" && Hex2(5) == "05"
  {
  }

  /** Hex text of a byte followed by more bytes. */
  lemma ToHexCons(b: byte, rest: seq<byte>)
    ensures ToHex([b] + rest) == Hex2(b) + ToHex(rest)
  {
    assert ([b] + rest)[1..] == rest;
  }

  /** Hex text of two byte strings one after the other. */
  lemma {:induction false} ToHexAppend(a: seq<byte>, b: seq<byte>)
    ensures ToHex(a + b) == ToHex(a) + ToHex(b)
    decreases |a|
  {
    if |a| == 0 {
      assert a + b == b;
    } else {
      assert (a + b)[1..] == a[1..] + b;
      ToHexAppend(a[1..], b);
    }
  }

  /** The header bytes of the example packet below. */
  lemma ExamplePacketHeadHex()
    ensures ToHex([0x26, 0, 4, 0]) == "26000400"
  {
    ExampleByteHex();
    ToHexCons(0, []);
    assert ToHex([]) == "";
    assert [0] + [] == [0];
    assert ToHex([0]) == "00";
    ToHexCons(4, [0]);
    assert [4] + [0] == [4, 0];
    assert ToHex([4, 0]) == "0400";
    ToHexCons(0, [4, 0]);
    assert [0] + [4, 0] == [0, 4, 0];
    assert ToHex([0, 4, 0]) == "000400";
    ToHexCons(38, [0, 4, 0]);
    assert [38] + [0, 4, 0] == [38, 0, 4, 0];
    assert ToHex([38, 0, 4, 0]) == "26000400";
  }

  /** The last five bytes of the example packet below. */
  lemma ExamplePacketTailHex()
    ensures ToHex([10, 20, 30, 0x0d, 0x05]) == "0a141e0d05"
  {
    ExampleByteHex();
    ToHexCons(5, []);
    assert ToHex([]) == "";
    assert [5] + [] == [5];
    assert ToHex([5]) == "05";
    ToHexCons(13, [5]);
    assert [13] + [5] == [13, 5];
    assert ToHex([13, 5]) == "0d05";
    ToHexCons(30, [13, 5]);
    assert [30] + [13, 5] == [30, 13, 5];
    assert ToHex([30, 13, 5]) == "1e0d05";
    ToHexCons(20, [30, 13, 5]);
    assert [20] + [30, 13, 5] == [20, 30, 13, 5];
    assert ToHex([20, 30, 13, 5]) == "141e0d05";
    ToHexCons(10, [20, 30, 13, 5]);
    assert [10] + [20, 30, 13, 5] == [10, 20, 30, 13, 5];
    assert ToHex([10, 20, 30, 13, 5]) == "0a141e0d05";
  }

  /** The packet of the example below, cut after its header. */
  lemma ExamplePacketSplit()
    ensures ToHex([0x26, 0, 4, 0, 10, 20, 30, 0x0d, 0x05]) == ToHex([0x26, 0, 4, 0]) + ToHex([10, 20, 30, 0x0d, 0x05])
  {
    var head: seq<byte> := [0x26, 0, 4, 0];
    var tail: seq<byte> := [10, 20, 30, 0x0d, 0x05];
    assert head + tail == [0x26, 0, 4, 0, 10, 20, 30, 0x0d, 0x05];
    ToHexAppend(head, tail);
  }

  /** The packet of the example below, in the hex text the reply carries. */
  lemma ExamplePacketHex()
    ensures ToHex([0x26, 0, 4, 0, 10, 20, 30, 0x0d, 0x05]) == "260004000a141e0d05"
  {
    ExamplePacketSplit();
    ExamplePacketHeadHex();
    ExamplePacketTailHex();
  }

  /**
   * A learning run on a discovered device: the frequency is found at the third second, the
   * operator continues at once, and the packet arrives at the second second of the capture,
   * so the reply carries that packet as hex text.
   */
  method LearnExample(code: nat, host: string, mac: seq<byte>) returns (reply: RfReply)
    ensures reply == RfLearned("260004000a141e0d05")
  {
    var packet: seq<byte> := [0x26, 0, 4, 0, 10, 20, 30, 0x0d, 0x05];
    var checkFrequency := (t: nat) => t >= 3;
    var checkData := (t: nat) => if t >= 2 then Ready(packet) else ReadError;
    InitDiscovered(code, host, mac);
    FirstWhereIs(checkFrequency, 3);
    assert checkData(1) == ReadError && checkData(2) == Ready(packet);
    assert !Answered(checkData)(1) && Answered(checkData)(2);
    FirstWhereIs(Answered(checkData), 2);
    var session := new RfSession();
    var handler;
    reply, handler := Learn(session, Hex(code), host, ToHex(mac), checkFrequency, 0, checkData);
    ExamplePacketHex();
  }
}
