/**
 * The bounded waits of the learning handlers: sleep one second, ask the device, and stop
 * at the first answer or once `TIMEOUT` seconds have passed. The clock is simulated: it
 * starts at 0 when a wait starts and only the one-second sleeps advance it, so the device's
 * answer at second `t` is given as a function of `t`.
 */
module Polling {
  import opened Results
  import opened Bytes
  import opened DeviceTypes

  /** `TIMEOUT`, in seconds. */
  const Timeout: nat := 30

  /** The answers of `check_data`: data, either of the two "not yet" exceptions, or any other failure. */
  datatype CheckData = Ready(data: seq<byte>) | ReadError | StorageError | Failed

  /** `ReadError` and `StorageError` are caught and the wait goes on. */
  predicate NotReady(c: CheckData) {
    c.ReadError? || c.StorageError?
  }

  /** How a data wait ends: with data, with the budget spent, or with an exception that escapes. */
  datatype PollResult = Received(data: seq<byte>) | TimedOut | Raised

  /** The result the last answer of a wait gives. */
  function Outcome(c: CheckData): (r: PollResult)
    ensures r.TimedOut? <==> NotReady(c)
    ensures r.Received? <==> c.Ready?
    ensures r.Received? ==> r.data == c.data
  {
    match c
    case Ready(d) => Received(d)
    case Failed => Raised
    case _ => TimedOut
  }

  /**
   * The reference for every wait: the first second from `t` on at which `stop` holds, or
   * `Timeout` when it holds at none of them.
   */
  function FirstWhere(stop: nat -> bool, t: nat): (r: nat)
    requires 1 <= t <= Timeout
    ensures t <= r <= Timeout
    ensures stop(r) || r == Timeout
    ensures forall u :: t <= u < r ==> !stop(u)
    decreases Timeout - t
  {
    if stop(t) || t == Timeout then t else FirstWhere(stop, t + 1)
  }

  /** A wait that polled up to `n` and met `stop` first there (or ran out) stopped at `FirstWhere`. */
  lemma FirstWhereIs(stop: nat -> bool, n: nat)
    requires 1 <= n <= Timeout
    requires forall u :: 1 <= u < n ==> !stop(u)
    requires stop(n) || n == Timeout
    ensures FirstWhere(stop, 1) == n
  {
  }

  /** The seconds at which a `check_data` wait stops. */
  function Answered(check: nat -> CheckData): nat -> bool {
    (u: nat) => !NotReady(check(u))
  }

  /**
   * The `check_data` wait of IR learning and RF capture: polls at seconds 1, 2, ... and
   * stops at the first answer that is not "not yet", or after the poll at second `Timeout`.
   */
  method PollForData(check: nat -> CheckData) returns (r: PollResult, polls: nat)
    ensures 1 <= polls <= Timeout
    ensures forall u :: 1 <= u < polls ==> NotReady(check(u))
    ensures NotReady(check(polls)) ==> polls == Timeout
    ensures r == Outcome(check(polls))
  {
    var clock: nat := 0;
    while clock < Timeout
      invariant clock <= Timeout
      invariant forall u :: 1 <= u <= clock ==> NotReady(check(u))
    {
      clock := clock + 1;
      var c := check(clock);
      if !NotReady(c) {
        return Outcome(c), clock;
      }
    }
    return TimedOut, Timeout;
  }

  /**
   * The `check_frequency` wait of the RF sweep: polls at seconds 1, 2, ... and stops at the
   * first `true`, or after the poll at second `Timeout`.
   */
  method PollForFrequency(check: nat -> bool) returns (found: bool, polls: nat)
    ensures 1 <= polls <= Timeout
    ensures forall u :: 1 <= u < polls ==> !check(u)
    ensures found == check(polls)
    ensures !found ==> polls == Timeout
  {
    var clock: nat := 0;
    while clock < Timeout
      invariant clock <= Timeout
      invariant forall u :: 1 <= u <= clock ==> !check(u)
    {
      clock := clock + 1;
      if check(clock) {
        return true, clock;
      }
    }
    return false, Timeout;
  }

  /** The reply of `/ir/learn`: the learned code as hex text, no data, or a request that fails. */
  datatype IrReply = IrLearned(data: string) | NoDataReceived | IrFailed

  /** The reply the outcome of the IR wait leads to. */
  function IrReplyOf(r: PollResult): IrReply {
    match r
    case Received(d) => IrLearned(ToHex(d))
    case TimedOut => NoDataReceived
    case Raised => IrFailed
  }

  /** The reply of `/ir/learn` for a descriptor and the device's answers over time. */
  function IrReference(dtype: string, host: string, mac: string, check: nat -> CheckData): IrReply {
    if InitDevice(dtype, host, mac).Err? then IrFailed
    else IrReplyOf(Outcome(check(FirstWhere(Answered(check), 1))))
  }

  /**
   * `learnir`: initialise the device from the descriptor, enter learning mode, wait for
   * data and answer with its hex text. A descriptor `initDevice` refuses fails the request
   * before any poll.
   */
  method LearnIr(dtype: string, host: string, mac: string, check: nat -> CheckData)
    returns (reply: IrReply, polls: nat)
    ensures InitDevice(dtype, host, mac).Err? ==> reply == IrFailed && polls == 0
    ensures InitDevice(dtype, host, mac).Ok? ==>
      1 <= polls <= Timeout
      && (forall u :: 1 <= u < polls ==> NotReady(check(u)))
      && (NotReady(check(polls)) <==> reply == NoDataReceived)
      && (reply == NoDataReceived ==> polls == Timeout)
      && (check(polls).Failed? <==> reply == IrFailed)
      && (check(polls).Ready? <==> reply.IrLearned?)
    ensures reply.IrLearned? ==> check(polls).Ready? && FromHex(reply.data) == Ok(check(polls).data)
    ensures reply == IrReference(dtype, host, mac, check)
  {
    if InitDevice(dtype, host, mac).Err? {
      return IrFailed, 0;
    }
    var r;
    r, polls := PollForData(check);
    reply := IrReplyOf(r);
    FirstWhereIs(Answered(check), polls);
    if reply.IrLearned? {
      FromHexToHex(r.data);
    }
  }
}
