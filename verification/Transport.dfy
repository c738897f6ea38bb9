/** The ODriveTransport interface as the controller sees it: an adversary that answers
    every operation, given everything that happened before, and a log of the traffic. */
module Transport {
  import opened Numeric

  // ---- endpoints (generated table, firmware 0.5.1) ----

  const PER_AXIS_OFFSET := 229
  const FIRST_AXIS_ENDPOINT := 71
  const LAST_AXIS_ENDPOINT := 299

  const VBUS_VOLTAGE := 1
  const CAN_ERROR := 529
  const AXIS_ERROR := 71
  const REQUESTED_STATE := 74
  const WATCHDOG_TIMEOUT := 87
  const ENABLE_WATCHDOG := 88
  const FET_TEMPERATURE := 118
  const MOTOR_TEMPERATURE := 123
  const MOTOR_ERROR := 132
  const IQ_MEASURED := 150
  const TORQUE_CONSTANT := 177
  const CONTROLLER_ERROR := 193
  const INPUT_POS := 194
  const INPUT_VEL := 195
  const INPUT_TORQUE := 196
  const CONTROL_MODE := 208
  const ENCODER_ERROR := 236
  const POS_ESTIMATE := 243
  const VEL_ESTIMATE := 249
  const WATCHDOG_FEED := 298
  const CLEAR_ERRORS := 299

  const AXIS_STATE_IDLE := 1
  const AXIS_STATE_CLOSED_LOOP := 8

  predicate AxisBase(base: int) { FIRST_AXIS_ENDPOINT <= base <= LAST_AXIS_ENDPOINT }

  function AxisEndpoint(base: int, axis: int): (e: int)
    ensures AxisBase(base) && axis == 0 ==> e == base
    ensures AxisBase(base) && axis == 1 ==> e == base + PER_AXIS_OFFSET
  {
    ToInt16(base + PER_AXIS_OFFSET * axis)
  }

  /** Per-axis endpoints of the two axes collide neither with each other nor with a global one. */
  lemma AxisEndpointInjective(b1: int, a1: int, b2: int, a2: int)
    requires AxisBase(b1) && AxisBase(b2) && 0 <= a1 <= 1 && 0 <= a2 <= 1
    ensures AxisEndpoint(b1, a1) == AxisEndpoint(b2, a2) <==> b1 == b2 && a1 == a2
    ensures AxisEndpoint(b1, a1) != VBUS_VOLTAGE && AxisEndpoint(b1, a1) != CAN_ERROR
    ensures AxisEndpoint(b1, a1) > 4
  {
  }

  // ---- operations and traffic ----

  datatype Wire = F32(x: Num) | I32(i: int) | Flag(b: bool)

  /** Open stands for the creation of a transport and its initialize(). */
  datatype Op =
    | Open
    | Read(serial: int, endpoint: int)
    | Write(serial: int, endpoint: int, value: Wire)
    | Call(serial: int, endpoint: int)

  /** A read delivers the raw register twice: as a float and as a 32-bit word. */
  datatype Reply = Reply(status: int, num: Num, word: int)

  datatype Event = Event(op: Op, reply: Reply)

  type Log = seq<Event>

  type Env = (Log, Op) -> Reply

  const LIBUSB_ERROR_NO_DEVICE := -4
  const LIBUSB_ERROR_TIMEOUT := -7

  predicate FailFast(status: int) {
    status == LIBUSB_ERROR_TIMEOUT || status == LIBUSB_ERROR_NO_DEVICE
  }

  ghost predicate NoFailFast(env: Env) {
    forall h: Log, op: Op :: !FailFast(env(h, op).status)
  }

  function Do(env: Env, log: Log, op: Op): Log {
    log + [Event(op, env(log, op))]
  }

  /** Issue the operations in order and stop at the first non-zero status. */
  function DoAll(env: Env, log: Log, ops: seq<Op>): (r: (int, Log))
    decreases |ops|
  {
    if ops == [] then (0, log)
    else
      var r := env(log, ops[0]);
      var next := log + [Event(ops[0], r)];
      if r.status != 0 then (r.status, next) else DoAll(env, next, ops[1..])
  }

  /** Log position k is an operation whose predecessors were exactly `before`, all successful. */
  ghost predicate After(log: Log, k: nat, before: seq<Op>) {
    && |before| <= k <= |log|
    && forall p | k - |before| <= p < k ::
         log[p].op == before[p - (k - |before|)] && log[p].reply.status == 0
  }

  /** What DoAll appends: a prefix of the operations, successful but for the last one if the
      status is non-zero, each answered by the environment at its place. */
  ghost predicate Issued(env: Env, log: Log, ops: seq<Op>, r: (int, Log)) {
    && |log| <= |r.1| <= |log| + |ops|
    && r.1[..|log|] == log
    && (r.0 == 0 ==> |r.1| == |log| + |ops|)
    && (r.0 != 0 ==> |r.1| > |log| && r.1[|r.1| - 1].reply.status == r.0)
    && forall k | |log| <= k < |r.1| ::
         && r.1[k] == Event(ops[k - |log|], env(r.1[..k], ops[k - |log|]))
         && (r.0 == 0 || k < |r.1| - 1 ==> r.1[k].reply.status == 0)
  }

  lemma {:induction false} DoAllIssued(env: Env, log: Log, ops: seq<Op>)
    ensures Issued(env, log, ops, DoAll(env, log, ops))
    decreases |ops|
  {
    if ops != [] {
      var reply := env(log, ops[0]);
      var next := log + [Event(ops[0], reply)];
      assert next[..|log|] == log;
      if reply.status == 0 {
        DoAllIssued(env, next, ops[1..]);
        var r := DoAll(env, next, ops[1..]);
        assert r.1[..|log|] == r.1[..|next|][..|log|];
        assert r.1[|log|] == r.1[..|next|][|log|];
      }
    }
  }

  /** Every event DoAll adds stands directly after its predecessors in the list. */
  lemma DoAllAfter(env: Env, log: Log, ops: seq<Op>, k: nat)
    requires |log| <= k < |DoAll(env, log, ops).1|
    ensures k - |log| < |ops|
    ensures After(DoAll(env, log, ops).1, k, ops[..k - |log|])
    ensures DoAll(env, log, ops).1[k].op == ops[k - |log|]
  {
    DoAllIssued(env, log, ops);
  }

  /** One step of DoAll at position k of the list. */
  lemma DoAllStep(env: Env, log: Log, ops: seq<Op>, k: nat)
    requires k < |ops|
    ensures DoAll(env, log, ops[k..]) ==
            var r := env(log, ops[k]);
            var next := log + [Event(ops[k], r)];
            if r.status != 0 then (r.status, next) else DoAll(env, next, ops[k + 1..])
  {
    assert ops[k..][1..] == ops[k + 1..];
  }

  lemma EmptyDoAll(env: Env, log: Log)
    ensures DoAll(env, log, []) == (0, log)
  {
  }

  /** read_with_retry and write_with_retry: errno names are applied to whatever status the
      transport returned; only ETIMEDOUT, EBUSY and EIO are retried. */
  predicate Retryable(status: int) { status == -110 || status == -16 || status == -5 }

  const USB_RETRIES: nat := 3

  function Retry(env: Env, log: Log, op: Op, attempts: nat): (r: (int, Log))
    requires attempts > 0
    ensures |r.1| > |log|
    decreases attempts
  {
    var r := env(log, op);
    var next := log + [Event(op, r)];
    if r.status != 0 && Retryable(r.status) && attempts > 1
    then Retry(env, next, op, attempts - 1)
    else (r.status, next)
  }

  /** Every attempt but the last failed with ETIMEDOUT, EBUSY or EIO, and the last one is final: it did not
      fail that way, or it was the last one allowed. */
  lemma {:induction false} RetryMeaning(env: Env, log: Log, op: Op, attempts: nat)
    requires attempts > 0
    ensures var (status, log') := Retry(env, log, op, attempts);
            && |log| < |log'| <= |log| + attempts && log'[..|log|] == log
            && (forall k | |log| <= k < |log'| :: log'[k].op == op)
            && (forall k | |log| <= k < |log'| - 1 :: log'[k].reply.status in {-110, -16, -5})
            && status == log'[|log'| - 1].reply.status
            && (status in {-110, -16, -5} ==> |log'| == |log| + attempts)
    decreases attempts
  {
    var e := Event(op, env(log, op));
    var next := log + [e];
    if Retryable(e.reply.status) && attempts > 1 {
      RetryMeaning(env, next, op, attempts - 1);
      var log' := Retry(env, log, op, attempts).1;
      assert log'[..|log|] == log'[..|next|][..|log|];
      assert log'[|log|] == log'[..|next|][|log|];
    }
  }

  const LIBUSB_ERROR_IO := -1

  /** The retryable statuses are errno values, but the USB transport returns libusb codes: a timeout,
      a lost device or an I/O error is never tried again. */
  lemma UsbErrorsAreFinal(env: Env, log: Log, op: Op)
    requires FailFast(env(log, op).status) || env(log, op).status == LIBUSB_ERROR_IO
    ensures Retry(env, log, op, USB_RETRIES).1 == Do(env, log, op)
  {
  }

  // ---- what a log says ----

  predicate OnAxis(op: Op, serial: int, axis: int) {
    && !op.Open?
    && op.serial == serial
    && AxisEndpoint(FIRST_AXIS_ENDPOINT, axis) <= op.endpoint <= AxisEndpoint(LAST_AXIS_ENDPOINT, axis)
  }

  /** The part of the traffic that concerns one axis. */
  function AxisTrace(log: Log, serial: int, axis: int): Log {
    if log == [] then []
    else
      var e := log[|log| - 1];
      AxisTrace(log[..|log| - 1], serial, axis) + if OnAxis(e.op, serial, axis) then [e] else []
  }

  lemma AxisTraceAppend(log: Log, e: Event, serial: int, axis: int)
    ensures AxisTrace(log + [e], serial, axis) ==
            AxisTrace(log, serial, axis) + if OnAxis(e.op, serial, axis) then [e] else []
  {
    assert (log + [e])[..|log|] == log;
  }

  predicate WritesTo(op: Op, serial: int, endpoint: int) {
    op.Write? && op.serial == serial && op.endpoint == endpoint
  }

  /** The drive register as last written, attempted writes included. */
  function LastWrite(log: Log, serial: int, endpoint: int): Option<Event> {
    if log == [] then None
    else
      var e := log[|log| - 1];
      if WritesTo(e.op, serial, endpoint) then Some(e) else LastWrite(log[..|log| - 1], serial, endpoint)
  }

  predicate WrittenOk(log: Log, serial: int, endpoint: int, value: Wire) {
    var w := LastWrite(log, serial, endpoint);
    w.Some? && w.value.op == Write(serial, endpoint, value) && w.value.reply.status == 0
  }

  lemma LastWriteAppend(log: Log, e: Event, serial: int, endpoint: int)
    ensures LastWrite(log + [e], serial, endpoint) ==
            if WritesTo(e.op, serial, endpoint) then Some(e) else LastWrite(log, serial, endpoint)
  {
    assert (log + [e])[..|log|] == log;
  }

  /** `log'` extends `log`, and everything added satisfies p. */
  ghost predicate Extends(log: Log, log': Log, p: Op -> bool) {
    && |log| <= |log'| && log'[..|log|] == log
    && forall k | |log| <= k < |log'| :: p(log'[k].op)
  }

  lemma ExtendsTransitive(a: Log, b: Log, c: Log, p: Op -> bool)
    requires Extends(a, b, p) && Extends(b, c, p)
    ensures Extends(a, c, p)
  {
    assert c[..|a|] == c[..|b|][..|a|];
    forall k | |a| <= k < |c| ensures p(c[k].op) {
      if k < |b| { assert c[..|b|][k] == c[k]; }
    }
  }

  lemma DoAllExtends(env: Env, log: Log, ops: seq<Op>, p: Op -> bool)
    requires forall i | 0 <= i < |ops| :: p(ops[i])
    ensures Extends(log, DoAll(env, log, ops).1, p)
  {
    DoAllIssued(env, log, ops);
  }

  lemma {:induction false} LastWriteFrame(log: Log, log': Log, serial: int, endpoint: int, p: Op -> bool)
    requires Extends(log, log', p)
    requires forall op :: p(op) ==> !WritesTo(op, serial, endpoint)
    ensures LastWrite(log', serial, endpoint) == LastWrite(log, serial, endpoint)
    decreases |log'|
  {
    if |log'| == |log| {
      assert log' == log;
    } else {
      var n := |log'| - 1;
      assert log'[..n][..|log|] == log'[..|log|];
      LastWriteFrame(log, log'[..n], serial, endpoint, p);
    }
  }

  predicate ReadsFrom(op: Op, serial: int, endpoint: int) {
    op.Read? && op.serial == serial && op.endpoint == endpoint
  }

  /** The answer to the last read of a register. */
  function LastRead(log: Log, serial: int, endpoint: int): Option<Reply> {
    if log == [] then None
    else
      var e := log[|log| - 1];
      if ReadsFrom(e.op, serial, endpoint) then Some(e.reply) else LastRead(log[..|log| - 1], serial, endpoint)
  }

  lemma {:induction false} LastReadAt(log: Log, p: nat)
    requires p < |log| && log[p].op.Read?
    requires forall q | p < q < |log| :: !ReadsFrom(log[q].op, log[p].op.serial, log[p].op.endpoint)
    ensures LastRead(log, log[p].op.serial, log[p].op.endpoint) == Some(log[p].reply)
    decreases |log|
  {
    var m := |log| - 1;
    if p < m {
      assert log[..m][p] == log[p];
      LastReadAt(log[..m], p);
    }
  }

  lemma {:induction false} LastReadFrame(log: Log, log': Log, serial: int, endpoint: int, p: Op -> bool)
    requires Extends(log, log', p)
    requires forall op :: p(op) ==> !ReadsFrom(op, serial, endpoint)
    ensures LastRead(log', serial, endpoint) == LastRead(log, serial, endpoint)
    decreases |log'|
  {
    if |log'| == |log| {
      assert log' == log;
    } else {
      var n := |log'| - 1;
      assert log'[..n][..|log|] == log'[..|log|];
      LastReadFrame(log, log'[..n], serial, endpoint, p);
    }
  }

  // ---- the bus object ----

  /** The other end of the transport. `log` records the traffic and nothing else. */
  class Bus {
    const env: Env
    var log: Log

    constructor (env: Env)
      ensures this.env == env && log == []
    {
      this.env := env;
      log := [];
    }

    method Perform(op: Op) returns (r: Reply)
      modifies this
      ensures r == env(old(log), op)
      ensures log == Do(env, old(log), op)
    {
      r := env(log, op);
      log := log + [Event(op, r)];
    }

    method PerformWithRetry(op: Op, maxAttempts: nat) returns (r: Reply)
      requires maxAttempts > 0
      modifies this
      ensures (r.status, log) == Retry(env, old(log), op, maxAttempts)
      ensures log != [] && log[|log| - 1] == Event(op, r)
    {
      var attempt := 0;
      while true
        invariant attempt < maxAttempts
        invariant Retry(env, log, op, maxAttempts - attempt) == Retry(env, old(log), op, maxAttempts)
        decreases maxAttempts - attempt
      {
        r := Perform(op);
        if r.status == 0 {
          break;
        }
        if Retryable(r.status) && attempt < maxAttempts - 1 {
          attempt := attempt + 1;
        } else {
          break;
        }
      }
    }
  }
}
