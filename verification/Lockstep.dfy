/** A freshly started thread beside an interface whose joints are at no level: what the first cycle of both
    makes of one joint, whatever the interface remembers of it, and when the two outcomes are the same. */
module Lockstep {
  import opened Numeric
  import opened Transport
  import opened Joints
  import opened Axis
  import opened Cycle
  import opened Runs
  import opened Worker
  import opened Refinement
  import Frozen
  import Isolation
  import ThreadWire

  const NAN3 := Triple(NaN, NaN, NaN)
  const ZERO3 := Triple(ZERO, ZERO, ZERO)

  // ---- the first poll ----

  /** A poll changes what was measured and nothing else of a slot. */
  predicate SlotReadFrame(x: Slot, y: Slot) {
    y == x.(core := x.core.(kin := y.core.kin, lastValidPos := y.core.lastValidPos,
                            lastValidVel := y.core.lastValidVel, errs := y.core.errs,
                            fetTemp := y.core.fetTemp, motorTemp := y.core.motorTemp,
                            readError := y.core.readError, telemetryValid := y.core.telemetryValid,
                            healthy := y.core.healthy))
  }

  lemma LoseFrame(x: Slot, error: int)
    ensures SlotReadFrame(x, x.(core := LoseSlot(x).core.(readError := error)))
  {
  }

  lemma AbsorbSlotFrame(x: Slot, s: Sample)
    ensures SlotReadFrame(x, AbsorbSlot(x, s))
  {
    hide FeedbackValid, AllClear, HeldKin, Signed, LoseSlot;
    LoseFrame(x, -1);
  }

  lemma PollFrame(c: Context, log: Log, x: Slot)
    ensures SlotReadFrame(x, PollSlot(c, log, x).0)
  {
    hide DoAll, TelemetryOps, SampleOf, AbsorbSlot, LoseSlot, SlotReadFrame;
    var r := DoAll(c.env, log, TelemetryOps(x.cfg));
    DoAllIssued(c.env, log, TelemetryOps(x.cfg));
    LoseFrame(x, r.0);
    if r.0 == 0 {
      AbsorbSlotFrame(x, SampleOf(x.torque, r.1[|log|..]));
    }
  }

  predicate SameMeasured(a: Core, b: Core) {
    && a.kin == b.kin && a.lastValidPos == b.lastValidPos && a.lastValidVel == b.lastValidVel
    && a.errs == b.errs && a.fetTemp == b.fetTemp && a.motorTemp == b.motorTemp
    && a.readError == b.readError && a.telemetryValid == b.telemetryValid && a.healthy == b.healthy
  }

  /** Nothing was measured of the joint since it was configured, and it stands at zero. */
  predicate Unmeasured(core: Core) {
    && core.kin.pos == ZERO && core.lastValidVel == ZERO
    && core.errs == NO_REGISTERS && core.fetTemp == NaN && core.motorTemp == NaN
  }

  /** The poll at this log settles what the joint has measured before, or leaves nothing to settle. */
  predicate PollMatches(c: Context, log: Log, j: Joint) {
    var r := DoAll(c.env, log, TelemetryOps(j.cfg));
    DoAllIssued(c.env, log, TelemetryOps(j.cfg));
    if r.0 != 0 then Unmeasured(j.core)
    else SampleMatches(j, SampleOf(j.torque, r.1[|log|..]))
  }

  /** A sample is judged alike from the last valid position and from zero; rejected, it leaves nothing
      behind of an unmeasured joint only; with an error in a register it holds the joint, and leaves its
      last valid velocity; and without one it replaces all that was measured. */
  predicate SampleMatches(j: Joint, s: Sample) {
    && (FeedbackValid(j.cfg, j.core.lastValidPos, s) <==> FeedbackValid(j.cfg, ZERO, s))
    && if !FeedbackValid(j.cfg, ZERO, s) then Unmeasured(j.core)
       else AllClear(s.errs) || (j.core.kin.pos == ZERO && j.core.lastValidVel == ZERO)
  }

  lemma LoseExactly(j: Joint, error: int)
    requires Frozen.Settled(j.core)
    ensures var x := Started(j);
            SameMeasured(FailJoint(j, error).core, LoseSlot(x).core.(readError := error)) <==> Unmeasured(j.core)
  {
  }

  lemma AcceptExactly(j: Joint, s: Sample)
    requires Frozen.Settled(j.core)
    requires FeedbackValid(j.cfg, j.core.lastValidPos, s) && FeedbackValid(j.cfg, ZERO, s)
    ensures SameMeasured(Absorb(j.cfg, j.core, s), AbsorbSlot(Started(j), s).core) <==>
              AllClear(s.errs) || (j.core.kin.pos == ZERO && j.core.lastValidVel == ZERO)
  {
    hide FeedbackValid, AllClear, Signed;
  }

  lemma RejectExactly(j: Joint, s: Sample)
    requires Frozen.Settled(j.core)
    requires !FeedbackValid(j.cfg, j.core.lastValidPos, s) && !FeedbackValid(j.cfg, ZERO, s)
    ensures SameMeasured(Absorb(j.cfg, j.core, s), AbsorbSlot(Started(j), s).core) <==> Unmeasured(j.core)
  {
    hide FeedbackValid, LoseSlot, SameMeasured, Unmeasured;
    LoseExactly(j, -1);
    RejectedSample(j.core);
  }

  lemma AbsorbExactly(j: Joint, s: Sample)
    requires Frozen.Settled(j.core)
    ensures SameMeasured(Absorb(j.cfg, j.core, s), AbsorbSlot(Started(j), s).core) <==> SampleMatches(j, s)
  {
    hide FeedbackValid, AllClear, Unmeasured, SameMeasured, Absorb, AbsorbSlot;
    var a, b := FeedbackValid(j.cfg, j.core.lastValidPos, s), FeedbackValid(j.cfg, ZERO, s);
    if a && b {
      AcceptExactly(j, s);
    } else if !a && !b {
      RejectExactly(j, s);
    } else {
      AcceptedOnce(j, s);
    }
  }

  lemma AcceptedOnce(j: Joint, s: Sample)
    requires FeedbackValid(j.cfg, j.core.lastValidPos, s) != FeedbackValid(j.cfg, ZERO, s)
    ensures !SameMeasured(Absorb(j.cfg, j.core, s), AbsorbSlot(Started(j), s).core)
  {
    hide FeedbackValid, AllClear, Signed, Hold, HeldKin;
    assert Started(j).core.lastValidPos == ZERO;
  }

  /** What the first poll of a joint at `turn` leaves of it, j', and of the slot of a started thread, x. */
  ghost predicate FirstPoll(c: Context, turn: Option<Log>, j: Joint, j': Joint, x: Slot) {
    && turn.Some?
    && SlotReadFrame(Started(j), x)
    && (SameMeasured(j'.core, x.core) <==> PollMatches(c, turn.value, j))
  }

  lemma PollExactly(c: Context, log: Log, j: Joint)
    requires NoFailFast(c.env) && Frozen.Settled(j.core)
    ensures var (x, status, log') := PollSlot(c, log, Started(j));
            var r := ReadJoint(c, log, j);
            !FailFast(status) && !FailFast(r.status) && log' == r.log && FirstPoll(c, Some(log), j, r.joint, x)
  {
    hide Absorb, AbsorbSlot, TelemetryOps, SampleOf, FeedbackValid, FailJoint, LoseSlot, SameMeasured, Unmeasured;
    hide SampleMatches, SlotReadFrame;
    Isolation.NoFailFastTelemetry(c, log, j);
    PollFrame(c, log, Started(j));
    var r := DoAll(c.env, log, TelemetryOps(j.cfg));
    DoAllIssued(c.env, log, TelemetryOps(j.cfg));
    LoseExactly(j, r.0);
    if r.0 == 0 {
      AbsorbExactly(j, SampleOf(j.torque, r.1[|log|..]));
    }
  }

  lemma {:induction false} PollsLockstep(c: Context, s: Hw, w: Work, i: nat)
    requires NoFailFast(c.env) && i <= |s.joints| == |w.slots| && SameSurroundings(s, w)
    requires forall k | i <= k < |s.joints| :: Frozen.Settled(s.joints[k].core) && w.slots[k] == Started(s.joints[k])
    ensures var p, q := ReadJoints(c, s, i), JointStage(c, w, i);
            && !p.stopped && !q.stopped && SameSurroundings(p.s, q.w)
            && p.s.stats == s.stats && q.w.stats == w.stats
            && (forall k | 0 <= k < i :: p.s.joints[k] == s.joints[k] && q.w.slots[k] == w.slots[k])
            && (forall k | i <= k < |s.joints| ::
                  FirstPoll(c, JointTurn(c, s, i, k), s.joints[k], p.s.joints[k], q.w.slots[k]))
    decreases |s.joints| - i
  {
    hide FailAll, Abort, ReadJoint, PollSlot, FirstPoll, Frozen.Settled, Started;
    if i < |s.joints| {
      PollExactly(c, s.log, s.joints[i]);
      var r := ReadJoint(c, s.log, s.joints[i]);
      var (x, status, log) := PollSlot(c, w.log, w.slots[i]);
      PollsLockstep(c, AfterJointRead(s, i, r), w.(slots := w.slots[i := x], log := log), i + 1);
    }
  }

  /** Joint i, polled for the first time by the thread too. */
  ghost predicate ReadMatches(c: Context, s: Hw, i: nat)
    requires i < |s.joints|
  {
    var turn := ReadTurn(c, s, i);
    turn.Some? ==> PollMatches(c, turn.value, s.joints[i])
  }

  lemma HealthAside(c: Context, turn: Option<Log>, j: Joint, j': Joint, x: Slot)
    requires FirstPoll(c, turn, j.(core := j.core.(healthy := false)), j', x)
    ensures FirstPoll(c, turn, j, j', x)
  {
    hide DoAll, TelemetryOps, SampleOf, FeedbackValid, SlotReadFrame, SameMeasured;
  }

  /** The read phases side by side. */
  lemma ReadsLockstep(c: Context, s: Hw)
    requires NoFailFast(c.env) && s.up && Frozen.AllSettled(s)
    ensures var t, q := ReadSpec(c, s), ReadPart(c, StartedWork(s));
            && !q.stopped && SameSurroundings(t, q.w) && |q.w.slots| == |s.joints|
            && t.stats == s.stats.(readCycles := s.stats.readCycles + 1) && q.w.stats == s.stats
            && forall i: nat | i < |s.joints| ::
                 && SlotReadFrame(Started(s.joints[i]), q.w.slots[i])
                 && (SameMeasured(t.joints[i].core, q.w.slots[i].core) <==> ReadMatches(c, s, i))
  {
    hide ReadSensors, ReadDrives, ReadJoints, SensorStage, DriveStage, JointStage, PollMatches, SameMeasured;
    hide SlotReadFrame, Frozen.Settled, FirstPoll;
    var v := ClearLimiterFlags(StartedWork(s));
    var d := DefaultUnhealthy(s);
    assert v.slots == StartedWork(s).slots;
    SensorsRefine(c, d, v, 0);
    var p, p' := ReadSensors(c, d, 0).s, SensorStage(c, v, 0).w;
    DrivesRefine(c, p, p', 0);
    var q, q' := ReadDrives(c, p, 0).s, DriveStage(c, p', 0).w;
    forall k | 0 <= k < |d.joints| ensures Frozen.Settled(d.joints[k].core) && q'.slots[k] == Started(d.joints[k]) {
      UnhealthySettled(s.joints[k]);
    }
    PollsLockstep(c, q, q', 0);
    forall i: nat | i < |s.joints|
      ensures FirstPoll(c, ReadTurn(c, s, i), s.joints[i], ReadSpec(c, s).joints[i],
                        ReadPart(c, StartedWork(s)).w.slots[i])
    {
      HealthAside(c, ReadTurn(c, s, i), s.joints[i], ReadSpec(c, s).joints[i],
                  ReadPart(c, StartedWork(s)).w.slots[i]);
    }
    FirstPolls(c, s);
  }

  lemma FirstPolls(c: Context, s: Hw)
    requires |ReadPart(c, StartedWork(s)).w.slots| == |s.joints|
    requires forall i: nat | i < |s.joints| ::
               FirstPoll(c, ReadTurn(c, s, i), s.joints[i], ReadSpec(c, s).joints[i],
                         ReadPart(c, StartedWork(s)).w.slots[i])
    ensures var t, q := ReadSpec(c, s), ReadPart(c, StartedWork(s));
            forall i: nat | i < |s.joints| ::
              && SlotReadFrame(Started(s.joints[i]), q.w.slots[i])
              && (SameMeasured(t.joints[i].core, q.w.slots[i].core) <==> ReadMatches(c, s, i))
  {
    hide ReadSpec, ReadPart, ReadTurn, PollMatches, SameMeasured, SlotReadFrame;
  }

  lemma UnhealthySettled(j: Joint)
    ensures var k := j.(core := j.core.(healthy := false));
            Started(k) == Started(j) && Frozen.Settled(k.core) == Frozen.Settled(j.core)
  {
  }

  // ---- the first write ----

  /** At no level and remembered as free of faults, as after an activation. */
  predicate Quiet(j: Joint) { j.level == UNDEFINED && !j.core.faulted && !j.core.idleRequested }

  /** What a thread has sent and flagged before its first write phase. */
  predicate Unwritten(x: Slot) {
    && x.core.lastCmd == NAN3 && x.core.lastSeq == NaN && x.core.writeError == 0
    && !x.core.faulted && !x.core.idleRequested && x.core == Unflagged(x.core)
  }

  predicate EffortLimited(j: Joint, dt: real) {
    RateExceeded(j.cmd.eff, j.core.lastCmd.eff, j.cfg.limits.effRate, dt)
  }

  /** A quiet joint, already polled, that is written at this log: its effort is not limited, and, masked, it
      has an empty record and no write error but that of its own idle request; stale, it has a record of zero
      with sequence number zero; otherwise it is commanded to zero, with the sequence number the thread keeps. */
  predicate WriteMatchesAt(c: Context, log: Log, dt: real, j: Joint) {
    && !EffortLimited(j, dt)
    && if HasFault(c.safety, j.core.errs) then
         && j.core.lastCmd == NAN3 && j.core.lastSeq == NaN
         && (j.core.writeError == 0 || (c.safety.idleOnFault && c.env(log, IdleOp(j.cfg)).status != 0))
       else if Stale(c.safety, j.seqNo, j.core.lastSeq) then
         j.core.lastCmd == ZERO3 && j.core.lastSeq == ZERO
       else
         j.cmd == ZERO3 && (if c.safety.gateStale then j.seqNo == ZERO else j.core.lastSeq == NaN)
  }

  lemma QuietShape(j: Joint, dt: real)
    requires j.level == UNDEFINED
    ensures var k := ShapedJoint(j, dt);
            && k == j.(cmd := k.cmd, core := Unflagged(j.core).(effLimited := EffortLimited(j, dt)))
            && (!EffortLimited(j, dt) ==> k.cmd == j.cmd)
    ensures forall stats :: !EffortLimited(j, dt) ==> Counted(j, dt, stats) == stats
  {
    hide RateLimited, RateExceeded, InRange;
  }

  lemma BlankShape(x: Slot, dt: real)
    requires Unwritten(x)
    ensures OrderShape(x, BLANK_ORDER, dt) == Shaped(ZERO3, false, false, false, false)
    ensures Flagged(x, OrderShape(x, BLANK_ORDER, dt)) == x
    ensures forall stats :: CountedShape(OrderShape(x, BLANK_ORDER, dt), stats) == stats
  {
    hide RateLimited;
  }

  lemma NothingSent(env: Env, log: Log, cfg: JointConfig, t: Triple)
    ensures CommandOps(cfg, UNDEFINED, t) == []
    ensures DoAll(env, log, CommandOps(cfg, UNDEFINED, t)) == (0, log)
  {
    EmptyDoAll(env, log);
  }

  lemma BlankSent(c: Context, log: Log, x: Slot)
    requires !Stale(c.safety, ZERO, x.core.lastSeq)
    ensures SendSlot(c, log, x, BLANK_ORDER, ZERO3) ==
            SlotWrite(x.(core := x.core.(faulted := false, idleRequested := false, writeError := 0, lastCmd := ZERO3,
                                         lastSeq := if c.safety.gateStale then ZERO else x.core.lastSeq)), log, None)
  {
    hide DoAll, CommandOps;
    NothingSent(c.env, log, x.cfg, Oriented(x.cfg, ZERO3));
  }

  /** The slot after its first write, if it is not masked. */
  function Recorded(c: Context, x: Slot): Slot {
    x.(core := x.core.(lastCmd := ZERO3, lastSeq := if c.safety.gateStale then ZERO else NaN))
  }

  /** The first write phase of a started thread, joint by joint: a joint without a fault is sent nothing
      and gets a limiter record of zero, wherever it is held; a masked one keeps its empty record. */
  lemma FirstRecord(c: Context, log: Log, dt: real, x: Slot)
    requires Unwritten(x)
    ensures var r := WriteSlot(c, log, dt, x, BLANK_ORDER);
            if HasFault(c.safety, x.core.errs) then r == MaskSlot(c, log, x) && r.slot.core.lastCmd == NAN3
            else r.log == log && r.status == None &&
                 r.slot == Recorded(c, x)
  {
    hide OrderShape, SendSlot, IdleOp, HasFault;
    BlankShape(x, dt);
    if !HasFault(c.safety, x.core.errs) {
      BlankSent(c, log, x);
    }
  }

  lemma QuietSend(c: Context, log: Log, j: Joint)
    requires Quiet(j)
    ensures SendJoint(c, log, j) ==
            if Stale(c.safety, j.seqNo, j.core.lastSeq) then
              JointWrite(j.(core := j.core.(writeError := 0)), log, false, false)
            else
              JointWrite(j.(cmd := Oriented(j.cfg, j.cmd),
                            core := j.core.(writeError := 0, lastCmd := Oriented(j.cfg, j.cmd),
                                            lastSeq := if c.safety.gateStale then j.seqNo else j.core.lastSeq)),
                         log, false, true)
  {
    hide DoAll, CommandOps, Negated, Stale;
    NothingSent(c.env, log, j.cfg, Oriented(j.cfg, j.cmd));
  }

  lemma OrientedZero(cfg: JointConfig, t: Triple)
    ensures Oriented(cfg, t) == ZERO3 <==> t == ZERO3
  {
  }

  predicate SameSlot(j: Joint, x: Slot) { x.cfg == j.cfg && x.torque == j.torque && SameMeasured(j.core, x.core) }

  /** k is the joint j, shaped. */
  lemma SendExactly(c: Context, log: Log, dt: real, j: Joint, k: Joint, x: Slot)
    requires Quiet(j) && SameSlot(j, x) && Unwritten(x) && !HasFault(c.safety, j.core.errs)
    requires k == j.(cmd := k.cmd, core := Unflagged(j.core).(effLimited := EffortLimited(j, dt)))
    requires !EffortLimited(j, dt) ==> k.cmd == j.cmd
    ensures var a := SendJoint(c, log, k); a.log == log && !a.stop
    ensures Recorded(c, x) == SlotOf(SendJoint(c, log, k).joint) <==> WriteMatchesAt(c, log, dt, j)
  {
    hide SendJoint, EffortLimited, HasFault, Stale, Oriented;
    QuietSend(c, log, k);
    OrientedZero(j.cfg, k.cmd);
    var a, y := SlotOf(SendJoint(c, log, k).joint).core, Recorded(c, x).core;
    assert a.effLimited == EffortLimited(j, dt) && !y.effLimited;
    if Stale(c.safety, j.seqNo, j.core.lastSeq) {
      assert a.lastCmd == j.core.lastCmd && a.lastSeq == j.core.lastSeq;
      assert c.safety.gateStale by { StaleGate(c.safety, j.seqNo, j.core.lastSeq); }
    } else {
      assert a.lastCmd == Oriented(j.cfg, k.cmd);
    }
  }

  lemma StaleGate(safety: Safety, seqNo: Num, lastSeq: Num)
    requires Stale(safety, seqNo, lastSeq)
    ensures safety.gateStale
  {
  }

  /** A fault is flagged; the idle request is remembered, or the error it met. */
  function Masked(c: Context, log: Log, cfg: JointConfig, core: Core): Core {
    var status := c.env(log, IdleOp(cfg)).status;
    core.(faulted := true, idleRequested := c.safety.idleOnFault && status == 0,
          writeError := if c.safety.idleOnFault && status != 0 then status else core.writeError)
  }

  lemma MaskJointCore(c: Context, log: Log, k: Joint)
    requires !k.core.idleRequested
    ensures MaskJoint(c, log, k).joint == k.(core := Masked(c, log, k.cfg, k.core))
  {
    hide IdleOp, FailFast;
  }

  lemma MaskSlotCore(c: Context, log: Log, x: Slot)
    requires !x.core.idleRequested
    ensures MaskSlot(c, log, x).slot == x.(core := Masked(c, log, x.cfg, x.core))
  {
    hide IdleOp, FailFast;
  }

  lemma MaskedSame(c: Context, log: Log, cfg: JointConfig, a: Core, b: Core)
    requires SameMeasured(a, b) && b.writeError == 0 && b == Unflagged(b)
    requires !a.posLimited && !a.velLimited
    ensures Masked(c, log, cfg, a) == Masked(c, log, cfg, b) <==>
              && !a.effLimited && a.lastCmd == b.lastCmd && a.lastSeq == b.lastSeq
              && (a.writeError == 0 || (c.safety.idleOnFault && c.env(log, IdleOp(cfg)).status != 0))
  {
    hide IdleOp;
    var p, q := Masked(c, log, cfg, a), Masked(c, log, cfg, b);
    assert p.effLimited == a.effLimited && !q.effLimited;
    assert p.lastCmd == a.lastCmd && q.lastCmd == b.lastCmd;
    assert p.lastSeq == a.lastSeq && q.lastSeq == b.lastSeq;
  }

  lemma MaskExactly(c: Context, log: Log, dt: real, j: Joint, k: Joint, x: Slot)
    requires Quiet(j) && SameSlot(j, x) && Unwritten(x) && HasFault(c.safety, j.core.errs)
    requires k == j.(cmd := k.cmd, core := Unflagged(j.core).(effLimited := EffortLimited(j, dt)))
    ensures MaskSlot(c, log, x).slot == SlotOf(MaskJoint(c, log, k).joint) <==> WriteMatchesAt(c, log, dt, j)
  {
    hide EffortLimited, HasFault, IdleOp, MaskJoint, MaskSlot, Masked;
    MaskJointCore(c, log, k);
    MaskSlotCore(c, log, x);
    MaskedSame(c, log, j.cfg, k.core, x.core);
  }

  /** Polled alike, a quiet joint and the slot of a started thread cause the same traffic in their first
      write, and are the same after it exactly if this holds of the joint. */
  lemma FirstWriteExactly(c: Context, log: Log, dt: real, dt0: real, j: Joint, x: Slot)
    requires Quiet(j) && SameSlot(j, x) && Unwritten(x)
    ensures var a, b := WriteJoint(c, log, dt, j), WriteSlot(c, log, dt0, x, BLANK_ORDER);
            && a.log == b.log && a.stop == b.status.Some?
            && (b.slot == SlotOf(a.joint) <==> WriteMatchesAt(c, log, dt, j))
  {
    hide WriteSlot, MaskJoint, MaskSlot, SendJoint, SendSlot, ShapedJoint, HasFault, WriteMatchesAt, EffortLimited;
    hide SlotOf, SameMeasured;
    assert j.core.errs == x.core.errs by { SameErrors(j, x); }
    FirstRecord(c, log, dt0, x);
    QuietShape(j, dt);
    var k := ShapedJoint(j, dt);
    if HasFault(c.safety, j.core.errs) {
      ThreadWire.MaskTraffic(c, log, x, k);
      MaskExactly(c, log, dt, j, k, x);
    } else {
      SendExactly(c, log, dt, j, k, x);
    }
  }

  lemma SameErrors(j: Joint, x: Slot)
    requires SameSlot(j, x)
    ensures j.core.errs == x.core.errs
  {
  }

  /** What the first write of a joint at `turn` leaves of it, j', and of the slot, x. */
  ghost predicate FirstWrite(c: Context, turn: Option<Log>, dt: real, j: Joint, j': Joint, x: Slot) {
    turn.Some? && (x == SlotOf(j') <==> WriteMatchesAt(c, turn.value, dt, j))
  }

  /** Polled alike and not yet written. */
  ghost predicate Ready(s: Hw, w: Work, post: Post, k: nat) {
    && |s.joints| == |w.slots| && s.log == w.log
    && forall i | k <= i < |s.joints| ::
         && Quiet(s.joints[i]) && SameSlot(s.joints[i], w.slots[i]) && Unwritten(w.slots[i])
         && OrderAt(post, i) == BLANK_ORDER
  }

  lemma {:induction false} WritesLockstep(c: Context, s: Hw, w: Work, dt: real, post: Post, k: nat)
    requires NoFailFast(c.env) && k <= |s.joints| && Ready(s, w, post, k)
    ensures var p, q := WriteJoints(c, s, dt, k), SlotStage(c, w, post, k);
            && !p.stopped && !q.stopped && p.s.log == q.w.log
            && p.s == s.(joints := p.s.joints, log := p.s.log, stats := p.s.stats)
            && q.w == w.(slots := q.w.slots, log := q.w.log)
            && (forall i | 0 <= i < k :: p.s.joints[i] == s.joints[i] && q.w.slots[i] == w.slots[i])
            && (forall i | k <= i < |s.joints| ::
                  FirstWrite(c, WriteTurn(c, s, dt, k, i), dt, s.joints[i], p.s.joints[i], q.w.slots[i]))
            && ((forall i | k <= i < |s.joints| :: !EffortLimited(s.joints[i], dt)) ==> p.s.stats == s.stats)
    decreases |s.joints| - k
  {
    hide Abort, WriteJoint, WriteSlot, OrderShape, JointShape, OrderAt, Counted, CountedShape, EffortLimited;
    hide Quiet, SameSlot, Unwritten, WriteMatchesAt, SlotOf;
    if k < |s.joints| {
      var dt0 := EffectiveDt(post.dt);
      var j, x := s.joints[k], w.slots[k];
      FirstWriteExactly(c, s.log, dt, dt0, j, x);
      assert j.level == UNDEFINED by { QuietLevel(j); }
      QuietShape(j, dt);
      BlankShape(x, dt0);
      Isolation.NoFailFastWrite(c, s.log, dt, j);
      var a, b := WriteJoint(c, s.log, dt, j), WriteSlot(c, w.log, dt0, x, BLANK_ORDER);
      WritesLockstep(c, AfterJointWrite(s, k, dt, a), AfterSlotWrite(w, k, dt0, BLANK_ORDER, b), dt, post, k + 1);
    }
  }

  lemma QuietLevel(j: Joint)
    requires Quiet(j)
    ensures j.level == UNDEFINED
  {
  }

  // ---- the cycle ----

  /** write() with the commands the joints hold. */
  function OwnPost(s: Hw, period: Num): Post {
    Post(period, seq(|s.joints|, i requires 0 <= i < |s.joints| => OrderOf(s.joints[i])))
  }

  /** The first cycle of a thread, before any write(). */
  function FirstThreadCycle(c: Context, s: Hw): Work { CycleSpec(c, StartedWork(s), BlankPost(|s.joints|)) }

  /** The first read() and write() of the interface, before any command. */
  function FirstSyncCycle(c: Context, s: Hw, period: Num): (t: Hw)
    ensures |t.joints| == |s.joints|
  {
    SyncCycle(c, s, OwnPost(s, period))
  }

  /** Without a new command, the first cycle is read() and write(). */
  lemma FirstSync(c: Context, s: Hw, period: Num)
    ensures FirstSyncCycle(c, s, period) == WriteSpec(c, ReadSpec(c, s), period)
  {
    hide ReadSpec, WriteSpec;
    var t := ReadSpec(c, s);
    forall i: nat | i < |s.joints| ensures OrderAt(OwnPost(s, period), i) == OrderOf(t.joints[i]) {
      ReadSpecJointFrame(c, s, i);
    }
    assert WithOrders(t, OwnPost(s, period)).joints == t.joints;
  }

  ghost predicate AllQuiet(s: Hw) { forall i | 0 <= i < |s.joints| :: Quiet(s.joints[i]) }

  /** Joint i, as read() leaves it, in its first write(). */
  ghost predicate WriteMatches(c: Context, s: Hw, period: Num, i: nat)
    requires i < |s.joints|
  {
    var t := ReadSpec(c, s);
    var turn := Turn(c, t, period, i);
    turn.Some? ==> WriteMatchesAt(c, turn.value, EffectiveDt(period), t.joints[i])
  }

  /** Writing changes what was sent and flagged and nothing else of a slot. */
  predicate SlotWriteFrame(x: Slot, y: Slot) {
    y == x.(core := x.core.(posLimited := y.core.posLimited, velLimited := y.core.velLimited,
                            effLimited := y.core.effLimited, writeError := y.core.writeError,
                            lastCmd := y.core.lastCmd, lastSeq := y.core.lastSeq,
                            faulted := y.core.faulted, idleRequested := y.core.idleRequested))
  }

  lemma FaultedFrame(x: Slot, error: int, idle: bool)
    ensures SlotWriteFrame(x, x.(core := x.core.(faulted := true, writeError := error, idleRequested := idle)))
  {
  }

  lemma MaskSlotFrame(c: Context, log: Log, x: Slot)
    ensures SlotWriteFrame(x, MaskSlot(c, log, x).slot)
  {
    hide IdleOp, StopOn, SlotWriteFrame;
    var r := c.env(log, IdleOp(x.cfg));
    FaultedFrame(x, x.core.writeError, x.core.idleRequested);
    FaultedFrame(x, r.status, x.core.idleRequested);
    FaultedFrame(x, x.core.writeError, true);
  }

  lemma SentFrame(c: Context, x: Slot, o: Order, t: Triple, r: (int, Log))
    ensures SlotWriteFrame(x, SentSlot(c, x, o, t, r).slot)
  {
    hide StopOn;
  }

  lemma SendSlotFrame(c: Context, log: Log, x: Slot, o: Order, t: Triple)
    ensures SlotWriteFrame(x, SendSlot(c, log, x, o, t).slot)
  {
    hide DoAll, CommandOps, Oriented, Stale, SentSlot;
    var u := UnfaultedSlot(x);
    SentFrame(c, u, o, Oriented(x.cfg, t), DoAll(c.env, log, CommandOps(x.cfg, o.level, Oriented(x.cfg, t))));
  }

  lemma FrameMeasured(x: Slot, y: Slot, z: Slot)
    requires SlotWriteFrame(x, y) && SlotWriteFrame(y, z)
    ensures SameMeasured(x.core, z.core)
  {
  }

  lemma FlaggedFrame(x: Slot, t: Shaped)
    ensures SlotWriteFrame(x, Flagged(x, t))
  {
  }

  /** A slot keeps what it measured in the write phase. */
  lemma WriteKeepsMeasured(c: Context, log: Log, dt: real, x: Slot, o: Order)
    ensures SameMeasured(x.core, WriteSlot(c, log, dt, x, o).slot.core)
  {
    hide MaskSlot, SendSlot, HasFault, OrderShape, SlotWriteFrame, Flagged;
    var t := OrderShape(x, o, dt);
    FlaggedFrame(x, t);
    MaskSlotFrame(c, log, Flagged(x, t));
    SendSlotFrame(c, log, Flagged(x, t), o, t.cmd);
    FrameMeasured(x, Flagged(x, t), WriteSlot(c, log, dt, x, o).slot);
  }

  /** Without TIMEOUT and NO_DEVICE the phase goes on. */
  lemma WriteGoesOn(c: Context, log: Log, dt: real, x: Slot, o: Order)
    requires NoFailFast(c.env)
    ensures WriteSlot(c, log, dt, x, o).status.None?
  {
    hide WriteSlot, WriteJoint;
    ThreadWire.SlotTraffic(c, log, dt, x, o);
    Isolation.NoFailFastWrite(c, log, dt, ThreadWire.AsJoint(x, o));
  }

  lemma {:induction false} StageKeepsMeasured(c: Context, w: Work, post: Post, k: nat, i: nat)
    requires NoFailFast(c.env) && k <= |w.slots| && i < |w.slots|
    ensures var q := SlotStage(c, w, post, k); !q.stopped && SameMeasured(w.slots[i].core, q.w.slots[i].core)
    decreases |w.slots| - k
  {
    hide Abort, WriteSlot, OrderAt, OrderShape, CountedShape;
    if k < |w.slots| {
      var dt := EffectiveDt(post.dt);
      var r := WriteSlot(c, w.log, dt, w.slots[k], OrderAt(post, k));
      WriteKeepsMeasured(c, w.log, dt, w.slots[k], OrderAt(post, k));
      WriteGoesOn(c, w.log, dt, w.slots[k], OrderAt(post, k));
      StageKeepsMeasured(c, AfterSlotWrite(w, k, dt, OrderAt(post, k), r), post, k + 1, i);
    }
  }

  /** The thread after its first read phase. */
  function FirstReadWork(c: Context, s: Hw): Work {
    var q := ReadPart(c, StartedWork(s)).w;
    q.(stats := q.stats.(readCycles := q.stats.readCycles + 1))
  }

  lemma MeasuredApart(c: Context, s: Hw, period: Num, i: nat)
    requires NoFailFast(c.env) && Writable(c, s) && Frozen.AllSettled(s) && i < |s.joints| && !ReadMatches(c, s, i)
    ensures !Related(FirstSyncCycle(c, s, period), FirstThreadCycle(c, s))
  {
    hide ReadSpec, ReadStage, SlotStage, WriteSpec, ReadMatches, StartedWork, BlankPost, FirstSyncCycle;
    hide ClearLimiterFlags;
    ReadsLockstep(c, s);
    FirstSync(c, s, period);
    ReadSpecFrame(c, s);
    var t, v := ReadSpec(c, s), FirstReadWork(c, s);
    StageKeepsMeasured(c, v, BlankPost(|s.joints|), 0, i);
    WriteSpecFrame(c, t, period, i);
    assert FirstThreadCycle(c, s).slots[i] == SlotStage(c, v, BlankPost(|s.joints|), 0).w.slots[i];
  }

  lemma FirstSlotUnwritten(j: Joint, j': Joint, x: Slot)
    requires Quiet(j) && ReadFrame(j, j') && SlotReadFrame(Started(j), x)
    ensures Quiet(j') && Unwritten(x) && x.cfg == j'.cfg && x.torque == j'.torque
  {
  }

  lemma ReadyAfterReads(c: Context, s: Hw)
    requires NoFailFast(c.env) && s.up && Frozen.AllSettled(s) && AllQuiet(s)
    requires forall i: nat | i < |s.joints| :: ReadMatches(c, s, i)
    ensures Ready(ReadSpec(c, s), FirstReadWork(c, s), BlankPost(|s.joints|), 0)
  {
    hide ReadSpec, ReadPart, ReadMatches, StartedWork, BlankPost, OrderAt, Quiet, Unwritten, SameMeasured, ReadFrame;
    hide SlotReadFrame, Started;
    ReadsLockstep(c, s);
    var t, v := ReadSpec(c, s), FirstReadWork(c, s);
    forall i: nat | i < |s.joints|
      ensures Quiet(t.joints[i]) && SameSlot(t.joints[i], v.slots[i]) && Unwritten(v.slots[i])
    {
      ReadSpecJointFrame(c, s, i);
      FirstSlotUnwritten(s.joints[i], t.joints[i], v.slots[i]);
    }
  }

  /** The first cycle of the thread is its read phase and the write phase under the blank command. */
  lemma FirstThread(c: Context, s: Hw)
    requires var v := FirstReadWork(c, s);
             !ReadPart(c, StartedWork(s)).stopped && Sendable(c, v) &&
             !SlotStage(c, v, BlankPost(|s.joints|), 0).stopped
    ensures var w := SlotStage(c, FirstReadWork(c, s), BlankPost(|s.joints|), 0).w;
            FirstThreadCycle(c, s) == w.(stats := w.stats.(writeCycles := w.stats.writeCycles + 1))
  {
    hide ReadStage, SlotStage, StartedWork, BlankPost, ClearLimiterFlags;
  }

  lemma FirstWrites(c: Context, s: Hw, period: Num)
    requires NoFailFast(c.env) && Writable(c, s) && Frozen.AllSettled(s) && AllQuiet(s)
    requires forall i: nat | i < |s.joints| :: ReadMatches(c, s, i)
    ensures var a, b := FirstSyncCycle(c, s, period), FirstThreadCycle(c, s);
            var t := ReadSpec(c, s);
            && SameSurroundings(a, b) && |a.joints| == |b.slots| == |s.joints|
            && (forall i: nat | i < |s.joints| ::
                  FirstWrite(c, Turn(c, t, period, i), EffectiveDt(period), t.joints[i], a.joints[i], b.slots[i]))
            && ((forall i | 0 <= i < |s.joints| :: !EffortLimited(t.joints[i], EffectiveDt(period))) ==>
                  a.stats == b.stats)
  {
    hide ReadSpec, ReadStage, SlotStage, WriteJoints, ReadMatches, StartedWork, BlankPost, FirstSyncCycle, Quiet;
    hide ClearLimiterFlags, FirstWrite, EffortLimited, Ready, SameMeasured, SlotReadFrame, FirstThreadCycle;
    ReadsLockstep(c, s);
    FirstSync(c, s, period);
    ReadSpecFrame(c, s);
    ReadyAfterReads(c, s);
    WritesLockstep(c, ReadSpec(c, s), FirstReadWork(c, s), EffectiveDt(period), BlankPost(|s.joints|), 0);
    FirstThread(c, s);
  }

  /** All polled alike. */
  lemma WrittenExactly(c: Context, s: Hw, period: Num)
    requires NoFailFast(c.env) && Writable(c, s) && Frozen.AllSettled(s) && AllQuiet(s)
    requires forall i: nat | i < |s.joints| :: ReadMatches(c, s, i)
    ensures Related(FirstSyncCycle(c, s, period), FirstThreadCycle(c, s)) <==>
              forall i: nat | i < |s.joints| :: WriteMatches(c, s, period, i)
  {
    hide ReadSpec, Turn, FirstSyncCycle, FirstThreadCycle, SlotOf, WriteMatches, SameSurroundings, ReadMatches;
    hide Frozen.AllSettled, AllQuiet, FirstWrite;
    FirstWrites(c, s, period);
    var t, a, b := ReadSpec(c, s), FirstSyncCycle(c, s, period), FirstThreadCycle(c, s);
    forall i: nat | i < |s.joints|
      ensures b.slots[i] == SlotOf(a.joints[i]) <==> WriteMatches(c, s, period, i)
      ensures WriteMatches(c, s, period, i) ==> !EffortLimited(t.joints[i], EffectiveDt(period))
    {
      MatchOf(c, s, period, i, a.joints[i], b.slots[i]);
    }
  }

  lemma MatchOf(c: Context, s: Hw, period: Num, i: nat, j: Joint, x: Slot)
    requires i < |s.joints|
    requires var t := ReadSpec(c, s); FirstWrite(c, Turn(c, t, period, i), EffectiveDt(period), t.joints[i], j, x)
    ensures x == SlotOf(j) <==> WriteMatches(c, s, period, i)
    ensures WriteMatches(c, s, period, i) ==> !EffortLimited(ReadSpec(c, s).joints[i], EffectiveDt(period))
  {
    hide ReadSpec, Turn, SlotOf, WriteMatchesAt;
    NoLimit(c, Turn(c, ReadSpec(c, s), period, i), EffectiveDt(period), ReadSpec(c, s).joints[i]);
  }

  lemma NoLimit(c: Context, turn: Option<Log>, dt: real, j: Joint)
    ensures turn.Some? && WriteMatchesAt(c, turn.value, dt, j) ==> !EffortLimited(j, dt)
  {
  }

  /** The first cycle of a thread started beside an interface at no level, exactly: the two agree after it
      if and only if every joint agrees in its poll and in its write. */
  lemma FirstCycleExactly(c: Context, s: Hw, period: Num)
    requires NoFailFast(c.env) && Writable(c, s) && Frozen.AllSettled(s) && AllQuiet(s)
    ensures Related(FirstSyncCycle(c, s, period), FirstThreadCycle(c, s)) <==>
              forall i: nat | i < |s.joints| :: ReadMatches(c, s, i) && WriteMatches(c, s, period, i)
  {
    hide Related, FirstSyncCycle, FirstThreadCycle, ReadMatches, WriteMatches, AllQuiet;
    if i: nat :| i < |s.joints| && !ReadMatches(c, s, i) {
      MeasuredApart(c, s, period, i);
    } else {
      WrittenExactly(c, s, period);
    }
  }
}
