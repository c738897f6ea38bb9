/** One cycle of the I/O thread is read() followed by write(). */
module Refinement {
  import opened Numeric
  import opened Transport
  import opened Joints
  import opened Axis
  import opened Cycle
  import opened Runs
  import opened Worker
  import Bumpless
  import Channels
  import Discipline
  import Isolation
  import Motion
  import Frozen

  // ---- the relation ----

  function SlotOf(j: Joint): Slot { Slot(j.cfg, j.torque, j.core) }

  function OrderOf(j: Joint): Order { Order(j.cmd, j.level, j.seqNo) }

  /** Everything but the transport error of a sensor, which the thread does not update from joints. */
  ghost predicate SensorsAlike(a: seq<Sensor>, b: seq<Sensor>) { SensorsUpTo(a, b, |a|) }

  /** The same sensors, and the first i of them alike. */
  ghost predicate SensorsUpTo(a: seq<Sensor>, b: seq<Sensor>, i: nat) {
    |a| == |b| && forall k | 0 <= k < |a| :: a[k].serial == b[k].serial && (k < i ==> a[k].vbus == b[k].vbus)
  }

  /** The same drives, and the first i of them equal. */
  ghost predicate DrivesUpTo(a: seq<Drive>, b: seq<Drive>, i: nat) {
    |a| == |b| && forall k | 0 <= k < |a| :: a[k].serial == b[k].serial && (k < i ==> a[k] == b[k])
  }

  predicate SameLink(s: Hw, w: Work) { s.up == w.up && s.outputs == w.outputs && s.log == w.log }

  ghost predicate SameSurroundings(s: Hw, w: Work) {
    SameLink(s, w) && SensorsAlike(s.sensors, w.sensors) && s.drives == w.drives
  }

  ghost predicate SameJoints(s: Hw, w: Work) {
    |s.joints| == |w.slots| && forall i | 0 <= i < |s.joints| :: w.slots[i] == SlotOf(s.joints[i])
  }

  /** Telemetry, health, errors, limiter flags, fault flags, last sent command and sequence number of
      every joint, bus voltages, drive errors, the counters and the traffic. */
  ghost predicate Related(s: Hw, w: Work) {
    SameSurroundings(s, w) && SameJoints(s, w) && s.stats == w.stats
  }

  /** Enough to begin with: voltages and drive errors may still differ. */
  ghost predicate Startable(s: Hw, w: Work) {
    && SameLink(s, w) && SameJoints(s, w) && s.stats == w.stats
    && SensorsUpTo(s.sensors, w.sensors, 0) && DrivesUpTo(s.drives, w.drives, 0)
  }

  lemma RelatedStartable(s: Hw, w: Work)
    requires Related(s, w)
    ensures Startable(s, w)
  {
  }

  /** Controllers write every command interface of every joint. */
  function WithOrders(s: Hw, post: Post): Hw {
    s.(joints := seq(|s.joints|, i requires 0 <= i < |s.joints| =>
         var o := OrderAt(post, i); s.joints[i].(cmd := o.cmd, level := o.level, seqNo := o.seqNo)))
  }

  /** read(), controllers, write(). */
  function SyncCycle(c: Context, s: Hw, post: Post): (t: Hw)
    ensures |t.joints| == |s.joints|
  {
    WriteSpec(c, WithOrders(ReadSpec(c, s), post), post.dt)
  }

  // ---- read phase ----

  /** Equal but for the health flag and the limiter flags, which read() and the thread reset. */
  predicate Pending(x: Slot, j: Joint) {
    && x.cfg == j.cfg && x.torque == j.torque
    && x.core == Unflagged(x.core)
    && x.core.(healthy := false) == Unflagged(j.core).(healthy := false)
  }

  predicate Polled(x: Slot, j: Joint) { x == Slot(j.cfg, j.torque, Unflagged(j.core)) }

  lemma HoldAgrees(x: Slot, j: Joint, error: int)
    requires Pending(x, j) && j.core.lastValidPos.Fin?
    ensures Polled(x.(core := LoseSlot(x).core.(readError := error)), FailJoint(j, error))
    ensures Polled(LoseSlot(x), DropJoint(j))
  {
  }

  lemma AbsorbAgrees(x: Slot, j: Joint, sample: Sample)
    requires Pending(x, j) && j.core.lastValidPos.Fin?
    ensures Polled(AbsorbSlot(x, sample), j.(core := Absorb(j.cfg, j.core, sample)))
  {
    hide FeedbackValid, Signed, AllClear, Hold, HeldKin;
    if !FeedbackValid(j.cfg, j.core.lastValidPos, sample) {
      HoldAgrees(x, j, -1);
      RejectedSample(j.core);
    } else if !AllClear(sample.errs) {
      HoldKeeps(x, j);
    }
  }

  lemma RejectedSample(core: Core)
    ensures Hold(core).(readError := -1, telemetryValid := false, healthy := false) ==
            Hold(core).(healthy := false, telemetryValid := false).(readError := -1)
  {
  }

  lemma HoldKeeps(x: Slot, j: Joint)
    requires Pending(x, j) && j.core.lastValidPos.Fin?
    ensures Hold(j.core) == j.core.(kin := HeldKin(x.core))
  {
  }

  lemma PollRefines(c: Context, log: Log, x: Slot, j: Joint)
    requires NoFailFast(c.env) && Pending(x, j) && j.core.lastValidPos.Fin?
    ensures var (y, status, log') := PollSlot(c, log, x);
            var r := ReadJoint(c, log, j);
            !FailFast(status) && !FailFast(r.status) && log' == r.log && Polled(y, r.joint)
  {
    hide Absorb, AbsorbSlot, TelemetryOps, SampleOf, FeedbackValid, FailJoint, LoseSlot, Polled, Pending;
    assert x.cfg == j.cfg && x.torque == j.torque by { PendingConfig(x, j); }
    Isolation.NoFailFastTelemetry(c, log, j);
    var r := DoAll(c.env, log, TelemetryOps(j.cfg));
    DoAllIssued(c.env, log, TelemetryOps(j.cfg));
    HoldAgrees(x, j, r.0);
    if r.0 == 0 {
      AbsorbAgrees(x, j, SampleOf(j.torque, r.1[|log|..]));
    }
  }

  lemma PendingConfig(x: Slot, j: Joint)
    requires Pending(x, j)
    ensures x.cfg == j.cfg && x.torque == j.torque
  {
  }

  lemma {:induction false} SensorsRefine(c: Context, s: Hw, w: Work, i: nat)
    requires NoFailFast(c.env) && i <= |s.sensors| && SameLink(s, w) && SensorsUpTo(s.sensors, w.sensors, i)
    ensures var p, q := ReadSensors(c, s, i), SensorStage(c, w, i);
            && !p.stopped && !q.stopped && SameLink(p.s, q.w) && SensorsAlike(p.s.sensors, q.w.sensors)
            && p.s.drives == s.drives && q.w.drives == w.drives
            && p.s.joints == s.joints && q.w.slots == w.slots
            && p.s.stats == s.stats && q.w.stats == w.stats
    decreases |s.sensors| - i
  {
    hide FailAll, Abort;
    if i < |s.sensors| {
      var (x, status, log) := ReadSensor(c, s.log, s.sensors[i]);
      var (x', status', log') := ReadSensor(c, w.log, w.sensors[i]);
      SensorsRefine(c, s.(sensors := s.sensors[i := x], log := log),
                    w.(sensors := w.sensors[i := x'], log := log'), i + 1);
    }
  }

  lemma {:induction false} DrivesRefine(c: Context, s: Hw, w: Work, i: nat)
    requires NoFailFast(c.env) && i <= |s.drives| && SameLink(s, w)
    requires SensorsAlike(s.sensors, w.sensors) && DrivesUpTo(s.drives, w.drives, i)
    ensures var p, q := ReadDrives(c, s, i), DriveStage(c, w, i);
            && !p.stopped && !q.stopped && SameSurroundings(p.s, q.w)
            && p.s.joints == s.joints && q.w.slots == w.slots
            && p.s.stats == s.stats && q.w.stats == w.stats
    decreases |s.drives| - i
  {
    hide FailAll, Abort, SensorsAlike;
    if i < |s.drives| {
      var (x, status, log) := ReadDrive(c, s.log, s.drives[i]);
      DrivesRefine(c, s.(drives := s.drives[i := x], log := log), w.(drives := w.drives[i := x], log := log), i + 1);
    }
  }

  /** Joints before i have been polled in both, the others not yet. */
  ghost predicate HalfRead(s: Hw, w: Work, i: nat) {
    && |s.joints| == |w.slots|
    && (forall k | 0 <= k < |s.joints| :: s.joints[k].core.lastValidPos.Fin?)
    && (forall k | 0 <= k < |s.joints| && k < i :: Polled(w.slots[k], s.joints[k]))
    && (forall k | i <= k < |s.joints| :: Pending(w.slots[k], s.joints[k]))
  }

  lemma AbsorbKeepsFinite(j: Joint, s: Sample)
    requires j.core.lastValidPos.Fin?
    ensures Absorb(j.cfg, j.core, s).lastValidPos.Fin?
  {
    hide AllClear;
    if FeedbackValid(j.cfg, j.core.lastValidPos, s) {
      Frozen.SignedPosition(j.cfg.invert, s.kin);
    }
  }

  lemma PollKeepsFinite(c: Context, log: Log, j: Joint)
    requires j.core.lastValidPos.Fin?
    ensures ReadJoint(c, log, j).joint.core.lastValidPos.Fin?
  {
    hide DoAll, TelemetryOps, SampleOf, Absorb, FeedbackValid;
    var r := DoAll(c.env, log, TelemetryOps(j.cfg));
    DoAllIssued(c.env, log, TelemetryOps(j.cfg));
    if r.0 == 0 {
      AbsorbKeepsFinite(j, SampleOf(j.torque, r.1[|log|..]));
    }
  }

  lemma {:induction false} JointsRefine(c: Context, s: Hw, w: Work, i: nat)
    requires NoFailFast(c.env) && i <= |s.joints| && SameSurroundings(s, w) && HalfRead(s, w, i)
    ensures var p, q := ReadJoints(c, s, i), JointStage(c, w, i);
            && !p.stopped && !q.stopped && SameSurroundings(p.s, q.w) && HalfRead(p.s, q.w, |s.joints|)
            && p.s.stats == s.stats && q.w.stats == w.stats
    decreases |s.joints| - i
  {
    hide FailAll, Abort, ReadJoint, PollSlot, Polled, Pending;
    if i < |s.joints| {
      var r := ReadJoint(c, s.log, s.joints[i]);
      var (x, status, log) := PollSlot(c, w.log, w.slots[i]);
      PollRefines(c, s.log, w.slots[i], s.joints[i]);
      PollKeepsFinite(c, s.log, s.joints[i]);
      JointsRefine(c, AfterJointRead(s, i, r), w.(slots := w.slots[i := x], log := log), i + 1);
    }
  }

  ghost predicate FinitePositions(s: Hw) {
    forall i | 0 <= i < |s.joints| :: s.joints[i].core.lastValidPos.Fin?
  }

  /** The state the thread reaches before its write phase. */
  function ReadPart(c: Context, w: Work): Stage { ReadStage(c, ClearLimiterFlags(w)) }

  lemma ReadRefines(c: Context, s: Hw, w: Work)
    requires NoFailFast(c.env) && FinitePositions(s) && Startable(s, w)
    ensures var t, q := ReadSpec(c, s), ReadPart(c, w);
            && !q.stopped && SameLink(t, q.w) && HalfRead(t, q.w, |s.joints|)
            && (s.up ==> SameSurroundings(t, q.w))
            && q.w.stats == w.stats
            && t.stats == if s.up then s.stats.(readCycles := s.stats.readCycles + 1) else s.stats
  {
    hide ReadSensors, ReadDrives, ReadJoints, SensorStage, DriveStage, JointStage;
    var v := ClearLimiterFlags(w);
    var d := DefaultUnhealthy(s);
    if s.up {
      assert HalfRead(d, v, 0);
      SensorsRefine(c, d, v, 0);
      var p, p' := ReadSensors(c, d, 0).s, SensorStage(c, v, 0).w;
      DrivesRefine(c, p, p', 0);
      var q, q' := ReadDrives(c, p, 0).s, DriveStage(c, p', 0).w;
      JointsRefine(c, q, q', 0);
    } else {
      forall i | 0 <= i < |s.joints| ensures Polled(LoseSlot(v.slots[i]), DropJoint(s.joints[i])) {
        HoldAgrees(v.slots[i], s.joints[i], 0);
      }
    }
  }

  // ---- write phase ----

  lemma ShapeAgrees(x: Slot, j: Joint, dt: real)
    requires Polled(x, j)
    ensures OrderShape(x, OrderOf(j), dt) == JointShape(j, dt)
    ensures Flagged(x, JointShape(j, dt)) == SlotOf(ShapedJoint(j, dt))
  {
    hide Shape;
  }

  lemma MaskAgrees(c: Context, log: Log, j: Joint)
    ensures var a, b := MaskJoint(c, log, j), MaskSlot(c, log, SlotOf(j));
            a.log == b.log && a.stop == b.status.Some? && SlotOf(a.joint) == b.slot
  {
    hide IdleOp, FailFast;
  }

  /** Both record the outcome of a send alike. */
  lemma OutcomeAgrees(c: Context, v: Joint, x: Slot, o: Order, r: (int, Log))
    requires x == SlotOf(v) && o.seqNo == v.seqNo
    ensures var a, b := AfterSend(c, v, r), SentSlot(c, x, o, v.cmd, r);
            a.log == b.log && a.stop == b.status.Some? && SlotOf(a.joint) == b.slot
  {
    hide FailFast;
  }

  lemma SendAgrees(c: Context, log: Log, j: Joint, o: Order)
    requires o.level == j.level && o.seqNo == j.seqNo
    ensures var a, b := SendJoint(c, log, j), SendSlot(c, log, SlotOf(j), o, j.cmd);
            a.log == b.log && a.stop == b.status.Some? && SlotOf(a.joint) == b.slot
  {
    hide DoAll, CommandOps, Negated, Stale, AfterSend, SentSlot;
    var v := Inverted(Unfaulted(j));
    OutcomeAgrees(c, v, UnfaultedSlot(SlotOf(j)), o, DoAll(c.env, log, CommandOps(v.cfg, v.level, v.cmd)));
  }

  /** With equal commands, one joint is written alike by both. */
  lemma WriteAgrees(c: Context, log: Log, dt: real, x: Slot, j: Joint)
    requires Polled(x, j)
    ensures var a, b := WriteJoint(c, log, dt, j), WriteSlot(c, log, dt, x, OrderOf(j));
            a.log == b.log && a.stop == b.status.Some? && SlotOf(a.joint) == b.slot
  {
    hide MaskJoint, MaskSlot, SendJoint, SendSlot, OrderShape, JointShape, Flagged, HasFault;
    ShapeAgrees(x, j, dt);
    MaskAgrees(c, log, ShapedJoint(j, dt));
    SendAgrees(c, log, ShapedJoint(j, dt), OrderOf(j));
  }

  /** Joints before i have been written by both, the others only read. */
  ghost predicate HalfWritten(s: Hw, w: Work, post: Post, i: nat) {
    && |s.joints| == |w.slots| && s.stats == w.stats
    && (forall k | 0 <= k < |s.joints| && k < i :: w.slots[k] == SlotOf(s.joints[k]))
    && (forall k | i <= k < |s.joints| :: Polled(w.slots[k], s.joints[k]) && OrderAt(post, k) == OrderOf(s.joints[k]))
  }

  lemma {:induction false} WritesRefine(c: Context, s: Hw, w: Work, post: Post, i: nat)
    requires NoFailFast(c.env) && i <= |s.joints| && SameSurroundings(s, w) && HalfWritten(s, w, post, i)
    ensures var p, q := WriteJoints(c, s, EffectiveDt(post.dt), i), SlotStage(c, w, post, i);
            !p.stopped && !q.stopped && Related(p.s, q.w)
    decreases |s.joints| - i
  {
    hide Abort, WriteJoint, WriteSlot, OrderShape, JointShape, Polled, OrderAt;
    if i < |s.joints| {
      var dt := EffectiveDt(post.dt);
      var j, x := s.joints[i], w.slots[i];
      WriteAgrees(c, s.log, dt, x, j);
      ShapeAgrees(x, j, dt);
      Isolation.NoFailFastWrite(c, s.log, dt, j);
      var r, r' := WriteJoint(c, s.log, dt, j), WriteSlot(c, w.log, dt, x, OrderAt(post, i));
      WritesRefine(c, AfterJointWrite(s, i, dt, r), AfterSlotWrite(w, i, dt, OrderAt(post, i), r'), post, i + 1);
    }
  }

  // ---- the cycle ----

  lemma OrdersApplied(s: Hw, w: Work, post: Post)
    requires HalfRead(s, w, |s.joints|) && s.stats == w.stats
    ensures HalfWritten(WithOrders(s, post), w, post, 0)
  {
    hide OrderAt;
  }

  /** Without TIMEOUT and NO_DEVICE, and for equal states of the joints, the thread's cycle and read() followed by
      write() of the same commands cause the same traffic; they end in the same state exactly if
      write() gets as far as the joints. Otherwise the thread still counts a write cycle. */
  lemma CycleRefines(c: Context, s: Hw, w: Work, post: Post)
    requires NoFailFast(c.env) && FinitePositions(s) && Startable(s, w)
    ensures SyncCycle(c, s, post).log == CycleSpec(c, w, post).log
    ensures Related(SyncCycle(c, s, post), CycleSpec(c, w, post)) <==> Writable(c, s)
  {
    hide ReadSpec, ReadStage, SlotStage, WriteJoints, ClearLimiterFlags;
    ReadRefines(c, s, w);
    ReadSpecFrame(c, s);
    var t := ReadSpec(c, s);
    var q := ReadPart(c, w).w;
    var u := q.(stats := q.stats.(readCycles := q.stats.readCycles + 1));
    if Writable(c, s) {
      OrdersApplied(t, u, post);
      WritesRefine(c, WithOrders(t, post), u, post, 0);
    } else {
      assert CycleSpec(c, w, post).stats.writeCycles == w.stats.writeCycles + 1;
    }
  }

  // ---- whole runs ----

  function SyncCycles(c: Context, s: Hw, posts: seq<Post>): Hw {
    if posts == [] then s
    else SyncCycle(c, SyncCycles(c, s, posts[..|posts| - 1]), posts[|posts| - 1])
  }

  function WorkerCycles(c: Context, w: Work, posts: seq<Post>): Work {
    if posts == [] then w
    else CycleSpec(c, WorkerCycles(c, w, posts[..|posts| - 1]), posts[|posts| - 1])
  }

  lemma SyncCycleKeeps(c: Context, s: Hw, post: Post)
    requires NoFailFast(c.env) && Writable(c, s) && Frozen.AllSettled(s)
    ensures var t := SyncCycle(c, s, post); Frozen.AllSettled(t) && Writable(c, t)
  {
    hide ReadSpec, WriteJoints, OrderAt;
    var t := ReadSpec(c, s);
    ReadSpecFrame(c, s);
    var u := WithOrders(t, post);
    StillUp(c, u, EffectiveDt(post.dt), 0);
    forall i: nat | i < |s.joints| ensures Frozen.Settled(SyncCycle(c, s, post).joints[i].core) {
      Frozen.ReadKeepsPosition(c, s, i);
      WriteSpecFrame(c, u, post.dt, i);
    }
  }

  lemma {:induction false} StillUp(c: Context, s: Hw, dt: real, i: nat)
    requires NoFailFast(c.env) && i <= |s.joints|
    ensures var p := WriteJoints(c, s, dt, i); !p.stopped && p.s.up == s.up && p.s.outputs == s.outputs
    decreases |s.joints| - i
  {
    hide WriteJoint, Counted;
    if i < |s.joints| {
      Isolation.NoFailFastWrite(c, s.log, dt, s.joints[i]);
      StillUp(c, AfterJointWrite(s, i, dt, WriteJoint(c, s.log, dt, s.joints[i])), dt, i + 1);
    }
  }

  /** Over any number of cycles in which controllers rewrite all commands, the thread and the
      synchronous path produce the same traffic and the same state. */
  lemma {:induction false} RunRefines(c: Context, s: Hw, w: Work, posts: seq<Post>)
    requires NoFailFast(c.env) && Writable(c, s) && Frozen.AllSettled(s) && Related(s, w)
    ensures Related(SyncCycles(c, s, posts), WorkerCycles(c, w, posts))
    ensures Writable(c, SyncCycles(c, s, posts)) && Frozen.AllSettled(SyncCycles(c, s, posts))
  {
    hide SyncCycle, CycleSpec, Related;
    if posts != [] {
      var m := |posts| - 1;
      RunRefines(c, s, w, posts[..m]);
      var t := SyncCycles(c, s, posts[..m]);
      RelatedStartable(t, WorkerCycles(c, w, posts[..m]));
      CycleRefines(c, t, WorkerCycles(c, w, posts[..m]), posts[m]);
      SyncCycleKeeps(c, t, posts[m]);
    }
  }

  // ---- where the two part ----

  /** write() leaves the shaped and oriented command in the command interfaces of the joint. The thread
      works on copies, so a controller that does not write again sees the two implementations part. */
  lemma CommandOverwritten(c: Context, log: Log, dt: real, j: Joint)
    requires WriteJoint(c, log, dt, j).sent
    ensures WriteJoint(c, log, dt, j).joint.cmd == Oriented(j.cfg, JointShape(j, dt).cmd)
  {
    hide DoAll, CommandOps, JointShape, Negated, Stale, HasFault;
  }

  lemma NoStepNeeded(x: Num, rate: Option<Num>, dt: real)
    requires Motion.RateOk(rate) && dt > 0.0
    ensures !RateExceeded(x, x, rate, dt)
  {
    if rate.Some? {
      assert rate.value.r * dt >= 0.0;
    }
  }

  /** A valid command equal to the record is sent as it is. */
  lemma RepeatedShape(j: Joint, dt: real)
    requires dt > 0.0 && j.cmd == j.core.lastCmd && ValidCommand(j.cfg.limits, j.level, j.cmd)
    requires Bumpless.RatesOk(j.cfg.limits)
    ensures JointShape(j, dt).cmd == j.cmd
  {
    hide RateExceeded, RateLimited, ValidCommand;
    NoStepNeeded(j.cmd.pos, j.cfg.limits.posRate, dt);
    NoStepNeeded(j.cmd.vel, j.cfg.limits.velRate, dt);
    NoStepNeeded(j.cmd.eff, j.cfg.limits.effRate, dt);
  }

  /** An inverted joint is commanded once and written twice, with any read() and any sequence number in
      between. If the command is within the limits and is not limited, and the negated command is within
      the limits too, the first write() sends the negated command and the second the command itself.
      These are the same setpoints exactly if the channels of the level are zero. */
  lemma InvertedFlips(c: Context, log: Log, log2: Log, dt: real, dt2: real, j: Joint, k: Joint)
    requires j.cfg.invert && Bumpless.RatesOk(j.cfg.limits) && dt > 0.0 && dt2 > 0.0
    requires JointShape(j, dt).cmd == j.cmd && ValidCommand(j.cfg.limits, j.level, Negated(j.cmd))
    requires WriteJoint(c, log, dt, j).sent
    requires ReadFrame(WriteJoint(c, log, dt, j).joint, k.(seqNo := j.seqNo))
    requires WriteJoint(c, log2, dt2, k).sent
    ensures DoAll(c.env, log, CommandOps(j.cfg, j.level, Negated(j.cmd))) == (0, WriteJoint(c, log, dt, j).log)
    ensures DoAll(c.env, log2, CommandOps(j.cfg, j.level, j.cmd)) == (0, WriteJoint(c, log2, dt2, k).log)
    ensures WriteJoint(c, log2, dt2, k).joint.cmd == j.cmd
    ensures SetpointOps(j.cfg, j.level, Negated(j.cmd)) == SetpointOps(j.cfg, j.level, j.cmd) <==>
            Channels.ZeroChannels(j.level, j.cmd)
  {
    hide SetpointOps, WriteJoint, Negated, JointShape, ValidCommand, CommandOps, DoAll, HasFault, Stale;
    CommandOverwritten(c, log, dt, j);
    WriteJointFrame(c, log, dt, j);
    Motion.SendRecords(c, log, dt, j);
    Discipline.WriteBlock(c, log, dt, j);
    NegatedTwice(j.cmd);
    MirroredSendable(j.cfg.limits, j.level, j.cmd);
    Channels.MirroredSetpoints(j.cfg, j.level, j.cmd);
    assert k.cmd == Negated(j.cmd) && k.core.lastCmd == Negated(j.cmd);
    RepeatedShape(k, dt2);
    CommandOverwritten(c, log2, dt2, k);
    Discipline.WriteBlock(c, log2, dt2, k);
  }

  /** The thread sends the same order the same way as often as it is posted, if neither the command nor
      its distance from the negated one is limited. */
  lemma ThreadRepeats(x: Slot, o: Order, dt: real)
    requires ValidCommand(x.cfg.limits, o.level, o.cmd)
    requires !Bumpless.Exceeds(x.cfg, o.level, o.cmd, x.core.lastCmd, dt)
    ensures OrderShape(x, o, dt).cmd == o.cmd
  {
    hide RateExceeded, RateLimited, ValidCommand;
  }

  lemma NegatedTwice(t: Triple)
    ensures Negated(Negated(t)) == t
  {
  }

  lemma MirroredSendable(limits: CommandLimits, level: Level, t: Triple)
    requires ValidCommand(limits, level, Negated(t))
    ensures Channels.Sendable(level, t)
  {
  }
}
