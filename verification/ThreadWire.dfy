/** What the I/O thread puts on the wire, in every cycle, ends in TIMEOUT or NO_DEVICE included. */
module ThreadWire {
  import opened Transport
  import opened Joints
  import opened Axis
  import opened Cycle
  import opened Runs
  import opened Discipline
  import opened Setpoints
  import opened Worker
  import Claims
  import Refinement
  import SlotInvariants

  // ---- the write phase as a write() ----

  /** A slot and its order as a joint. */
  function AsJoint(x: Slot, o: Order): Joint { Joint(x.cfg, x.torque, x.core, o.cmd, o.seqNo, o.level, false) }

  function AsInterface(w: Work, post: Post): Hw {
    Hw(seq(|w.slots|, i requires 0 <= i < |w.slots| => AsJoint(w.slots[i], OrderAt(post, i))),
       w.sensors, w.drives, w.up, w.outputs, w.stats, w.log)
  }

  lemma MaskTraffic(c: Context, log: Log, x: Slot, j: Joint)
    requires x.cfg == j.cfg && x.core.idleRequested == j.core.idleRequested
    ensures var a, b := MaskSlot(c, log, x), MaskJoint(c, log, j); a.log == b.log && a.status.Some? == b.stop
  {
    hide IdleOp, FailFast;
  }

  lemma SendTraffic(c: Context, log: Log, x: Slot, o: Order, j: Joint)
    requires x.cfg == j.cfg && x.core.lastSeq == j.core.lastSeq && o.level == j.level && o.seqNo == j.seqNo
    ensures var a, b := SendSlot(c, log, x, o, j.cmd), SendJoint(c, log, j); a.log == b.log && a.status.Some? == b.stop
  {
    hide DoAll, CommandOps, Negated, Stale, FailFast;
  }

  /** One slot causes the traffic of the joint it stands for, and ends the cycle when that would. */
  lemma SlotTraffic(c: Context, log: Log, dt: real, x: Slot, o: Order)
    ensures var a, b := WriteSlot(c, log, dt, x, o), WriteJoint(c, log, dt, AsJoint(x, o));
            a.log == b.log && a.status.Some? == b.stop
  {
    hide MaskSlot, MaskJoint, SendSlot, SendJoint, Shape, HasFault;
    var j := AsJoint(x, o);
    MaskTraffic(c, log, Flagged(x, OrderShape(x, o, dt)), ShapedJoint(j, dt));
    SendTraffic(c, log, Flagged(x, OrderShape(x, o, dt)), o, ShapedJoint(j, dt));
  }

  /** From joint i on, s stands for w under the post. */
  ghost predicate StandsFor(s: Hw, w: Work, post: Post, i: nat) {
    && |s.joints| == |w.slots| && s.log == w.log
    && forall k | i <= k < |s.joints| :: s.joints[k] == AsJoint(w.slots[k], OrderAt(post, k))
  }

  lemma {:induction false} StageTraffic(c: Context, s: Hw, w: Work, post: Post, i: nat)
    requires i <= |s.joints| && StandsFor(s, w, post, i)
    ensures WriteJoints(c, s, EffectiveDt(post.dt), i).s.log == SlotStage(c, w, post, i).w.log
    decreases |s.joints| - i
  {
    hide WriteSlot, WriteJoint, OrderAt, AsJoint, Counted, CountedShape, OrderShape;
    if i < |s.joints| {
      var dt := EffectiveDt(post.dt);
      SlotTraffic(c, s.log, dt, w.slots[i], OrderAt(post, i));
      var a, b := WriteSlot(c, w.log, dt, w.slots[i], OrderAt(post, i)), WriteJoint(c, s.log, dt, s.joints[i]);
      if !b.stop {
        StageTraffic(c, AfterJointWrite(s, i, dt, b), AfterSlotWrite(w, i, dt, OrderAt(post, i), a), post, i + 1);
      }
    }
  }

  // ---- the read phase ----

  lemma {:induction false} SensorReads(c: Context, w: Work, i: nat)
    requires i <= |w.sensors|
    ensures Extends(w.log, SensorStage(c, w, i).w.log, IsRead)
    decreases |w.sensors| - i
  {
    if i < |w.sensors| {
      var (x, status, log) := ReadSensor(c, w.log, w.sensors[i]);
      assert Extends(w.log, log, IsRead);
      if !FailFast(status) {
        var t := w.(sensors := w.sensors[i := x], log := log);
        SensorReads(c, t, i + 1);
        ExtendsTransitive(w.log, log, SensorStage(c, t, i + 1).w.log, IsRead);
      }
    }
  }

  lemma {:induction false} DriveReads(c: Context, w: Work, i: nat)
    requires i <= |w.drives|
    ensures Extends(w.log, DriveStage(c, w, i).w.log, IsRead)
    decreases |w.drives| - i
  {
    if i < |w.drives| {
      var (x, status, log) := ReadDrive(c, w.log, w.drives[i]);
      assert Extends(w.log, log, IsRead);
      if !FailFast(status) {
        var t := w.(drives := w.drives[i := x], log := log);
        DriveReads(c, t, i + 1);
        ExtendsTransitive(w.log, log, DriveStage(c, t, i + 1).w.log, IsRead);
      }
    }
  }

  lemma PollReads(c: Context, log: Log, x: Slot)
    ensures Extends(log, PollSlot(c, log, x).2, IsRead)
  {
    hide PolledSlot;
    DoAllIssued(c.env, log, TelemetryOps(x.cfg));
    DoAllExtends(c.env, log, TelemetryOps(x.cfg), IsRead);
  }

  lemma {:induction false} JointReads(c: Context, w: Work, i: nat)
    requires i <= |w.slots|
    ensures Extends(w.log, JointStage(c, w, i).w.log, IsRead)
    decreases |w.slots| - i
  {
    hide PollSlot;
    if i < |w.slots| {
      var (x, status, log) := PollSlot(c, w.log, w.slots[i]);
      PollReads(c, w.log, w.slots[i]);
      if !FailFast(status) {
        var t := w.(slots := w.slots[i := x], log := log);
        JointReads(c, t, i + 1);
        ExtendsTransitive(w.log, log, JointStage(c, t, i + 1).w.log, IsRead);
      }
    }
  }

  /** The read phase of a cycle. */
  function ReadPhase(c: Context, w: Work): Stage { ReadStage(c, ClearLimiterFlags(w)) }

  lemma ReadPhaseReads(c: Context, w: Work)
    ensures Extends(w.log, ReadPhase(c, w).w.log, IsRead)
  {
    hide SensorStage, DriveStage, JointStage;
    var v := ClearLimiterFlags(w);
    if w.up {
      SensorReads(c, v, 0);
      var p := SensorStage(c, v, 0);
      DriveReads(c, p.w, 0);
      var q := DriveStage(c, p.w, 0);
      JointReads(c, q.w, 0);
      ExtendsTransitive(w.log, p.w.log, q.w.log, IsRead);
      ExtendsTransitive(w.log, q.w.log, JointStage(c, q.w, 0).w.log, IsRead);
    }
  }

  // ---- the cycle ----

  /** The interface whose write() the thread's write phase amounts to. */
  function Writing(c: Context, w: Work, post: Post): Hw { AsInterface(ReadPhase(c, w).w, post) }

  /** However a cycle ends, it causes its reads and then the traffic of one write(), or only its reads if
      one of them ended it. */
  lemma CycleTraffic(c: Context, w: Work, post: Post)
    ensures Extends(w.log, ReadPhase(c, w).w.log, IsRead)
    ensures CycleSpec(c, w, post).log ==
            if ReadPhase(c, w).stopped then ReadPhase(c, w).w.log else WriteSpec(c, Writing(c, w, post), post.dt).log
  {
    hide ReadStage, SlotStage, WriteJoints, OrderAt, AsJoint;
    ReadPhaseReads(c, w);
    var p := ReadPhase(c, w);
    var u := p.w.(stats := p.w.stats.(readCycles := p.w.stats.readCycles + 1));
    StageTraffic(c, Writing(c, w, post), u, post, 0);
  }

  lemma NewEvent(c: Context, w: Work, post: Post, k: nat)
    requires |w.log| <= k < |CycleSpec(c, w, post).log| && !CycleSpec(c, w, post).log[k].op.Read?
    ensures !ReadPhase(c, w).stopped && |Writing(c, w, post).log| <= k
    ensures CycleSpec(c, w, post).log == WriteSpec(c, Writing(c, w, post), post.dt).log
  {
    hide CycleSpec, ReadPhase, WriteSpec, OrderAt, AsJoint;
    CycleTraffic(c, w, post);
    WriteSpecOwner(c, Writing(c, w, post), post.dt, 0);
    ReadOrLater(w.log, ReadPhase(c, w).w.log, CycleSpec(c, w, post).log, k);
  }

  lemma ReadOrLater(start: Log, read: Log, log: Log, k: nat)
    requires Extends(start, read, IsRead) && |read| <= |log| && log[..|read|] == read && |start| <= k < |log|
    ensures |read| <= k || log[k].op.Read?
  {
    if k < |read| {
      assert log[k] == log[..|read|][k];
    }
  }

  /** Wire safety of the thread: an event is a read, an idle request, or belongs to the setpoint block of
      a joint whose order, shaped, is within its limits or exactly the hold fallback. */
  lemma ThreadIsSafe(c: Context, w: Work, post: Post, k: nat)
    requires |w.log| <= k < |CycleSpec(c, w, post).log|
    ensures CycleSpec(c, w, post).log[k].op.Read? || SafeEvent(Writing(c, w, post), CycleSpec(c, w, post).log, k)
  {
    hide CycleSpec, Writing, WriteSpec, SafeEvent;
    if !CycleSpec(c, w, post).log[k].op.Read? {
      NewEvent(c, w, post, k);
      WriteIsSafe(c, Writing(c, w, post), post.dt, k);
    }
  }

  ghost predicate DistinctSlots(w: Work) {
    && (forall i | 0 <= i < |w.slots| :: 0 <= w.slots[i].cfg.axis <= 1)
    && forall i, k | 0 <= i < k < |w.slots| ::
         w.slots[i].cfg.serial != w.slots[k].cfg.serial || w.slots[i].cfg.axis != w.slots[k].cfg.axis
  }

  lemma PollConfig(c: Context, log: Log, x: Slot)
    ensures PollSlot(c, log, x).0.cfg == x.cfg
  {
    hide DoAll, TelemetryOps, SampleOf, FeedbackValid, AllClear, Signed, HeldKin;
    DoAllIssued(c.env, log, TelemetryOps(x.cfg));
  }

  /** The configurations of w, place by place. */
  function ConfigsOf(w: Work): SlotInvariants.SlotProperty {
    (i: nat, x: Slot) => i < |w.slots| ==> x.cfg == w.slots[i].cfg
  }

  lemma WritingDistinct(c: Context, w: Work, post: Post)
    requires DistinctSlots(w)
    ensures DistinctAxes(Writing(c, w, post))
  {
    hide ReadStage, PollSlot, OrderAt;
    var p := ConfigsOf(w);
    assert forall i: nat, x: Slot :: p(i, x) <==> (i < |w.slots| ==> x.cfg == w.slots[i].cfg);
    forall i: nat, x: Slot, log: Log | p(i, x) ensures p(i, PollSlot(c, log, x).0) {
      PollConfig(c, log, x);
    }
    SlotInvariants.ReadPhaseKeeps(c, w, p);
    assert forall i: nat | i < |w.slots| :: p(i, ReadPhase(c, w).w.slots[i]);
  }

  /** Every watchdog feed of the thread directly follows all setpoints of its joint's level. */
  lemma ThreadFeed(c: Context, w: Work, post: Post, k: nat)
    requires DistinctSlots(w)
    requires |w.log| <= k < |CycleSpec(c, w, post).log| && IsFeed(CycleSpec(c, w, post).log[k].op)
    ensures exists i: nat :: EarnedFeed(c, Writing(c, w, post), post.dt, i, CycleSpec(c, w, post).log, k)
  {
    hide CycleSpec, Writing, WriteSpec, EarnedFeed;
    NewEvent(c, w, post, k);
    WritingDistinct(c, w, post);
    WriteFeed(c, Writing(c, w, post), post.dt, k);
  }

  /** No axis is fed twice in one cycle of the thread. */
  lemma ThreadFeedsOnce(c: Context, w: Work, post: Post, k: nat, m: nat)
    requires DistinctSlots(w)
    requires var log := CycleSpec(c, w, post).log;
             && |w.log| <= k < |log| && |w.log| <= m < |log|
             && IsFeed(log[k].op) && log[m].op == log[k].op
    ensures k == m
  {
    hide CycleSpec, Writing, WriteSpec;
    NewEvent(c, w, post, k);
    NewEvent(c, w, post, m);
    WritingDistinct(c, w, post);
    WriteFeedsOnce(c, Writing(c, w, post), post.dt, k, m);
  }

  // ---- claims under the thread ----

  lemma OrderConfig(c: Context, log: Log, dt: real, x: Slot, o: Order)
    ensures WriteSlot(c, log, dt, x, o).slot.cfg == x.cfg
  {
    hide DoAll, CommandOps, Oriented, Stale, HasFault, FailFast, IdleOp, OrderShape;
  }

  lemma SlotsKeepConfig(c: Context, w: Work, post: Post)
    ensures forall i | 0 <= i < |w.slots| :: CycleSpec(c, w, post).slots[i].cfg == w.slots[i].cfg
  {
    hide CycleSpec, PollSlot, WriteSlot, OrderAt;
    var p := ConfigsOf(w);
    assert forall i: nat, x: Slot :: p(i, x) <==> (i < |w.slots| ==> x.cfg == w.slots[i].cfg);
    forall i: nat, x: Slot, log: Log | p(i, x) ensures p(i, PollSlot(c, log, x).0) {
      PollConfig(c, log, x);
    }
    forall i: nat, x: Slot, log: Log | p(i, x)
      ensures p(i, WriteSlot(c, log, EffectiveDt(post.dt), x, OrderAt(post, i)).slot)
    {
      OrderConfig(c, log, EffectiveDt(post.dt), x, OrderAt(post, i));
    }
    SlotInvariants.CycleKeeps(c, w, post, p);
    assert forall i: nat | i < |w.slots| :: p(i, CycleSpec(c, w, post).slots[i]);
  }

  /** A cycle of the thread leaves the watchdog registers alone, however it ends. */
  lemma CycleLeavesWatchdog(c: Context, w: Work, post: Post)
    requires DistinctSlots(w)
    ensures Extends(w.log, CycleSpec(c, w, post).log, Claims.LeavesWatchdog)
  {
    hide CycleSpec, ReadPhase, WriteSpec, OrderAt, AsJoint, DistinctAxes;
    CycleTraffic(c, w, post);
    var read := ReadPhase(c, w).w.log;
    assert Extends(w.log, read, Claims.LeavesWatchdog);
    WritingDistinct(c, w, post);
    Claims.WriteLeavesWatchdog(c, Writing(c, w, post), post.dt);
    ExtendsTransitive(w.log, read, WriteSpec(c, Writing(c, w, post), post.dt).log, Claims.LeavesWatchdog);
  }

  lemma {:induction false} CyclesLeaveWatchdog(c: Context, w: Work, posts: seq<Post>)
    requires DistinctSlots(w)
    ensures DistinctSlots(Refinement.WorkerCycles(c, w, posts))
    ensures Extends(w.log, Refinement.WorkerCycles(c, w, posts).log, Claims.LeavesWatchdog)
  {
    hide CycleSpec;
    if posts != [] {
      var m := |posts| - 1;
      var v := Refinement.WorkerCycles(c, w, posts[..m]);
      CyclesLeaveWatchdog(c, w, posts[..m]);
      SlotsKeepConfig(c, v, posts[m]);
      CycleLeavesWatchdog(c, v, posts[m]);
      ExtendsTransitive(w.log, v.log, CycleSpec(c, v, posts[m]).log, Claims.LeavesWatchdog);
    }
  }

  /** Between two switches any number of cycles of the thread, in which it may lose the transport, changes
      nothing about the claims: those of the interface s are armed after them exactly if before. */
  lemma ThreadKeepsClaims(c: Context, s: Hw, w: Work, posts: seq<Post>)
    requires DistinctSlots(w) && DistinctAxes(s) && s.log == w.log
    ensures Claims.ClaimsArmed(s.(log := Refinement.WorkerCycles(c, w, posts).log)) <==> Claims.ClaimsArmed(s)
  {
    hide Refinement.WorkerCycles, Claims.Armed;
    CyclesLeaveWatchdog(c, w, posts);
    forall i | 0 <= i < |s.joints|
      ensures Claims.ClaimOk(Refinement.WorkerCycles(c, w, posts).log, s.joints[i]) <==>
              Claims.ClaimOk(s.log, s.joints[i])
    {
      Claims.ArmedFrame(s.log, Refinement.WorkerCycles(c, w, posts).log, s.joints[i].cfg);
    }
  }
}
