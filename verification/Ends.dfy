/** How read(), write() and a cycle of the I/O thread end: at the first answer of TIMEOUT or NO_DEVICE, which
    fails everything, or after the last operation. */
module Ends {
  import opened Numeric
  import opened Transport
  import opened Joints
  import opened Axis
  import opened Cycle
  import opened Runs
  import opened Worker
  import ThreadWire

  /** TIMEOUT is -7 and NO_DEVICE is -4. */
  predicate Fatal(status: int) { status == -7 || status == -4 }

  /** The log goes on without such an answer. */
  ghost predicate GoesOn(log: Log, log': Log) {
    && |log| <= |log'| && log'[..|log|] == log
    && forall n | |log| <= n < |log'| :: !Fatal(log'[n].reply.status)
  }

  /** The log goes on up to the first such answer. */
  ghost predicate CutShort(log: Log, log': Log, status: int) {
    && |log| < |log'| && log'[..|log|] == log && Fatal(status) && log'[|log'| - 1].reply.status == status
    && forall n | |log| <= n < |log'| - 1 :: !Fatal(log'[n].reply.status)
  }

  lemma GoesOnThen(a: Log, b: Log, d: Log)
    requires GoesOn(a, b)
    ensures GoesOn(b, d) ==> GoesOn(a, d)
    ensures forall status | CutShort(b, d, status) :: CutShort(a, d, status)
  {
    if |b| <= |d| && d[..|b|] == b {
      assert d[..|a|] == d[..|b|][..|a|];
      assert forall n | 0 <= n < |b| :: d[n] == d[..|b|][n];
    }
  }

  lemma OneMore(log: Log, e: Event)
    ensures !Fatal(e.reply.status) ==> GoesOn(log, log + [e])
    ensures Fatal(e.reply.status) ==> CutShort(log, log + [e], e.reply.status)
  {
  }

  lemma DoAllEnds(env: Env, log: Log, ops: seq<Op>)
    ensures var (status, log') := DoAll(env, log, ops);
            if Fatal(status) then CutShort(log, log', status) else GoesOn(log, log')
  {
    DoAllIssued(env, log, ops);
  }

  // ---- read() ----

  /** Everything is held, unhealthy, and reports the status. */
  ghost predicate Failed(s: Hw, status: int) {
    && (forall i | 0 <= i < |s.joints| ::
          var k := s.joints[i].core;
          k.readError == status && !k.telemetryValid && !k.healthy && k.lastValidPos.Fin?
          && k.kin == Triple(k.lastValidPos, ZERO, ZERO))
    && (forall i | 0 <= i < |s.drives| :: s.drives[i].canError == 0 && s.drives[i].readError == status)
    && (forall i | 0 <= i < |s.sensors| ::
          s.sensors[i].vbus == NaN && s.sensors[i].transportError == Fin(status as real))
  }

  lemma FailsAll(s: Hw, status: int)
    ensures Failed(FailAll(s, status), status)
    ensures FailAll(s, status).log == s.log && FailAll(s, status).stats == s.stats
  {
  }

  /** A sensor shows the voltage it was answered in event e, if there was one. */
  predicate ShowsVoltage(x: Sensor, e: Event) {
    && e.op == Read(x.serial, VBUS_VOLTAGE)
    && x.vbus == if e.reply.status == 0 then e.reply.num else NaN
  }

  predicate ShowsStatus(x: Sensor, e: Event) { x.transportError == Fin(e.reply.status as real) }

  predicate ShowsCanError(x: Drive, e: Event) {
    && e.op == Read(x.serial, CAN_ERROR) && x.readError == e.reply.status
    && 0 <= x.canError < 0x1_0000_0000
    && (if e.reply.status == 0 then (x.canError - e.reply.word) % 0x1_0000_0000 == 0 else x.canError == 0)
  }

  lemma {:induction false} SensorsEnd(c: Context, s: Hw, i: nat)
    requires i <= |s.sensors|
    ensures var p := ReadSensors(c, s, i);
            && p.s.stats == s.stats
            && (p.stopped ==> exists status :: CutShort(s.log, p.s.log, status) && Failed(p.s, status))
            && (!p.stopped ==>
                  && GoesOn(s.log, p.s.log) && |p.s.log| == |s.log| + |s.sensors| - i
                  && p.s == s.(sensors := p.s.sensors, log := p.s.log)
                  && (forall k | 0 <= k < i :: p.s.sensors[k] == s.sensors[k])
                  && forall k | i <= k < |s.sensors| ::
                       ShowsVoltage(p.s.sensors[k], p.s.log[|s.log| + k - i]) &&
                       ShowsStatus(p.s.sensors[k], p.s.log[|s.log| + k - i]))
    decreases |s.sensors| - i
  {
    hide FailAll, Failed;
    if i < |s.sensors| {
      var (x, status, log) := ReadSensor(c, s.log, s.sensors[i]);
      var t := s.(sensors := s.sensors[i := x], log := log);
      OneMore(s.log, log[|s.log|]);
      if FailFast(status) {
        FailsAll(t, status);
      } else {
        SensorsEnd(c, t, i + 1);
        var p := ReadSensors(c, t, i + 1);
        GoesOnThen(s.log, log, p.s.log);
        if !p.stopped {
          assert p.s.log[|s.log|] == log[|s.log|] by { assert p.s.log[..|log|][|s.log|] == p.s.log[|s.log|]; }
        }
      }
    }
  }

  lemma {:induction false} DrivesEnd(c: Context, s: Hw, i: nat)
    requires i <= |s.drives|
    ensures var p := ReadDrives(c, s, i);
            && p.s.stats == s.stats
            && (p.stopped ==> exists status :: CutShort(s.log, p.s.log, status) && Failed(p.s, status))
            && (!p.stopped ==>
                  && GoesOn(s.log, p.s.log) && |p.s.log| == |s.log| + |s.drives| - i
                  && p.s == s.(drives := p.s.drives, log := p.s.log)
                  && (forall k | 0 <= k < i :: p.s.drives[k] == s.drives[k])
                  && forall k | i <= k < |s.drives| :: ShowsCanError(p.s.drives[k], p.s.log[|s.log| + k - i]))
    decreases |s.drives| - i
  {
    hide FailAll, Failed;
    if i < |s.drives| {
      var (x, status, log) := ReadDrive(c, s.log, s.drives[i]);
      var t := s.(drives := s.drives[i := x], log := log);
      OneMore(s.log, log[|s.log|]);
      if FailFast(status) {
        FailsAll(t, status);
      } else {
        DrivesEnd(c, t, i + 1);
        var p := ReadDrives(c, t, i + 1);
        GoesOnThen(s.log, log, p.s.log);
        if !p.stopped {
          assert p.s.log[|s.log|] == log[|s.log|] by { assert p.s.log[..|log|][|s.log|] == p.s.log[|s.log|]; }
        }
      }
    }
  }

  lemma PollEnds(c: Context, log: Log, j: Joint)
    ensures var r := ReadJoint(c, log, j);
            if Fatal(r.status) then CutShort(log, r.log, r.status) else GoesOn(log, r.log)
  {
    hide TelemetryOps, Absorb, DoAll, FeedbackValid, CutShort, GoesOn;
    DoAllIssued(c.env, log, TelemetryOps(j.cfg));
    DoAllEnds(c.env, log, TelemetryOps(j.cfg));
  }

  /** Only sensors of drives with joints report another status. */
  ghost predicate SameVoltages(a: seq<Sensor>, b: seq<Sensor>, joints: seq<Joint>) {
    |a| == |b| && forall i | 0 <= i < |a| ::
      && a[i].serial == b[i].serial && a[i].vbus == b[i].vbus
      && (b[i].transportError == a[i].transportError || OfJoint(joints, a[i].serial))
  }

  predicate OfJoint(joints: seq<Joint>, serial: int) { exists k | 0 <= k < |joints| :: joints[k].cfg.serial == serial }

  lemma {:induction false} JointsEnd(c: Context, s: Hw, i: nat)
    requires i <= |s.joints|
    ensures var p := ReadJoints(c, s, i);
            && p.s.stats == s.stats
            && (p.stopped ==> exists status :: CutShort(s.log, p.s.log, status) && Failed(p.s, status))
            && (!p.stopped ==> GoesOn(s.log, p.s.log) && p.s.drives == s.drives &&
                               SameVoltages(s.sensors, p.s.sensors, s.joints))
    decreases |s.joints| - i
  {
    hide FailAll, Failed, ReadJoint, CutShort, GoesOn;
    if i < |s.joints| {
      var r := ReadJoint(c, s.log, s.joints[i]);
      PollEnds(c, s.log, s.joints[i]);
      if FailFast(r.status) {
        FailsAll(s.(log := r.log), r.status);
      } else {
        var t := AfterJointRead(s, i, r);
        ReadJointFrame(c, s.log, s.joints[i]);
        JointsEnd(c, t, i + 1);
        GoesOnThen(s.log, r.log, ReadJoints(c, t, i + 1).s.log);
        if !ReadJoints(c, t, i + 1).stopped {
          Marked(s, i, r, ReadJoints(c, t, i + 1).s.sensors);
        }
      }
    } else {
      assert GoesOn(s.log, s.log) by { NothingHappens(s.log); }
    }
  }

  lemma Marked(s: Hw, i: nat, r: JointRead, after: seq<Sensor>)
    requires i < |s.joints| && r.joint.cfg == s.joints[i].cfg
    requires var t := AfterJointRead(s, i, r); SameVoltages(t.sensors, after, t.joints)
    ensures SameVoltages(s.sensors, after, s.joints)
  {
    hide MarkSensor;
    var t := AfterJointRead(s, i, r);
    forall serial | OfJoint(t.joints, serial) ensures OfJoint(s.joints, serial) {
      var k :| 0 <= k < |t.joints| && t.joints[k].cfg.serial == serial;
      assert s.joints[k].cfg.serial == serial;
    }
    assert OfJoint(s.joints, s.joints[i].cfg.serial);
  }

  lemma NothingHappens(log: Log)
    ensures GoesOn(log, log)
  {
  }

  /** read() with a transport asks every sensor for its voltage, every drive for its CAN error and every joint
      for its telemetry, in this order. The first answer of TIMEOUT or NO_DEVICE ends it and fails everything
      with it; without one it counts as a read cycle, and the sensors and drives show what they answered, but
      for the status of a sensor whose drive has a joint, which may report the status of its poll instead. */
  lemma ReadEnds(c: Context, s: Hw)
    requires s.up
    ensures var t := ReadSpec(c, s);
            || (exists status :: CutShort(s.log, t.log, status) && Failed(t, status) && t.stats == s.stats)
            || (&& GoesOn(s.log, t.log)
                && t.stats == s.stats.(readCycles := s.stats.readCycles + 1)
                && |t.log| >= |s.log| + |s.sensors| + |s.drives|
                && |t.sensors| == |s.sensors| && |t.drives| == |s.drives|
                && (forall i | 0 <= i < |s.sensors| ::
                      && ShowsVoltage(t.sensors[i], t.log[|s.log| + i])
                      && (ShowsStatus(t.sensors[i], t.log[|s.log| + i]) || OfJoint(s.joints, t.sensors[i].serial)))
                && forall i | 0 <= i < |s.drives| ::
                     ShowsCanError(t.drives[i], t.log[|s.log| + |s.sensors| + i]))
  {
    hide ReadSensors, ReadDrives, ReadJoints, Failed, ShowsVoltage, ShowsStatus, ShowsCanError, OfJoint;
    var d := DefaultUnhealthy(s);
    var p := ReadSensors(c, d, 0);
    SensorsEnd(c, d, 0);
    if !p.stopped {
      var q := ReadDrives(c, p.s, 0);
      DrivesEnd(c, p.s, 0);
      GoesOnThen(s.log, p.s.log, q.s.log);
      if !q.stopped {
        var r := ReadJoints(c, q.s, 0);
        JointsEnd(c, q.s, 0);
        GoesOnThen(s.log, q.s.log, r.s.log);
        if !r.stopped {
          Shown(d, p.s, q.s, r.s);
          SameSerials(s);
        }
      }
    }
  }

  lemma SameSerials(s: Hw)
    ensures forall serial :: OfJoint(DefaultUnhealthy(s).joints, serial) <==> OfJoint(s.joints, serial)
  {
    var d := DefaultUnhealthy(s);
    forall serial ensures OfJoint(d.joints, serial) <==> OfJoint(s.joints, serial) {
      if OfJoint(s.joints, serial) {
        var k :| 0 <= k < |s.joints| && s.joints[k].cfg.serial == serial;
        assert d.joints[k].cfg.serial == serial;
      }
    }
  }

  /** What sensors and drives show stays. */
  lemma Shown(s: Hw, p: Hw, q: Hw, r: Hw)
    requires GoesOn(s.log, p.log) && GoesOn(p.log, q.log) && GoesOn(q.log, r.log)
    requires |p.log| == |s.log| + |s.sensors| && |q.log| == |p.log| + |s.drives|
    requires |p.sensors| == |s.sensors| && q.sensors == p.sensors && SameVoltages(q.sensors, r.sensors, s.joints)
    requires |q.drives| == |s.drives| && r.drives == q.drives
    requires forall i | 0 <= i < |s.sensors| ::
               ShowsVoltage(p.sensors[i], p.log[|s.log| + i]) && ShowsStatus(p.sensors[i], p.log[|s.log| + i])
    requires forall i | 0 <= i < |s.drives| :: ShowsCanError(q.drives[i], q.log[|p.log| + i])
    ensures forall i | 0 <= i < |s.sensors| ::
              && ShowsVoltage(r.sensors[i], r.log[|s.log| + i])
              && (ShowsStatus(r.sensors[i], r.log[|s.log| + i]) || OfJoint(s.joints, r.sensors[i].serial))
    ensures forall i | 0 <= i < |s.drives| :: ShowsCanError(r.drives[i], r.log[|s.log| + |s.sensors| + i])
  {
    hide ShowsCanError;
    forall i | 0 <= i < |s.sensors|
      ensures ShowsVoltage(r.sensors[i], r.log[|s.log| + i])
      ensures ShowsStatus(r.sensors[i], r.log[|s.log| + i]) || OfJoint(s.joints, r.sensors[i].serial)
    {
      assert r.log[|s.log| + i] == r.log[..|q.log|][|s.log| + i];
      assert q.log[|s.log| + i] == q.log[..|p.log|][|s.log| + i];
    }
    forall i | 0 <= i < |s.drives| ensures ShowsCanError(r.drives[i], r.log[|s.log| + |s.sensors| + i]) {
      assert r.log[|p.log| + i] == r.log[..|q.log|][|p.log| + i];
    }
  }

  /** Without a transport read() leaves the bus and the drives alone; joints are held, unhealthy and without
      telemetry, and sensors show nothing. */
  lemma SilentRead(c: Context, s: Hw)
    requires !s.up
    ensures var t := ReadSpec(c, s);
            && t == s.(joints := t.joints, sensors := t.sensors)
            && (forall i | 0 <= i < |t.joints| ::
                  Lost(t.joints[i].core) && t.joints[i].core.readError == s.joints[i].core.readError)
            && |t.sensors| == |s.sensors|
            && forall i | 0 <= i < |t.sensors| :: t.sensors[i] == Sensor(s.sensors[i].serial, NaN, NaN)
  {
  }

  // ---- write() ----

  lemma TurnEnds(c: Context, log: Log, dt: real, j: Joint)
    ensures var r := WriteJoint(c, log, dt, j);
            if r.stop then exists status :: CutShort(log, r.log, status) else GoesOn(log, r.log)
  {
    hide DoAll, CommandOps, JointShape, HasFault, Stale, Negated, CutShort, GoesOn, IdleOp;
    var v := Inverted(Unfaulted(ShapedJoint(j, dt)));
    DoAllEnds(c.env, log, CommandOps(v.cfg, v.level, v.cmd));
    OneMore(log, Event(IdleOp(j.cfg), c.env(log, IdleOp(j.cfg))));
    NothingHappens(log);
  }

  lemma {:induction false} TurnsEnd(c: Context, s: Hw, dt: real, i: nat)
    requires i <= |s.joints|
    ensures var p := WriteJoints(c, s, dt, i);
            && p.s.stats.writeCycles == s.stats.writeCycles && p.s.stats.readCycles == s.stats.readCycles
            && p.s.up == (s.up && !p.stopped)
            && (p.stopped ==> exists status :: CutShort(s.log, p.s.log, status))
            && (!p.stopped ==> GoesOn(s.log, p.s.log))
    decreases |s.joints| - i
  {
    hide WriteJoint, CutShort, GoesOn, JointShape;
    if i < |s.joints| {
      var r := WriteJoint(c, s.log, dt, s.joints[i]);
      TurnEnds(c, s.log, dt, s.joints[i]);
      if !r.stop {
        var t := AfterJointWrite(s, i, dt, r);
        TurnsEnd(c, t, dt, i + 1);
        GoesOnThen(s.log, r.log, WriteJoints(c, t, dt, i + 1).s.log);
      }
    } else {
      NothingHappens(s.log);
    }
  }

  /** write() that reaches the joints: the first answer of TIMEOUT or NO_DEVICE ends it and drops the
      transport; without one the transport stays and a write cycle is counted. */
  lemma WriteEnds(c: Context, s: Hw, period: Num)
    requires s.up && (c.safety.gateOutputs ==> s.outputs)
    ensures var t := WriteSpec(c, s, period);
            if t.up then GoesOn(s.log, t.log) && t.stats.writeCycles == s.stats.writeCycles + 1
            else (exists status :: CutShort(s.log, t.log, status)) && t.stats.writeCycles == s.stats.writeCycles
  {
    hide WriteJoints, CutShort, GoesOn;
    TurnsEnd(c, s, EffectiveDt(period), 0);
  }

  // ---- the I/O thread ----

  /** Held where it was last accepted, unhealthy and without telemetry. */
  predicate Lost(k: Core) {
    && !k.healthy && !k.telemetryValid
    && k.kin == Triple(if k.lastValidPos.Fin? then k.lastValidPos else ZERO, ZERO, ZERO)
  }

  ghost predicate AllLost(w: Work) { forall i | 0 <= i < |w.slots| :: Lost(w.slots[i].core) }

  /** The transport is gone; everything is lost and reports the status twice. */
  ghost predicate Aborted(w: Work, status: int) {
    && !w.up && AllLost(w)
    && (forall i | 0 <= i < |w.slots| ::
          w.slots[i].core.readError == status && w.slots[i].core.writeError == status)
    && (forall i | 0 <= i < |w.sensors| :: w.sensors[i].vbus == NaN)
  }

  lemma Aborts(w: Work, status: int)
    ensures var t := Abort(w, status); Aborted(t, status) && t.log == w.log && t.stats == w.stats
  {
  }

  /** A stage goes on, or ends the cycle. */
  ghost predicate StageEnds(w: Work, p: Stage) {
    if p.stopped then exists status :: CutShort(w.log, p.w.log, status) && Aborted(p.w, status)
    else GoesOn(w.log, p.w.log) && p.w.up == w.up
  }

  lemma StagesThen(a: Work, b: Work, p: Stage)
    requires GoesOn(a.log, b.log) && b.up == a.up && StageEnds(b, p)
    ensures StageEnds(a, p)
  {
    hide CutShort, GoesOn, Aborted;
    GoesOnThen(a.log, b.log, p.w.log);
  }

  lemma {:induction false} SensorStageEnds(c: Context, w: Work, i: nat)
    requires i <= |w.sensors|
    ensures var p := SensorStage(c, w, i); StageEnds(w, p) && p.w.stats == w.stats
    decreases |w.sensors| - i
  {
    hide Abort, Aborted, CutShort, GoesOn;
    if i < |w.sensors| {
      var (x, status, log) := ReadSensor(c, w.log, w.sensors[i]);
      var t := w.(sensors := w.sensors[i := x], log := log);
      OneMore(w.log, log[|w.log|]);
      Aborts(t, status);
      if !FailFast(status) {
        SensorStageEnds(c, t, i + 1);
        StagesThen(w, t, SensorStage(c, t, i + 1));
      }
    } else {
      NothingHappens(w.log);
    }
  }

  lemma {:induction false} DriveStageEnds(c: Context, w: Work, i: nat)
    requires i <= |w.drives|
    ensures var p := DriveStage(c, w, i); StageEnds(w, p) && p.w.stats == w.stats
    decreases |w.drives| - i
  {
    hide Abort, Aborted, CutShort, GoesOn;
    if i < |w.drives| {
      var (x, status, log) := ReadDrive(c, w.log, w.drives[i]);
      var t := w.(drives := w.drives[i := x], log := log);
      OneMore(w.log, log[|w.log|]);
      Aborts(t, status);
      if !FailFast(status) {
        DriveStageEnds(c, t, i + 1);
        StagesThen(w, t, DriveStage(c, t, i + 1));
      }
    } else {
      NothingHappens(w.log);
    }
  }

  lemma {:induction false} JointStageEnds(c: Context, w: Work, i: nat)
    requires i <= |w.slots|
    ensures var p := JointStage(c, w, i); StageEnds(w, p) && p.w.stats == w.stats
    decreases |w.slots| - i
  {
    hide Abort, Aborted, CutShort, GoesOn, PolledSlot, DoAll, TelemetryOps;
    if i < |w.slots| {
      var (x, status, log) := PollSlot(c, w.log, w.slots[i]);
      var t := w.(slots := w.slots[i := x], log := log);
      DoAllIssued(c.env, w.log, TelemetryOps(w.slots[i].cfg));
      DoAllEnds(c.env, w.log, TelemetryOps(w.slots[i].cfg));
      Aborts(t, status);
      if !FailFast(status) {
        JointStageEnds(c, t, i + 1);
        StagesThen(w, t, JointStage(c, t, i + 1));
      }
    } else {
      NothingHappens(w.log);
    }
  }

  lemma SlotEnds(c: Context, log: Log, dt: real, x: Slot, o: Order)
    ensures var r := WriteSlot(c, log, dt, x, o);
            if r.status.Some? then CutShort(log, r.log, r.status.value) else GoesOn(log, r.log)
  {
    hide DoAll, CommandOps, OrderShape, HasFault, Stale, Oriented, CutShort, GoesOn, IdleOp;
    var v := Oriented(x.cfg, OrderShape(x, o, dt).cmd);
    DoAllEnds(c.env, log, CommandOps(x.cfg, o.level, v));
    OneMore(log, Event(IdleOp(x.cfg), c.env(log, IdleOp(x.cfg))));
    NothingHappens(log);
  }

  lemma {:induction false} SlotStageEnds(c: Context, w: Work, post: Post, i: nat)
    requires i <= |w.slots|
    ensures var p := SlotStage(c, w, post, i);
            && StageEnds(w, p)
            && p.w.stats.readCycles == w.stats.readCycles && p.w.stats.writeCycles == w.stats.writeCycles
    decreases |w.slots| - i
  {
    hide Abort, Aborted, CutShort, GoesOn, WriteSlot, OrderShape;
    if i < |w.slots| {
      var dt, o := EffectiveDt(post.dt), OrderAt(post, i);
      var r := WriteSlot(c, w.log, dt, w.slots[i], o);
      SlotEnds(c, w.log, dt, w.slots[i], o);
      var t := AfterSlotWrite(w, i, dt, o, r);
      if r.status.Some? {
        Aborts(t, r.status.value);
      } else {
        SlotStageEnds(c, t, post, i + 1);
        StagesThen(w, t, SlotStage(c, t, post, i + 1));
      }
    } else {
      NothingHappens(w.log);
    }
  }

  lemma ReadPhaseEnds(c: Context, w: Work)
    requires w.up
    ensures var p := ThreadWire.ReadPhase(c, w); StageEnds(w, p) && p.w.stats == w.stats
  {
    hide SensorStage, DriveStage, JointStage, Aborted, CutShort, GoesOn;
    var v := ClearLimiterFlags(w);
    var p := SensorStage(c, v, 0);
    SensorStageEnds(c, v, 0);
    if !p.stopped {
      var q := DriveStage(c, p.w, 0);
      DriveStageEnds(c, p.w, 0);
      StagesThen(v, p.w, q);
      if !q.stopped {
        JointStageEnds(c, q.w, 0);
        StagesThen(v, q.w, JointStage(c, q.w, 0));
      }
    }
  }

  /** A cycle with a transport: the first answer of TIMEOUT or NO_DEVICE ends it, drops the transport, and
      fails every slot with it, read and write; without one the transport stays, and a read and a write cycle
      are counted. */
  lemma CycleEnds(c: Context, w: Work, post: Post)
    requires w.up
    ensures var t := CycleSpec(c, w, post);
            || (exists status :: CutShort(w.log, t.log, status) && Aborted(t, status) &&
                                 t.stats.writeCycles == w.stats.writeCycles)
            || (&& GoesOn(w.log, t.log) && t.up && t.stats.readCycles == w.stats.readCycles + 1
                && t.stats.writeCycles == w.stats.writeCycles + 1)
  {
    hide ReadStage, SlotStage, Aborted, CutShort, GoesOn, ClearLimiterFlags;
    ReadPhaseEnds(c, w);
    var p := ThreadWire.ReadPhase(c, w);
    if !p.stopped {
      var u := p.w.(stats := p.w.stats.(readCycles := p.w.stats.readCycles + 1));
      SlotStageEnds(c, u, post, 0);
      StagesThen(w, u, SlotStage(c, u, post, 0));
    }
  }

  /** Without a transport a cycle leaves the bus alone, and everything is lost. */
  lemma SilentCycle(c: Context, w: Work, post: Post)
    requires !w.up
    ensures var t := CycleSpec(c, w, post); t.log == w.log && !t.up && AllLost(t)
  {
  }
}
