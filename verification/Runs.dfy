/** Runs of the synchronous interface, and which joint is responsible for which piece of traffic. */
module Runs {
  import opened Numeric
  import opened Transport
  import opened Joints
  import opened Axis
  import opened Cycle

  /** A call of the controller manager, or a controller writing its command interfaces. */
  datatype Api =
    | ReadCall
    | WriteCall(period: Num)
    | Command(i: nat, cmd: Triple, seqNo: Num)
    | Prepare(starts: seq<string>, stops: seq<string>)
    | Switch
    | Activate(created: bool)
    | Deactivate
    | Cleanup

  function SetCommand(s: Hw, i: nat, cmd: Triple, seqNo: Num): Hw {
    if i < |s.joints| then s.(joints := s.joints[i := s.joints[i].(cmd := cmd, seqNo := seqNo)]) else s
  }

  function Step(c: Context, s: Hw, a: Api): Hw {
    match a
    case ReadCall => ReadSpec(c, s)
    case WriteCall(period) => WriteSpec(c, s, period)
    case Command(i, cmd, seqNo) => SetCommand(s, i, cmd, seqNo)
    case Prepare(starts, stops) => PrepareSpec(s, starts, stops)
    case Switch => SwitchSpec(c, s).0
    case Activate(created) => ActivateSpec(c, s, created).0
    case Deactivate => DeactivateSpec(c, s)
    case Cleanup => CleanupSpec(s)
  }

  function Run(c: Context, s: Hw, calls: seq<Api>): Hw {
    if calls == [] then s
    else Step(c, Run(c, s, calls[..|calls| - 1]), calls[|calls| - 1])
  }

  /** Every joint keeps its place and its configuration. */
  ghost predicate SameConfig(s: Hw, t: Hw) {
    |s.joints| == |t.joints| && forall i | 0 <= i < |s.joints| :: s.joints[i].cfg == t.joints[i].cfg
  }

  /** Axis numbers are 0 or 1, and no two joints share an axis. */
  ghost predicate DistinctAxes(s: Hw) {
    && (forall i | 0 <= i < |s.joints| :: 0 <= s.joints[i].cfg.axis <= 1)
    && forall i, k | 0 <= i < k < |s.joints| ::
         s.joints[i].cfg.serial != s.joints[k].cfg.serial || s.joints[i].cfg.axis != s.joints[k].cfg.axis
  }

  // ---- read() ----

  predicate IsRead(op: Op) { op.Read? }

  /** The log at which joint i is polled by a read() from s; none if it never gets there. */
  function ReadTurn(c: Context, s: Hw, i: nat): Option<Log>
    requires i < |s.joints|
  {
    if !s.up then None else
    var p := ReadSensors(c, DefaultUnhealthy(s), 0);
    if p.stopped then None else
    var q := ReadDrives(c, p.s, 0);
    if q.stopped || |q.s.joints| <= i then None else JointTurn(c, q.s, 0, i)
  }

  function JointTurn(c: Context, s: Hw, k: nat, i: nat): Option<Log>
    requires k <= i < |s.joints|
    decreases i - k
  {
    if k == i then Some(s.log)
    else
      var r := ReadJoint(c, s.log, s.joints[k]);
      if FailFast(r.status) then None else JointTurn(c, AfterJointRead(s, k, r), k + 1, i)
  }

  /** A joint after read(), given whether it was polled and how the whole read ended. */
  ghost predicate ReadResult(c: Context, turn: Option<Log>, j: Joint, j': Joint) {
    var before := j.(core := j.core.(healthy := false));
    var polled := if turn.Some? then ReadJoint(c, turn.value, before).joint else before;
    || (turn.Some? && !FailFast(ReadJoint(c, turn.value, before).status) && j' == polled)
    || (exists status :: FailFast(status) && j' == FailJoint(polled, status))
  }

  lemma {:induction false} ReadSensorsFrame(c: Context, s: Hw, i: nat)
    requires i <= |s.sensors|
    ensures var p := ReadSensors(c, s, i);
            && Extends(s.log, p.s.log, IsRead)
            && |p.s.drives| == |s.drives|
            && p.s.up == s.up && p.s.outputs == s.outputs
            && (!p.stopped ==> p.s.joints == s.joints && p.s.drives == s.drives)
            && (p.stopped ==> exists status :: FailFast(status) && p.s.joints == FailAll(s, status).joints)
    decreases |s.sensors| - i
  {
    if i < |s.sensors| {
      var (x, status, log) := ReadSensor(c, s.log, s.sensors[i]);
      var t := s.(sensors := s.sensors[i := x], log := log);
      assert Extends(s.log, log, IsRead);
      if FailFast(status) {
        assert FailAll(t, status).joints == FailAll(s, status).joints;
      } else {
        ReadSensorsFrame(c, t, i + 1);
        ExtendsTransitive(s.log, t.log, ReadSensors(c, t, i + 1).s.log, IsRead);
        if ReadSensors(c, t, i + 1).stopped {
          var st :| FailFast(st) && ReadSensors(c, t, i + 1).s.joints == FailAll(t, st).joints;
          assert FailAll(t, st).joints == FailAll(s, st).joints;
        }
      }
    }
  }

  lemma {:induction false} ReadDrivesFrame(c: Context, s: Hw, i: nat)
    requires i <= |s.drives|
    ensures var p := ReadDrives(c, s, i);
            && Extends(s.log, p.s.log, IsRead)
            && |p.s.sensors| == |s.sensors|
            && p.s.up == s.up && p.s.outputs == s.outputs
            && (!p.stopped ==> p.s.joints == s.joints)
            && (p.stopped ==> exists status :: FailFast(status) && p.s.joints == FailAll(s, status).joints)
    decreases |s.drives| - i
  {
    if i < |s.drives| {
      var (x, status, log) := ReadDrive(c, s.log, s.drives[i]);
      var t := s.(drives := s.drives[i := x], log := log);
      assert Extends(s.log, log, IsRead);
      if FailFast(status) {
        assert FailAll(t, status).joints == FailAll(s, status).joints;
      } else {
        ReadDrivesFrame(c, t, i + 1);
        ExtendsTransitive(s.log, t.log, ReadDrives(c, t, i + 1).s.log, IsRead);
        if ReadDrives(c, t, i + 1).stopped {
          var st :| FailFast(st) && ReadDrives(c, t, i + 1).s.joints == FailAll(t, st).joints;
          assert FailAll(t, st).joints == FailAll(s, st).joints;
        }
      }
    }
  }

  lemma ReadJointFailFast(c: Context, log: Log, j: Joint)
    ensures FailFast(ReadJoint(c, log, j).status) ==> ReadJoint(c, log, j).joint == j
  {
  }

  lemma ReadJointExtends(c: Context, log: Log, j: Joint)
    ensures Extends(log, ReadJoint(c, log, j).log, IsRead)
  {
    DoAllExtends(c.env, log, TelemetryOps(j.cfg), IsRead);
  }

  lemma {:induction false} ReadJointsFrame(c: Context, s: Hw, k: nat)
    requires k <= |s.joints|
    ensures var p := ReadJoints(c, s, k);
            && Extends(s.log, p.s.log, IsRead)
            && |p.s.sensors| == |s.sensors| && |p.s.drives| == |s.drives|
            && p.s.up == s.up && p.s.outputs == s.outputs
    decreases |s.joints| - k
  {
    hide ReadJoint;
    if k < |s.joints| {
      var r := ReadJoint(c, s.log, s.joints[k]);
      ReadJointExtends(c, s.log, s.joints[k]);
      if !FailFast(r.status) {
        var t := AfterJointRead(s, k, r);
        ReadJointsFrame(c, t, k + 1);
        ExtendsTransitive(s.log, t.log, ReadJoints(c, t, k + 1).s.log, IsRead);
      }
    }
  }

  /** The joints already polled keep their result, unless a later failure holds them all. */
  lemma {:induction false} ReadJointsDone(c: Context, s: Hw, k: nat, i: nat)
    requires i < k <= |s.joints|
    ensures var p := ReadJoints(c, s, k);
            || (!p.stopped && p.s.joints[i] == s.joints[i])
            || (p.stopped && exists status :: FailFast(status) && p.s.joints[i] == FailJoint(s.joints[i], status))
    decreases |s.joints| - k
  {
    hide ReadJoint;
    if k < |s.joints| {
      var r := ReadJoint(c, s.log, s.joints[k]);
      if !FailFast(r.status) {
        ReadJointsDone(c, AfterJointRead(s, k, r), k + 1, i);
      }
    }
  }

  lemma {:induction false} ReadJointsTurn(c: Context, s: Hw, k: nat, i: nat)
    requires k <= i < |s.joints|
    ensures var j := s.joints[i];
            var j' := ReadJoints(c, s, k).s.joints[i];
            match JointTurn(c, s, k, i)
            case None => exists status :: FailFast(status) && j' == FailJoint(j, status)
            case Some(log) =>
              var r := ReadJoint(c, log, j);
              || (!FailFast(r.status) && j' == r.joint)
              || (exists status :: FailFast(status) && j' == FailJoint(r.joint, status))
    decreases i - k
  {
    hide ReadJoint;
    var r := ReadJoint(c, s.log, s.joints[k]);
    var t := AfterJointRead(s, k, r);
    if k == i {
      if FailFast(r.status) {
        ReadJointFailFast(c, s.log, s.joints[i]);
        assert ReadJoints(c, s, k).s.joints[i] == FailJoint(r.joint, r.status);
      } else {
        ReadJointsDone(c, t, k + 1, i);
      }
    } else if FailFast(r.status) {
      assert ReadJoints(c, s, k).s.joints[i] == FailJoint(s.joints[i], r.status);
    } else {
      ReadJointsTurn(c, t, k + 1, i);
    }
  }

  /** read() from s, joint by joint. */
  lemma ReadSpecJoint(c: Context, s: Hw, i: nat)
    requires i < |s.joints|
    ensures !s.up ==> ReadSpec(c, s).joints[i] == DropJoint(s.joints[i])
    ensures s.up ==> ReadResult(c, ReadTurn(c, s, i), s.joints[i], ReadSpec(c, s).joints[i])
  {
    if s.up {
      var d := DefaultUnhealthy(s);
      var p := ReadSensors(c, d, 0);
      ReadSensorsFrame(c, d, 0);
      if p.stopped {
        var st :| FailFast(st) && p.s.joints == FailAll(d, st).joints;
        assert ReadSpec(c, s).joints[i] == FailJoint(d.joints[i], st);
      } else {
        var q := ReadDrives(c, p.s, 0);
        ReadDrivesFrame(c, p.s, 0);
        if q.stopped {
          var st :| FailFast(st) && q.s.joints == FailAll(p.s, st).joints;
          assert ReadSpec(c, s).joints[i] == FailJoint(d.joints[i], st);
        } else {
          ReadJointsTurn(c, q.s, 0, i);
        }
      }
    }
  }

  lemma ReadSpecFrame(c: Context, s: Hw)
    ensures var t := ReadSpec(c, s);
            && Extends(s.log, t.log, IsRead)
            && |t.sensors| == |s.sensors| && |t.drives| == |s.drives|
            && t.up == s.up && t.outputs == s.outputs
  {
    if s.up {
      var d := DefaultUnhealthy(s);
      var p := ReadSensors(c, d, 0);
      ReadSensorsFrame(c, d, 0);
      if !p.stopped {
        var q := ReadDrives(c, p.s, 0);
        ReadDrivesFrame(c, p.s, 0);
        ExtendsTransitive(s.log, p.s.log, q.s.log, IsRead);
        if !q.stopped {
          ReadJointsFrame(c, q.s, 0);
          ExtendsTransitive(s.log, q.s.log, ReadJoints(c, q.s, 0).s.log, IsRead);
        }
      }
    }
  }

  // ---- write() ----

  /** The log at which joint i is written by a write() from s; none if it never gets there. */
  function WriteTurn(c: Context, s: Hw, dt: real, k: nat, i: nat): Option<Log>
    requires k <= i < |s.joints|
    decreases i - k
  {
    if k == i then Some(s.log)
    else
      var r := WriteJoint(c, s.log, dt, s.joints[k]);
      if r.stop then None else WriteTurn(c, AfterJointWrite(s, k, dt, r), dt, k + 1, i)
  }

  function Turn(c: Context, s: Hw, period: Num, i: nat): Option<Log>
    requires i < |s.joints|
  {
    if Writable(c, s) then WriteTurn(c, s, EffectiveDt(period), 0, i) else None
  }

  predicate Anything(op: Op) { true }

  lemma AfterSendLog(c: Context, v: Joint, r: (int, Log))
    ensures AfterSend(c, v, r).log == r.1
  {
  }

  /** The traffic of a turn: nothing, an idle request, or the setpoints of some command. */
  lemma TurnTraffic(c: Context, log: Log, dt: real, j: Joint)
    ensures var t := ShapedJoint(j, dt);
            var v := Inverted(Unfaulted(t));
            WriteJoint(c, log, dt, j).log ==
            if HasFault(c.safety, j.core.errs) then MaskJoint(c, log, t).log
            else if Stale(c.safety, j.seqNo, j.core.lastSeq) then log
            else DoAll(c.env, log, CommandOps(v.cfg, v.level, v.cmd)).1
  {
    hide DoAll, CommandOps, JointShape, HasFault, Stale, AfterSend, MaskJoint, Inverted;
    var v := Inverted(Unfaulted(ShapedJoint(j, dt)));
    AfterSendLog(c, v, DoAll(c.env, log, CommandOps(v.cfg, v.level, v.cmd)));
  }

  lemma WriteJointExtends(c: Context, log: Log, dt: real, j: Joint)
    ensures Extends(log, WriteJoint(c, log, dt, j).log, Anything)
  {
    hide DoAll, CommandOps, ShapedJoint, HasFault, Stale, WriteJoint, IdleOp, Inverted;
    var v := Inverted(Unfaulted(ShapedJoint(j, dt)));
    TurnTraffic(c, log, dt, j);
    DoAllExtends(c.env, log, CommandOps(v.cfg, v.level, v.cmd), Anything);
  }

  lemma {:induction false} WriteJointsTurn(c: Context, s: Hw, dt: real, k: nat, i: nat)
    requires k <= |s.joints| && i < |s.joints|
    ensures var p := WriteJoints(c, s, dt, k);
            && (i < k ==> p.s.joints[i] == s.joints[i])
            && (k <= i ==>
                  p.s.joints[i] ==
                  match WriteTurn(c, s, dt, k, i)
                  case None => s.joints[i]
                  case Some(log) => WriteJoint(c, log, dt, s.joints[i]).joint)
    decreases |s.joints| - k
  {
    hide WriteJoint, Counted;
    if k < |s.joints| {
      var r := WriteJoint(c, s.log, dt, s.joints[k]);
      if !r.stop {
        WriteJointsTurn(c, AfterJointWrite(s, k, dt, r), dt, k + 1, i);
      }
    }
  }

  /** write() from s, joint by joint. */
  lemma WriteSpecJoint(c: Context, s: Hw, period: Num, i: nat)
    requires i < |s.joints|
    ensures WriteSpec(c, s, period).joints[i] ==
            match Turn(c, s, period, i)
            case None => s.joints[i]
            case Some(log) => WriteJoint(c, log, EffectiveDt(period), s.joints[i]).joint
  {
    if Writable(c, s) {
      WriteJointsTurn(c, s, EffectiveDt(period), 0, i);
    }
  }

  /** Joint i issued event k of `log'`, while it was written at log `turn`. */
  ghost predicate Owns(c: Context, turn: Option<Log>, dt: real, j: Joint, log': Log, k: nat) {
    && turn.Some?
    && var block := WriteJoint(c, turn.value, dt, j).log;
       && |turn.value| <= k < |block| <= |log'|
       && log'[..|block|] == block
  }

  lemma {:induction false} WriteJointsOwner(c: Context, s: Hw, dt: real, n: nat, k: nat)
    requires n <= |s.joints|
    ensures var log' := WriteJoints(c, s, dt, n).s.log;
            && Extends(s.log, log', Anything)
            && (|s.log| <= k < |log'| ==>
                  exists i | n <= i < |s.joints| :: Owns(c, WriteTurn(c, s, dt, n, i), dt, s.joints[i], log', k))
    decreases |s.joints| - n
  {
    hide WriteJoint, Counted;
    if n < |s.joints| {
      var r := WriteJoint(c, s.log, dt, s.joints[n]);
      var t := AfterJointWrite(s, n, dt, r);
      var log' := WriteJoints(c, s, dt, n).s.log;
      WriteJointExtends(c, s.log, dt, s.joints[n]);
      if !r.stop {
        WriteJointsOwner(c, t, dt, n + 1, k);
        ExtendsTransitive(s.log, t.log, log', Anything);
      }
      if |s.log| <= k < |log'| {
        if k < |r.log| {
          assert Owns(c, WriteTurn(c, s, dt, n, n), dt, s.joints[n], log', k);
        } else {
          var i :| n + 1 <= i < |s.joints| && Owns(c, WriteTurn(c, t, dt, n + 1, i), dt, t.joints[i], log', k);
          assert Owns(c, WriteTurn(c, s, dt, n, i), dt, s.joints[i], log', k);
        }
      }
    }
  }

  /** Every event of a write() belongs to the turn of one joint. */
  lemma WriteSpecOwner(c: Context, s: Hw, period: Num, k: nat)
    ensures var log' := WriteSpec(c, s, period).log;
            && Extends(s.log, log', Anything)
            && (|s.log| <= k < |log'| ==>
                  exists i: nat | i < |s.joints| ::
                    Owns(c, Turn(c, s, period, i), EffectiveDt(period), s.joints[i], log', k))
  {
    if Writable(c, s) {
      WriteJointsOwner(c, s, EffectiveDt(period), 0, k);
      var log' := WriteSpec(c, s, period).log;
      if |s.log| <= k < |log'| {
        var i :| 0 <= i < |s.joints| &&
                 Owns(c, WriteTurn(c, s, EffectiveDt(period), 0, i), EffectiveDt(period), s.joints[i], log', k);
        assert Owns(c, Turn(c, s, period, i), EffectiveDt(period), s.joints[i], log', k);
      }
    }
  }

  // ---- mode switch ----

  function SwitchTurn(c: Context, s: Hw, k: nat, i: nat): Option<Log>
    requires k <= i < |s.joints|
    decreases i - k
  {
    if k == i then Some(s.log)
    else
      var r := SwitchJoint(c, s.log, s.joints[k]);
      if r.status != 0 then None
      else SwitchTurn(c, s.(joints := s.joints[k := r.joint], log := r.log), k + 1, i)
  }

  lemma {:induction false} SwitchJointsTurn(c: Context, s: Hw, k: nat, i: nat)
    requires k <= |s.joints| && i < |s.joints|
    ensures var (t, status) := SwitchJoints(c, s, k);
            && (i < k ==> t.joints[i] == s.joints[i])
            && (k <= i ==>
                  match SwitchTurn(c, s, k, i)
                  case None => status != 0 && t.joints[i] == s.joints[i]
                  case Some(log) =>
                    var r := SwitchJoint(c, log, s.joints[i]);
                    t.joints[i] == r.joint && (r.status != 0 ==> status == r.status))
            && t.up == s.up && t.outputs == s.outputs
            && |t.sensors| == |s.sensors| && |t.drives| == |s.drives|
    decreases |s.joints| - k
  {
    hide SwitchJoint;
    if k < |s.joints| {
      var r := SwitchJoint(c, s.log, s.joints[k]);
      if r.status == 0 {
        SwitchJointsTurn(c, s.(joints := s.joints[k := r.joint], log := r.log), k + 1, i);
      }
    }
  }

  // ---- every call ----

  /** read() changes what was measured and nothing else of a joint. */
  predicate ReadFrame(j: Joint, k: Joint) {
    k == j.(core := j.core.(kin := k.core.kin, lastValidPos := k.core.lastValidPos,
                            lastValidVel := k.core.lastValidVel, errs := k.core.errs,
                            fetTemp := k.core.fetTemp, motorTemp := k.core.motorTemp,
                            readError := k.core.readError, telemetryValid := k.core.telemetryValid,
                            healthy := k.core.healthy))
  }

  lemma FailJointFrame(j: Joint, k: Joint, status: int)
    requires ReadFrame(j, k)
    ensures ReadFrame(j, FailJoint(k, status))
    ensures ReadFrame(j, DropJoint(k))
  {
  }

  lemma AbsorbFrame(j: Joint, s: Sample)
    ensures ReadFrame(j, j.(core := Absorb(j.cfg, j.core, s)))
  {
    hide FeedbackValid, Signed, AllClear;
  }

  lemma ReadFrameTransitive(a: Joint, b: Joint, d: Joint)
    requires ReadFrame(a, b) && ReadFrame(b, d)
    ensures ReadFrame(a, d)
  {
  }

  lemma ReadJointFrame(c: Context, log: Log, j: Joint)
    ensures ReadFrame(j, ReadJoint(c, log, j).joint)
  {
    hide DoAll, Absorb, FeedbackValid, FailJoint, TelemetryOps;
    var r := DoAll(c.env, log, TelemetryOps(j.cfg));
    DoAllIssued(c.env, log, TelemetryOps(j.cfg));
    FailJointFrame(j, j, r.0);
    if r.0 == 0 {
      AbsorbFrame(j, SampleOf(j.torque, r.1[|log|..]));
    }
  }

  lemma ReadSpecJointFrame(c: Context, s: Hw, i: nat)
    requires i < |s.joints|
    ensures ReadFrame(s.joints[i], ReadSpec(c, s).joints[i])
  {
    hide ReadSpec, ReadJoint, FailJoint, DropJoint, ReadFrame;
    var j := s.joints[i];
    var before := j.(core := j.core.(healthy := false));
    assert ReadFrame(j, j) && ReadFrame(j, before) by { DefaultFrame(j); }
    ReadSpecJoint(c, s, i);
    if !s.up {
      FailJointFrame(j, j, 0);
    } else {
      var turn := ReadTurn(c, s, i);
      var polled := if turn.Some? then ReadJoint(c, turn.value, before).joint else before;
      if turn.Some? {
        ReadJointFrame(c, turn.value, before);
        ReadFrameTransitive(j, before, polled);
      }
      var j' := ReadSpec(c, s).joints[i];
      if j' != polled {
        var status :| FailFast(status) && j' == FailJoint(polled, status);
        FailJointFrame(j, polled, status);
      }
    }
  }

  lemma DefaultFrame(j: Joint)
    ensures ReadFrame(j, j) && ReadFrame(j, j.(core := j.core.(healthy := false)))
  {
  }

  lemma ReadConfig(c: Context, s: Hw)
    ensures SameConfig(s, ReadSpec(c, s))
  {
    hide ReadSpec;
    forall i: nat | i < |s.joints|
      ensures s.joints[i].cfg == ReadSpec(c, s).joints[i].cfg
    {
      ReadSpecJointFrame(c, s, i);
    }
  }

  lemma WriteConfig(c: Context, s: Hw, period: Num)
    ensures SameConfig(s, WriteSpec(c, s, period))
  {
    hide WriteSpec;
    forall i: nat | i < |s.joints|
      ensures s.joints[i].cfg == WriteSpec(c, s, period).joints[i].cfg
    {
      WriteSpecFrame(c, s, period, i);
    }
  }

  /** write() changes a joint's commands, limiter flags, fault flags and bookkeeping of what was
      sent, and nothing else of it. */
  predicate WriteFrame(j: Joint, k: Joint) {
    k == j.(cmd := k.cmd,
            core := j.core.(writeError := k.core.writeError,
                            posLimited := k.core.posLimited, velLimited := k.core.velLimited,
                            effLimited := k.core.effLimited,
                            lastCmd := k.core.lastCmd, lastSeq := k.core.lastSeq,
                            faulted := k.core.faulted, idleRequested := k.core.idleRequested))
  }

  lemma FaultFrame(j: Joint, error: int, idle: bool)
    ensures WriteFrame(j, j.(core := j.core.(faulted := true, writeError := error, idleRequested := idle)))
  {
  }

  lemma MaskFrame(c: Context, log: Log, j: Joint)
    ensures WriteFrame(j, MaskJoint(c, log, j).joint)
  {
    hide IdleOp, FailFast, WriteFrame;
    var r := c.env(log, IdleOp(j.cfg));
    FaultFrame(j, j.core.writeError, j.core.idleRequested);
    FaultFrame(j, r.status, j.core.idleRequested);
    FaultFrame(j, j.core.writeError, true);
  }

  lemma AfterSendFrame(c: Context, j: Joint, r: (int, Log))
    ensures WriteFrame(j, AfterSend(c, j, r).joint)
  {
  }

  lemma UnfaultedFrame(j: Joint)
    ensures WriteFrame(j, Inverted(Unfaulted(j)))
    ensures var u := Unfaulted(j); WriteFrame(j, u.(core := u.core.(writeError := 0)))
  {
    hide Negated;
  }

  lemma WriteFrameTransitive(a: Joint, b: Joint, d: Joint)
    requires WriteFrame(a, b) && WriteFrame(b, d)
    ensures WriteFrame(a, d)
  {
  }

  lemma SendFrame(c: Context, log: Log, j: Joint)
    ensures WriteFrame(j, SendJoint(c, log, j).joint)
  {
    hide DoAll, CommandOps, Inverted, AfterSend, Stale, WriteFrame;
    var v := Inverted(Unfaulted(j));
    var r := DoAll(c.env, log, CommandOps(v.cfg, v.level, v.cmd));
    UnfaultedFrame(j);
    AfterSendFrame(c, v, r);
    WriteFrameTransitive(j, v, AfterSend(c, v, r).joint);
  }

  lemma WriteJointFrame(c: Context, log: Log, dt: real, j: Joint)
    ensures WriteFrame(j, WriteJoint(c, log, dt, j).joint)
  {
    hide MaskJoint, SendJoint, JointShape;
    MaskFrame(c, log, ShapedJoint(j, dt));
    SendFrame(c, log, ShapedJoint(j, dt));
  }

  /** A mode switch leaves the measured state alone. */
  predicate SwitchFrame(j: Joint, k: Joint) {
    k == j.(cmd := k.cmd, level := k.level, claimed := k.claimed,
            core := j.core.(writeError := k.core.writeError, errs := k.core.errs))
  }

  /** A claim only records what it read, or the error. */
  predicate RecordFrame(j: Joint, k: Joint) {
    k == j.(core := j.core.(writeError := k.core.writeError, errs := k.core.errs))
  }

  lemma FailedFrame(j: Joint, status: int)
    ensures RecordFrame(j, Failed(j, status))
  {
  }

  lemma AxisErrorFrame(j: Joint, x: Num)
    ensures RecordFrame(j, WithAxisError(j, x))
  {
  }

  lemma RecordFrameTransitive(a: Joint, b: Joint, d: Joint)
    requires RecordFrame(a, b) && RecordFrame(b, d)
    ensures RecordFrame(a, d)
  {
  }

  lemma SwitchFrameTransitive(a: Joint, b: Joint, d: Joint)
    requires SwitchFrame(a, b) && SwitchFrame(b, d)
    ensures SwitchFrame(a, d)
  {
  }

  lemma ClaimFrame(c: Context, log: Log, j: Joint)
    ensures RecordFrame(j, ClaimJoint(c, log, j).joint)
  {
    hide DoAll, ArmOps, ReadOp, CallOp, Failed, WithAxisError, RecordFrame;
    var r := ClaimJoint(c, log, j);
    var log1 := DoAll(c.env, log, ArmOps(j.cfg)).1;
    var word := ToUint32(c.env(log1, ReadOp(j.cfg, AXIS_ERROR)).word);
    var k := WithAxisError(j, Fin(word as real));
    FailedFrame(j, r.status);
    AxisErrorFrame(j, Fin(word as real));
    FailedFrame(k, r.status);
    AxisErrorFrame(k, ZERO);
    RecordFrameTransitive(j, k, Failed(k, r.status));
    RecordFrameTransitive(j, k, WithAxisError(k, ZERO));
  }

  lemma AfterEnterFrame(p: Joint, r: (int, Log))
    ensures SwitchFrame(p, AfterEnter(p, r).joint)
  {
  }

  lemma EnterFrame(c: Context, log: Log, j: Joint)
    ensures SwitchFrame(j, EnterMode(c, log, j).joint)
  {
    hide DoAll, SwitchOps, Primed, HasFault, AfterEnter;
    var p := j.(cmd := Primed(j.level, j.cmd, j.core.kin));
    var r := DoAll(c.env, log, SwitchOps(j.cfg, j.level, p.cmd));
    AfterEnterFrame(p, r);
    SwitchFrameTransitive(j, p, AfterEnter(p, r).joint);
  }

  lemma SwitchJointFrame(c: Context, log: Log, j: Joint)
    ensures SwitchFrame(j, SwitchJoint(c, log, j).joint)
  {
    hide ClaimJoint, EnterMode, UnclaimLog;
    var r := ClaimJoint(c, log, j);
    ClaimFrame(c, log, j);
    EnterFrame(c, r.log, r.joint);
    EnterFrame(c, UnclaimLog(c, log, j.cfg), j);
    EnterFrame(c, log, j);
  }

  lemma WriteSpecFrame(c: Context, s: Hw, period: Num, i: nat)
    requires i < |s.joints|
    ensures WriteFrame(s.joints[i], WriteSpec(c, s, period).joints[i])
  {
    hide WriteSpec, WriteJoint;
    WriteSpecJoint(c, s, period, i);
    if Turn(c, s, period, i).Some? {
      WriteJointFrame(c, Turn(c, s, period, i).value, EffectiveDt(period), s.joints[i]);
    }
  }

  lemma SwitchSpecFrame(c: Context, s: Hw, i: nat)
    requires i < |s.joints|
    ensures SwitchFrame(s.joints[i], SwitchSpec(c, s).0.joints[i])
  {
    hide SwitchJoint, SwitchJoints;
    if s.up {
      SwitchJointsTurn(c, s, 0, i);
      if SwitchTurn(c, s, 0, i).Some? {
        SwitchJointFrame(c, SwitchTurn(c, s, 0, i).value, s.joints[i]);
      }
    }
  }

  lemma SwitchConfig(c: Context, s: Hw)
    ensures SameConfig(s, SwitchSpec(c, s).0)
  {
    hide SwitchSpec;
    forall i: nat | i < |s.joints|
      ensures s.joints[i].cfg == SwitchSpec(c, s).0.joints[i].cfg
    {
      SwitchSpecFrame(c, s, i);
    }
  }

  lemma {:induction false} InitJointsConfig(c: Context, s: Hw, i: nat)
    requires i <= |s.joints|
    ensures SameConfig(s, InitJoints(c, s, i).0)
    ensures |InitJoints(c, s, i).0.sensors| == |s.sensors| && |InitJoints(c, s, i).0.drives| == |s.drives|
    decreases |s.joints| - i
  {
    hide Retry;
    if i < |s.joints| {
      var r := InitJoint(c, s.log, s.joints[i]);
      var t := s.(joints := s.joints[i := r.joint], log := r.log);
      if r.status == 0 {
        InitJointsConfig(c, t, i + 1);
      }
    }
  }

  lemma StepConfig(c: Context, s: Hw, a: Api)
    ensures SameConfig(s, Step(c, s, a))
  {
    hide ReadSpec, WriteSpec, SwitchSpec, InitJoints, DoAll;
    match a {
      case ReadCall => ReadConfig(c, s);
      case WriteCall(period) => WriteConfig(c, s, period);
      case Switch => SwitchConfig(c, s);
      case Activate(created) => InitJointsConfig(c, s.(up := true, log := Do(c.env, s.log, Open)), 0);
      case _ =>
    }
  }

  lemma {:induction false} RunConfig(c: Context, s: Hw, calls: seq<Api>)
    ensures SameConfig(s, Run(c, s, calls))
    ensures DistinctAxes(s) ==> DistinctAxes(Run(c, s, calls))
  {
    hide Step;
    if calls != [] {
      RunConfig(c, s, calls[..|calls| - 1]);
      StepConfig(c, Run(c, s, calls[..|calls| - 1]), calls[|calls| - 1]);
    }
  }
}
