/** Joint isolation: without TIMEOUT and NO_DEVICE, what happens to a joint and on its axis depends on
    that joint and its axis alone. */
module Isolation {
  import opened Numeric
  import opened Transport
  import opened Joints
  import opened Axis
  import opened Cycle
  import opened Runs
  import opened Discipline

  /** The axis answers by its own history: two systems, two histories that look the same to it. */
  ghost predicate SameAxis(e1: Env, e2: Env, serial: int, axis: int) {
    forall h1: Log, h2: Log, op: Op ::
      OnAxis(op, serial, axis) && AxisTrace(h1, serial, axis) == AxisTrace(h2, serial, axis) ==>
      e1(h1, op) == e2(h2, op)
  }

  predicate AllOnAxis(ops: seq<Op>, serial: int, axis: int) {
    forall n | 0 <= n < |ops| :: OnAxis(ops[n], serial, axis)
  }

  function Off(serial: int, axis: int): Op -> bool { op => !OnAxis(op, serial, axis) }

  lemma {:induction false} TraceFrame(log: Log, log': Log, serial: int, axis: int)
    requires Extends(log, log', Off(serial, axis))
    ensures AxisTrace(log', serial, axis) == AxisTrace(log, serial, axis)
    decreases |log'|
  {
    hide OnAxis;
    if |log'| == |log| {
      assert log' == log;
    } else {
      var n := |log'| - 1;
      assert log'[..n][..|log|] == log'[..|log|];
      TraceFrame(log, log'[..n], serial, axis);
      assert !OnAxis(log'[n].op, serial, axis);
    }
  }

  /** The same operations on the same axis have the same outcome in both systems. */
  lemma {:induction false} DoAllAlike(e1: Env, e2: Env, h1: Log, h2: Log, ops: seq<Op>, serial: int, axis: int)
    requires SameAxis(e1, e2, serial, axis) && AllOnAxis(ops, serial, axis)
    requires AxisTrace(h1, serial, axis) == AxisTrace(h2, serial, axis)
    ensures var r1, r2 := DoAll(e1, h1, ops), DoAll(e2, h2, ops);
            && r1.0 == r2.0
            && |h1| <= |r1.1| && |h2| <= |r2.1| && r1.1[|h1|..] == r2.1[|h2|..]
            && AxisTrace(r1.1, serial, axis) == AxisTrace(r2.1, serial, axis)
    decreases |ops|
  {
    hide OnAxis, AxisTrace;
    if ops != [] {
      assert OnAxis(ops[0], serial, axis);
      var reply := e1(h1, ops[0]);
      assert reply == e2(h2, ops[0]);
      var e := Event(ops[0], reply);
      var n1, n2 := h1 + [e], h2 + [e];
      AxisTraceAppend(h1, e, serial, axis);
      AxisTraceAppend(h2, e, serial, axis);
      assert n1[|h1|..] == n2[|h2|..] == [e];
      if reply.status == 0 {
        DoAllAlike(e1, e2, n1, n2, ops[1..], serial, axis);
        var r1, r2 := DoAll(e1, n1, ops[1..]).1, DoAll(e2, n2, ops[1..]).1;
        Appended(e1, n1, ops[1..]);
        Appended(e2, n2, ops[1..]);
        assert r1[|h1|..] == [e] + r1[|n1|..] by { assert r1[..|n1|][|h1|] == r1[|h1|]; }
        assert r2[|h2|..] == [e] + r2[|n2|..] by { assert r2[..|n2|][|h2|] == r2[|h2|]; }
      }
    }
  }

  lemma Appended(env: Env, log: Log, ops: seq<Op>)
    ensures var r := DoAll(env, log, ops).1; |log| <= |r| && r[..|log|] == log
  {
    DoAllIssued(env, log, ops);
  }

  // ---- one joint ----

  predicate ConfigOnAxis(cfg: JointConfig) { 0 <= cfg.axis <= 1 }

  lemma TelemetryOnAxis(cfg: JointConfig)
    requires ConfigOnAxis(cfg)
    ensures AllOnAxis(TelemetryOps(cfg), cfg.serial, cfg.axis)
  {
  }

  lemma CommandsOnAxis(cfg: JointConfig, level: Level, t: Triple)
    requires ConfigOnAxis(cfg)
    ensures AllOnAxis(CommandOps(cfg, level, t), cfg.serial, cfg.axis)
    ensures OnAxis(IdleOp(cfg), cfg.serial, cfg.axis)
  {
    hide Saturate, RadiansToTurns;
  }

  lemma ReadAlike(c1: Context, c2: Context, h1: Log, h2: Log, j: Joint)
    requires ConfigOnAxis(j.cfg) && SameAxis(c1.env, c2.env, j.cfg.serial, j.cfg.axis)
    requires AxisTrace(h1, j.cfg.serial, j.cfg.axis) == AxisTrace(h2, j.cfg.serial, j.cfg.axis)
    ensures var r1, r2 := ReadJoint(c1, h1, j), ReadJoint(c2, h2, j);
            && r1.joint == r2.joint && r1.status == r2.status && r1.mark == r2.mark
            && AxisTrace(r1.log, j.cfg.serial, j.cfg.axis) == AxisTrace(r2.log, j.cfg.serial, j.cfg.axis)
  {
    hide DoAll, TelemetryOps, SampleOf, Absorb, FeedbackValid, FailJoint;
    TelemetryOnAxis(j.cfg);
    DoAllAlike(c1.env, c2.env, h1, h2, TelemetryOps(j.cfg), j.cfg.serial, j.cfg.axis);
    DoAllIssued(c1.env, h1, TelemetryOps(j.cfg));
    DoAllIssued(c2.env, h2, TelemetryOps(j.cfg));
  }

  lemma MaskAlike(c1: Context, c2: Context, h1: Log, h2: Log, j: Joint)
    requires c1.safety == c2.safety
    requires ConfigOnAxis(j.cfg) && SameAxis(c1.env, c2.env, j.cfg.serial, j.cfg.axis)
    requires AxisTrace(h1, j.cfg.serial, j.cfg.axis) == AxisTrace(h2, j.cfg.serial, j.cfg.axis)
    ensures var r1, r2 := MaskJoint(c1, h1, j), MaskJoint(c2, h2, j);
            && r1.joint == r2.joint
            && AxisTrace(r1.log, j.cfg.serial, j.cfg.axis) == AxisTrace(r2.log, j.cfg.serial, j.cfg.axis)
  {
    hide IdleOp, OnAxis, AxisTrace;
    CommandsOnAxis(j.cfg, UNDEFINED, j.cmd);
    var e := Event(IdleOp(j.cfg), c1.env(h1, IdleOp(j.cfg)));
    assert c2.env(h2, IdleOp(j.cfg)) == e.reply;
    AxisTraceAppend(h1, e, j.cfg.serial, j.cfg.axis);
    AxisTraceAppend(h2, e, j.cfg.serial, j.cfg.axis);
  }

  lemma SendAlike(c1: Context, c2: Context, h1: Log, h2: Log, j: Joint)
    requires c1.safety == c2.safety
    requires ConfigOnAxis(j.cfg) && SameAxis(c1.env, c2.env, j.cfg.serial, j.cfg.axis)
    requires AxisTrace(h1, j.cfg.serial, j.cfg.axis) == AxisTrace(h2, j.cfg.serial, j.cfg.axis)
    ensures var r1, r2 := SendJoint(c1, h1, j), SendJoint(c2, h2, j);
            && r1.joint == r2.joint
            && AxisTrace(r1.log, j.cfg.serial, j.cfg.axis) == AxisTrace(r2.log, j.cfg.serial, j.cfg.axis)
  {
    hide DoAll, CommandOps, Negated, Stale;
    var v := Inverted(Unfaulted(j));
    CommandsOnAxis(v.cfg, v.level, v.cmd);
    DoAllAlike(c1.env, c2.env, h1, h2, CommandOps(v.cfg, v.level, v.cmd), j.cfg.serial, j.cfg.axis);
  }

  lemma WriteAlike(c1: Context, c2: Context, h1: Log, h2: Log, dt: real, j: Joint)
    requires c1.safety == c2.safety
    requires ConfigOnAxis(j.cfg) && SameAxis(c1.env, c2.env, j.cfg.serial, j.cfg.axis)
    requires AxisTrace(h1, j.cfg.serial, j.cfg.axis) == AxisTrace(h2, j.cfg.serial, j.cfg.axis)
    ensures var r1, r2 := WriteJoint(c1, h1, dt, j), WriteJoint(c2, h2, dt, j);
            && r1.joint == r2.joint
            && AxisTrace(r1.log, j.cfg.serial, j.cfg.axis) == AxisTrace(r2.log, j.cfg.serial, j.cfg.axis)
  {
    hide MaskJoint, SendJoint, JointShape, SameAxis;
    MaskAlike(c1, c2, h1, h2, ShapedJoint(j, dt));
    SendAlike(c1, c2, h1, h2, ShapedJoint(j, dt));
  }

  // ---- the other joints ----

  ghost predicate Apart(a: JointConfig, b: JointConfig) {
    ConfigOnAxis(a) && ConfigOnAxis(b) && (a.serial != b.serial || a.axis != b.axis)
  }

  lemma OffAxis(ops: seq<Op>, a: JointConfig, b: JointConfig)
    requires Apart(a, b) && AllOnAxis(ops, a.serial, a.axis)
    ensures forall n | 0 <= n < |ops| :: !OnAxis(ops[n], b.serial, b.axis)
  {
  }

  lemma ReadElsewhere(c: Context, log: Log, j: Joint, cfg: JointConfig)
    requires Apart(j.cfg, cfg)
    ensures AxisTrace(ReadJoint(c, log, j).log, cfg.serial, cfg.axis) == AxisTrace(log, cfg.serial, cfg.axis)
  {
    hide DoAll, TelemetryOps, OnAxis;
    var ops := TelemetryOps(j.cfg);
    TelemetryOnAxis(j.cfg);
    OffAxis(ops, j.cfg, cfg);
    DoAllExtends(c.env, log, ops, Off(cfg.serial, cfg.axis));
    TraceFrame(log, DoAll(c.env, log, ops).1, cfg.serial, cfg.axis);
  }

  lemma WriteElsewhere(c: Context, log: Log, dt: real, j: Joint, cfg: JointConfig)
    requires Apart(j.cfg, cfg)
    ensures Extends(log, WriteJoint(c, log, dt, j).log, Off(cfg.serial, cfg.axis))
    ensures AxisTrace(WriteJoint(c, log, dt, j).log, cfg.serial, cfg.axis) == AxisTrace(log, cfg.serial, cfg.axis)
  {
    hide DoAll, CommandOps, OnAxis, WriteJoint, JointShape, IdleOp, HasFault, Stale;
    WriteBlock(c, log, dt, j);
    var t := Oriented(j.cfg, JointShape(j, dt).cmd);
    var ops := CommandOps(j.cfg, j.level, t);
    CommandsOnAxis(j.cfg, j.level, t);
    OffAxis(ops, j.cfg, cfg);
    OffAxis([IdleOp(j.cfg)], j.cfg, cfg);
    assert !OnAxis([IdleOp(j.cfg)][0], cfg.serial, cfg.axis);
    DoAllExtends(c.env, log, ops, Off(cfg.serial, cfg.axis));
    TraceFrame(log, WriteJoint(c, log, dt, j).log, cfg.serial, cfg.axis);
  }

  // ---- read() ----

  predicate IsGlobalRead(op: Op) { op.Read? && (op.endpoint == VBUS_VOLTAGE || op.endpoint == CAN_ERROR) }

  lemma GlobalTrace(log: Log, log': Log, serial: int, axis: int)
    requires Extends(log, log', IsGlobalRead) && 0 <= axis <= 1
    ensures AxisTrace(log', serial, axis) == AxisTrace(log, serial, axis)
  {
    TraceFrame(log, log', serial, axis);
  }

  lemma {:induction false} SensorsElsewhere(c: Context, s: Hw, n: nat)
    requires n <= |s.sensors| && NoFailFast(c.env)
    ensures var p := ReadSensors(c, s, n);
            && !p.stopped && p.s.joints == s.joints && p.s.drives == s.drives
            && p.s.up == s.up && p.s.outputs == s.outputs
            && Extends(s.log, p.s.log, IsGlobalRead)
    decreases |s.sensors| - n
  {
    hide FailAll;
    if n < |s.sensors| {
      var (x, status, log) := ReadSensor(c, s.log, s.sensors[n]);
      var t := s.(sensors := s.sensors[n := x], log := log);
      assert Extends(s.log, log, IsGlobalRead);
      SensorsElsewhere(c, t, n + 1);
      ExtendsTransitive(s.log, log, ReadSensors(c, t, n + 1).s.log, IsGlobalRead);
    }
  }

  lemma {:induction false} DrivesElsewhere(c: Context, s: Hw, n: nat)
    requires n <= |s.drives| && NoFailFast(c.env)
    ensures var p := ReadDrives(c, s, n);
            && !p.stopped && p.s.joints == s.joints && p.s.sensors == s.sensors
            && p.s.up == s.up && p.s.outputs == s.outputs
            && Extends(s.log, p.s.log, IsGlobalRead)
    decreases |s.drives| - n
  {
    hide FailAll;
    if n < |s.drives| {
      var (x, status, log) := ReadDrive(c, s.log, s.drives[n]);
      var t := s.(drives := s.drives[n := x], log := log);
      assert Extends(s.log, log, IsGlobalRead);
      DrivesElsewhere(c, t, n + 1);
      ExtendsTransitive(s.log, log, ReadDrives(c, t, n + 1).s.log, IsGlobalRead);
    }
  }

  lemma NoFailFastTelemetry(c: Context, log: Log, j: Joint)
    requires NoFailFast(c.env)
    ensures !FailFast(ReadJoint(c, log, j).status)
  {
    hide TelemetryOps;
    DoAllIssued(c.env, log, TelemetryOps(j.cfg));
  }

  /** A joint's poll within read(): nobody touched its axis before, and nobody does after. */
  lemma {:induction false} PollIsolated(c: Context, s: Hw, k: nat, i: nat) returns (turn: Log)
    requires i < |s.joints| && k <= |s.joints| && NoFailFast(c.env) && DistinctAxes(s)
    ensures var p := ReadJoints(c, s, k);
            var cfg := s.joints[i].cfg;
            && !p.stopped && p.s.up == s.up && p.s.outputs == s.outputs
            && AxisTrace(turn, cfg.serial, cfg.axis) == AxisTrace(s.log, cfg.serial, cfg.axis)
            && (i < k ==> p.s.joints[i] == s.joints[i] &&
                          AxisTrace(p.s.log, cfg.serial, cfg.axis) == AxisTrace(s.log, cfg.serial, cfg.axis))
            && (k <= i ==> var r := ReadJoint(c, turn, s.joints[i]);
                           p.s.joints[i] == r.joint &&
                           AxisTrace(p.s.log, cfg.serial, cfg.axis) == AxisTrace(r.log, cfg.serial, cfg.axis))
    decreases |s.joints| - k
  {
    hide ReadJoint, AxisTrace;
    turn := s.log;
    if k < |s.joints| {
      var r := ReadJoint(c, s.log, s.joints[k]);
      NoFailFastTelemetry(c, s.log, s.joints[k]);
      ReadJointFrame(c, s.log, s.joints[k]);
      var t := AfterJointRead(s, k, r);
      var later := PollIsolated(c, t, k + 1, i);
      if k != i {
        assert Apart(s.joints[k].cfg, s.joints[i].cfg);
        ReadElsewhere(c, s.log, s.joints[k], s.joints[i].cfg);
        turn := later;
      }
    }
  }

  /** Two systems that agree on joint i, on its axis and on the state of the connection. */
  ghost predicate Alike(s1: Hw, s2: Hw, i: nat) {
    && i < |s1.joints| && i < |s2.joints| && s1.joints[i] == s2.joints[i]
    && s1.up == s2.up && s1.outputs == s2.outputs
    && DistinctAxes(s1) && DistinctAxes(s2)
    && var cfg := s1.joints[i].cfg;
       AxisTrace(s1.log, cfg.serial, cfg.axis) == AxisTrace(s2.log, cfg.serial, cfg.axis)
  }

  ghost predicate AlikeContexts(c1: Context, c2: Context, cfg: JointConfig) {
    && c1.safety == c2.safety && NoFailFast(c1.env) && NoFailFast(c2.env)
    && SameAxis(c1.env, c2.env, cfg.serial, cfg.axis)
  }

  /** The poll of joint i by read(), seen from its axis. */
  lemma ReadIsolated(c: Context, s: Hw, i: nat) returns (turn: Log)
    requires i < |s.joints| && s.up && NoFailFast(c.env) && DistinctAxes(s)
    ensures var cfg := s.joints[i].cfg;
            var t := ReadSpec(c, s);
            var r := ReadJoint(c, turn, s.joints[i].(core := s.joints[i].core.(healthy := false)));
            && AxisTrace(turn, cfg.serial, cfg.axis) == AxisTrace(s.log, cfg.serial, cfg.axis)
            && t.joints[i] == r.joint && t.up && t.outputs == s.outputs
            && AxisTrace(t.log, cfg.serial, cfg.axis) == AxisTrace(r.log, cfg.serial, cfg.axis)
  {
    hide ReadJoint, ReadSensors, ReadDrives, ReadJoints, AxisTrace;
    var cfg := s.joints[i].cfg;
    var d := DefaultUnhealthy(s);
    SensorsElsewhere(c, d, 0);
    var p := ReadSensors(c, d, 0).s;
    GlobalTrace(s.log, p.log, cfg.serial, cfg.axis);
    DrivesElsewhere(c, p, 0);
    var q := ReadDrives(c, p, 0).s;
    GlobalTrace(p.log, q.log, cfg.serial, cfg.axis);
    turn := PollIsolated(c, q, 0, i);
  }

  lemma ReadSpecAlike(c1: Context, c2: Context, s1: Hw, s2: Hw, i: nat)
    requires Alike(s1, s2, i) && AlikeContexts(c1, c2, s1.joints[i].cfg)
    ensures Alike(ReadSpec(c1, s1), ReadSpec(c2, s2), i)
  {
    hide ReadSpec, ReadJoint, AxisTrace, SameAxis;
    ReadConfig(c1, s1);
    ReadConfig(c2, s2);
    ReadSpecFrame(c1, s1);
    ReadSpecFrame(c2, s2);
    if s1.up {
      var j := s1.joints[i].(core := s1.joints[i].core.(healthy := false));
      var t1 := ReadIsolated(c1, s1, i);
      var t2 := ReadIsolated(c2, s2, i);
      ReadAlike(c1, c2, t1, t2, j);
    } else {
      ReadSpecJoint(c1, s1, i);
      ReadSpecJoint(c2, s2, i);
      DownLog(c1, s1);
      DownLog(c2, s2);
    }
  }

  lemma DownLog(c: Context, s: Hw)
    requires !s.up
    ensures ReadSpec(c, s).log == s.log
  {
  }

  // ---- write() ----

  lemma NoFailFastWrite(c: Context, log: Log, dt: real, j: Joint)
    requires NoFailFast(c.env)
    ensures !WriteJoint(c, log, dt, j).stop
  {
    hide CommandOps, JointShape, IdleOp, HasFault, Stale, Negated;
    var v := Inverted(Unfaulted(ShapedJoint(j, dt)));
    DoAllIssued(c.env, log, CommandOps(v.cfg, v.level, v.cmd));
  }

  lemma {:induction false} SendIsolated(c: Context, s: Hw, dt: real, k: nat, i: nat) returns (turn: Log)
    requires i < |s.joints| && k <= |s.joints| && NoFailFast(c.env) && DistinctAxes(s)
    ensures var p := WriteJoints(c, s, dt, k);
            var cfg := s.joints[i].cfg;
            && !p.stopped && p.s.up == s.up && p.s.outputs == s.outputs
            && AxisTrace(turn, cfg.serial, cfg.axis) == AxisTrace(s.log, cfg.serial, cfg.axis)
            && (i < k ==> p.s.joints[i] == s.joints[i] &&
                          AxisTrace(p.s.log, cfg.serial, cfg.axis) == AxisTrace(s.log, cfg.serial, cfg.axis))
            && (k <= i ==> var r := WriteJoint(c, turn, dt, s.joints[i]);
                           p.s.joints[i] == r.joint &&
                           AxisTrace(p.s.log, cfg.serial, cfg.axis) == AxisTrace(r.log, cfg.serial, cfg.axis))
    decreases |s.joints| - k
  {
    hide WriteJoint, AxisTrace, Counted;
    turn := s.log;
    if k < |s.joints| {
      var r := WriteJoint(c, s.log, dt, s.joints[k]);
      NoFailFastWrite(c, s.log, dt, s.joints[k]);
      WriteJointFrame(c, s.log, dt, s.joints[k]);
      var t := AfterJointWrite(s, k, dt, r);
      var later := SendIsolated(c, t, dt, k + 1, i);
      if k != i {
        assert Apart(s.joints[k].cfg, s.joints[i].cfg);
        WriteElsewhere(c, s.log, dt, s.joints[k], s.joints[i].cfg);
        turn := later;
      }
    }
  }

  lemma WriteSpecAlike(c1: Context, c2: Context, s1: Hw, s2: Hw, period: Num, i: nat)
    requires Alike(s1, s2, i) && AlikeContexts(c1, c2, s1.joints[i].cfg)
    ensures Alike(WriteSpec(c1, s1, period), WriteSpec(c2, s2, period), i)
  {
    hide WriteJoints, WriteJoint, AxisTrace, SameAxis;
    WriteConfig(c1, s1, period);
    WriteConfig(c2, s2, period);
    if Writable(c1, s1) {
      var dt := EffectiveDt(period);
      var t1 := SendIsolated(c1, s1, dt, 0, i);
      var t2 := SendIsolated(c2, s2, dt, 0, i);
      WriteAlike(c1, c2, t1, t2, dt, s1.joints[i]);
    }
  }

  // ---- runs ----

  /** The same cycle call in both systems, the same command for joint i, or any commands for others. */
  predicate AlikeCalls(a: Api, b: Api, i: nat) {
    || (a == b && (a.ReadCall? || a.WriteCall? || (a.Command? && a.i == i)))
    || (a.Command? && b.Command? && a.i != i && b.i != i)
  }

  lemma CommandAlike(s1: Hw, s2: Hw, a: Api, b: Api, i: nat)
    requires Alike(s1, s2, i) && AlikeCalls(a, b, i) && a.Command? && b.Command?
    ensures Alike(SetCommand(s1, a.i, a.cmd, a.seqNo), SetCommand(s2, b.i, b.cmd, b.seqNo), i)
  {
    hide AxisTrace;
    CommandKeepsAxes(s1, a.i, a.cmd, a.seqNo);
    CommandKeepsAxes(s2, b.i, b.cmd, b.seqNo);
  }

  lemma CommandKeepsAxes(s: Hw, i: nat, cmd: Triple, seqNo: Num)
    ensures DistinctAxes(s) ==> DistinctAxes(SetCommand(s, i, cmd, seqNo))
  {
    var t := SetCommand(s, i, cmd, seqNo);
    assert forall k | 0 <= k < |s.joints| :: t.joints[k].cfg == s.joints[k].cfg;
  }

  lemma StepAlike(c1: Context, c2: Context, s1: Hw, s2: Hw, a: Api, b: Api, i: nat)
    requires Alike(s1, s2, i) && AlikeContexts(c1, c2, s1.joints[i].cfg) && AlikeCalls(a, b, i)
    ensures Alike(Step(c1, s1, a), Step(c2, s2, b), i)
  {
    hide ReadSpec, WriteSpec, SetCommand, Alike, AlikeContexts;
    if a.ReadCall? {
      ReadSpecAlike(c1, c2, s1, s2, i);
    } else if a.WriteCall? {
      WriteSpecAlike(c1, c2, s1, s2, a.period, i);
    } else {
      CommandAlike(s1, s2, a, b, i);
    }
  }

  /** Over any sequence of cycles, joint i and the traffic of its axis depend on joint i, on the
      commands for it and on the answers of its axis, whatever the other joints are, are commanded,
      or answer. */
  lemma {:induction false} JointIsolation(c1: Context, c2: Context, s1: Hw, s2: Hw,
                                          calls1: seq<Api>, calls2: seq<Api>, i: nat)
    requires Alike(s1, s2, i) && AlikeContexts(c1, c2, s1.joints[i].cfg)
    requires |calls1| == |calls2| && forall n | 0 <= n < |calls1| :: AlikeCalls(calls1[n], calls2[n], i)
    ensures Alike(Run(c1, s1, calls1), Run(c2, s2, calls2), i)
    ensures Run(c1, s1, calls1).joints[i].cfg == s1.joints[i].cfg
    decreases |calls1|
  {
    hide Step, AxisTrace, AlikeContexts, AlikeCalls, DistinctAxes;
    RunConfig(c1, s1, calls1);
    if calls1 != [] {
      var m := |calls1| - 1;
      JointIsolation(c1, c2, s1, s2, calls1[..m], calls2[..m], i);
      StepAlike(c1, c2, Run(c1, s1, calls1[..m]), Run(c2, s2, calls2[..m]), calls1[m], calls2[m], i);
    }
  }
}
