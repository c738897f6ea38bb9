/** The synchronous interface as functions of the state: what read(), write(), the mode switch and
    the lifecycle calls make of the fields, and of the traffic. */
module Cycle {
  import opened Numeric
  import opened Transport
  import opened Joints
  import opened Errors
  import opened Axis

  datatype Safety = Safety(gateOutputs: bool, maskFaulted: bool, idleOnFault: bool, gateStale: bool)

  /** What never changes: the other end of the bus and the safety configuration. */
  datatype Context = Context(env: Env, safety: Safety)

  datatype Sensor = Sensor(serial: int, vbus: Num, transportError: Num)

  datatype Drive = Drive(serial: int, canError: int, readError: int)

  datatype Stats = Stats(readCycles: nat, writeCycles: nat, rejections: nat, rateLimits: nat)

  /** The fields of ODriveHardwareInterface. `up` is `transport_ != nullptr`; the three vectors of
      fault and claim flags are fields of the joint. */
  datatype Hw = Hw(
    joints: seq<Joint>,
    sensors: seq<Sensor>,
    drives: seq<Drive>,
    up: bool,
    outputs: bool,
    stats: Stats,
    log: Log)

  datatype Phase = Phase(s: Hw, stopped: bool)

  // ---- read ----

  function DropJoint(j: Joint): Joint {
    j.(core := Hold(j.core).(healthy := false, telemetryValid := false))
  }

  function FailJoint(j: Joint, status: int): Joint {
    j.(core := DropJoint(j).core.(readError := status))
  }

  /** mark_all_unhealthy_and_hold. */
  function FailAll(s: Hw, status: int): Hw {
    s.(joints := seq(|s.joints|, i requires 0 <= i < |s.joints| => FailJoint(s.joints[i], status)),
       drives := seq(|s.drives|, i requires 0 <= i < |s.drives| => Drive(s.drives[i].serial, 0, status)),
       sensors := seq(|s.sensors|, i requires 0 <= i < |s.sensors| =>
                        Sensor(s.sensors[i].serial, NaN, Fin(status as real))))
  }

  /** read() without a transport. */
  function DropAll(s: Hw): Hw {
    s.(joints := seq(|s.joints|, i requires 0 <= i < |s.joints| => DropJoint(s.joints[i])),
       sensors := seq(|s.sensors|, i requires 0 <= i < |s.sensors| => Sensor(s.sensors[i].serial, NaN, NaN)))
  }

  function DefaultUnhealthy(s: Hw): Hw {
    s.(joints := seq(|s.joints|, i requires 0 <= i < |s.joints| =>
                       s.joints[i].(core := s.joints[i].core.(healthy := false))))
  }

  function ReadSensor(c: Context, log: Log, x: Sensor): (Sensor, int, Log) {
    var op := Read(x.serial, VBUS_VOLTAGE);
    var r := c.env(log, op);
    (if r.status != 0 then x.(vbus := NaN, transportError := Fin(r.status as real))
     else x.(vbus := r.num, transportError := ZERO),
     r.status, log + [Event(op, r)])
  }

  function ReadSensors(c: Context, s: Hw, i: nat): (p: Phase)
    requires i <= |s.sensors|
    ensures |p.s.sensors| == |s.sensors| && |p.s.joints| == |s.joints|
    decreases |s.sensors| - i
  {
    if i == |s.sensors| then Phase(s, false)
    else
      var (x, status, log) := ReadSensor(c, s.log, s.sensors[i]);
      var t := s.(sensors := s.sensors[i := x], log := log);
      if FailFast(status) then Phase(FailAll(t, status), true) else ReadSensors(c, t, i + 1)
  }

  function ReadDrive(c: Context, log: Log, x: Drive): (Drive, int, Log) {
    var op := Read(x.serial, CAN_ERROR);
    var r := c.env(log, op);
    (if r.status != 0 then Drive(x.serial, 0, r.status) else Drive(x.serial, ToUint32(r.word), 0),
     r.status, log + [Event(op, r)])
  }

  function ReadDrives(c: Context, s: Hw, i: nat): (p: Phase)
    requires i <= |s.drives|
    ensures |p.s.drives| == |s.drives| && |p.s.joints| == |s.joints|
    decreases |s.drives| - i
  {
    if i == |s.drives| then Phase(s, false)
    else
      var (x, status, log) := ReadDrive(c, s.log, s.drives[i]);
      var t := s.(drives := s.drives[i := x], log := log);
      if FailFast(status) then Phase(FailAll(t, status), true) else ReadDrives(c, t, i + 1)
  }

  /** find_sensor_index. */
  function FindSensor(sensors: seq<Sensor>, serial: int): (i: nat)
    ensures i <= |sensors|
    ensures i < |sensors| ==> sensors[i].serial == serial
    ensures forall k | 0 <= k < i :: sensors[k].serial != serial
    decreases |sensors|
  {
    if sensors == [] || sensors[0].serial == serial then 0
    else 1 + FindSensor(sensors[1..], serial)
  }

  /** The first sensor of this drive, if any, reports the status. */
  function MarkSensor(sensors: seq<Sensor>, serial: int, status: int): (r: seq<Sensor>)
    ensures |r| == |sensors|
    ensures forall k | 0 <= k < |r| ::
              r[k] == if sensors[k].serial == serial && forall m | 0 <= m < k :: sensors[m].serial != serial
                      then Sensor(serial, sensors[k].vbus, Fin(status as real)) else sensors[k]
  {
    var i := FindSensor(sensors, serial);
    if i < |sensors| then sensors[i := sensors[i].(transportError := Fin(status as real))] else sensors
  }

  /** `mark` is the transport status the joint reports to its sensor, if any. */
  datatype JointRead = JointRead(joint: Joint, status: int, log: Log, mark: Option<int>)

  /** r is the answer to the nine telemetry reads issued at the end of log. */
  function AfterTelemetry(log: Log, j: Joint, r: (int, Log)): JointRead
    requires r.0 == 0 ==> |r.1| == |log| + 9
  {
    if r.0 != 0 then
      if FailFast(r.0) then JointRead(j, r.0, r.1, None)
      else JointRead(FailJoint(j, r.0), r.0, r.1, Some(r.0))
    else
      var sample := SampleOf(j.torque, r.1[|log|..]);
      JointRead(j.(core := Absorb(j.cfg, j.core, sample)), 0, r.1,
                if FeedbackValid(j.cfg, j.core.lastValidPos, sample) then Some(0) else None)
  }

  function ReadJoint(c: Context, log: Log, j: Joint): JointRead {
    var r := DoAll(c.env, log, TelemetryOps(j.cfg));
    DoAllIssued(c.env, log, TelemetryOps(j.cfg));
    AfterTelemetry(log, j, r)
  }

  function ReadJoints(c: Context, s: Hw, i: nat): (p: Phase)
    requires i <= |s.joints|
    ensures |p.s.joints| == |s.joints|
    decreases |s.joints| - i
  {
    if i == |s.joints| then Phase(s, false)
    else
      var r := ReadJoint(c, s.log, s.joints[i]);
      if FailFast(r.status) then Phase(FailAll(s.(log := r.log), r.status), true)
      else ReadJoints(c, AfterJointRead(s, i, r), i + 1)
  }

  function AfterJointRead(s: Hw, i: nat, r: JointRead): Hw
    requires i < |s.joints|
  {
    s.(joints := s.joints[i := r.joint], log := r.log,
       sensors := if r.mark.Some? then MarkSensor(s.sensors, s.joints[i].cfg.serial, r.mark.value) else s.sensors)
  }

  function ReadAll(c: Context, s: Hw): (p: Phase)
    ensures |p.s.joints| == |s.joints|
  {
    var p := ReadSensors(c, DefaultUnhealthy(s), 0);
    if p.stopped then p else
    var q := ReadDrives(c, p.s, 0);
    if q.stopped then q else ReadJoints(c, q.s, 0)
  }

  function ReadSpec(c: Context, s: Hw): (t: Hw)
    ensures |t.joints| == |s.joints|
  {
    if !s.up then DropAll(s)
    else
      var p := ReadAll(c, s);
      if p.stopped then p.s else p.s.(stats := p.s.stats.(readCycles := p.s.stats.readCycles + 1))
  }

  // ---- write ----

  predicate HasFault(safety: Safety, errs: Registers) { safety.maskFaulted && Faulty(errs) }

  /** IEEE comparison of the freshness token; NaN is always stale. */
  predicate Stale(safety: Safety, seqNo: Num, lastSeq: Num) {
    safety.gateStale && (!seqNo.Fin? || Same(seqNo, lastSeq))
  }

  function JointShape(j: Joint, dt: real): Shaped {
    Shape(j.cfg.limits, j.level, j.cmd, j.core.lastCmd, dt, j.core.kin)
  }

  /** The joint after limiting, validation and fallback: the command fields are overwritten in place. */
  function ShapedJoint(j: Joint, dt: real): Joint {
    var t := JointShape(j, dt);
    j.(cmd := t.cmd, core := j.core.(posLimited := t.pos, velLimited := t.vel, effLimited := t.eff))
  }

  datatype JointWrite = JointWrite(joint: Joint, log: Log, stop: bool, sent: bool)

  function MaskJoint(c: Context, log: Log, j: Joint): JointWrite {
    var m := j.(core := j.core.(faulted := true));
    if c.safety.idleOnFault && !j.core.idleRequested then
      var r := c.env(log, IdleOp(j.cfg));
      var log' := log + [Event(IdleOp(j.cfg), r)];
      if r.status != 0 then JointWrite(m.(core := m.core.(writeError := r.status)), log', FailFast(r.status), false)
      else JointWrite(m.(core := m.core.(idleRequested := true)), log', false, false)
    else JointWrite(m, log, false, false)
  }

  function Inverted(j: Joint): Joint { if j.cfg.invert then j.(cmd := Negated(j.cmd)) else j }

  /** After the setpoint write answered with r. */
  function AfterSend(c: Context, v: Joint, r: (int, Log)): JointWrite {
    if r.0 != 0 then JointWrite(v.(core := v.core.(writeError := r.0)), r.1, FailFast(r.0), false)
    else
      JointWrite(v.(core := v.core.(writeError := 0, lastCmd := v.cmd,
                                    lastSeq := if c.safety.gateStale then v.seqNo else v.core.lastSeq)),
                 r.1, false, true)
  }

  function Unfaulted(j: Joint): Joint { j.(core := j.core.(faulted := false, idleRequested := false)) }

  /** j has already been shaped. */
  function SendJoint(c: Context, log: Log, j: Joint): JointWrite {
    var u := Unfaulted(j);
    if Stale(c.safety, j.seqNo, j.core.lastSeq) then
      JointWrite(u.(core := u.core.(writeError := 0)), log, false, false)
    else
      var v := Inverted(u);
      AfterSend(c, v, DoAll(c.env, log, CommandOps(v.cfg, v.level, v.cmd)))
  }

  function WriteJoint(c: Context, log: Log, dt: real, j: Joint): JointWrite {
    var t := ShapedJoint(j, dt);
    if HasFault(c.safety, j.core.errs) then MaskJoint(c, log, t) else SendJoint(c, log, t)
  }

  function Counted(j: Joint, dt: real, stats: Stats): Stats {
    var t := JointShape(j, dt);
    stats.(rateLimits := stats.rateLimits + Events(t),
           rejections := stats.rejections + if t.rejected then 1 else 0)
  }

  function AfterJointWrite(s: Hw, i: nat, dt: real, r: JointWrite): Hw
    requires i < |s.joints|
  {
    s.(joints := s.joints[i := r.joint], log := r.log, stats := Counted(s.joints[i], dt, s.stats))
  }

  function WriteJoints(c: Context, s: Hw, dt: real, i: nat): (p: Phase)
    requires i <= |s.joints|
    ensures |p.s.joints| == |s.joints|
    decreases |s.joints| - i
  {
    if i == |s.joints| then Phase(s, false)
    else
      var r := WriteJoint(c, s.log, dt, s.joints[i]);
      var t := AfterJointWrite(s, i, dt, r);
      if r.stop then Phase(t.(up := false), true) else WriteJoints(c, t, dt, i + 1)
  }

  /** write() reaches the joints at all. */
  predicate Writable(c: Context, s: Hw) { s.up && (!c.safety.gateOutputs || s.outputs) }

  function WriteSpec(c: Context, s: Hw, period: Num): (t: Hw)
    ensures |t.joints| == |s.joints|
  {
    if !Writable(c, s) then s
    else
      var p := WriteJoints(c, s, EffectiveDt(period), 0);
      if p.stopped then p.s else p.s.(stats := p.s.stats.(writeCycles := p.s.stats.writeCycles + 1))
  }

  // ---- mode switch ----

  /** "joint/interface"; a key without a separator names neither. */
  function SplitKey(key: string): (string, string) {
    var i := Separator(key);
    if i == |key| then ("", "") else (key[..i], key[i + 1..])
  }

  function Separator(key: string): (i: nat)
    ensures i <= |key|
  {
    if key == "" || key[0] == '/' then 0 else 1 + Separator(key[1..])
  }

  function FindJoint(joints: seq<Joint>, name: string): (i: nat)
    ensures i <= |joints|
    decreases |joints|
  {
    if joints == [] || joints[0].cfg.name == name then 0 else 1 + FindJoint(joints[1..], name)
  }

  /** Some key names joint i, and this interface of it. */
  predicate Requested(joints: seq<Joint>, keys: seq<string>, i: nat, iface: string) {
    exists k | 0 <= k < |keys| ::
      FindJoint(joints, SplitKey(keys[k]).0) == i && SplitKey(keys[k]).1 == iface
  }

  predicate Mentioned(joints: seq<Joint>, keys: seq<string>, i: nat) {
    exists k | 0 <= k < |keys| :: FindJoint(joints, SplitKey(keys[k]).0) == i
  }

  /** Starting wins over stopping; position over velocity over effort. */
  function PreparedLevel(joints: seq<Joint>, starts: seq<string>, stops: seq<string>, i: nat): Level
    requires i < |joints|
  {
    if Requested(joints, starts, i, "position") then POSITION
    else if Requested(joints, starts, i, "velocity") then VELOCITY
    else if Requested(joints, starts, i, "effort") then EFFORT
    else if Mentioned(joints, stops, i) then UNDEFINED
    else joints[i].level
  }

  /** prepare_command_mode_switch. */
  function PrepareSpec(s: Hw, starts: seq<string>, stops: seq<string>): Hw {
    s.(joints := seq(|s.joints|, i requires 0 <= i < |s.joints| =>
         s.joints[i].(level := PreparedLevel(s.joints, starts, stops, i))))
  }

  ghost predicate SameButLevels(a: seq<Joint>, b: seq<Joint>) {
    |a| == |b| && forall i | 0 <= i < |a| :: b[i] == a[i].(level := b[i].level)
  }

  lemma {:induction false} SameNames(a: seq<Joint>, b: seq<Joint>, name: string)
    requires SameButLevels(a, b)
    ensures FindJoint(a, name) == FindJoint(b, name)
    decreases |a|
  {
    if a != [] && a[0].cfg.name != name {
      SameNames(a[1..], b[1..], name);
    }
  }

  lemma SameRequests(a: seq<Joint>, b: seq<Joint>, keys: seq<string>, i: nat, iface: string)
    requires SameButLevels(a, b)
    ensures Requested(a, keys, i, iface) == Requested(b, keys, i, iface)
  {
    hide FindJoint, SplitKey;
    forall k | 0 <= k < |keys|
      ensures FindJoint(a, SplitKey(keys[k]).0) == FindJoint(b, SplitKey(keys[k]).0)
    {
      SameNames(a, b, SplitKey(keys[k]).0);
    }
  }

  lemma MentionedNext(joints: seq<Joint>, keys: seq<string>, k: nat)
    requires k < |keys|
    ensures forall i: nat :: Mentioned(joints, keys[..k + 1], i) <==>
              Mentioned(joints, keys[..k], i) || FindJoint(joints, SplitKey(keys[k]).0) == i
  {
    hide FindJoint, SplitKey;
    var next, now := keys[..k + 1], keys[..k];
    assert forall m | 0 <= m < k :: next[m] == now[m];
    assert next[k] == keys[k];
    forall i: nat
      ensures Mentioned(joints, next, i) <==>
              Mentioned(joints, now, i) || FindJoint(joints, SplitKey(keys[k]).0) == i
    {
      if Mentioned(joints, now, i) {
        var m :| 0 <= m < |now| && FindJoint(joints, SplitKey(now[m]).0) == i;
        assert next[m] == now[m];
      }
      if FindJoint(joints, SplitKey(keys[k]).0) == i {
        assert FindJoint(joints, SplitKey(next[k]).0) == i;
      }
    }
  }

  lemma RequestedNext(joints: seq<Joint>, keys: seq<string>, k: nat)
    requires k < |keys|
    ensures forall i: nat, iface :: Requested(joints, keys[..k + 1], i, iface) <==>
              || Requested(joints, keys[..k], i, iface)
              || (FindJoint(joints, SplitKey(keys[k]).0) == i && SplitKey(keys[k]).1 == iface)
  {
    hide FindJoint, SplitKey;
    var next, now := keys[..k + 1], keys[..k];
    assert forall m | 0 <= m < k :: next[m] == now[m];
    assert next[k] == keys[k];
    forall i: nat, iface
      ensures Requested(joints, next, i, iface) <==>
              || Requested(joints, now, i, iface)
              || (FindJoint(joints, SplitKey(keys[k]).0) == i && SplitKey(keys[k]).1 == iface)
    {
      if Requested(joints, now, i, iface) {
        var m :| 0 <= m < |now| && FindJoint(joints, SplitKey(now[m]).0) == i && SplitKey(now[m]).1 == iface;
        assert next[m] == now[m];
      }
      if FindJoint(joints, SplitKey(keys[k]).0) == i && SplitKey(keys[k]).1 == iface {
        assert FindJoint(joints, SplitKey(next[k]).0) == i && SplitKey(next[k]).1 == iface;
      }
    }
  }

  datatype JointSwitch = JointSwitch(joint: Joint, log: Log, status: int)

  const WATCHDOG_EXPIRED := 0x800

  function ArmOps(cfg: JointConfig): seq<Op> {
    if cfg.watchdog then [WriteOp(cfg, ENABLE_WATCHDOG, Flag(true)), FeedOp(cfg)] else []
  }

  function Failed(j: Joint, status: int): Joint { j.(core := j.core.(writeError := status)) }

  function WithAxisError(j: Joint, x: Num): Joint { j.(core := j.core.(errs := j.core.errs.(axis := x))) }

  /** Claim: arm the watchdog, then clear an axis error that is exactly an expired watchdog. */
  function ClaimJoint(c: Context, log: Log, j: Joint): JointSwitch {
    var (status, log1) := DoAll(c.env, log, ArmOps(j.cfg));
    if status != 0 then JointSwitch(Failed(j, status), log1, status)
    else
      var op := ReadOp(j.cfg, AXIS_ERROR);
      var r := c.env(log1, op);
      var log2 := log1 + [Event(op, r)];
      if r.status != 0 then JointSwitch(Failed(j, r.status), log2, r.status)
      else
        var word := ToUint32(r.word);
        var k := WithAxisError(j, Fin(word as real));
        if word != WATCHDOG_EXPIRED then JointSwitch(k, log2, 0)
        else
          var clear := CallOp(j.cfg, CLEAR_ERRORS);
          var q := c.env(log2, clear);
          var log3 := log2 + [Event(clear, q)];
          if q.status != 0 then JointSwitch(Failed(k, q.status), log3, q.status)
          else JointSwitch(WithAxisError(k, ZERO), log3, 0)
  }

  /** Unclaim: idle and watchdog off, both best effort. */
  function UnclaimLog(c: Context, log: Log, cfg: JointConfig): Log {
    Do(c.env, Do(c.env, log, IdleOp(cfg)), WriteOp(cfg, ENABLE_WATCHDOG, Flag(false)))
  }

  /** After the mode switch of a primed joint answered with r. */
  function AfterEnter(p: Joint, r: (int, Log)): JointSwitch {
    JointSwitch(if r.0 != 0 then Failed(p, r.0) else Failed(p, 0).(claimed := p.level != UNDEFINED), r.1, r.0)
  }

  function EnterMode(c: Context, log: Log, j: Joint): JointSwitch {
    if HasFault(c.safety, j.core.errs) then JointSwitch(j.(level := UNDEFINED, claimed := false), log, 0)
    else
      var p := j.(cmd := Primed(j.level, j.cmd, j.core.kin));
      AfterEnter(p, DoAll(c.env, log, SwitchOps(j.cfg, j.level, p.cmd)))
  }

  function SwitchJoint(c: Context, log: Log, j: Joint): JointSwitch {
    if j.level != UNDEFINED && !j.claimed then
      var r := ClaimJoint(c, log, j);
      if r.status != 0 then r else EnterMode(c, r.log, r.joint)
    else if j.level == UNDEFINED && j.claimed then EnterMode(c, UnclaimLog(c, log, j.cfg), j)
    else EnterMode(c, log, j)
  }

  function SwitchJoints(c: Context, s: Hw, i: nat): (r: (Hw, int))
    requires i <= |s.joints|
    ensures |r.0.joints| == |s.joints|
    decreases |s.joints| - i
  {
    if i == |s.joints| then (s, 0)
    else
      var r := SwitchJoint(c, s.log, s.joints[i]);
      var t := s.(joints := s.joints[i := r.joint], log := r.log);
      if r.status != 0 then (t, r.status) else SwitchJoints(c, t, i + 1)
  }

  /** perform_command_mode_switch; the status is non-zero when it returns ERROR. */
  function SwitchSpec(c: Context, s: Hw): (r: (Hw, int))
    ensures |r.0.joints| == |s.joints|
  {
    if !s.up then (s, 0) else SwitchJoints(c, s, 0)
  }

  // ---- lifecycle ----

  /** initialize_transport for one joint: torque constant in, watchdog timeout and disarm out. */
  function InitJoint(c: Context, log: Log, j: Joint): JointSwitch {
    var op := ReadOp(j.cfg, TORQUE_CONSTANT);
    var (status, log1) := Retry(c.env, log, op, USB_RETRIES);
    if status != 0 then JointSwitch(j, log1, status)
    else
      var k := j.(torque := log1[|log1| - 1].reply.num);
      var (status2, log2) :=
        if j.cfg.watchdog then
          Retry(c.env, log1, WriteOp(j.cfg, WATCHDOG_TIMEOUT, F32(j.cfg.watchdogTimeout)), USB_RETRIES)
        else (0, log1);
      if status2 != 0 then JointSwitch(k, log2, status2)
      else
        var (status3, log3) := Retry(c.env, log2, WriteOp(j.cfg, ENABLE_WATCHDOG, Flag(false)), USB_RETRIES);
        JointSwitch(k, log3, status3)
  }

  function InitJoints(c: Context, s: Hw, i: nat): (r: (Hw, int))
    requires i <= |s.joints|
    ensures |r.0.joints| == |s.joints|
    decreases |s.joints| - i
  {
    if i == |s.joints| then (s, 0)
    else
      var r := InitJoint(c, s.log, s.joints[i]);
      var t := s.(joints := s.joints[i := r.joint], log := r.log);
      if r.status != 0 then (t.(up := false), r.status) else InitJoints(c, t, i + 1)
  }

  /** initialize_transport; `created` is false when the factory yields no transport. */
  function InitTransport(c: Context, s: Hw, created: bool): (r: (Hw, bool))
    ensures |r.0.joints| == |s.joints|
  {
    if !created then (s.(up := false), false)
    else
      var log := Do(c.env, s.log, Open);
      if log[|log| - 1].reply.status != 0 then (s.(up := false, log := log), false)
      else
        var (t, status) := InitJoints(c, s.(up := true, log := log), 0);
        (t, status == 0)
  }

  function ClearedFlags(s: Hw): Hw {
    s.(joints := seq(|s.joints|, i requires 0 <= i < |s.joints| =>
         s.joints[i].(claimed := false, core := s.joints[i].core.(faulted := false, idleRequested := false))))
  }

  function ClearErrorsOps(joints: seq<Joint>): (ops: seq<Op>)
    ensures |ops| == |joints|
  {
    seq(|joints|, i requires 0 <= i < |joints| => CallOp(joints[i].cfg, CLEAR_ERRORS))
  }

  /** on_activate; false when it returns ERROR. */
  function ActivateSpec(c: Context, s: Hw, created: bool): (Hw, bool) {
    var (t, ok) := InitTransport(c, s, created);
    if !ok then (if c.safety.gateOutputs then t.(outputs := false) else t, true)
    else
      var u := ClearedFlags(if c.safety.gateOutputs then t.(outputs := true) else t);
      var (status, log) := DoAll(c.env, u.log, ClearErrorsOps(u.joints));
      (u.(log := log), status == 0)
  }

  function IdleOps(joints: seq<Joint>): (ops: seq<Op>)
    ensures |ops| == |joints|
  {
    seq(|joints|, i requires 0 <= i < |joints| => IdleOp(joints[i].cfg))
  }

  /** on_deactivate: idle every axis; the first error drops the transport. */
  function DeactivateSpec(c: Context, s: Hw): Hw {
    var t := if c.safety.gateOutputs then s.(outputs := false) else s;
    if !t.up then t
    else
      var (status, log) := DoAll(c.env, t.log, IdleOps(t.joints));
      t.(log := log, up := status == 0)
  }

  /** reset_runtime_state. */
  function ResetSpec(s: Hw): Hw {
    s.(outputs := false,
       sensors := seq(|s.sensors|, i requires 0 <= i < |s.sensors| => Sensor(s.sensors[i].serial, NaN, NaN)),
       joints := seq(|s.joints|, i requires 0 <= i < |s.joints| => Reset(s.joints[i])))
  }

  /** on_cleanup, and recover() which does the same in the other order. */
  function CleanupSpec(s: Hw): Hw { ResetSpec(s.(up := false)) }

  predicate HasDrive(ds: seq<Drive>, serial: int) { exists k | 0 <= k < |ds| :: ds[k].serial == serial }

  /** configure_from_info: one drive per distinct joint serial, in order of first use. */
  function DrivesOf(cfgs: seq<JointConfig>): (ds: seq<Drive>)
    ensures forall i | 0 <= i < |cfgs| :: HasDrive(ds, cfgs[i].serial)
  {
    if cfgs == [] then []
    else
      var n := |cfgs| - 1;
      var ds := DrivesOf(cfgs[..n]);
      assert forall i | 0 <= i < n :: cfgs[..n][i] == cfgs[i];
      if HasDrive(ds, cfgs[n].serial) then ds
      else
        var r := ds + [Drive(cfgs[n].serial, 0, 0)];
        assert r[|ds|].serial == cfgs[n].serial;
        assert forall k | 0 <= k < |ds| :: r[k] == ds[k];
        r
  }
}
