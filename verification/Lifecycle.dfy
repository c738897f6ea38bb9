/** What activation and deactivation leave in the drives, and when outputs are enabled. */
module Lifecycle {
  import opened Numeric
  import opened Transport
  import opened Joints
  import opened Axis
  import opened Cycle
  import opened Runs
  import opened Turns
  import Setpoints

  // ---- the registers an activation configures ----

  predicate Configures(op: Op, cfg: JointConfig) {
    && !op.Open? && op.serial == cfg.serial
    && (op.endpoint == AxisEndpoint(ENABLE_WATCHDOG, cfg.axis) ||
        op.endpoint == AxisEndpoint(WATCHDOG_TIMEOUT, cfg.axis) ||
        op.endpoint == AxisEndpoint(TORQUE_CONSTANT, cfg.axis))
  }

  predicate Register(cfg: JointConfig, base: int, value: Wire, log: Log) {
    WrittenOk(log, cfg.serial, AxisEndpoint(base, cfg.axis), value)
  }

  /** The watchdog is off and its timeout set, if it is used, and the torque constant is the one read last. */
  predicate Initialized(log: Log, j: Joint) {
    && Register(j.cfg, ENABLE_WATCHDOG, Flag(false), log)
    && (j.cfg.watchdog ==> Register(j.cfg, WATCHDOG_TIMEOUT, F32(j.cfg.watchdogTimeout), log))
    && var r := LastRead(log, j.cfg.serial, AxisEndpoint(TORQUE_CONSTANT, j.cfg.axis));
       r.Some? && r.value.status == 0 && j.torque == r.value.num
  }

  /** Everything added leaves the registers of this axis alone. */
  lemma InitializedFrame(log: Log, log': Log, j: Joint, p: Op -> bool)
    requires Initialized(log, j) && Extends(log, log', p)
    requires forall op :: p(op) ==> !Configures(op, j.cfg)
    ensures Initialized(log', j)
  {
    LastWriteFrame(log, log', j.cfg.serial, AxisEndpoint(ENABLE_WATCHDOG, j.cfg.axis), p);
    LastWriteFrame(log, log', j.cfg.serial, AxisEndpoint(WATCHDOG_TIMEOUT, j.cfg.axis), p);
    LastReadFrame(log, log', j.cfg.serial, AxisEndpoint(TORQUE_CONSTANT, j.cfg.axis), p);
  }

  lemma LastOk(log: Log, op: Op)
    requires log != [] && log[|log| - 1].op == op && log[|log| - 1].reply.status == 0
    ensures op.Write? ==> WrittenOk(log, op.serial, op.endpoint, op.value)
    ensures op.Read? ==> LastRead(log, op.serial, op.endpoint) == Some(log[|log| - 1].reply)
  {
  }

  lemma Repeated(env: Env, log: Log, op: Op)
    ensures var (status, log') := Retry(env, log, op, USB_RETRIES);
            && Extends(log, log', q => q == op)
            && |log| < |log'| <= |log| + 3 && log'[|log'| - 1].op == op && log'[|log'| - 1].reply.status == status
  {
    RetryMeaning(env, log, op, USB_RETRIES);
  }

  lemma WrittenFrame(log: Log, log': Log, op: Op, serial: int, endpoint: int)
    requires Extends(log, log', q => q == op) && !WritesTo(op, serial, endpoint)
    ensures LastWrite(log', serial, endpoint) == LastWrite(log, serial, endpoint)
  {
    LastWriteFrame(log, log', serial, endpoint, q => q == op);
  }

  lemma ReadFrom(log: Log, log': Log, op: Op, serial: int, endpoint: int)
    requires Extends(log, log', q => q == op) && !ReadsFrom(op, serial, endpoint)
    ensures LastRead(log', serial, endpoint) == LastRead(log, serial, endpoint)
  {
    LastReadFrame(log, log', serial, endpoint, q => q == op);
  }

  /** The initialization of one joint, if it succeeds. */
  lemma InitMeaning(c: Context, log: Log, j: Joint)
    requires 0 <= j.cfg.axis <= 1
    ensures var r := InitJoint(c, log, j);
            && r.joint == j.(torque := r.joint.torque)
            && (r.status == 0 ==> Initialized(r.log, r.joint))
            && Extends(log, r.log, op => Configures(op, j.cfg))
            && |log| < |r.log| <= |log| + 9 && (r.status != 0 ==> r.log[|r.log| - 1].reply.status == r.status)
  {
    hide Retry, LastWrite, LastRead, AxisEndpoint;
    var p := (op: Op) => Configures(op, j.cfg);
    var fetch := ReadOp(j.cfg, TORQUE_CONSTANT);
    var time := WriteOp(j.cfg, WATCHDOG_TIMEOUT, F32(j.cfg.watchdogTimeout));
    var off := WriteOp(j.cfg, ENABLE_WATCHDOG, Flag(false));
    var a := Retry(c.env, log, fetch, USB_RETRIES);
    Repeated(c.env, log, fetch);
    Widen(log, a.1, fetch, p);
    if a.0 == 0 {
      LastOk(a.1, fetch);
      var b := if j.cfg.watchdog then Retry(c.env, a.1, time, USB_RETRIES) else (0, a.1);
      if j.cfg.watchdog {
        Repeated(c.env, a.1, time);
        Widen(a.1, b.1, time, p);
        ReadFrom(a.1, b.1, time, fetch.serial, fetch.endpoint);
        ExtendsTransitive(log, a.1, b.1, p);
      }
      if b.0 == 0 {
        if j.cfg.watchdog {
          LastOk(b.1, time);
        }
        var d := Retry(c.env, b.1, off, USB_RETRIES);
        Repeated(c.env, b.1, off);
        Widen(b.1, d.1, off, p);
        ReadFrom(b.1, d.1, off, fetch.serial, fetch.endpoint);
        TwoRegisters(j.cfg);
        WrittenFrame(b.1, d.1, off, time.serial, time.endpoint);
        ExtendsTransitive(log, b.1, d.1, p);
        if d.0 == 0 {
          LastOk(d.1, off);
        }
      }
    }
  }

  lemma TwoRegisters(cfg: JointConfig)
    requires 0 <= cfg.axis <= 1
    ensures AxisEndpoint(ENABLE_WATCHDOG, cfg.axis) != AxisEndpoint(WATCHDOG_TIMEOUT, cfg.axis)
  {
  }

  lemma Widen(log: Log, log': Log, op: Op, p: Op -> bool)
    requires Extends(log, log', q => q == op) && p(op)
    ensures Extends(log, log', p)
  {
  }

  lemma OtherRegisters(a: JointConfig, b: JointConfig, op: Op)
    requires 0 <= a.axis <= 1 && 0 <= b.axis <= 1 && (a.serial != b.serial || a.axis != b.axis)
    requires Configures(op, a)
    ensures !Configures(op, b)
  {
  }

  lemma InitLeaves(log: Log, log': Log, j: Joint, other: Joint)
    requires Extends(log, log', op => Configures(op, j.cfg)) && Initialized(log, other)
    requires 0 <= j.cfg.axis <= 1 && 0 <= other.cfg.axis <= 1
    requires j.cfg.serial != other.cfg.serial || j.cfg.axis != other.cfg.axis
    ensures Initialized(log', other)
  {
    hide Configures, Initialized;
    var p := (op: Op) => Configures(op, j.cfg);
    forall op | p(op) ensures !Configures(op, other.cfg) {
      OtherRegisters(j.cfg, other.cfg, op);
    }
    InitializedFrame(log, log', other, p);
  }

  /** A failed initialization drops the transport; nothing but torque constants changes. */
  lemma {:induction false} InitsKeep(c: Context, s: Hw, i: nat)
    requires i <= |s.joints| && forall k | 0 <= k < |s.joints| :: 0 <= s.joints[k].cfg.axis <= 1
    ensures var (t, status) := InitJoints(c, s, i);
            && t == s.(joints := t.joints, up := t.up, log := t.log)
            && (forall k | 0 <= k < |t.joints| :: t.joints[k] == s.joints[k].(torque := t.joints[k].torque))
            && (if status == 0 then t.up == s.up
                else !t.up && t.log != [] && t.log[|t.log| - 1].reply.status != 0)
    decreases |s.joints| - i
  {
    hide InitJoint, Initialized, Configures;
    if i < |s.joints| {
      var r := InitJoint(c, s.log, s.joints[i]);
      InitMeaning(c, s.log, s.joints[i]);
      if r.status == 0 {
        InitsKeep(c, s.(joints := s.joints[i := r.joint], log := r.log), i + 1);
      }
    }
  }

  /** Joints before i are initialized; if all others are, too, all are. */
  lemma {:induction false} InitsMeaning(c: Context, s: Hw, i: nat)
    requires i <= |s.joints| && DistinctAxes(s) && forall k | 0 <= k < i :: Initialized(s.log, s.joints[k])
    ensures var (t, status) := InitJoints(c, s, i);
            status == 0 ==> forall k | 0 <= k < |t.joints| :: Initialized(t.log, t.joints[k])
    decreases |s.joints| - i
  {
    hide InitJoint, Initialized, Configures;
    if i < |s.joints| {
      var r := InitJoint(c, s.log, s.joints[i]);
      var t := s.(joints := s.joints[i := r.joint], log := r.log);
      InitMeaning(c, s.log, s.joints[i]);
      if r.status == 0 {
        forall k | 0 <= k < i ensures Initialized(t.log, t.joints[k]) {
          InitLeaves(s.log, t.log, s.joints[i], s.joints[k]);
        }
        assert forall k | 0 <= k < i + 1 :: Initialized(t.log, t.joints[k]);
        InitsMeaning(c, t, i + 1);
        assert InitJoints(c, s, i) == InitJoints(c, t, i + 1);
      } else {
        assert InitJoints(c, s, i).1 == r.status;
      }
    }
  }

  /** CLEAR_ERRORS on every axis, in the order of the joints. */
  function Clears(joints: seq<Joint>): (ops: seq<Op>)
    ensures |ops| == |joints|
  {
    seq(|joints|, i requires 0 <= i < |joints| => Invoke(joints[i].cfg, CLEAR_ERRORS))
  }

  lemma ClearsLeave(joints: seq<Joint>, cfg: JointConfig)
    requires 0 <= cfg.axis <= 1 && forall i | 0 <= i < |joints| :: 0 <= joints[i].cfg.axis <= 1
    ensures forall i | 0 <= i < |joints| :: !Configures(Clears(joints)[i], cfg)
  {
  }

  lemma SameClears(a: seq<Joint>, b: seq<Joint>)
    requires |a| == |b| && forall i | 0 <= i < |a| :: a[i].cfg == b[i].cfg
    ensures ClearErrorsOps(a) == Clears(b)
  {
    hide AxisEndpoint;
  }

  lemma ClearsKeep(c: Context, log: Log, joints: seq<Joint>, j: Joint)
    requires 0 <= j.cfg.axis <= 1 && forall i | 0 <= i < |joints| :: 0 <= joints[i].cfg.axis <= 1
    requires Initialized(log, j)
    ensures Initialized(DoAll(c.env, log, Clears(joints)).1, j)
  {
    hide DoAll, Initialized, Configures, Clears;
    var p := (op: Op) => !Configures(op, j.cfg);
    ClearsLeave(joints, j.cfg);
    DoAllExtends(c.env, log, Clears(joints), p);
    InitializedFrame(log, DoAll(c.env, log, Clears(joints)).1, j, p);
  }

  /** After the initialization of all joints. */
  lemma AfterInit(c: Context, s: Hw, u: Hw, v: Hw)
    requires DistinctAxes(s) && |u.joints| == |s.joints| && (v == u || v == u.(outputs := true))
    requires forall i | 0 <= i < |s.joints| :: u.joints[i] == s.joints[i].(torque := u.joints[i].torque)
    requires forall i | 0 <= i < |s.joints| :: Initialized(u.log, u.joints[i])
    ensures var w := ClearedFlags(v);
            var (status, log) := DoAll(c.env, w.log, ClearErrorsOps(w.joints));
            && Issues(u.log, log, Clears(s.joints), status)
            && (status != 0 ==> |log| > |u.log| && log[|log| - 1].reply.status == status)
            && Extends(u.log, log, Anything)
            && forall i | 0 <= i < |s.joints| :: Initialized(log, w.joints[i])
  {
    hide DoAll, Initialized, Configures, Issues, Clears, ClearErrorsOps;
    var w := ClearedFlags(v);
    SameClears(w.joints, s.joints);
    var log := DoAll(c.env, w.log, Clears(s.joints)).1;
    DoAllIssues(c.env, w.log, Clears(s.joints));
    DoAllExtends(c.env, w.log, Clears(s.joints), Anything);
    IssuesLength(w.log, log, Clears(s.joints), DoAll(c.env, w.log, Clears(s.joints)).0);
    forall i | 0 <= i < |s.joints| ensures Initialized(log, w.joints[i]) {
      ClearsKeep(c, u.log, s.joints, u.joints[i]);
      SameInitialized(log, u.joints[i], w.joints[i]);
    }
  }

  lemma SameInitialized(log: Log, j: Joint, k: Joint)
    requires Initialized(log, j) && k.cfg == j.cfg && k.torque == j.torque
    ensures Initialized(log, k)
  {
  }

  /** Activation: without a transport, or with one that was opened and on which every joint was initialized:
      its watchdog is disarmed, the timeout of a used one is set, the torque constant was read; and then the
      errors of every axis are cleared in order, up to the first failure, after which activation fails with
      the transport kept. Claims and faults are forgotten, the rest of the joints is as it was. If nothing
      fails, there is a transport. */
  lemma ActivationMeaning(c: Context, s: Hw, created: bool)
    requires DistinctAxes(s)
    ensures var (t, ok) := ActivateSpec(c, s, created);
            && |t.joints| == |s.joints|
            && (!t.up ==> ok && (c.safety.gateOutputs ==> !t.outputs))
            && (t.up ==>
                  && created && |t.log| > |s.log| && t.log[|s.log|].op == Open && t.log[|s.log|].reply.status == 0
                  && (c.safety.gateOutputs ==> t.outputs)
                  && (forall i | 0 <= i < |t.joints| ::
                        && t.joints[i] == s.joints[i].(torque := t.joints[i].torque, claimed := false,
                             core := s.joints[i].core.(faulted := false, idleRequested := false))
                        && Initialized(t.log, t.joints[i]))
                  && (exists mid: Log, status ::
                        |s.log| < |mid| && Issues(mid, t.log, Clears(s.joints), status) && ok == (status == 0)))
            && (!c.safety.gateOutputs ==> t.outputs == s.outputs)
            && (created && (forall n | |s.log| <= n < |t.log| :: t.log[n].reply.status == 0) ==> t.up && ok)
  {
    hide InitJoints, DoAll, Initialized, Configures, Issues, Clears;
    if created {
      var start := s.(up := true, log := Do(c.env, s.log, Open));
      InitsMeaning(c, start, 0);
      InitsKeep(c, start, 0);
      InitExtends(c, start, 0);
      var (u, status) := InitJoints(c, start, 0);
      if start.log[|s.log|].reply.status == 0 && status == 0 {
        AfterInit(c, s, u, if c.safety.gateOutputs then u.(outputs := true) else u);
        var end := ActivateSpec(c, s, created).0.log;
        ExtendsTransitive(start.log, u.log, end, Anything);
        assert end[|s.log|] == start.log[|s.log|] by { assert end[..|start.log|][|s.log|] == end[|s.log|]; }
      }
    }
  }

  lemma {:induction false} InitExtends(c: Context, s: Hw, i: nat)
    requires i <= |s.joints|
    ensures Extends(s.log, InitJoints(c, s, i).0.log, Anything)
    decreases |s.joints| - i
  {
    hide InitJoint;
    if i < |s.joints| {
      var r := InitJoint(c, s.log, s.joints[i]);
      InitJointExtends(c, s.log, s.joints[i]);
      var t := s.(joints := s.joints[i := r.joint], log := r.log);
      if r.status == 0 {
        InitExtends(c, t, i + 1);
        ExtendsTransitive(s.log, t.log, InitJoints(c, t, i + 1).0.log, Anything);
      }
    }
  }

  lemma InitJointExtends(c: Context, log: Log, j: Joint)
    ensures Extends(log, InitJoint(c, log, j).log, Anything)
  {
    hide Retry;
    var fetch := ReadOp(j.cfg, TORQUE_CONSTANT);
    var time := WriteOp(j.cfg, WATCHDOG_TIMEOUT, F32(j.cfg.watchdogTimeout));
    var a := Retry(c.env, log, fetch, USB_RETRIES).1;
    Repeated(c.env, log, fetch);
    Repeated(c.env, a, time);
    var b := if j.cfg.watchdog then Retry(c.env, a, time, USB_RETRIES).1 else a;
    var off := WriteOp(j.cfg, ENABLE_WATCHDOG, Flag(false));
    Repeated(c.env, b, off);
    ExtendsTransitive(log, a, b, Anything);
    ExtendsTransitive(log, b, Retry(c.env, b, off, USB_RETRIES).1, Anything);
  }

  // ---- deactivation ----

  /** Idle, which is state 1, on every axis, in the order of the joints. */
  function Idling(joints: seq<Joint>): (ops: seq<Op>)
    ensures |ops| == |joints|
  {
    seq(|joints|, i requires 0 <= i < |joints| => Put(joints[i].cfg, REQUESTED_STATE, I32(1)))
  }

  lemma IdlingWritten(joints: seq<Joint>, log: Log, log': Log, i: nat)
    requires i < |joints| && Issues(log, log', Idling(joints), 0)
    requires forall k | 0 <= k < |joints| :: 0 <= joints[k].cfg.axis <= 1
    requires forall k | i < k < |joints| ::
               joints[k].cfg.serial != joints[i].cfg.serial || joints[k].cfg.axis != joints[i].cfg.axis
    ensures Register(joints[i].cfg, REQUESTED_STATE, I32(1), log')
  {
    hide LastWrite;
    var op := Put(joints[i].cfg, REQUESTED_STATE, I32(1));
    var n := |log| + i;
    assert log'[n].op == op && log'[n].reply.status == 0;
    forall m | n < m < |log'| ensures !WritesTo(log'[m].op, op.serial, op.endpoint) {
      assert log'[m].op == Idling(joints)[m - |log|];
    }
    Setpoints.LastWriteAt(log', n, |log'|);
    assert log'[..|log'|] == log';
  }

  /** Deactivation: with a transport, every axis is idled in the order of the joints, up to the first failure,
      which drops the transport; if it keeps the transport, idle is the state last requested of every axis.
      Outputs are off where they are gated. Nothing else changes. */
  lemma DeactivationMeaning(c: Context, s: Hw)
    requires DistinctAxes(s)
    ensures var t := DeactivateSpec(c, s);
            && t == s.(outputs := if c.safety.gateOutputs then false else s.outputs, up := t.up, log := t.log)
            && (!s.up ==> !t.up && t.log == s.log)
            && (s.up ==> exists status :: Issues(s.log, t.log, Idling(s.joints), status) && t.up == (status == 0))
            && (t.up ==> forall i | 0 <= i < |s.joints| :: Register(s.joints[i].cfg, REQUESTED_STATE, I32(1), t.log))
  {
    hide DoAll, Issues, AxisEndpoint, Register;
    assert IdleOps(s.joints) == Idling(s.joints);
    DoAllIssues(c.env, s.log, Idling(s.joints));
    var t := DeactivateSpec(c, s);
    if t.up {
      forall i: nat | i < |s.joints| ensures Register(s.joints[i].cfg, REQUESTED_STATE, I32(1), t.log) {
        IdlingWritten(s.joints, s.log, t.log, i);
      }
    }
  }

  // ---- the output gate ----

  lemma StepKeepsOff(c: Context, s: Hw, a: Api)
    requires c.safety.gateOutputs && !s.outputs && !a.Activate?
    ensures !Step(c, s, a).outputs
    ensures a.WriteCall? ==> Step(c, s, a) == s
  {
    hide ReadSpec, SwitchJoint, DoAll, WriteJoints;
    match a {
      case ReadCall => ReadSpecFrame(c, s);
      case Switch =>
        if s.up && s.joints != [] {
          SwitchJointsTurn(c, s, 0, 0);
        }
      case _ =>
    }
  }

  /** With gated outputs, from a deactivation, a cleanup or a recovery on and until the next activation, no
      write() does anything. */
  lemma {:induction false} GatedSilence(c: Context, s: Hw, calls: seq<Api>, n: nat)
    requires c.safety.gateOutputs && !s.outputs && n < |calls|
    requires forall m | 0 <= m < |calls| :: !calls[m].Activate?
    ensures !Run(c, s, calls[..n]).outputs
    ensures calls[n].WriteCall? ==> Run(c, s, calls[..n + 1]) == Run(c, s, calls[..n])
    decreases n
  {
    hide Step;
    var now := calls[..n];
    assert calls[..n + 1][..n] == now;
    if n == 0 {
      assert now == [];
    } else {
      GatedSilence(c, s, calls, n - 1);
      assert now[..n - 1] == calls[..n - 1];
      StepKeepsOff(c, Run(c, s, calls[..n - 1]), calls[n - 1]);
    }
    StepKeepsOff(c, Run(c, s, now), calls[n]);
  }

  lemma OffAfter(c: Context, s: Hw, a: Api)
    requires c.safety.gateOutputs && (a.Deactivate? || a.Cleanup?)
    ensures !Step(c, s, a).outputs
  {
    hide DoAll;
  }

  // ---- configuration ----

  /** Distinct serial numbers, each from a joint, and nothing read yet. */
  ghost predicate DrivesFrom(ds: seq<Drive>, cfgs: seq<JointConfig>) {
    && (forall i, k | 0 <= i < k < |ds| :: ds[i].serial != ds[k].serial)
    && forall k | 0 <= k < |ds| ::
         ds[k].canError == 0 && ds[k].readError == 0 && exists i | 0 <= i < |cfgs| :: cfgs[i].serial == ds[k].serial
  }

  lemma DrivesNext(ds: seq<Drive>, less: seq<JointConfig>, cfg: JointConfig)
    requires DrivesFrom(ds, less)
    ensures DrivesFrom(ds, less + [cfg])
    ensures !HasDrive(ds, cfg.serial) ==> DrivesFrom(ds + [Drive(cfg.serial, 0, 0)], less + [cfg])
  {
    var cfgs := less + [cfg];
    assert cfgs[|less|] == cfg;
    forall k | 0 <= k < |ds| ensures exists i | 0 <= i < |cfgs| :: cfgs[i].serial == ds[k].serial {
      var i :| 0 <= i < |less| && less[i].serial == ds[k].serial;
      assert cfgs[i].serial == ds[k].serial;
    }
  }

  lemma DrivesStep(cfgs: seq<JointConfig>)
    requires cfgs != []
    ensures var n := |cfgs| - 1;
            var ds := DrivesOf(cfgs[..n]);
            DrivesOf(cfgs) == if HasDrive(ds, cfgs[n].serial) then ds else ds + [Drive(cfgs[n].serial, 0, 0)]
  {
    hide HasDrive;
  }

  /** Configuration makes one drive per serial number of a joint, and no other. */
  lemma {:induction false} DrivesExactly(cfgs: seq<JointConfig>)
    ensures DrivesFrom(DrivesOf(cfgs), cfgs)
  {
    hide DrivesFrom, DrivesOf, HasDrive;
    if cfgs == [] {
      NoDrives();
    } else {
      var n := |cfgs| - 1;
      DrivesStep(cfgs);
      DrivesExactly(cfgs[..n]);
      DrivesNext(DrivesOf(cfgs[..n]), cfgs[..n], cfgs[n]);
      assert cfgs[..n] + [cfgs[n]] == cfgs;
    }
  }

  lemma NoDrives()
    ensures DrivesFrom(DrivesOf([]), [])
  {
  }
}
