/** From the error words a poll read to what the next write() puts on the axis. */
module Masking {
  import opened Numeric
  import opened Transport
  import opened Joints
  import opened Errors
  import opened Axis
  import opened Cycle
  import opened Runs
  import opened Discipline
  import opened Telemetry

  /** Positive as an int32. */
  predicate FaultWord(word: int) { 0 < word % 0x1_0000_0000 < 0x8000_0000 }

  predicate FaultAnswer(r: Option<Reply>) { r.Some? && FaultWord(r.value.word) }

  /** One of the four error words read last from the axis is a fault. */
  predicate FaultRead(log: Log, cfg: JointConfig) {
    || FaultAnswer(Answer(log, cfg, AXIS_ERROR)) || FaultAnswer(Answer(log, cfg, MOTOR_ERROR))
    || FaultAnswer(Answer(log, cfg, ENCODER_ERROR)) || FaultAnswer(Answer(log, cfg, CONTROLLER_ERROR))
  }

  lemma WordExactly(x: Num, word: int)
    requires ReadAsInt32(x, word)
    ensures ExtractErrorValue(x).Some? <==> FaultWord(word)
  {
    SameResidue(x.r.Floor, word);
  }

  lemma SameResidue(i: int, word: int)
    requires -0x8000_0000 <= i < 0x8000_0000 && (i - word) % 0x1_0000_0000 == 0
    ensures word % 0x1_0000_0000 == if i >= 0 then i else i + 0x1_0000_0000
  {
    var q := (i - word) / 0x1_0000_0000;
    assert word == i - q * 0x1_0000_0000;
  }

  lemma FaultExactly(log: Log, cfg: JointConfig, errs: Registers)
    requires ExportsErrors(log, cfg, errs)
    ensures Faulty(errs) <==> FaultRead(log, cfg)
  {
    hide Answer, ReadAsInt32, FaultWord, ExtractErrorValue;
    WordExactly(errs.axis, Answer(log, cfg, AXIS_ERROR).value.word);
    WordExactly(errs.motor, Answer(log, cfg, MOTOR_ERROR).value.word);
    WordExactly(errs.encoder, Answer(log, cfg, ENCODER_ERROR).value.word);
    WordExactly(errs.controller, Answer(log, cfg, CONTROLLER_ERROR).value.word);
  }

  // ---- one turn of write() ----

  /** A setpoint of the axis, or a feed of its watchdog. */
  predicate Drives(op: Op, cfg: JointConfig) {
    || (op.Write? && op.serial == cfg.serial &&
        (op.endpoint == AxisEndpoint(INPUT_POS, cfg.axis) || op.endpoint == AxisEndpoint(INPUT_VEL, cfg.axis) ||
         op.endpoint == AxisEndpoint(INPUT_TORQUE, cfg.axis)))
    || (op.Call? && op.serial == cfg.serial && op.endpoint == AxisEndpoint(WATCHDOG_FEED, cfg.axis))
  }

  predicate Idles(op: Op, cfg: JointConfig) {
    op == Write(cfg.serial, AxisEndpoint(REQUESTED_STATE, cfg.axis), I32(1))
  }

  ghost predicate DrivesIn(log: Log, from: nat, cfg: JointConfig) {
    exists n | from <= n < |log| :: Drives(log[n].op, cfg)
  }

  /** The command carries a sequence number that was not sent before, where this is asked for. */
  predicate NewCommand(safety: Safety, j: Joint) {
    safety.gateStale ==> j.seqNo.Fin? && j.seqNo != j.core.lastSeq
  }

  lemma CommandsDrive(cfg: JointConfig, level: Level, t: Triple)
    requires 0 <= cfg.axis <= 1
    ensures forall n | 0 <= n < |CommandOps(cfg, level, t)| ::
              Drives(CommandOps(cfg, level, t)[n], cfg) && !Idles(CommandOps(cfg, level, t)[n], cfg)
    ensures CommandOps(cfg, level, t) == [] <==> level == UNDEFINED
  {
    hide Saturate, RadiansToTurns;
  }

  /** The turn of a joint drives the axis exactly if the joint has a level, a new command, and no fault that
      is masked; otherwise there is at most one idle request, exactly if a fault is masked, idling is asked
      for and none has been accepted yet. */
  lemma TurnExactly(c: Context, log: Log, dt: real, j: Joint)
    requires 0 <= j.cfg.axis <= 1
    ensures var w := WriteJoint(c, log, dt, j).log;
            var masked := c.safety.maskFaulted && Faulty(j.core.errs);
            && |log| <= |w| && w[..|log|] == log
            && (DrivesIn(w, |log|, j.cfg) <==> j.level != UNDEFINED && NewCommand(c.safety, j) && !masked)
            && (!DrivesIn(w, |log|, j.cfg) ==>
                  if masked && c.safety.idleOnFault && !j.core.idleRequested
                  then |w| == |log| + 1 && Idles(w[|log|].op, j.cfg) else w == log)
  {
    hide DoAll, CommandOps, JointShape, Faulty, Drives, Oriented;
    WriteBlock(c, log, dt, j);
    var ops := SentOps(j, dt);
    CommandsDrive(j.cfg, j.level, Oriented(j.cfg, JointShape(j, dt).cmd));
    DoAllIssued(c.env, log, ops);
    var w := WriteJoint(c, log, dt, j).log;
    if HasFault(c.safety, j.core.errs) {
      IdleDrivesNothing(j.cfg);
    } else if !Stale(c.safety, j.seqNo, j.core.lastSeq) && ops != [] {
      assert w[|log|].op == ops[0];
    }
  }

  lemma IdleDrivesNothing(cfg: JointConfig)
    requires 0 <= cfg.axis <= 1
    ensures Idles(IdleOp(cfg), cfg) && !Drives(IdleOp(cfg), cfg)
  {
  }

  /** After an accepted poll and any new command, with masking on: the next turn drives the axis exactly if
      none of the four words read is a fault (for a joint with a level and a new command). */
  lemma MaskedExactly(c: Context, log: Log, j: Joint, log2: Log, dt: real, k: Joint)
    requires 0 <= j.cfg.axis <= 1 && AcceptedPoll(c, log, j)
    requires k == ReadJoint(c, log, j).joint.(cmd := k.cmd, seqNo := k.seqNo, level := k.level)
    requires c.safety.maskFaulted && k.level != UNDEFINED && NewCommand(c.safety, k)
    ensures var t := DoAll(c.env, log, TelemetryOps(j.cfg)).1;
            DrivesIn(WriteJoint(c, log2, dt, k).log, |log2|, j.cfg) <==> !FaultRead(t, j.cfg)
  {
    hide WriteJoint, ReadJoint, DoAll, Faulty, FaultRead, DrivesIn, AcceptedPoll, ExportsErrors;
    PollMeaning(c, log, j);
    var r := ReadJoint(c, log, j);
    assert r.joint.cfg == j.cfg by { ReadJointFrame(c, log, j); }
    FaultExactly(DoAll(c.env, log, TelemetryOps(j.cfg)).1, j.cfg, r.joint.core.errs);
    TurnExactly(c, log2, dt, k);
  }

  // ---- read() ----

  predicate Elsewhere(op: Op, cfg: JointConfig) { !OnAxis(op, cfg.serial, cfg.axis) }

  /** Everything added to the log is about other axes. */
  ghost predicate LeavesAxis(log: Log, log': Log, cfg: JointConfig) {
    && |log| <= |log'| && log'[..|log|] == log
    && forall n | |log| <= n < |log'| :: Elsewhere(log'[n].op, cfg)
  }

  lemma LeavesTransitive(a: Log, b: Log, d: Log, cfg: JointConfig)
    requires LeavesAxis(a, b, cfg) && LeavesAxis(b, d, cfg)
    ensures LeavesAxis(a, d, cfg)
  {
    assert d[..|a|] == d[..|b|][..|a|];
    forall n | |a| <= n < |d| ensures Elsewhere(d[n].op, cfg) {
      if n < |b| { assert d[..|b|][n] == d[n]; }
    }
  }

  predicate OtherAxis(a: JointConfig, b: JointConfig) {
    0 <= a.axis <= 1 && 0 <= b.axis <= 1 && (a.serial != b.serial || a.axis != b.axis)
  }

  lemma PollElsewhere(c: Context, log: Log, j: Joint, cfg: JointConfig)
    requires OtherAxis(j.cfg, cfg)
    ensures LeavesAxis(log, ReadJoint(c, log, j).log, cfg)
  {
    hide DoAll, TelemetryOps, Elsewhere;
    DoAllIssued(c.env, log, TelemetryOps(j.cfg));
    TelemetryElsewhere(j.cfg, cfg);
  }

  lemma TelemetryElsewhere(a: JointConfig, b: JointConfig)
    requires OtherAxis(a, b)
    ensures forall n | 0 <= n < 9 :: Elsewhere(TelemetryOps(a)[n], b)
  {
  }

  lemma {:induction false} PollsElsewhere(c: Context, s: Hw, k: nat, cfg: JointConfig)
    requires k <= |s.joints| && forall m | k <= m < |s.joints| :: OtherAxis(s.joints[m].cfg, cfg)
    ensures LeavesAxis(s.log, ReadJoints(c, s, k).s.log, cfg)
    decreases |s.joints| - k
  {
    hide ReadJoint, OtherAxis, Elsewhere;
    if k < |s.joints| {
      var r := ReadJoint(c, s.log, s.joints[k]);
      PollElsewhere(c, s.log, s.joints[k], cfg);
      if !FailFast(r.status) {
        PollsElsewhere(c, AfterJointRead(s, k, r), k + 1, cfg);
        LeavesTransitive(s.log, r.log, ReadJoints(c, s, k).s.log, cfg);
      }
    }
  }

  /** After its own poll in a read(), nothing of the read concerns the axis of joint i. */
  lemma {:induction false} LaterPolls(c: Context, s: Hw, k: nat, i: nat)
    requires k <= i < |s.joints| && DistinctAxes(s) && JointTurn(c, s, k, i).Some?
    ensures var r := ReadJoint(c, JointTurn(c, s, k, i).value, s.joints[i]);
            LeavesAxis(r.log, ReadJoints(c, s, k).s.log, s.joints[i].cfg)
    decreases i - k
  {
    hide ReadJoint, Elsewhere;
    var r := ReadJoint(c, s.log, s.joints[k]);
    ReadJointFrame(c, s.log, s.joints[k]);
    if k < i {
      LaterPolls(c, AfterJointRead(s, k, r), k + 1, i);
    } else if !FailFast(r.status) {
      PollsElsewhere(c, AfterJointRead(s, k, r), k + 1, s.joints[i].cfg);
    }
  }

  lemma SameAnswers(log: Log, log': Log, cfg: JointConfig, base: int)
    requires LeavesAxis(log, log', cfg) && 0 <= cfg.axis <= 1 && AxisBase(base)
    ensures Answer(log', cfg, base) == Answer(log, cfg, base)
  {
    var p := (op: Op) => !OnAxis(op, cfg.serial, cfg.axis);
    assert Extends(log, log', p);
    LastReadFrame(log, log', cfg.serial, AxisEndpoint(base, cfg.axis), p);
  }

  /** Joint i has valid telemetry after read() exactly from an accepted poll of this read(), and the error
      registers it shows are the words read last. */
  lemma ReadShowsWords(c: Context, s: Hw, i: nat)
    requires i < |s.joints| && s.up && DistinctAxes(s) && ReadSpec(c, s).joints[i].core.telemetryValid
    ensures ExportsErrors(ReadSpec(c, s).log, s.joints[i].cfg, ReadSpec(c, s).joints[i].core.errs)
  {
    hide ReadSensors, ReadDrives, ReadJoints, ReadJoint, ReadAsInt32, Answer;
    ReadSpecJoint(c, s, i);
    var j := s.joints[i].(core := s.joints[i].core.(healthy := false));
    var turn := ReadTurn(c, s, i);
    assert turn.Some? && ReadSpec(c, s).joints[i] == ReadJoint(c, turn.value, j).joint;
    PollMeaning(c, turn.value, j);
    ReadOnward(c, s, i);
    var mid, end := ReadJoint(c, turn.value, j).log, ReadSpec(c, s).log;
    SameAnswers(mid, end, j.cfg, AXIS_ERROR);
    SameAnswers(mid, end, j.cfg, MOTOR_ERROR);
    SameAnswers(mid, end, j.cfg, ENCODER_ERROR);
    SameAnswers(mid, end, j.cfg, CONTROLLER_ERROR);
  }

  lemma ReadOnward(c: Context, s: Hw, i: nat)
    requires i < |s.joints| && s.up && DistinctAxes(s) && ReadTurn(c, s, i).Some?
    ensures var j := s.joints[i].(core := s.joints[i].core.(healthy := false));
            LeavesAxis(ReadJoint(c, ReadTurn(c, s, i).value, j).log, ReadSpec(c, s).log, j.cfg)
  {
    hide ReadSensors, ReadDrives, ReadJoints, ReadJoint, Elsewhere;
    var d := DefaultUnhealthy(s);
    ReadSensorsFrame(c, d, 0);
    var p := ReadSensors(c, d, 0);
    ReadDrivesFrame(c, p.s, 0);
    var q := ReadDrives(c, p.s, 0);
    assert q.s.joints == d.joints;
    LaterPolls(c, q.s, 0, i);
  }

  // ---- write() ----

  lemma {:induction false} BlockWithin(c: Context, s: Hw, dt: real, k: nat, i: nat)
    requires k <= i < |s.joints| && WriteTurn(c, s, dt, k, i).Some?
    ensures var block := WriteJoint(c, WriteTurn(c, s, dt, k, i).value, dt, s.joints[i]).log;
            Extends(block, WriteJoints(c, s, dt, k).s.log, Anything)
    decreases i - k
  {
    hide WriteJoint, Counted;
    var r := WriteJoint(c, s.log, dt, s.joints[k]);
    if !r.stop {
      var t := AfterJointWrite(s, k, dt, r);
      if k < i {
        BlockWithin(c, t, dt, k + 1, i);
      } else {
        WriteJointsOwner(c, t, dt, k + 1, 0);
      }
    }
  }

  lemma TurnElsewhere(c: Context, log: Log, dt: real, j: Joint, cfg: JointConfig, n: nat)
    requires OtherAxis(j.cfg, cfg) && |log| <= n < |WriteJoint(c, log, dt, j).log|
    ensures !Drives(WriteJoint(c, log, dt, j).log[n].op, cfg)
  {
    hide DoAll, CommandOps, JointShape, HasFault, Stale, Oriented, WriteJoint, Drives;
    WriteBlock(c, log, dt, j);
    OwnOps(j.cfg, j.level, Oriented(j.cfg, JointShape(j, dt).cmd), cfg);
    DoAllIssued(c.env, log, SentOps(j, dt));
  }

  lemma OwnOps(a: JointConfig, level: Level, t: Triple, b: JointConfig)
    requires OtherAxis(a, b)
    ensures forall n | 0 <= n < |CommandOps(a, level, t)| :: !Drives(CommandOps(a, level, t)[n], b)
    ensures !Drives(IdleOp(a), b)
  {
    hide Saturate, RadiansToTurns;
  }

  /** What a write() puts on the axis of a joint it reaches is what the turn of this joint puts there. */
  lemma WriteDrives(c: Context, s: Hw, period: Num, i: nat)
    requires i < |s.joints| && DistinctAxes(s) && Turn(c, s, period, i).Some?
    ensures var turn := Turn(c, s, period, i).value;
            var cfg := s.joints[i].cfg;
            DrivesIn(WriteSpec(c, s, period).log, |s.log|, cfg) <==>
              DrivesIn(WriteJoint(c, turn, EffectiveDt(period), s.joints[i]).log, |turn|, cfg)
  {
    hide WriteSpec, WriteJoint, Drives, WriteTurn;
    var dt, cfg, v := EffectiveDt(period), s.joints[i].cfg, WriteSpec(c, s, period).log;
    var turn := Turn(c, s, period, i).value;
    var block := WriteJoint(c, turn, dt, s.joints[i]).log;
    WriteSpecOwner(c, s, period, 0);
    assert |s.log| <= |turn| && Extends(block, v, Anything) by { TurnBounds(c, s, period, i); }
    if DrivesIn(v, |s.log|, cfg) {
      var n :| |s.log| <= n < |v| && Drives(v[n].op, cfg);
      WriteSpecOwner(c, s, period, n);
      var m: nat :| m < |s.joints| && Owns(c, Turn(c, s, period, m), dt, s.joints[m], v, n);
      var own := WriteJoint(c, Turn(c, s, period, m).value, dt, s.joints[m]).log;
      assert v[n] == own[n] by { assert v[..|own|][n] == v[n]; }
      if m != i {
        TurnElsewhere(c, Turn(c, s, period, m).value, dt, s.joints[m], cfg, n);
      }
    }
    if DrivesIn(block, |turn|, cfg) {
      var n :| |turn| <= n < |block| && Drives(block[n].op, cfg);
      assert v[n] == block[n] by { assert v[..|block|][n] == v[n]; }
    }
  }

  lemma TurnBounds(c: Context, s: Hw, period: Num, i: nat)
    requires i < |s.joints| && Turn(c, s, period, i).Some?
    ensures var turn := Turn(c, s, period, i).value;
            && |s.log| <= |turn|
            && Extends(WriteJoint(c, turn, EffectiveDt(period), s.joints[i]).log, WriteSpec(c, s, period).log, Anything)
  {
    hide WriteJoint;
    BlockWithin(c, s, EffectiveDt(period), 0, i);
    TurnLater(c, s, EffectiveDt(period), 0, i);
  }

  lemma {:induction false} TurnLater(c: Context, s: Hw, dt: real, k: nat, i: nat)
    requires k <= i < |s.joints| && WriteTurn(c, s, dt, k, i).Some?
    ensures |s.log| <= |WriteTurn(c, s, dt, k, i).value|
    decreases i - k
  {
    hide WriteJoint, Counted;
    if k < i {
      var r := WriteJoint(c, s.log, dt, s.joints[k]);
      WriteJointExtends(c, s.log, dt, s.joints[k]);
      TurnLater(c, AfterJointWrite(s, k, dt, r), dt, k + 1, i);
    }
  }

  /** Only the commands, levels and sequence numbers differ. */
  ghost predicate Recommanded(s: Hw, t: Hw) {
    && t == s.(joints := t.joints) && |t.joints| == |s.joints|
    && forall i | 0 <= i < |s.joints| ::
         t.joints[i] == s.joints[i].(cmd := t.joints[i].cmd, seqNo := t.joints[i].seqNo, level := t.joints[i].level)
  }

  /** A read() that leaves joint i with valid telemetry, any new commands and levels, and a write() that
      reaches the joint: the write() puts a setpoint or a feed on its axis exactly if the joint has a level
      and a new command and, where faults are masked, none of the four error words read last is a fault. */
  lemma ReadThenWrite(c: Context, s: Hw, u: Hw, period: Num, i: nat)
    requires i < |s.joints| && s.up && DistinctAxes(s)
    requires ReadSpec(c, s).joints[i].core.telemetryValid && Recommanded(ReadSpec(c, s), u)
    requires Turn(c, u, period, i).Some?
    ensures var j := u.joints[i];
            DrivesIn(WriteSpec(c, u, period).log, |u.log|, j.cfg) <==>
              && j.level != UNDEFINED && NewCommand(c.safety, j)
              && !(c.safety.maskFaulted && FaultRead(u.log, j.cfg))
  {
    hide ReadSpec, WriteSpec, WriteJoint, DrivesIn, ExportsErrors, Faulty, FaultRead, NewCommand, WriteTurn;
    ReadConfig(c, s);
    ReadShowsWords(c, s, i);
    var j := u.joints[i];
    FaultExactly(u.log, j.cfg, j.core.errs);
    assert DistinctAxes(u);
    WriteDrives(c, u, period, i);
    TurnExactly(c, Turn(c, u, period, i).value, EffectiveDt(period), j);
  }
}
