/** The synchronous hardware interface as the class it is: every method updates the fields in place
    and leaves them as the function of module Cycle says. */
module Interface {
  import opened Numeric
  import opened Transport
  import opened Joints
  import opened Axis
  import opened Cycle
  import opened Runs
  import opened Discipline
  import opened Setpoints
  import Claims
  import Frozen
  import Keys
  import Lifecycle
  import Masking
  import Turns

  class ODriveHardwareInterface {
    const bus: Bus
    const safety: Safety

    var joints: seq<Joint>
    var sensors: seq<Sensor>
    var drives: seq<Drive>
    var connected: bool  // transport_ != nullptr
    var outputsEnabled: bool
    var stats: Stats

    function Ctx(): Context { Context(bus.env, safety) }

    function View(): Hw
      reads this, bus
    {
      Hw(joints, sensors, drives, connected, outputsEnabled, stats, bus.log)
    }

    constructor (bus: Bus, safety: Safety, cfgs: seq<JointConfig>, sensorSerials: seq<int>)
      ensures this.bus == bus && this.safety == safety
      ensures |joints| == |cfgs| && forall i | 0 <= i < |cfgs| :: joints[i] == Configured(cfgs[i])
      ensures |sensors| == |sensorSerials|
      ensures forall i | 0 <= i < |sensors| :: sensors[i] == Sensor(sensorSerials[i], NaN, NaN)
      ensures drives == DrivesOf(cfgs)
      ensures !connected && !outputsEnabled && stats == Stats(0, 0, 0, 0)
    {
      this.bus := bus;
      this.safety := safety;
      joints := seq(|cfgs|, i requires 0 <= i < |cfgs| => Configured(cfgs[i]));
      sensors := seq(|sensorSerials|, i requires 0 <= i < |sensorSerials| => Sensor(sensorSerials[i], NaN, NaN));
      drives := DrivesOf(cfgs);
      connected := false;
      outputsEnabled := false;
      stats := Stats(0, 0, 0, 0);
    }

    // ---- read() ----

    /** hold_joint_state; a reference parameter is an argument and a result. */
    static method HoldState(core: Core) returns (held: Core)
      ensures held == Hold(core)
    {
      held := core;
      if !held.lastValidPos.Fin? {
        held := held.(lastValidPos := ZERO);
      }
      held := held.(kin := Triple(held.lastValidPos, ZERO, ZERO));
    }

    method MarkAllUnhealthyAndHold(status: int)
      modifies this`joints, this`sensors, this`drives
      ensures View() == FailAll(old(View()), status)
    {
      for i := 0 to |joints|
        invariant |joints| == |old(joints)| && unchanged(`drives, `sensors)
        invariant forall k | 0 <= k < i :: joints[k] == FailJoint(old(joints)[k], status)
        invariant forall k | i <= k < |joints| :: joints[k] == old(joints)[k]
      {
        var core := joints[i].core.(readError := status, healthy := false, telemetryValid := false);
        core := HoldState(core);
        joints := joints[i := joints[i].(core := core)];
      }
      assert joints == FailAll(old(View()), status).joints;
      for i := 0 to |drives|
        invariant |drives| == |old(drives)| && unchanged(`sensors)
        invariant joints == FailAll(old(View()), status).joints
        invariant forall k | 0 <= k < i :: drives[k] == Drive(old(drives)[k].serial, 0, status)
        invariant forall k | i <= k < |drives| :: drives[k] == old(drives)[k]
      {
        drives := drives[i := drives[i].(canError := 0, readError := status)];
      }
      assert drives == FailAll(old(View()), status).drives;
      for i := 0 to |sensors|
        invariant |sensors| == |old(sensors)|
        invariant joints == FailAll(old(View()), status).joints && drives == FailAll(old(View()), status).drives
        invariant forall k | 0 <= k < i :: sensors[k] == Sensor(old(sensors)[k].serial, NaN, Fin(status as real))
        invariant forall k | i <= k < |sensors| :: sensors[k] == old(sensors)[k]
      {
        sensors := sensors[i := sensors[i].(vbus := NaN, transportError := Fin(status as real))];
      }
      assert sensors == FailAll(old(View()), status).sensors;
    }

    method BlankSensors()
      modifies this`sensors
      ensures |sensors| == |old(sensors)|
      ensures forall k | 0 <= k < |sensors| :: sensors[k] == Sensor(old(sensors)[k].serial, NaN, NaN)
    {
      for i := 0 to |sensors|
        invariant |sensors| == |old(sensors)|
        invariant forall k | 0 <= k < i :: sensors[k] == Sensor(old(sensors)[k].serial, NaN, NaN)
        invariant forall k | i <= k < |sensors| :: sensors[k] == old(sensors)[k]
      {
        sensors := sensors[i := sensors[i].(vbus := NaN, transportError := NaN)];
      }
    }

    method ReadWithoutTransport()
      modifies this`joints, this`sensors
      ensures View() == DropAll(old(View()))
    {
      for i := 0 to |joints|
        invariant |joints| == |old(joints)| && unchanged(`sensors)
        invariant forall k | 0 <= k < i :: joints[k] == DropJoint(old(joints)[k])
        invariant forall k | i <= k < |joints| :: joints[k] == old(joints)[k]
      {
        var core := joints[i].core.(healthy := false, telemetryValid := false);
        core := HoldState(core);
        joints := joints[i := joints[i].(core := core)];
      }
      assert joints == DropAll(old(View())).joints;
      BlankSensors();
      assert sensors == DropAll(old(View())).sensors;
    }

    method PollSensors() returns (stopped: bool)
      modifies this`joints, this`sensors, this`drives, bus
      ensures Phase(View(), stopped) == ReadSensors(Ctx(), old(View()), 0)
    {
      var i := 0;
      while i < |sensors|
        invariant i <= |sensors|
        invariant ReadSensors(Ctx(), View(), i) == ReadSensors(Ctx(), old(View()), 0)
      {
        var r := bus.Perform(Read(sensors[i].serial, VBUS_VOLTAGE));
        if r.status != 0 {
          sensors := sensors[i := sensors[i].(vbus := NaN, transportError := Fin(r.status as real))];
          if FailFast(r.status) {
            MarkAllUnhealthyAndHold(r.status);
            return true;
          }
        } else {
          sensors := sensors[i := sensors[i].(vbus := r.num, transportError := ZERO)];
        }
        i := i + 1;
      }
      stopped := false;
    }

    method PollDrives() returns (stopped: bool)
      modifies this`joints, this`sensors, this`drives, bus
      ensures Phase(View(), stopped) == ReadDrives(Ctx(), old(View()), 0)
    {
      var i := 0;
      while i < |drives|
        invariant i <= |drives|
        invariant ReadDrives(Ctx(), View(), i) == ReadDrives(Ctx(), old(View()), 0)
      {
        var r := bus.Perform(Read(drives[i].serial, CAN_ERROR));
        if r.status != 0 {
          drives := drives[i := drives[i].(readError := r.status, canError := 0)];
          if FailFast(r.status) {
            MarkAllUnhealthyAndHold(r.status);
            return true;
          }
        } else {
          drives := drives[i := drives[i].(readError := 0, canError := ToUint32(r.word))];
        }
        i := i + 1;
      }
      stopped := false;
    }

    method SetSensorError(serial: int, status: int)
      modifies this`sensors
      ensures sensors == MarkSensor(old(sensors), serial, status)
    {
      var i := FindSensor(sensors, serial);
      if i < |sensors| {
        sensors := sensors[i := sensors[i].(transportError := Fin(status as real))];
      }
    }

    static method ValidateFeedback(cfg: JointConfig, lastValidPos: Num, sample: Sample) returns (valid: bool)
      ensures valid <==> FeedbackValid(cfg, lastValidPos, sample)
    {
      hide Less, Abs, Sub;
      var limits := cfg.feedback;
      valid := true;
      if !AllFinite(sample.kin) {
        valid := false;
      }
      if valid && limits.maxVelocity.Some? && Less(limits.maxVelocity.value, Abs(sample.kin.vel)) {
        valid := false;
      }
      if valid && limits.maxEffort.Some? && Less(limits.maxEffort.value, Abs(sample.kin.eff)) {
        valid := false;
      }
      if valid && lastValidPos.Fin? && limits.maxJump.Some? {
        var jump := Abs(Sub(sample.kin.pos, lastValidPos));
        if Less(limits.maxJump.value, jump) {
          valid := false;
        }
      }
    }

    /** Health and acceptance of a sample that passed the feedback checks. */
    static method AcceptSample(joint: Joint, sample: Sample) returns (core: Core)
      requires FeedbackValid(joint.cfg, joint.core.lastValidPos, sample)
      ensures core == Absorb(joint.cfg, joint.core, sample)
    {
      hide FeedbackValid, Signed, AllClear;
      core := joint.core;
      var errorsClear := AllClear(sample.errs);
      core := core.(healthy := errorsClear);
      if errorsClear {
        core := core.(kin := Signed(joint.cfg.invert, sample.kin));
      } else {
        core := HoldState(core);
      }
      core := core.(errs := sample.errs, fetTemp := sample.fetTemp, motorTemp := sample.motorTemp,
                    readError := 0, telemetryValid := true);
      if errorsClear {
        core := core.(lastValidPos := core.kin.pos, lastValidVel := core.kin.vel);
      }
    }

    /** The body of the joint loop of read(). */
    method PollJoint(i: nat) returns (status: int)
      requires i < |joints|
      modifies this`joints, this`sensors, this`drives, bus
      ensures var r := ReadJoint(Ctx(), old(bus.log), old(joints)[i]);
              && status == r.status
              && View() == if FailFast(status) then FailAll(old(View()).(log := r.log), status)
                           else AfterJointRead(old(View()), i, r)
    {
      hide DoAll, FeedbackValid, SampleOf, TelemetryOps, MarkSensor, FailAll;
      var j := joints[i];
      var sample;
      status, sample := ReadAxisTelemetry(bus, j.cfg, j.torque);
      if status != 0 {
        if FailFast(status) {
          MarkAllUnhealthyAndHold(status);
          return;
        }
        SetSensorError(j.cfg.serial, status);
        var core := j.core.(readError := status, telemetryValid := false, healthy := false);
        core := HoldState(core);
        joints := joints[i := j.(core := core)];
        return;
      }
      var feedbackValid := ValidateFeedback(j.cfg, j.core.lastValidPos, sample);
      if !feedbackValid {
        var core := j.core.(readError := -1, telemetryValid := false, healthy := false);
        core := HoldState(core);
        joints := joints[i := j.(core := core)];
        return;
      }
      var core := AcceptSample(j, sample);
      joints := joints[i := j.(core := core)];
      SetSensorError(j.cfg.serial, 0);
    }

    method PollJoints() returns (stopped: bool)
      modifies this`joints, this`sensors, this`drives, bus
      ensures Phase(View(), stopped) == ReadJoints(Ctx(), old(View()), 0)
    {
      var i := 0;
      while i < |joints|
        invariant i <= |joints|
        invariant ReadJoints(Ctx(), View(), i) == ReadJoints(Ctx(), old(View()), 0)
      {
        var status := PollJoint(i);
        if FailFast(status) {
          return true;
        }
        i := i + 1;
      }
      stopped := false;
    }

    method ReadAll()
      modifies this, bus
      ensures View() == ReadSpec(Ctx(), old(View()))
    {
      if !connected {
        ReadWithoutTransport();
        return;
      }
      for i := 0 to |joints|
        invariant |joints| == |old(joints)|
        invariant forall k | 0 <= k < i :: joints[k] == old(joints)[k].(core := old(joints)[k].core.(healthy := false))
        invariant forall k | i <= k < |joints| :: joints[k] == old(joints)[k]
        invariant unchanged(`sensors, `drives, `connected, `outputsEnabled, `stats, bus)
      {
        joints := joints[i := joints[i].(core := joints[i].core.(healthy := false))];
      }
      assert View() == DefaultUnhealthy(old(View()));
      var stopped := PollSensors();
      if stopped {
        return;
      }
      stopped := PollDrives();
      if stopped {
        return;
      }
      stopped := PollJoints();
      if stopped {
        return;
      }
      stats := stats.(readCycles := stats.readCycles + 1);
    }

    /** read(): a settled joint ends where its sample was accepted, or where it stood; its health says
        what was read. */
    method ReadCycle()
      modifies this, bus
      ensures View() == ReadSpec(Ctx(), old(View()))
      ensures forall i: nat | i < |joints| && Frozen.Settled(old(joints)[i].core) ::
                Frozen.PollOutcome(old(joints)[i].core, joints[i].core, Frozen.Accepted(Ctx(), old(View()), i))
    {
      hide ReadSpec, Frozen.PollOutcome, Frozen.Accepted, Frozen.Settled;
      ghost var before := View();
      ReadAll();
      forall i: nat | i < |joints| && Frozen.Settled(before.joints[i].core)
        ensures Frozen.PollOutcome(before.joints[i].core, joints[i].core, Frozen.Accepted(Ctx(), before, i))
      {
        Frozen.ReadSettles(Ctx(), before, i);
      }
    }

    // ---- write() ----

    /** Rate limiting of the command fields, channel by channel. */
    method LimitCommand(joint: Joint, dt: real) returns (cmd: Triple, pos: bool, vel: bool, eff: bool)
      modifies this`stats
      ensures Limit(joint.cfg.limits, joint.level, joint.cmd, joint.core.lastCmd, dt) == Limits(cmd, pos, vel, eff)
      ensures stats == old(stats).(rateLimits := old(stats).rateLimits +
                (if pos then 1 else 0) + (if vel then 1 else 0) + (if eff then 1 else 0))
    {
      hide RateLimited, RateExceeded;
      var last, limits := joint.core.lastCmd, joint.cfg.limits;
      cmd := joint.cmd;
      pos, vel, eff := false, false, false;
      if joint.level == POSITION {
        var limited, ok := ApplyRateLimiting(cmd.pos, last.pos, limits.posRate, dt);
        cmd := cmd.(pos := limited);
        if !ok {
          pos := true;
          stats := stats.(rateLimits := stats.rateLimits + 1);
        }
      }
      if joint.level == POSITION || joint.level == VELOCITY {
        var limited, ok := ApplyRateLimiting(cmd.vel, last.vel, limits.velRate, dt);
        cmd := cmd.(vel := limited);
        if !ok {
          vel := true;
          stats := stats.(rateLimits := stats.rateLimits + 1);
        }
      }
      var limited, ok := ApplyRateLimiting(cmd.eff, last.eff, limits.effRate, dt);
      cmd := cmd.(eff := limited);
      if !ok {
        eff := true;
        stats := stats.(rateLimits := stats.rateLimits + 1);
      }
    }

    /** Limiting, validation and fallback overwrite the command fields themselves. */
    method ShapeCommand(joint: Joint, dt: real) returns (j: Joint)
      modifies this`stats
      ensures j == ShapedJoint(joint, dt)
      ensures stats == Counted(joint, dt, old(stats))
    {
      hide Limit, ValidComponent;
      var cmd, pos, vel, eff := LimitCommand(joint, dt);
      var valid := ValidateJointCommand(joint.cfg.limits, joint.level, cmd);
      if !valid && joint.level != UNDEFINED {
        stats := stats.(rejections := stats.rejections + 1);
        var kin := joint.core.kin;
        cmd := cmd.(pos := if kin.pos.Fin? then kin.pos else ZERO);
        cmd := cmd.(vel := if kin.vel.Fin? then kin.vel else ZERO);
        cmd := cmd.(eff := ZERO);
      }
      j := joint.(cmd := cmd, core := joint.core.(posLimited := pos, velLimited := vel, effLimited := eff));
    }

    /** Fault masking; true when the transport was dropped. */
    method MaskFaulted(joint: Joint) returns (j: Joint, stop: bool)
      modifies bus
      ensures var r := MaskJoint(Ctx(), old(bus.log), joint);
              j == r.joint && stop == r.stop && bus.log == r.log
    {
      j := joint.(core := joint.core.(faulted := true));
      stop := false;
      if safety.idleOnFault && !j.core.idleRequested {
        var r := bus.Perform(IdleOp(j.cfg));
        if r.status != 0 {
          j := j.(core := j.core.(writeError := r.status));
          stop := FailFast(r.status);
        } else {
          j := j.(core := j.core.(idleRequested := true));
        }
      }
    }

    static method ClearFaultFlags(joint: Joint) returns (j: Joint)
      ensures j == Unfaulted(joint)
    {
      j := joint;
      if j.core.faulted {
        j := j.(core := j.core.(faulted := false));
      }
      if j.core.idleRequested {
        j := j.(core := j.core.(idleRequested := false));
      }
    }

    /** Freshness gate, inversion and setpoint write of an unmasked joint. */
    method SendSetpoints(joint: Joint) returns (j: Joint, stop: bool)
      modifies bus
      ensures var r := SendJoint(Ctx(), old(bus.log), joint);
              j == r.joint && stop == r.stop && bus.log == r.log
    {
      hide AfterSend, CommandOps, Negated, DoAll;
      j := ClearFaultFlags(joint);
      if safety.gateStale {
        if !joint.seqNo.Fin? || Same(joint.seqNo, joint.core.lastSeq) {
          return j.(core := j.core.(writeError := 0)), false;
        }
      }
      if j.cfg.invert {
        j := j.(cmd := Negated(j.cmd));
      }
      var status := WriteAxisCommand(bus, j.cfg, j.level, j.cmd);
      j, stop := RecordOutcome(j, status);
    }

    method RecordOutcome(joint: Joint, status: int) returns (j: Joint, stop: bool)
      ensures var r := AfterSend(Ctx(), joint, (status, bus.log)); j == r.joint && stop == r.stop && bus.log == r.log
    {
      hide FailFast;
      j := joint;
      if status != 0 {
        return j.(core := j.core.(writeError := status)), FailFast(status);
      }
      var core := j.core.(writeError := 0);
      if safety.gateStale {
        core := core.(lastSeq := j.seqNo);
      }
      core := core.(lastCmd := j.cmd);
      j := j.(core := core);
      stop := false;
    }

    /** The body of the joint loop of write(); true when the transport was dropped. The axis is driven exactly
        if the joint has a level and a new command, and none of its four error registers is masked. */
    method WriteOne(i: nat, dt: real) returns (stop: bool)
      requires i < |joints|
      modifies this`joints, this`stats, this`connected, bus
      ensures var r := WriteJoint(Ctx(), old(bus.log), dt, old(joints)[i]);
              && stop == r.stop
              && View() == var t := AfterJointWrite(old(View()), i, dt, r); if stop then t.(up := false) else t
      ensures var j := old(joints)[i];
              0 <= j.cfg.axis <= 1 ==>
                (Masking.DrivesIn(bus.log, |old(bus.log)|, j.cfg) <==>
                   j.level != UNDEFINED && Masking.NewCommand(safety, j) && !Turns.MaskedBy(Ctx(), j.core.errs))
    {
      hide WriteJoint, Counted, Masking.DrivesIn, Masking.NewCommand, Turns.MaskedBy;
      ghost var before, j := bus.log, joints[i];
      stop := TakeTurn(i, dt);
      if 0 <= j.cfg.axis <= 1 {
        Masking.TurnExactly(Ctx(), before, dt, j);
        Turns.FaultMeaning(Ctx(), j.core.errs);
      }
    }

    method TakeTurn(i: nat, dt: real) returns (stop: bool)
      requires i < |joints|
      modifies this`joints, this`stats, this`connected, bus
      ensures var r := WriteJoint(Ctx(), old(bus.log), dt, old(joints)[i]);
              && stop == r.stop
              && View() == var t := AfterJointWrite(old(View()), i, dt, r); if stop then t.(up := false) else t
    {
      var j := ShapeCommand(joints[i], dt);
      if HasFault(safety, joints[i].core.errs) {
        j, stop := MaskFaulted(j);
      } else {
        j, stop := SendSetpoints(j);
      }
      joints := joints[i := j];
      if stop {
        connected := false;
      }
    }

    method WriteAll(period: Num)
      modifies this, bus
      ensures View() == WriteSpec(Ctx(), old(View()), period)
    {
      hide WriteJoint, AfterJointWrite;
      var dt := EffectiveDt(period);
      if !connected {
        return;
      }
      var lifecycleOk := !safety.gateOutputs || outputsEnabled;
      if !lifecycleOk {
        return;
      }
      var i := 0;
      while i < |joints|
        invariant i <= |joints|
        invariant WriteJoints(Ctx(), View(), dt, i) == WriteJoints(Ctx(), old(View()), dt, 0)
      {
        var stop := WriteOne(i, dt);
        if stop {
          return;
        }
        i := i + 1;
      }
      stats := stats.(writeCycles := stats.writeCycles + 1);
    }

    /** write(): everything sent is safe, and every watchdog feed is earned. */
    method WriteCycle(period: Num)
      modifies this, bus
      ensures View() == WriteSpec(Ctx(), old(View()), period)
      ensures old(bus.log) <= bus.log
      ensures forall k: nat | |old(bus.log)| <= k < |bus.log| :: SafeEvent(old(View()), bus.log, k)
      ensures DistinctAxes(old(View())) ==>
                forall k: nat | |old(bus.log)| <= k < |bus.log| && IsFeed(bus.log[k].op) ::
                  exists i: nat :: EarnedFeed(Ctx(), old(View()), period, i, bus.log, k)
    {
      hide WriteSpec, SafeEvent, EarnedFeed, IsFeed, DistinctAxes;
      ghost var before := View();
      WriteAll(period);
      WriteSpecOwner(Ctx(), before, period, 0);
      forall k: nat | |before.log| <= k < |bus.log| ensures SafeEvent(before, bus.log, k) {
        WriteIsSafe(Ctx(), before, period, k);
      }
      if DistinctAxes(before) {
        forall k: nat | |before.log| <= k < |bus.log| && IsFeed(bus.log[k].op)
          ensures exists i: nat :: EarnedFeed(Ctx(), before, period, i, bus.log, k)
        {
          WriteFeed(Ctx(), before, period, k);
        }
      }
    }

    // ---- mode switch ----

    /** Every joint named by a stopped interface falls back to UNDEFINED. */
    method StopNamed(stops: seq<string>)
      modifies this`joints
      ensures SameButLevels(old(joints), joints)
      ensures forall i: nat | i < |joints| ::
                joints[i].level == if Mentioned(old(joints), stops, i) then UNDEFINED else old(joints)[i].level
    {
      hide FindJoint, SplitKey;
      ghost var before := joints;
      for k := 0 to |stops|
        invariant SameButLevels(before, joints)
        invariant forall i: nat | i < |joints| ::
                    joints[i].level == if Mentioned(before, stops[..k], i) then UNDEFINED else before[i].level
      {
        var index := FindJoint(joints, SplitKey(stops[k]).0);
        SameNames(before, joints, SplitKey(stops[k]).0);
        MentionedNext(before, stops, k);
        if index < |joints| {
          joints := joints[index := joints[index].(level := UNDEFINED)];
        }
      }
      assert stops[..|stops|] == stops;
    }

    /** The joints named by a started interface, by interface. */
    method CollectStarts(starts: seq<string>) returns (pos: set<nat>, vel: set<nat>, eff: set<nat>)
      ensures forall i: nat | i < |joints| ::
                && (i in pos <==> Requested(joints, starts, i, "position"))
                && (i in vel <==> Requested(joints, starts, i, "velocity"))
                && (i in eff <==> Requested(joints, starts, i, "effort"))
    {
      hide FindJoint, SplitKey;
      pos, vel, eff := {}, {}, {};
      for k := 0 to |starts|
        invariant forall i: nat | i < |joints| ::
                    && (i in pos <==> Requested(joints, starts[..k], i, "position"))
                    && (i in vel <==> Requested(joints, starts[..k], i, "velocity"))
                    && (i in eff <==> Requested(joints, starts[..k], i, "effort"))
      {
        var (name, iface) := SplitKey(starts[k]);
        var index := FindJoint(joints, name);
        RequestedNext(joints, starts, k);
        if index < |joints| {
          if iface == "position" {
            pos := pos + {index};
          } else if iface == "velocity" {
            vel := vel + {index};
          } else if iface == "effort" {
            eff := eff + {index};
          }
        }
      }
      assert starts[..|starts|] == starts;
    }

    method StartNamed(pos: set<nat>, vel: set<nat>, eff: set<nat>)
      modifies this`joints
      ensures SameButLevels(old(joints), joints)
      ensures forall i: nat | i < |joints| ::
                joints[i].level == if i in pos then POSITION else if i in vel then VELOCITY
                                   else if i in eff then EFFORT else old(joints)[i].level
    {
      ghost var before := joints;
      for i := 0 to |joints|
        invariant SameButLevels(before, joints)
        invariant forall k: nat | k < i ::
                    joints[k].level == if k in pos then POSITION else if k in vel then VELOCITY
                                       else if k in eff then EFFORT else before[k].level
        invariant forall k: nat | i <= k < |joints| :: joints[k] == before[k]
      {
        if i in pos {
          joints := joints[i := joints[i].(level := POSITION)];
        } else if i in vel {
          joints := joints[i := joints[i].(level := VELOCITY)];
        } else if i in eff {
          joints := joints[i := joints[i].(level := EFFORT)];
        }
      }
    }

    /** prepare_command_mode_switch: every joint gets the level its name asks for. */
    method PrepareCommandModeSwitch(starts: seq<string>, stops: seq<string>)
      modifies this`joints
      ensures View() == PrepareSpec(old(View()), starts, stops)
      ensures Keys.DistinctNames(old(joints)) ==>
                forall i: nat | i < |joints| ::
                  joints[i].level == Keys.LevelFor(old(joints)[i].cfg.name, old(joints)[i].level, starts, stops)
    {
      hide PreparedLevel, Keys.LevelFor, Keys.DistinctNames;
      ghost var before := View();
      PrepareLevels(starts, stops);
      if Keys.DistinctNames(before.joints) {
        forall i: nat | i < |joints|
          ensures joints[i].level == Keys.LevelFor(before.joints[i].cfg.name, before.joints[i].level, starts, stops)
        {
          Keys.PrepareMeaning(before, starts, stops, i);
        }
      }
    }

    method PrepareLevels(starts: seq<string>, stops: seq<string>)
      modifies this`joints
      ensures View() == PrepareSpec(old(View()), starts, stops)
    {
      hide Mentioned, Requested;
      ghost var before := joints;
      StopNamed(stops);
      ghost var stopped := joints;
      var pos, vel, eff := CollectStarts(starts);
      forall i: nat, iface ensures Requested(stopped, starts, i, iface) == Requested(before, starts, i, iface) {
        SameRequests(before, stopped, starts, i, iface);
      }
      StartNamed(pos, vel, eff);
      assert joints == PrepareSpec(old(View()), starts, stops).joints;
    }

    /** The claim of a joint: what it arms, reads and clears on the axis, and the axis error it exports. */
    method ClaimTransition(joint: Joint) returns (j: Joint, status: int)
      modifies bus
      ensures JointSwitch(j, bus.log, status) == ClaimJoint(Ctx(), old(bus.log), joint)
      ensures Turns.KnowsError(old(bus.log), bus.log, joint.cfg) ==>
                var n := Turns.ErrorRead(old(bus.log), joint.cfg);
                && j.core.errs.axis == Turns.ClaimedError(bus.log, n)
                && Turns.Issues(old(bus.log), bus.log,
                                Turns.Arming(joint.cfg) + [Turns.Get(joint.cfg, AXIS_ERROR)] +
                                Turns.Clearing(joint.cfg, bus.log[n].reply.word), status)
    {
      hide ClaimJoint, Turns.Issues, Turns.Arming, Turns.ClaimedError, Turns.Clearing, Turns.Get;
      ghost var before := bus.log;
      j, status := ArmAndClear(joint);
      Turns.ClaimMeaning(Ctx(), before, joint);
    }

    method ArmAndClear(joint: Joint) returns (j: Joint, status: int)
      modifies bus
      ensures JointSwitch(j, bus.log, status) == ClaimJoint(Ctx(), old(bus.log), joint)
    {
      j := joint;
      ghost var ops, start := ArmOps(j.cfg), bus.log;
      assert ops[0..] == ops;
      if j.cfg.watchdog {
        var r := Issue(bus, WriteOp(j.cfg, ENABLE_WATCHDOG, Flag(true)), ops, start, 0);
        if r.status != 0 {
          return j.(core := j.core.(writeError := r.status)), r.status;
        }
        r := Issue(bus, FeedOp(j.cfg), ops, start, 1);
        if r.status != 0 {
          return j.(core := j.core.(writeError := r.status)), r.status;
        }
      }
      assert DoAll(bus.env, start, ops) == (0, bus.log);
      var r := bus.Perform(ReadOp(j.cfg, AXIS_ERROR));
      if r.status != 0 {
        return j.(core := j.core.(writeError := r.status)), r.status;
      }
      var word := ToUint32(r.word);
      j := j.(core := j.core.(errs := j.core.errs.(axis := Fin(word as real))));
      if word == WATCHDOG_EXPIRED {
        var q := bus.Perform(CallOp(j.cfg, CLEAR_ERRORS));
        if q.status != 0 {
          return j.(core := j.core.(writeError := q.status)), q.status;
        }
        j := j.(core := j.core.(errs := j.core.errs.(axis := ZERO)));
      }
      status := 0;
    }

    method ModeTransition(joint: Joint) returns (j: Joint, status: int)
      modifies bus
      ensures JointSwitch(j, bus.log, status) == EnterMode(Ctx(), old(bus.log), joint)
    {
      hide DoAll, SwitchOps, Primed;
      j := joint;
      if HasFault(safety, j.core.errs) {
        return j.(level := UNDEFINED, claimed := false), 0;
      }
      var primed;
      status, primed := PerformAxisModeSwitch(bus, j.cfg, j.level, j.cmd, j.core.kin);
      j := j.(cmd := primed);
      if status != 0 {
        return j.(core := j.core.(writeError := status)), status;
      }
      j := j.(core := j.core.(writeError := 0), claimed := j.level != UNDEFINED);
    }

    method SwitchOne(joint: Joint) returns (j: Joint, status: int)
      modifies bus
      ensures JointSwitch(j, bus.log, status) == SwitchJoint(Ctx(), old(bus.log), joint)
    {
      hide ClaimJoint, EnterMode;
      j := joint;
      var isClaimed := j.level != UNDEFINED;
      if isClaimed && !j.claimed {
        j, status := ClaimTransition(j);
        if status != 0 {
          return;
        }
      }
      if !isClaimed && joint.claimed {
        var idle := bus.Perform(IdleOp(j.cfg));
        var disable := bus.Perform(WriteOp(j.cfg, ENABLE_WATCHDOG, Flag(false)));
      }
      j, status := ModeTransition(j);
    }

    method SwitchAll() returns (status: int)
      modifies this`joints, bus
      ensures (View(), status) == SwitchSpec(Ctx(), old(View()))
    {
      hide SwitchJoint;
      if !connected {
        return 0;
      }
      var i := 0;
      while i < |joints|
        invariant i <= |joints|
        invariant SwitchJoints(Ctx(), View(), i) == SwitchJoints(Ctx(), old(View()), 0)
      {
        var j;
        j, status := SwitchOne(joints[i]);
        joints := joints[i := j];
        if status != 0 {
          return;
        }
        i := i + 1;
      }
      status := 0;
    }

    /** perform_command_mode_switch: claimed watchdogs stay armed exactly if no release fails in it, and
        after a success exactly the joints with a level are claimed. */
    method PerformCommandModeSwitch() returns (status: int)
      modifies this`joints, bus
      ensures (View(), status) == SwitchSpec(Ctx(), old(View()))
      ensures DistinctAxes(old(View())) && Claims.ClaimsArmed(old(View())) ==>
                && (Claims.ClaimsArmed(View()) <==> !Claims.ReleaseFailsIn(Ctx(), old(View())))
                && (status == 0 ==> Claims.ClaimsArmed(View()))
                && (status == 0 && connected ==>
                      forall i | 0 <= i < |joints| :: joints[i].claimed <==> joints[i].level != UNDEFINED)
    {
      hide SwitchSpec, DistinctAxes, Claims.ClaimsArmed, Claims.ReleaseFailsIn;
      ghost var before := View();
      status := SwitchAll();
      if DistinctAxes(before) && Claims.ClaimsArmed(before) {
        Claims.SwitchKeepsClaims(Ctx(), before);
        if connected && status == 0 {
          Claims.SwitchClaimsLevels(Ctx(), before);
        }
      }
    }

    // ---- lifecycle ----

    method InitializeJoint(joint: Joint) returns (j: Joint, status: int)
      modifies bus
      ensures JointSwitch(j, bus.log, status) == InitJoint(Ctx(), old(bus.log), joint)
    {
      hide Retry;
      j := joint;
      var r := bus.PerformWithRetry(ReadOp(j.cfg, TORQUE_CONSTANT), USB_RETRIES);
      if r.status != 0 {
        return j, r.status;
      }
      j := j.(torque := r.num);
      if j.cfg.watchdog {
        r := bus.PerformWithRetry(
          WriteOp(j.cfg, WATCHDOG_TIMEOUT, F32(j.cfg.watchdogTimeout)), USB_RETRIES);
        if r.status != 0 {
          return j, r.status;
        }
      }
      r := bus.PerformWithRetry(WriteOp(j.cfg, ENABLE_WATCHDOG, Flag(false)), USB_RETRIES);
      status := r.status;
    }

    /** initialize_transport: if it succeeds the watchdog of every joint is disarmed and configured, and its
        torque constant read. */
    method InitializeTransport(created: bool) returns (ok: bool)
      modifies this`joints, this`connected, bus
      ensures (View(), ok) == InitTransport(Ctx(), old(View()), created)
      ensures ok && DistinctAxes(old(View())) ==>
                connected && forall i | 0 <= i < |joints| :: Lifecycle.Initialized(bus.log, joints[i])
    {
      hide InitJoints, Lifecycle.Initialized;
      ghost var before := View();
      ok := ConnectTransport(created);
      if ok && DistinctAxes(before) {
        ghost var start := before.(up := true, log := Do(bus.env, before.log, Open));
        Lifecycle.InitsMeaning(Ctx(), start, 0);
        Lifecycle.InitsKeep(Ctx(), start, 0);
      }
    }

    method ConnectTransport(created: bool) returns (ok: bool)
      modifies this`joints, this`connected, bus
      ensures (View(), ok) == InitTransport(Ctx(), old(View()), created)
    {
      hide InitJoint;
      connected := created;
      if !created {
        return false;
      }
      var reply := bus.Perform(Open);
      if reply.status != 0 {
        connected := false;
        return false;
      }
      var i := 0;
      label Opened:
      while i < |joints|
        invariant i <= |joints|
        invariant InitJoints(Ctx(), View(), i) == InitJoints(Ctx(), old@Opened(View()), 0)
      {
        var j, status := InitializeJoint(joints[i]);
        joints := joints[i := j];
        if status != 0 {
          connected := false;
          return false;
        }
        i := i + 1;
      }
      ok := true;
    }

    method ClearFlags()
      modifies this`joints
      ensures View() == ClearedFlags(old(View()))
    {
      for i := 0 to |joints|
        invariant |joints| == |old(joints)|
        invariant forall k | 0 <= k < i :: joints[k] == ClearedFlags(old(View())).joints[k]
        invariant forall k | i <= k < |joints| :: joints[k] == old(joints)[k]
      {
        var core := joints[i].core.(faulted := false, idleRequested := false);
        joints := joints[i := joints[i].(claimed := false, core := core)];
      }
      assert joints == ClearedFlags(old(View())).joints;
    }

    method ClearAxisErrors() returns (status: int)
      modifies bus
      ensures (status, bus.log) == DoAll(bus.env, old(bus.log), ClearErrorsOps(joints))
    {
      hide DoAll, CallOp;
      ghost var ops, start := ClearErrorsOps(joints), bus.log;
      assert ops[0..] == ops;
      EmptyDoAll(bus.env, bus.log);
      for i := 0 to |joints|
        invariant DoAll(bus.env, start, ops) == DoAll(bus.env, bus.log, ops[i..])
        invariant i == |joints| ==> DoAll(bus.env, start, ops) == (0, bus.log)
      {
        var r := Issue(bus, CallOp(joints[i].cfg, CLEAR_ERRORS), ops, start, i);
        if r.status != 0 {
          return r.status;
        }
      }
      status := 0;
    }

    /** on_activate in synchronous mode. A failed connection leaves the component active. */
    method OnActivate(created: bool) returns (ok: bool)
      modifies this, bus
      ensures (View(), ok) == ActivateSpec(Ctx(), old(View()), created)
      ensures connected ==> forall i | 0 <= i < |joints| :: !joints[i].claimed
    {
      hide ActivateSpec;
      ghost var before := View();
      ok := ActivateAll(created);
      Claims.ActivateUnclaims(Ctx(), before, created);
    }

    method ActivateAll(created: bool) returns (ok: bool)
      modifies this, bus
      ensures (View(), ok) == ActivateSpec(Ctx(), old(View()), created)
    {
      hide InitTransport, ClearedFlags, DoAll, ClearErrorsOps;
      ok := InitializeTransport(created);
      if !ok {
        if safety.gateOutputs {
          outputsEnabled := false;
        }
        return true;
      }
      if safety.gateOutputs {
        outputsEnabled := true;
      }
      ClearFlags();
      var status := ClearAxisErrors();
      ok := status == 0;
    }

    method IdleAll() returns (status: int)
      modifies bus
      ensures (status, bus.log) == DoAll(bus.env, old(bus.log), IdleOps(joints))
    {
      hide DoAll, IdleOp;
      ghost var ops, start := IdleOps(joints), bus.log;
      assert ops[0..] == ops;
      EmptyDoAll(bus.env, bus.log);
      for i := 0 to |joints|
        invariant DoAll(bus.env, start, ops) == DoAll(bus.env, bus.log, ops[i..])
        invariant i == |joints| ==> DoAll(bus.env, start, ops) == (0, bus.log)
      {
        var r := Issue(bus, IdleOp(joints[i].cfg), ops, start, i);
        if r.status != 0 {
          return r.status;
        }
      }
      status := 0;
    }

    method OnDeactivate()
      modifies this, bus
      ensures View() == DeactivateSpec(Ctx(), old(View()))
    {
      hide DoAll, IdleOps;
      if safety.gateOutputs {
        outputsEnabled := false;
      }
      if !connected {
        return;
      }
      var status := IdleAll();
      if status != 0 {
        connected := false;
      }
    }

    method ResetJoints()
      modifies this`joints
      ensures |joints| == |old(joints)| && forall k | 0 <= k < |joints| :: joints[k] == Reset(old(joints)[k])
    {
      for i := 0 to |joints|
        invariant |joints| == |old(joints)|
        invariant forall k | 0 <= k < i :: joints[k] == Reset(old(joints)[k])
        invariant forall k | i <= k < |joints| :: joints[k] == old(joints)[k]
      {
        joints := joints[i := Reset(joints[i])];
      }
    }

    method ResetRuntimeState()
      modifies this
      ensures View() == ResetSpec(old(View()))
    {
      outputsEnabled := false;
      BlankSensors();
      assert sensors == ResetSpec(old(View())).sensors;
      ResetJoints();
      assert joints == ResetSpec(old(View())).joints;
    }

    method OnCleanup()
      modifies this
      ensures View() == CleanupSpec(old(View()))
    {
      connected := false;
      ResetRuntimeState();
    }

    method Recover()
      modifies this
      ensures View() == CleanupSpec(old(View()))
    {
      ResetRuntimeState();
      connected := false;
    }
  }
}
