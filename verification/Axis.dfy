/** One axis over the wire: telemetry, mode switch and setpoints (axis_telemetry.cpp,
    axis_control.cpp). Every method is the operation list beside it, cut at the first error. */
module Axis {
  import opened Numeric
  import opened Transport
  import opened Joints

  /** One operation of a list with early return: the local lambdas of axis_control.cpp. */
  method Issue(bus: Bus, op: Op, ghost ops: seq<Op>, ghost start: Log, ghost k: nat) returns (r: Reply)
    requires k < |ops| && ops[k] == op
    requires DoAll(bus.env, start, ops) == DoAll(bus.env, bus.log, ops[k..])
    modifies bus
    ensures bus.log == old(bus.log) + [Event(op, r)]
    ensures r.status != 0 ==> DoAll(bus.env, start, ops) == (r.status, bus.log)
    ensures r.status == 0 ==> DoAll(bus.env, start, ops) == DoAll(bus.env, bus.log, ops[k + 1..])
    ensures r.status == 0 && k + 1 == |ops| ==> DoAll(bus.env, start, ops) == (0, bus.log)
  {
    DoAllStep(bus.env, bus.log, ops, k);
    r := bus.Perform(op);
  }

  // ---- telemetry ----

  function ReadOp(cfg: JointConfig, base: int): Op { Read(cfg.serial, AxisEndpoint(base, cfg.axis)) }

  function TelemetryOps(cfg: JointConfig): (ops: seq<Op>)
    ensures |ops| == 9
  {
    [ReadOp(cfg, IQ_MEASURED), ReadOp(cfg, VEL_ESTIMATE), ReadOp(cfg, POS_ESTIMATE),
     ReadOp(cfg, AXIS_ERROR), ReadOp(cfg, MOTOR_ERROR), ReadOp(cfg, ENCODER_ERROR),
     ReadOp(cfg, CONTROLLER_ERROR), ReadOp(cfg, FET_TEMPERATURE), ReadOp(cfg, MOTOR_TEMPERATURE)]
  }

  /** An int32 register as a double. */
  function Register(word: int): Num { Fin(ToInt32(word) as real) }

  /** Conversion of the nine replies, in reading order. */
  function SampleOf(torque: Num, t: Log): Sample
    requires |t| == 9
  {
    Sample(
      Triple(TurnsToRadians(t[2].reply.num), TurnsToRadians(t[1].reply.num), Mul(t[0].reply.num, torque)),
      Registers(Register(t[3].reply.word), Register(t[4].reply.word),
                Register(t[5].reply.word), Register(t[6].reply.word)),
      t[7].reply.num, t[8].reply.num)
  }

  const BLANK_SAMPLE := Sample(Triple(ZERO, ZERO, ZERO), Registers(ZERO, ZERO, ZERO, ZERO), ZERO, ZERO)

  /** The k-th telemetry read. */
  method ReadNext(bus: Bus, cfg: JointConfig, base: int, ghost start: Log, ghost k: nat) returns (r: Reply)
    requires k < 9 && TelemetryOps(cfg)[k] == ReadOp(cfg, base)
    requires |bus.log| == |start| + k && start <= bus.log
    requires DoAll(bus.env, start, TelemetryOps(cfg)) == DoAll(bus.env, bus.log, TelemetryOps(cfg)[k..])
    modifies bus
    ensures old(bus.log) <= bus.log && |bus.log| == |start| + k + 1 && start <= bus.log
    ensures bus.log[|start| + k].reply == r
    ensures r.status != 0 ==> DoAll(bus.env, start, TelemetryOps(cfg)) == (r.status, bus.log)
    ensures r.status == 0 ==>
              DoAll(bus.env, start, TelemetryOps(cfg)) == DoAll(bus.env, bus.log, TelemetryOps(cfg)[k + 1..])
    ensures r.status == 0 && k == 8 ==> DoAll(bus.env, start, TelemetryOps(cfg)) == (0, bus.log)
  {
    r := Issue(bus, ReadOp(cfg, base), TelemetryOps(cfg), start, k);
  }

  method ReadAxisTelemetry(bus: Bus, cfg: JointConfig, torque: Num) returns (status: int, sample: Sample)
    modifies bus
    ensures (status, bus.log) == DoAll(bus.env, old(bus.log), TelemetryOps(cfg))
    ensures status == 0 ==> |bus.log| == |old(bus.log)| + 9 &&
                            sample == SampleOf(torque, bus.log[|old(bus.log)|..])
  {
    hide DoAll, AxisEndpoint, Mul, TurnsToRadians, Register;
    ghost var start := bus.log;
    assert TelemetryOps(cfg)[0..] == TelemetryOps(cfg);
    sample := BLANK_SAMPLE;

    var iq := ReadNext(bus, cfg, IQ_MEASURED, start, 0);
    if iq.status != 0 {
      return iq.status, sample;
    }
    sample := sample.(kin := sample.kin.(eff := Mul(iq.num, torque)));

    var vel := ReadNext(bus, cfg, VEL_ESTIMATE, start, 1);
    if vel.status != 0 {
      return vel.status, sample;
    }
    sample := sample.(kin := sample.kin.(vel := TurnsToRadians(vel.num)));

    var pos := ReadNext(bus, cfg, POS_ESTIMATE, start, 2);
    if pos.status != 0 {
      return pos.status, sample;
    }
    sample := sample.(kin := sample.kin.(pos := TurnsToRadians(pos.num)));

    var axisError := ReadNext(bus, cfg, AXIS_ERROR, start, 3);
    if axisError.status != 0 {
      return axisError.status, sample;
    }
    sample := sample.(errs := sample.errs.(axis := Register(axisError.word)));

    var motorError := ReadNext(bus, cfg, MOTOR_ERROR, start, 4);
    if motorError.status != 0 {
      return motorError.status, sample;
    }
    sample := sample.(errs := sample.errs.(motor := Register(motorError.word)));

    var encoderError := ReadNext(bus, cfg, ENCODER_ERROR, start, 5);
    if encoderError.status != 0 {
      return encoderError.status, sample;
    }
    sample := sample.(errs := sample.errs.(encoder := Register(encoderError.word)));

    var controllerError := ReadNext(bus, cfg, CONTROLLER_ERROR, start, 6);
    if controllerError.status != 0 {
      return controllerError.status, sample;
    }
    sample := sample.(errs := sample.errs.(controller := Register(controllerError.word)));

    var fet := ReadNext(bus, cfg, FET_TEMPERATURE, start, 7);
    if fet.status != 0 {
      return fet.status, sample;
    }
    sample := sample.(fetTemp := fet.num);

    var motor := ReadNext(bus, cfg, MOTOR_TEMPERATURE, start, 8);
    if motor.status != 0 {
      return motor.status, sample;
    }
    sample := sample.(motorTemp := motor.num);

    status := 0;
  }

  // ---- setpoints ----

  function WriteOp(cfg: JointConfig, base: int, value: Wire): Op {
    Write(cfg.serial, AxisEndpoint(base, cfg.axis), value)
  }

  function CallOp(cfg: JointConfig, base: int): Op { Call(cfg.serial, AxisEndpoint(base, cfg.axis)) }

  function PosOp(cfg: JointConfig, t: Triple): Op {
    WriteOp(cfg, INPUT_POS, F32(Saturate(RadiansToTurns(t.pos))))
  }

  function VelOp(cfg: JointConfig, t: Triple): Op {
    WriteOp(cfg, INPUT_VEL, F32(Saturate(RadiansToTurns(t.vel))))
  }

  function TorqueOp(cfg: JointConfig, t: Triple): Op {
    WriteOp(cfg, INPUT_TORQUE, F32(Saturate(t.eff)))
  }

  /** The setpoint writes of a control level. */
  function SetpointOps(cfg: JointConfig, level: Level, t: Triple): seq<Op> {
    match level
    case POSITION => [PosOp(cfg, t), VelOp(cfg, t), TorqueOp(cfg, t)]
    case VELOCITY => [VelOp(cfg, t), TorqueOp(cfg, t)]
    case EFFORT => [TorqueOp(cfg, t)]
    case UNDEFINED => []
  }

  function FeedOp(cfg: JointConfig): Op { CallOp(cfg, WATCHDOG_FEED) }

  function CommandOps(cfg: JointConfig, level: Level, t: Triple): seq<Op> {
    SetpointOps(cfg, level, t) + if cfg.watchdog && level != UNDEFINED then [FeedOp(cfg)] else []
  }

  method WriteAxisCommand(bus: Bus, cfg: JointConfig, level: Level, t: Triple) returns (status: int)
    modifies bus
    ensures (status, bus.log) == DoAll(bus.env, old(bus.log), CommandOps(cfg, level, t))
  {
    ghost var ops, start := CommandOps(cfg, level, t), bus.log;
    assert ops[0..] == ops;
    match level {
      case POSITION =>
        var r := Issue(bus, PosOp(cfg, t), ops, start, 0);
        if r.status != 0 {
          return r.status;
        }
        r := Issue(bus, VelOp(cfg, t), ops, start, 1);
        if r.status != 0 {
          return r.status;
        }
        r := Issue(bus, TorqueOp(cfg, t), ops, start, 2);
        if r.status != 0 {
          return r.status;
        }
        if cfg.watchdog {
          r := Issue(bus, FeedOp(cfg), ops, start, 3);
          if r.status != 0 {
            return r.status;
          }
        }
        return 0;
      case VELOCITY =>
        var r := Issue(bus, VelOp(cfg, t), ops, start, 0);
        if r.status != 0 {
          return r.status;
        }
        r := Issue(bus, TorqueOp(cfg, t), ops, start, 1);
        if r.status != 0 {
          return r.status;
        }
        if cfg.watchdog {
          r := Issue(bus, FeedOp(cfg), ops, start, 2);
          if r.status != 0 {
            return r.status;
          }
        }
        return 0;
      case EFFORT =>
        var r := Issue(bus, TorqueOp(cfg, t), ops, start, 0);
        if r.status != 0 {
          return r.status;
        }
        if cfg.watchdog {
          r := Issue(bus, FeedOp(cfg), ops, start, 1);
          if r.status != 0 {
            return r.status;
          }
        }
        return 0;
      case UNDEFINED =>
        return 0;
    }
  }

  // ---- mode switch ----

  function IdleOp(cfg: JointConfig): Op { WriteOp(cfg, REQUESTED_STATE, I32(AXIS_STATE_IDLE)) }

  function ClosedLoopOp(cfg: JointConfig): Op { WriteOp(cfg, REQUESTED_STATE, I32(AXIS_STATE_CLOSED_LOOP)) }

  function ModeOp(cfg: JointConfig, level: Level): Op { WriteOp(cfg, CONTROL_MODE, I32(LevelCode(level))) }

  /** What must have been written before closed loop is requested. */
  function EntryOps(cfg: JointConfig, level: Level, t: Triple): seq<Op> {
    [ModeOp(cfg, level)] + SetpointOps(cfg, level, t)
  }

  function SwitchOps(cfg: JointConfig, level: Level, t: Triple): seq<Op> {
    if level == UNDEFINED then [IdleOp(cfg)] else EntryOps(cfg, level, t) + [ClosedLoopOp(cfg)]
  }

  /** The command fields after priming: they are references into the joint. */
  function Primed(level: Level, cmd: Triple, kin: Triple): Triple {
    match level
    case UNDEFINED => cmd
    case EFFORT => cmd.(eff := kin.eff)
    case VELOCITY => cmd.(vel := kin.vel, eff := ZERO)
    case POSITION => Triple(kin.pos, ZERO, ZERO)
  }

  method PerformAxisModeSwitch(bus: Bus, cfg: JointConfig, level: Level, cmd: Triple, kin: Triple)
    returns (status: int, primed: Triple)
    modifies bus
    ensures primed == Primed(level, cmd, kin)
    ensures (status, bus.log) == DoAll(bus.env, old(bus.log), SwitchOps(cfg, level, primed))
  {
    hide DoAll, AxisEndpoint, Saturate, RadiansToTurns;
    primed := cmd;
    ghost var start := bus.log;
    match level {
      case UNDEFINED =>
        ghost var ops := SwitchOps(cfg, level, primed);
        assert ops[0..] == ops;
        var r := Issue(bus, IdleOp(cfg), ops, start, 0);
        return r.status, primed;
      case EFFORT =>
        primed := primed.(eff := kin.eff);
        ghost var ops := SwitchOps(cfg, level, primed);
        assert ops[0..] == ops;
        var r := Issue(bus, ModeOp(cfg, level), ops, start, 0);
        if r.status != 0 {
          return r.status, primed;
        }
        r := Issue(bus, TorqueOp(cfg, primed), ops, start, 1);
        if r.status != 0 {
          return r.status, primed;
        }
        r := Issue(bus, ClosedLoopOp(cfg), ops, start, 2);
        return r.status, primed;
      case VELOCITY =>
        primed := primed.(vel := kin.vel);
        primed := primed.(eff := ZERO);
        ghost var ops := SwitchOps(cfg, level, primed);
        assert ops[0..] == ops;
        var r := Issue(bus, ModeOp(cfg, level), ops, start, 0);
        if r.status != 0 {
          return r.status, primed;
        }
        r := Issue(bus, VelOp(cfg, primed), ops, start, 1);
        if r.status != 0 {
          return r.status, primed;
        }
        r := Issue(bus, TorqueOp(cfg, primed), ops, start, 2);
        if r.status != 0 {
          return r.status, primed;
        }
        r := Issue(bus, ClosedLoopOp(cfg), ops, start, 3);
        return r.status, primed;
      case POSITION =>
        primed := primed.(pos := kin.pos);
        primed := primed.(vel := ZERO);
        primed := primed.(eff := ZERO);
        ghost var ops := SwitchOps(cfg, level, primed);
        assert ops[0..] == ops;
        var r := Issue(bus, ModeOp(cfg, level), ops, start, 0);
        if r.status != 0 {
          return r.status, primed;
        }
        r := Issue(bus, PosOp(cfg, primed), ops, start, 1);
        if r.status != 0 {
          return r.status, primed;
        }
        r := Issue(bus, VelOp(cfg, primed), ops, start, 2);
        if r.status != 0 {
          return r.status, primed;
        }
        r := Issue(bus, TorqueOp(cfg, primed), ops, start, 3);
        if r.status != 0 {
          return r.status, primed;
        }
        r := Issue(bus, ClosedLoopOp(cfg), ops, start, 4);
        return r.status, primed;
    }
  }
}
