/** The per-joint records and the command checks of command_validation.cpp. */
module Joints {
  import opened Numeric

  datatype Level = UNDEFINED | EFFORT | VELOCITY | POSITION

  function LevelCode(level: Level): int {
    match level
    case UNDEFINED => 0
    case EFFORT => 1
    case VELOCITY => 2
    case POSITION => 3
  }

  /** Position, velocity and effort, as commanded or as measured. */
  datatype Triple = Triple(pos: Num, vel: Num, eff: Num)

  predicate AllFinite(t: Triple) { t.pos.Fin? && t.vel.Fin? && t.eff.Fin? }

  function Negated(t: Triple): Triple { Triple(Neg(t.pos), Neg(t.vel), Neg(t.eff)) }

  datatype Range = Range(min: Option<Num>, max: Option<Num>)

  datatype CommandLimits = CommandLimits(
    pos: Range, vel: Range, eff: Range,
    posRate: Option<Num>, velRate: Option<Num>, effRate: Option<Num>)

  datatype FeedbackLimits = FeedbackLimits(
    maxVelocity: Option<Num>, maxEffort: Option<Num>, maxJump: Option<Num>)

  datatype JointConfig = JointConfig(
    name: string, serial: int, axis: int, invert: bool,
    watchdog: bool, watchdogTimeout: Num,
    limits: CommandLimits, feedback: FeedbackLimits)

  /** The four error registers of an axis, each held in a double. */
  datatype Registers = Registers(axis: Num, motor: Num, encoder: Num, controller: Num)

  const NO_REGISTERS := Registers(NaN, NaN, NaN, NaN)

  predicate AllClear(r: Registers) {
    Same(r.axis, ZERO) && Same(r.motor, ZERO) && Same(r.encoder, ZERO) && Same(r.controller, ZERO)
  }

  /** What one control cycle keeps about a joint. The synchronous path keeps it in JointContext
      and the fault vectors, the worker in its snapshot and async vectors. */
  datatype Core = Core(
    kin: Triple,
    lastValidPos: Num,
    lastValidVel: Num,
    errs: Registers,
    fetTemp: Num,
    motorTemp: Num,
    readError: int,
    writeError: int,
    telemetryValid: bool,
    healthy: bool,
    posLimited: bool,
    velLimited: bool,
    effLimited: bool,
    lastCmd: Triple,
    lastSeq: Num,
    faulted: bool,
    idleRequested: bool)

  datatype Joint = Joint(
    cfg: JointConfig,
    torque: Num,
    core: Core,
    cmd: Triple,
    seqNo: Num,
    level: Level,
    claimed: bool)

  /** hold_joint_state: freeze the position at the last accepted one. */
  function Hold(c: Core): Core {
    var p := if c.lastValidPos.Fin? then c.lastValidPos else ZERO;
    c.(lastValidPos := p, kin := Triple(p, ZERO, ZERO))
  }

  /** A command turned into the frame of the motor. */
  function Oriented(cfg: JointConfig, t: Triple): Triple { if cfg.invert then Negated(t) else t }

  // ---- command validation ----

  predicate InRange(x: Num, range: Range) {
    && !(range.min.Some? && Less(x, range.min.value))
    && !(range.max.Some? && Less(range.max.value, x))
  }

  predicate ValidComponent(x: Num, range: Range) { x.Fin? && InRange(x, range) }

  /** The channels a level sends are finite and within the configured limits. */
  predicate ValidCommand(limits: CommandLimits, level: Level, t: Triple) {
    && (level == POSITION ==> ValidComponent(t.pos, limits.pos))
    && (level == POSITION || level == VELOCITY ==> ValidComponent(t.vel, limits.vel))
    && (level != UNDEFINED ==> ValidComponent(t.eff, limits.eff))
  }

  method ValidateJointCommand(limits: CommandLimits, level: Level, t: Triple) returns (valid: bool)
    ensures valid <==> ValidCommand(limits, level, t)
  {
    valid := true;
    match level {
      case POSITION =>
        valid := ValidComponent(t.pos, limits.pos) && ValidComponent(t.vel, limits.vel) &&
                 ValidComponent(t.eff, limits.eff);
      case VELOCITY =>
        valid := ValidComponent(t.vel, limits.vel) && ValidComponent(t.eff, limits.eff);
      case EFFORT =>
        valid := ValidComponent(t.eff, limits.eff);
      case UNDEFINED =>
    }
  }

  // ---- rate limiting ----

  /** The command apply_rate_limiting leaves behind. */
  function RateLimited(command: Num, last: Num, maxRate: Option<Num>, dt: real): Num {
    if maxRate.None? || !last.Fin? || dt <= 0.0 then command
    else
      var maxDelta := Mul(maxRate.value, Fin(dt));
      var delta := Sub(command, last);
      if Less(maxDelta, Abs(delta)) then Add(last, CopySign(maxDelta, delta)) else command
  }

  predicate RateExceeded(command: Num, last: Num, maxRate: Option<Num>, dt: real) {
    && maxRate.Some? && last.Fin? && dt > 0.0
    && Less(Mul(maxRate.value, Fin(dt)), Abs(Sub(command, last)))
  }

  /** `command` is a reference in the source: the limited value comes back as a result. */
  method ApplyRateLimiting(command: Num, last: Num, maxRate: Option<Num>, dt: real)
    returns (limited: Num, ok: bool)
    ensures limited == RateLimited(command, last, maxRate, dt)
    ensures ok <==> !RateExceeded(command, last, maxRate, dt)
    ensures ok ==> limited == command
  {
    if maxRate.None? || !last.Fin? || dt <= 0.0 {
      return command, true;
    }
    var delta := Sub(command, last);
    var maxDelta := Mul(maxRate.value, Fin(dt));
    if Less(maxDelta, Abs(delta)) {
      return Add(last, CopySign(maxDelta, delta)), false;
    }
    return command, true;
  }

  /** The limiter with the largest step already multiplied out. */
  function StepTowards(command: Num, last: real, step: real): Num {
    var delta := Sub(command, Fin(last));
    if Less(Fin(step), Abs(delta)) then Add(Fin(last), CopySign(Fin(step), delta)) else command
  }

  /** An infinite command becomes finite; the limited command is within one step of the last one,
      lies between the last and the requested one, and is the requested one as soon as that is
      within reach. */
  lemma StepTowardsMeaning(command: Num, last: real, step: real)
    requires step >= 0.0
    ensures var x := StepTowards(command, last, step);
            && (x.NaN? <==> command.NaN?)
            && (!command.NaN? ==> x.Fin? && last - step <= x.r <= last + step)
            && (command.Fin? ==>
                  && (last <= x.r <= command.r || command.r <= x.r <= last)
                  && (x == command <==> last - step <= command.r <= last + step))
  {
  }

  /** For a finite rate r >= 0 the limiter steps by at most r*dt towards the command. */
  lemma RateLimitedMeaning(command: Num, last: Num, r: real, dt: real)
    requires last.Fin? && r >= 0.0 && dt > 0.0
    ensures r * dt >= 0.0
    ensures RateLimited(command, last, Some(Fin(r)), dt) == StepTowards(command, last.r, r * dt)
    ensures !RateExceeded(command, last, Some(Fin(r)), dt) ==>
              RateLimited(command, last, Some(Fin(r)), dt) == command
  {
    var step := r * dt;
    assert Mul(Fin(r), Fin(dt)) == Fin(step);
    assert last == Fin(last.r);
  }

  /** The command after rate limiting and which channels were limited: the position at POSITION
      level only, the velocity at POSITION and VELOCITY level, the effort always. */
  datatype Limits = Limits(cmd: Triple, pos: bool, vel: bool, eff: bool)

  function Limit(limits: CommandLimits, level: Level, cmd: Triple, last: Triple, dt: real): Limits {
    var p := level == POSITION && RateExceeded(cmd.pos, last.pos, limits.posRate, dt);
    var v := (level == POSITION || level == VELOCITY) && RateExceeded(cmd.vel, last.vel, limits.velRate, dt);
    var e := RateExceeded(cmd.eff, last.eff, limits.effRate, dt);
    Limits(
      Triple(if p then RateLimited(cmd.pos, last.pos, limits.posRate, dt) else cmd.pos,
             if v then RateLimited(cmd.vel, last.vel, limits.velRate, dt) else cmd.vel,
             if e then RateLimited(cmd.eff, last.eff, limits.effRate, dt) else cmd.eff),
      p, v, e)
  }

  function Fallback(kin: Triple): Triple {
    Triple(if kin.pos.Fin? then kin.pos else ZERO, if kin.vel.Fin? then kin.vel else ZERO, ZERO)
  }

  /** Limit and check a command, falling back to holding still if it is rejected. */
  datatype Shaped = Shaped(cmd: Triple, pos: bool, vel: bool, eff: bool, rejected: bool)

  function Shape(limits: CommandLimits, level: Level, cmd: Triple, last: Triple, dt: real, kin: Triple): Shaped {
    var l := Limit(limits, level, cmd, last, dt);
    if ValidCommand(limits, level, l.cmd) then Shaped(l.cmd, l.pos, l.vel, l.eff, false)
    else Shaped(Fallback(kin), l.pos, l.vel, l.eff, true)
  }

  function Events(s: Shaped): nat {
    (if s.pos then 1 else 0) + (if s.vel then 1 else 0) + (if s.eff then 1 else 0)
  }

  /** period.seconds() as write() uses it. */
  function EffectiveDt(period: Num): (dt: real)
    ensures dt > 0.0
  {
    if !period.Fin? || period.r <= 0.0 then 0.001 else period.r
  }

  // ---- feedback ----

  datatype Sample = Sample(kin: Triple, errs: Registers, fetTemp: Num, motorTemp: Num)

  predicate FeedbackValid(cfg: JointConfig, lastValidPos: Num, s: Sample) {
    && AllFinite(s.kin)
    && !(cfg.feedback.maxVelocity.Some? && Less(cfg.feedback.maxVelocity.value, Abs(s.kin.vel)))
    && !(cfg.feedback.maxEffort.Some? && Less(cfg.feedback.maxEffort.value, Abs(s.kin.eff)))
    && !(lastValidPos.Fin? && cfg.feedback.maxJump.Some? &&
         Less(cfg.feedback.maxJump.value, Abs(Sub(s.kin.pos, lastValidPos))))
  }

  function Signed(invert: bool, t: Triple): Triple {
    var sign := if invert then Fin(-1.0) else Fin(1.0);
    Triple(Mul(t.pos, sign), Mul(t.vel, sign), Mul(t.eff, sign))
  }

  /** A complete telemetry sample was read. */
  function Absorb(cfg: JointConfig, c: Core, s: Sample): Core {
    if !FeedbackValid(cfg, c.lastValidPos, s) then
      Hold(c).(readError := -1, telemetryValid := false, healthy := false)
    else
      var kept :=
        if AllClear(s.errs) then
          var k := Signed(cfg.invert, s.kin);
          c.(kin := k, lastValidPos := k.pos, lastValidVel := k.vel)
        else Hold(c);
      kept.(errs := s.errs, fetTemp := s.fetTemp, motorTemp := s.motorTemp,
            readError := 0, telemetryValid := true, healthy := AllClear(s.errs))
  }

  /** reset_runtime_state for one joint. */
  function Reset(j: Joint): Joint {
    var p := if j.core.kin.pos.Fin? then j.core.kin.pos else ZERO;
    var t := Triple(p, ZERO, ZERO);
    j.(torque := NaN, cmd := t, seqNo := ZERO, level := UNDEFINED, claimed := false,
       core := j.core.(kin := t, lastValidPos := p, lastValidVel := ZERO, errs := NO_REGISTERS,
                       fetTemp := NaN, motorTemp := NaN, readError := 0, writeError := 0,
                       telemetryValid := false, healthy := false,
                       lastCmd := t, lastSeq := NaN, faulted := false, idleRequested := false))
  }

  /** configure_from_info: the joint right after construction from its configuration. */
  function Configured(cfg: JointConfig): Joint {
    var nan := Triple(NaN, NaN, NaN);
    Reset(Joint(cfg, NaN,
                Core(nan, NaN, NaN, NO_REGISTERS, NaN, NaN, 0, 0, false, false, false, false, false,
                     nan, NaN, false, false),
                nan, ZERO, UNDEFINED, false))
  }
}
