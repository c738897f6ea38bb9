/** Entering closed loop does not move the axis: the priming setpoints are what the drive reported. */
module Bumpless {
  import opened Numeric
  import opened Transport
  import opened Joints
  import opened Axis
  import opened Channels
  import opened Cycle
  import opened Runs
  import opened Setpoints
  import Discipline
  import Frozen
  import Motion

  /** The raw registers of a complete poll at this log. */
  ghost predicate PolledRaw(c: Context, log: Log, cfg: JointConfig, iq: Num, vel: Num, pos: Num) {
    var r := DoAll(c.env, log, TelemetryOps(cfg));
    && r.0 == 0 && |r.1| == |log| + 9
    && r.1[|log|].op == ReadOp(cfg, IQ_MEASURED) && r.1[|log|].reply.num == iq
    && r.1[|log| + 1].op == ReadOp(cfg, VEL_ESTIMATE) && r.1[|log| + 1].reply.num == vel
    && r.1[|log| + 2].op == ReadOp(cfg, POS_ESTIMATE) && r.1[|log| + 2].reply.num == pos
  }

  /** A register in the units and the direction of the joint. */
  function Measured(cfg: JointConfig, torque: Num, iq: Num, vel: Num, pos: Num): Triple {
    Signed(cfg.invert, Triple(TurnsToRadians(pos), TurnsToRadians(vel), Mul(iq, torque)))
  }

  lemma AbsorbHealthy(cfg: JointConfig, core: Core, s: Sample)
    requires Absorb(cfg, core, s).healthy
    ensures Absorb(cfg, core, s).kin == Signed(cfg.invert, s.kin) && AllFinite(s.kin)
  {
    hide Signed, AllClear;
  }

  /** A joint that read() leaves healthy stands at the registers just polled. */
  lemma HealthyIsMeasured(c: Context, s: Hw, i: nat) returns (turn: Log, iq: Num, vel: Num, pos: Num)
    requires i < |s.joints| && ReadSpec(c, s).joints[i].core.healthy
    ensures var j := s.joints[i];
            && ReadTurn(c, s, i) == Some(turn)
            && PolledRaw(c, turn, j.cfg, iq, vel, pos)
            && ReadSpec(c, s).joints[i].core.kin == Measured(j.cfg, j.torque, iq, vel, pos)
            && pos.Fin? && vel.Fin?
  {
    hide ReadSpec, Absorb, TelemetryOps, Signed, Mul, DoAll, TurnsToRadians, FailJoint, DropJoint, ReadJoint;
    ReadSpecJoint(c, s, i);
    var j := s.joints[i];
    var before := j.(core := j.core.(healthy := false));
    if !s.up || ReadTurn(c, s, i).None? {
      NotHealthy(j, 0);
      forall status ensures !FailJoint(before, status).core.healthy { NotHealthy(before, status); }
      assert false;
    }
    turn := ReadTurn(c, s, i).value;
    var r := ReadJoint(c, turn, before);
    forall status ensures !FailJoint(r.joint, status).core.healthy { NotHealthy(r.joint, status); }
    iq, vel, pos := HealthyPoll(c, turn, before);
  }

  lemma NotHealthy(j: Joint, status: int)
    ensures !FailJoint(j, status).core.healthy && !DropJoint(j).core.healthy
  {
  }

  lemma HealthyPoll(c: Context, log: Log, j: Joint) returns (iq: Num, vel: Num, pos: Num)
    requires ReadJoint(c, log, j).joint.core.healthy && !j.core.healthy
    ensures PolledRaw(c, log, j.cfg, iq, vel, pos)
    ensures ReadJoint(c, log, j).joint.core.kin == Measured(j.cfg, j.torque, iq, vel, pos)
    ensures pos.Fin? && vel.Fin?
  {
    hide Absorb, AxisEndpoint, Signed, DoAll, FeedbackValid;
    var r := DoAll(c.env, log, TelemetryOps(j.cfg));
    DoAllIssued(c.env, log, TelemetryOps(j.cfg));
    NotHealthy(j, r.0);
    var t := r.1[|log|..];
    iq, vel, pos := t[0].reply.num, t[1].reply.num, t[2].reply.num;
    AbsorbHealthy(j.cfg, j.core, SampleOf(j.torque, t));
    FiniteTurns(pos);
    FiniteTurns(vel);
  }

  lemma FiniteTurns(x: Num)
    ensures TurnsToRadians(x).Fin? <==> x.Fin?
  {
  }

  /** A register after conversion to radians, inversion and conversion back to a float of turns. */
  lemma RoundTrip(invert: bool, raw: Num)
    requires raw.Fin? && FloatRange(raw)
    ensures var sign := if invert then Fin(-1.0) else Fin(1.0);
            Saturate(RadiansToTurns(Mul(TurnsToRadians(raw), sign))) == if invert then Neg(raw) else raw
  {
    hide Saturate;
    var sign := if invert then -1.0 else 1.0;
    assert raw.r * TURNS_TO_RADIANS * sign == (raw.r * sign) * TURNS_TO_RADIANS;
    assert Mul(TurnsToRadians(raw), Fin(sign)) == TurnsToRadians(Fin(raw.r * sign));
    UnitRoundTrip(Fin(raw.r * sign));
    assert FloatRange(Fin(raw.r * sign));
    SaturateFloat(Fin(raw.r * sign));
  }

  lemma SaturateFloat(x: Num)
    requires FloatRange(x)
    ensures Saturate(x) == x
  {
  }

  /** The position a mode switch primes is the register the last healthy read() saw, exactly if the
      axis is not inverted or stands at zero: priming is not negated back into the motor's frame. */
  lemma PrimedPosition(c: Context, s: Hw, i: nat) returns (raw: Num, turn: Log, iq: Num, vel: Num)
    requires i < |s.joints| && ReadSpec(c, s).joints[i].core.healthy
    ensures raw.Fin? && PolledRaw(c, turn, s.joints[i].cfg, iq, vel, raw)
    ensures FloatRange(raw) ==>
              var j := ReadSpec(c, s).joints[i].(level := POSITION);
              var op := PosOp(j.cfg, EntryCommand(j));
              && op.value == F32(if j.cfg.invert then Neg(raw) else raw)
              && (op.value == F32(raw) <==> !j.cfg.invert || raw == ZERO)
  {
    hide ReadSpec, Mul, TurnsToRadians, RadiansToTurns, Saturate, PolledRaw;
    turn, iq, vel, raw := HealthyIsMeasured(c, s, i);
    ReadConfig(c, s);
    if FloatRange(raw) {
      RoundTrip(s.joints[i].cfg.invert, raw);
    }
  }

  /** Likewise for the velocity. */
  lemma PrimedVelocity(c: Context, s: Hw, i: nat) returns (raw: Num, turn: Log, iq: Num, pos: Num)
    requires i < |s.joints| && ReadSpec(c, s).joints[i].core.healthy
    ensures raw.Fin? && PolledRaw(c, turn, s.joints[i].cfg, iq, raw, pos)
    ensures FloatRange(raw) ==>
              var j := ReadSpec(c, s).joints[i].(level := VELOCITY);
              var op := VelOp(j.cfg, EntryCommand(j));
              && op.value == F32(if j.cfg.invert then Neg(raw) else raw)
              && (op.value == F32(raw) <==> !j.cfg.invert || raw == ZERO)
  {
    hide ReadSpec, Mul, TurnsToRadians, RadiansToTurns, Saturate, PolledRaw;
    turn, iq, raw, pos := HealthyIsMeasured(c, s, i);
    ReadConfig(c, s);
    if FloatRange(raw) {
      RoundTrip(s.joints[i].cfg.invert, raw);
    }
  }

  lemma SignedEffort(invert: bool, t: Triple)
    requires t.eff.Fin?
    ensures Signed(invert, t).eff == if invert then Neg(t.eff) else t.eff
  {
  }

  lemma HealthyEffort(c: Context, s: Hw, i: nat)
    requires i < |s.joints| && ReadSpec(c, s).joints[i].core.healthy
    ensures ReadSpec(c, s).joints[i].core.kin.eff.Fin? || !Frozen.Settled(s.joints[i].core)
  {
    hide ReadSpec, Frozen.Accepted;
    if Frozen.Settled(s.joints[i].core) {
      Frozen.ReadSettles(c, s, i);
    }
  }

  /** The effort primed at EFFORT level is the measured current times the torque constant, in the
      direction of the joint and not of the motor. */
  lemma PrimedEffort(c: Context, s: Hw, i: nat) returns (iq: Num, turn: Log, vel: Num, pos: Num)
    requires i < |s.joints| && ReadSpec(c, s).joints[i].core.healthy && Frozen.Settled(s.joints[i].core)
    ensures PolledRaw(c, turn, s.joints[i].cfg, iq, vel, pos)
    ensures var j := ReadSpec(c, s).joints[i].(level := EFFORT);
            var torque := Mul(iq, s.joints[i].torque);
            && torque.Fin?
            && TorqueOp(j.cfg, EntryCommand(j)).value == F32(Saturate(if j.cfg.invert then Neg(torque) else torque))
  {
    hide ReadSpec, TurnsToRadians, Saturate, PolledRaw, Frozen.Settled;
    turn, iq, vel, pos := HealthyIsMeasured(c, s, i);
    ReadConfig(c, s);
    HealthyEffort(c, s, i);
    var cfg, torque := s.joints[i].cfg, s.joints[i].torque;
    FiniteEffort(cfg, torque, iq, vel, pos);
    SignedEffort(cfg.invert, Triple(TurnsToRadians(pos), TurnsToRadians(vel), Mul(iq, torque)));
  }

  lemma FiniteEffort(cfg: JointConfig, torque: Num, iq: Num, vel: Num, pos: Num)
    requires Measured(cfg, torque, iq, vel, pos).eff.Fin?
    ensures Mul(iq, torque).Fin?
  {
    hide TurnsToRadians;
  }

  // ---- the first write() after the switch ----

  lemma SwitchedJoint(c: Context, log: Log, j: Joint)
    requires SwitchJoint(c, log, j).status == 0 && SwitchJoint(c, log, j).joint.level != UNDEFINED
    ensures var k := SwitchJoint(c, log, j).joint;
            k.cfg == j.cfg && k.level == j.level && k.cmd == EntryCommand(j)
  {
    hide Primed, DoAll, SwitchOps, ClaimJoint, HasFault;
    ClaimFrame(c, log, j);
  }

  /** Further from the last command than the rate allows. */
  predicate Exceeds(cfg: JointConfig, level: Level, t: Triple, last: Triple, dt: real) {
    || (level == POSITION && RateExceeded(t.pos, last.pos, cfg.limits.posRate, dt))
    || (level != EFFORT && level != UNDEFINED && RateExceeded(t.vel, last.vel, cfg.limits.velRate, dt))
    || RateExceeded(t.eff, last.eff, cfg.limits.effRate, dt)
  }

  predicate RatesOk(limits: CommandLimits) {
    Motion.RateOk(limits.posRate) && Motion.RateOk(limits.velRate) && Motion.RateOk(limits.effRate)
  }

  /** A channel of the level exceeds its rate, and the limited value is another one on the wire. */
  predicate Shows(cfg: JointConfig, level: Level, t: Triple, last: Triple, dt: real) {
    var limits := cfg.limits;
    || (level == POSITION && RateExceeded(t.pos, last.pos, limits.posRate, dt)
        && !SameAngle(RateLimited(t.pos, last.pos, limits.posRate, dt), t.pos))
    || (level != EFFORT && RateExceeded(t.vel, last.vel, limits.velRate, dt)
        && !SameAngle(RateLimited(t.vel, last.vel, limits.velRate, dt), t.vel))
    || (RateExceeded(t.eff, last.eff, limits.effRate, dt)
        && !SameFloat(RateLimited(t.eff, last.eff, limits.effRate, dt), t.eff))
  }

  lemma ValidSendable(limits: CommandLimits, level: Level, t: Triple)
    requires ValidCommand(limits, level, t)
    ensures Sendable(level, t)
  {
  }

  /** Limiting changes the setpoints exactly if it shows on a channel of the level. */
  lemma LimitShows(cfg: JointConfig, level: Level, t: Triple, last: Triple, dt: real)
    requires level != UNDEFINED && Sendable(level, t)
    requires Sendable(level, Limit(cfg.limits, level, t, last, dt).cmd)
    ensures SetpointOps(cfg, level, Limit(cfg.limits, level, t, last, dt).cmd) == SetpointOps(cfg, level, t) <==>
            !Shows(cfg, level, t, last, dt)
  {
    hide RateLimited, RateExceeded, SetpointOps, RadiansToTurns;
    SetpointsSame(cfg, level, Limit(cfg.limits, level, t, last, dt).cmd, t);
  }

  /** Within the float range, exceeding a rate always shows. */
  lemma LimitedDiffers(x: Num, last: Num, rate: Option<Num>, dt: real)
    requires x.Fin? && Motion.RateOk(rate) && dt > 0.0 && RateExceeded(x, last, rate, dt)
    ensures var y := RateLimited(x, last, rate, dt);
            && y != x
            && (-FLT_MAX < x.r < FLT_MAX ==> !SameFloat(y, x))
            && (-FLT_MAX < RadiansToTurns(x).r < FLT_MAX ==> !SameAngle(y, x))
  {
    hide RateLimited;
    RateLimitedMeaning(x, last, rate.value.r, dt);
    StepTowardsMeaning(x, last.r, rate.value.r * dt);
    var y := RateLimited(x, last, rate, dt);
    TurnsInjective(x, y);
  }

  lemma TurnsInjective(x: Num, y: Num)
    requires x.Fin? && y.Fin?
    ensures RadiansToTurns(x) == RadiansToTurns(y) <==> x == y
    ensures RadiansToTurns(x).Fin?
  {
    TurnsBack(x);
    TurnsBack(y);
  }

  lemma TurnsBack(x: Num)
    requires x.Fin?
    ensures RadiansToTurns(x).Fin? && TurnsToRadians(RadiansToTurns(x)) == x
  {
    assert x.r * RADIANS_TO_TURNS * TURNS_TO_RADIANS == x.r * (RADIANS_TO_TURNS * TURNS_TO_RADIANS);
    assert RADIANS_TO_TURNS * TURNS_TO_RADIANS == 1.0;
  }

  /** A limited command between two valid ones is valid, at every level. */
  lemma LimitStaysValid(cfg: JointConfig, level: Level, t: Triple, last: Triple, dt: real)
    requires level != UNDEFINED && RatesOk(cfg.limits) && dt > 0.0
    requires ValidCommand(cfg.limits, level, t) && ValidCommand(cfg.limits, level, last)
    ensures ValidCommand(cfg.limits, level, Limit(cfg.limits, level, t, last, dt).cmd)
  {
    hide RateLimited, RateExceeded, ValidComponent;
    if level == POSITION {
      Motion.LimitedValid(t.pos, last.pos, cfg.limits.posRate, cfg.limits.pos, dt);
    }
    if level != EFFORT {
      Motion.LimitedValid(t.vel, last.vel, cfg.limits.velRate, cfg.limits.vel, dt);
    }
    Motion.LimitedValid(t.eff, last.eff, cfg.limits.effRate, cfg.limits.eff, dt);
  }

  /** The hold fallback sends the priming of the level again. */
  predicate FallbackPrimes(level: Level, kin: Triple) {
    && (level == POSITION ==> !kin.vel.Fin? || kin.vel == ZERO)
    && (level == EFFORT ==> kin.eff == ZERO)
  }

  lemma FallbackExact(cfg: JointConfig, level: Level, cmd: Triple, kin: Triple)
    requires level != UNDEFINED && Sendable(level, Primed(level, cmd, kin))
    ensures SetpointOps(cfg, level, Fallback(kin)) == SetpointOps(cfg, level, Primed(level, cmd, kin)) <==>
            FallbackPrimes(level, kin)
  {
    hide SetpointOps, SameFloat, SameAngle;
    var t := Primed(level, cmd, kin);
    SetpointsSame(cfg, level, Fallback(kin), t);
    assert forall x: Num :: SameFloat(x, x) && SameAngle(x, x) by { SameItself(); }
    if kin.vel.Fin? {
      ZeroFloat(kin.vel);
    }
    if kin.eff.Fin? {
      ZeroFloat(kin.eff);
      assert SameFloat(ZERO, kin.eff) == SameFloat(kin.eff, ZERO) by { SameSymmetric(kin.eff); }
    }
  }

  lemma SameItself()
    ensures forall x: Num :: SameFloat(x, x) && SameAngle(x, x)
  {
  }

  lemma SameSymmetric(x: Num)
    ensures SameFloat(ZERO, x) == SameFloat(x, ZERO)
  {
  }

  /** The priming as the limiter leaves it. */
  function LimitedEntry(j: Joint, dt: real): Triple {
    Limit(j.cfg.limits, j.level, EntryCommand(j), j.core.lastCmd, dt).cmd
  }

  /** A mode switch does not touch the limiter's record. The first complete send after it, with no new
      command, of a joint that is not inverted therefore sends the priming setpoints again exactly if
      limiting them from that record does not show on a channel of the level; or, when what the limiter
      leaves is outside the limits, exactly if holding still is the priming. The latter is possible only
      for a record that is itself outside the limits. */
  lemma FirstWriteRepeats(c: Context, log: Log, log': Log, dt: real, j: Joint)
    requires SwitchJoint(c, log, j).status == 0 && SwitchJoint(c, log, j).joint.level != UNDEFINED
    requires !j.cfg.invert && ValidCommand(j.cfg.limits, j.level, EntryCommand(j))
    requires RatesOk(j.cfg.limits) && dt > 0.0
    requires WriteJoint(c, log', dt, SwitchJoint(c, log, j).joint).sent
    ensures var k := SwitchJoint(c, log, j).joint;
            var t := JointShape(k, dt).cmd;
            && DoAll(c.env, log', CommandOps(j.cfg, j.level, t)) == (0, WriteJoint(c, log', dt, k).log)
            && (SetpointOps(j.cfg, j.level, t) == SetpointOps(j.cfg, j.level, EntryCommand(j)) <==>
                  if ValidCommand(j.cfg.limits, j.level, LimitedEntry(j, dt))
                  then !Shows(j.cfg, j.level, EntryCommand(j), j.core.lastCmd, dt)
                  else FallbackPrimes(j.level, j.core.kin))
            && (ValidCommand(j.cfg.limits, j.level, j.core.lastCmd) ==>
                  ValidCommand(j.cfg.limits, j.level, LimitedEntry(j, dt)))
  {
    hide SwitchJoint, DoAll, CommandOps, SetpointOps, WriteJoint, Primed, ValidCommand, Shows, Fallback, Limit;
    var k := SwitchJoint(c, log, j).joint;
    var e, l := EntryCommand(j), LimitedEntry(j, dt);
    SwitchedJoint(c, log, j);
    SwitchJointFrame(c, log, j);
    Discipline.WriteBlock(c, log', dt, k);
    assert Discipline.SentOps(k, dt) == CommandOps(j.cfg, j.level, JointShape(k, dt).cmd);
    ValidSendable(j.cfg.limits, j.level, e);
    if ValidCommand(j.cfg.limits, j.level, l) {
      ValidSendable(j.cfg.limits, j.level, l);
      LimitShows(j.cfg, j.level, e, j.core.lastCmd, dt);
    } else {
      FallbackExact(j.cfg, j.level, j.cmd, j.core.kin);
    }
    if ValidCommand(j.cfg.limits, j.level, j.core.lastCmd) {
      LimitStaysValid(j.cfg, j.level, e, j.core.lastCmd, dt);
    }
  }
}
