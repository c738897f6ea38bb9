/** Which commands look the same on the wire: the channels a level sends, as floats. */
module Channels {
  import opened Numeric
  import opened Transport
  import opened Joints
  import opened Axis

  /** Equal, or both at or beyond the same end of the float range. */
  predicate SameFloat(x: Num, y: Num) {
    || x == y
    || (x.Fin? && y.Fin? && ((x.r >= FLT_MAX && y.r >= FLT_MAX) || (x.r <= -FLT_MAX && y.r <= -FLT_MAX)))
  }

  lemma SaturateSame(x: Num, y: Num)
    requires x.Fin? && y.Fin?
    ensures Saturate(x) == Saturate(y) <==> SameFloat(x, y)
  {
  }

  predicate SameAngle(x: Num, y: Num) { SameFloat(RadiansToTurns(x), RadiansToTurns(y)) }

  lemma TurnsFinite(x: Num)
    requires x.Fin?
    ensures RadiansToTurns(x).Fin?
  {
  }

  lemma AngleSame(x: Num, y: Num)
    requires x.Fin? && y.Fin?
    ensures Saturate(RadiansToTurns(x)) == Saturate(RadiansToTurns(y)) <==> SameAngle(x, y)
  {
    hide Saturate, SameFloat, RadiansToTurns;
    TurnsFinite(x);
    TurnsFinite(y);
    SaturateSame(RadiansToTurns(x), RadiansToTurns(y));
  }

  /** The channels a level sends are finite. */
  predicate Sendable(level: Level, t: Triple) {
    && (level == POSITION ==> t.pos.Fin?)
    && (level == POSITION || level == VELOCITY ==> t.vel.Fin?)
    && (level != UNDEFINED ==> t.eff.Fin?)
  }

  predicate SameChannels(level: Level, a: Triple, b: Triple) {
    && (level == POSITION ==> SameAngle(a.pos, b.pos))
    && (level == POSITION || level == VELOCITY ==> SameAngle(a.vel, b.vel))
    && (level != UNDEFINED ==> SameFloat(a.eff, b.eff))
  }

  /** The setpoints are the same exactly if the channels of the level are. */
  lemma SetpointsSame(cfg: JointConfig, level: Level, a: Triple, b: Triple)
    requires Sendable(level, a) && Sendable(level, b)
    ensures SetpointOps(cfg, level, a) == SetpointOps(cfg, level, b) <==> SameChannels(level, a, b)
  {
    hide Saturate, SameFloat, SameAngle, RadiansToTurns, AxisEndpoint;
    if level == POSITION {
      AngleSame(a.pos, b.pos);
      assert SetpointOps(cfg, level, a)[0] == PosOp(cfg, a) && SetpointOps(cfg, level, b)[0] == PosOp(cfg, b);
      assert SetpointOps(cfg, level, a)[1] == VelOp(cfg, a) && SetpointOps(cfg, level, b)[1] == VelOp(cfg, b);
      assert SetpointOps(cfg, level, a)[2] == TorqueOp(cfg, a) && SetpointOps(cfg, level, b)[2] == TorqueOp(cfg, b);
    }
    if level == POSITION || level == VELOCITY {
      AngleSame(a.vel, b.vel);
    }
    if level == VELOCITY {
      assert SetpointOps(cfg, level, a)[0] == VelOp(cfg, a) && SetpointOps(cfg, level, b)[0] == VelOp(cfg, b);
      assert SetpointOps(cfg, level, a)[1] == TorqueOp(cfg, a) && SetpointOps(cfg, level, b)[1] == TorqueOp(cfg, b);
    }
    if level == EFFORT {
      assert SetpointOps(cfg, level, a)[0] == TorqueOp(cfg, a) && SetpointOps(cfg, level, b)[0] == TorqueOp(cfg, b);
    }
    if level != UNDEFINED {
      SaturateSame(a.eff, b.eff);
    }
  }

  /** The channels a level sends are zero. */
  predicate ZeroChannels(level: Level, t: Triple) {
    && (level == POSITION ==> t.pos == ZERO)
    && (level == POSITION || level == VELOCITY ==> t.vel == ZERO)
    && (level != UNDEFINED ==> t.eff == ZERO)
  }

  lemma MirroredFloat(x: Num)
    requires x.Fin?
    ensures SameFloat(Neg(x), x) <==> x == ZERO
  {
  }

  lemma MirroredAngle(x: Num)
    requires x.Fin?
    ensures SameAngle(Neg(x), x) <==> x == ZERO
  {
    var t := RadiansToTurns(x);
    assert RadiansToTurns(Neg(x)) == Neg(t);
    assert t == ZERO <==> x == ZERO by { TurnsZero(x); }
    MirroredFloat(t);
  }

  lemma TurnsZero(x: Num)
    requires x.Fin?
    ensures RadiansToTurns(x) == ZERO <==> x == ZERO
  {
    assert RADIANS_TO_TURNS > 0.0;
  }

  /** A command and its mirror image are the same setpoints exactly if the channels of the level are zero. */
  lemma MirroredSetpoints(cfg: JointConfig, level: Level, t: Triple)
    requires Sendable(level, t)
    ensures SetpointOps(cfg, level, Negated(t)) == SetpointOps(cfg, level, t) <==> ZeroChannels(level, t)
  {
    hide SetpointOps, SameFloat, SameAngle;
    SetpointsSame(cfg, level, Negated(t), t);
    if level == POSITION {
      MirroredAngle(t.pos);
    }
    if level == POSITION || level == VELOCITY {
      MirroredAngle(t.vel);
    }
    if level != UNDEFINED {
      MirroredFloat(t.eff);
    }
  }

  lemma ZeroFloat(x: Num)
    requires x.Fin?
    ensures SameFloat(x, ZERO) <==> x == ZERO
    ensures SameAngle(x, ZERO) <==> x == ZERO
  {
    TurnsZero(x);
    TurnsZero(ZERO);
  }
}
