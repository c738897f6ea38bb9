/** The turn of one joint in write(): what becomes of its command, channel by channel, what is put on its axis
    and what is remembered of it. */
module Commands {
  import opened Numeric
  import opened Transport
  import opened Joints
  import opened Axis
  import opened Cycle
  import opened Turns
  import Bumpless
  import Masking
  import Motion

  // ---- limits ----

  /** Bounds that are no numbers, or lie at their own end of infinity, exclude nothing. */
  predicate AtLeast(x: real, bound: Option<Num>) {
    match bound
    case Some(Fin(b)) => b <= x
    case Some(PosInf) => false
    case _ => true
  }

  predicate AtMost(x: real, bound: Option<Num>) {
    match bound
    case Some(Fin(b)) => x <= b
    case Some(NegInf) => false
    case _ => true
  }

  predicate Passes(x: Num, range: Range) { x.Fin? && AtLeast(x.r, range.min) && AtMost(x.r, range.max) }

  lemma PassesExactly(x: Num, range: Range)
    ensures ValidComponent(x, range) <==> Passes(x, range)
  {
  }

  /** What the level sends is finite and within its limits. */
  predicate Permitted(limits: CommandLimits, level: Level, pos: Num, vel: Num, eff: Num) {
    match level
    case POSITION => Passes(pos, limits.pos) && Passes(vel, limits.vel) && Passes(eff, limits.eff)
    case VELOCITY => Passes(vel, limits.vel) && Passes(eff, limits.eff)
    case EFFORT => Passes(eff, limits.eff)
    case UNDEFINED => true
  }

  lemma StepChanges(x: Num, last: real, step: real)
    requires step >= 0.0
    ensures StepTowards(x, last, step) != x <==> Less(Fin(step), Abs(Sub(x, Fin(last))))
  {
  }

  lemma Product(x: Num, y: Num)
    requires x.Fin? && y.Fin?
    ensures Mul(x, y) == Fin(x.r * y.r)
    ensures x.r >= 0.0 && y.r >= 0.0 ==> x.r * y.r >= 0.0
  {
  }

  /** With a rate that is not negative, limiting shows exactly by changing the command. */
  lemma ExceedsExactly(x: Num, last: Num, rate: Option<Num>, dt: real)
    requires Motion.RateOk(rate) && dt > 0.0
    ensures RateExceeded(x, last, rate, dt) <==> RateLimited(x, last, rate, dt) != x
  {
    if rate.Some? && last.Fin? {
      hide Mul, Less, Abs, Sub, StepTowards, RateLimited;
      Product(rate.value, Fin(dt));
      RateLimitedMeaning(x, last, rate.value.r, dt);
      StepChanges(x, last.r, rate.value.r * dt);
    } else {
      NotLimited(x, last, rate, dt);
    }
  }

  lemma NotLimited(x: Num, last: Num, rate: Option<Num>, dt: real)
    requires rate.None? || !last.Fin?
    ensures !RateExceeded(x, last, rate, dt) && RateLimited(x, last, rate, dt) == x
  {
  }

  /** The command after limiting: each channel from the last one sent, the position at POSITION level only,
      the velocity at POSITION and VELOCITY level, the effort always. */
  function Limited(j: Joint, dt: real): Triple {
    var limits, last := j.cfg.limits, j.core.lastCmd;
    Triple(if j.level == POSITION then RateLimited(j.cmd.pos, last.pos, limits.posRate, dt) else j.cmd.pos,
           if j.level == POSITION || j.level == VELOCITY
           then RateLimited(j.cmd.vel, last.vel, limits.velRate, dt) else j.cmd.vel,
           RateLimited(j.cmd.eff, last.eff, limits.effRate, dt))
  }

  /** Holding still, as far as the measured state is finite. */
  function HoldStill(j: Joint): Triple {
    Triple(if j.core.kin.pos.Fin? then j.core.kin.pos else ZERO,
           if j.core.kin.vel.Fin? then j.core.kin.vel else ZERO, ZERO)
  }

  function One(b: bool): nat { if b then 1 else 0 }

  /** The limited command if the level may send it, and otherwise holding still; each flag tells whether its
      channel was changed by the limiter, and flags and rejections are counted. */
  lemma ShapeMeaning(j: Joint, dt: real, stats: Stats)
    requires dt > 0.0 && Bumpless.RatesOk(j.cfg.limits)
    ensures var l, t, k := Limited(j, dt), JointShape(j, dt), ShapedJoint(j, dt);
            var permitted := Permitted(j.cfg.limits, j.level, l.pos, l.vel, l.eff);
            && t.cmd == (if permitted then l else HoldStill(j)) && t.rejected == !permitted
            && (t.pos <==> l.pos != j.cmd.pos) && (t.vel <==> l.vel != j.cmd.vel) && (t.eff <==> l.eff != j.cmd.eff)
            && k == j.(cmd := t.cmd, core := j.core.(posLimited := t.pos, velLimited := t.vel, effLimited := t.eff))
            && Counted(j, dt, stats) ==
               stats.(rateLimits := stats.rateLimits + One(t.pos) + One(t.vel) + One(t.eff),
                      rejections := stats.rejections + One(t.rejected))
  {
    hide RateLimited, RateExceeded, Permitted, ValidCommand, Limit;
    LimitMeaning(j, dt);
    PermittedExactly(j.cfg.limits, j.level, Limited(j, dt));
  }

  lemma LimitMeaning(j: Joint, dt: real)
    requires dt > 0.0 && Bumpless.RatesOk(j.cfg.limits)
    ensures var l := Limited(j, dt);
            Limit(j.cfg.limits, j.level, j.cmd, j.core.lastCmd, dt) ==
            Limits(l, l.pos != j.cmd.pos, l.vel != j.cmd.vel, l.eff != j.cmd.eff)
  {
    hide RateLimited, RateExceeded;
    var limits, last := j.cfg.limits, j.core.lastCmd;
    ExceedsExactly(j.cmd.pos, last.pos, limits.posRate, dt);
    ExceedsExactly(j.cmd.vel, last.vel, limits.velRate, dt);
    ExceedsExactly(j.cmd.eff, last.eff, limits.effRate, dt);
  }

  lemma PermittedExactly(limits: CommandLimits, level: Level, t: Triple)
    ensures ValidCommand(limits, level, t) <==> Permitted(limits, level, t.pos, t.vel, t.eff)
  {
    hide ValidComponent, Passes;
    PassesExactly(t.pos, limits.pos);
    PassesExactly(t.vel, limits.vel);
    PassesExactly(t.eff, limits.eff);
  }

  // ---- the turn ----

  /** The setpoints of a level in turns, turns per second and newton metres, saturated to floats, and the
      feed of the watchdog after them. */
  function Script(cfg: JointConfig, level: Level, t: Triple): seq<Op> {
    var feed := if cfg.watchdog then [Invoke(cfg, WATCHDOG_FEED)] else [];
    match level
    case POSITION => [Put(cfg, INPUT_POS, InTurns(t.pos)), Put(cfg, INPUT_VEL, InTurns(t.vel)),
                      Put(cfg, INPUT_TORQUE, F32(Saturate(t.eff)))] + feed
    case VELOCITY => [Put(cfg, INPUT_VEL, InTurns(t.vel)), Put(cfg, INPUT_TORQUE, F32(Saturate(t.eff)))] + feed
    case EFFORT => [Put(cfg, INPUT_TORQUE, F32(Saturate(t.eff)))] + feed
    case UNDEFINED => []
  }

  lemma ScriptMeaning(cfg: JointConfig, level: Level, t: Triple)
    ensures CommandOps(cfg, level, t) == Script(cfg, level, t)
  {
    hide AxisEndpoint, Saturate, RadiansToTurns;
    assert forall s: seq<Op> :: s + [] == s;
  }

  /** The command in the frame of the motor. */
  function Motorwards(j: Joint, t: Triple): Triple {
    if j.cfg.invert then Triple(Neg(t.pos), Neg(t.vel), Neg(t.eff)) else t
  }

  /** After an attempt to send t: the outcome is remembered, and of a complete one also the command and, where
      commands are gated, its sequence number. */
  function Attempt(c: Context, k: Joint, t: Triple, status: int): Joint {
    k.(cmd := t, core := k.core.(faulted := false, idleRequested := false, writeError := status,
         lastCmd := if status == 0 then t else k.core.lastCmd,
         lastSeq := if status == 0 && c.safety.gateStale then k.seqNo else k.core.lastSeq))
  }

  /** What the turn of a joint in write() puts on its axis, in order and up to the first failure, and what the
      joint remembers; k is the joint with its command limited, checked and replaced. */
  lemma TurnMeaning(c: Context, log: Log, dt: real, j: Joint)
    ensures var r, k := WriteJoint(c, log, dt, j), ShapedJoint(j, dt);
            var t := Motorwards(j, k.cmd);
            && (!MaskedBy(c, j.core.errs) && Masking.NewCommand(c.safety, j) ==>
                  exists status ::
                    Issues(log, r.log, Script(j.cfg, j.level, t), status) && r.joint == Attempt(c, k, t, status))
            && (!MaskedBy(c, j.core.errs) && !Masking.NewCommand(c.safety, j) ==>
                  && r.log == log
                  && r.joint == k.(core := k.core.(faulted := false, idleRequested := false, writeError := 0)))
            && (MaskedBy(c, j.core.errs) && !(c.safety.idleOnFault && !j.core.idleRequested) ==>
                  r.log == log && r.joint == k.(core := k.core.(faulted := true)))
            && (MaskedBy(c, j.core.errs) && c.safety.idleOnFault && !j.core.idleRequested ==>
                  exists status ::
                    && Issues(log, r.log, [Put(j.cfg, REQUESTED_STATE, I32(1))], status)
                    && r.joint == k.(core := k.core.(faulted := true, idleRequested := status == 0,
                                                     writeError := if status == 0 then k.core.writeError else status)))
  {
    hide DoAll, CommandOps, JointShape, MaskedBy, HasFault, Issues, Script, AxisEndpoint, AfterSend;
    FaultMeaning(c, j.core.errs);
    var k := ShapedJoint(j, dt);
    var t := Motorwards(j, k.cmd);
    ScriptMeaning(j.cfg, j.level, t);
    DoAllIssues(c.env, log, Script(j.cfg, j.level, t));
    DoIssues(c.env, log, Put(j.cfg, REQUESTED_STATE, I32(1)));
    if !HasFault(c.safety, j.core.errs) && Masking.NewCommand(c.safety, j) {
      var v := Inverted(Unfaulted(k));
      var (status, log') := DoAll(c.env, log, Script(j.cfg, j.level, t));
      AttemptMeaning(c, k, t, v, (status, log'));
      assert Issues(log, WriteJoint(c, log, dt, j).log, Script(j.cfg, j.level, t), status);
    } else if HasFault(c.safety, j.core.errs) && c.safety.idleOnFault && !j.core.idleRequested {
      var status := c.env(log, IdleOp(j.cfg)).status;
      assert Issues(log, WriteJoint(c, log, dt, j).log, [Put(j.cfg, REQUESTED_STATE, I32(1))], status);
    }
  }

  lemma AttemptMeaning(c: Context, k: Joint, t: Triple, v: Joint, r: (int, Log))
    requires v == Unfaulted(k).(cmd := t)
    ensures AfterSend(c, v, r).joint == Attempt(c, k, t, r.0) && AfterSend(c, v, r).log == r.1
  {
  }

  /** Where commands are gated, a command that was sent completely is not sent again: whatever is polled and
      commanded in between, without a new sequence number the next turn leaves the axis alone. */
  lemma SentOnce(c: Context, log: Log, dt: real, j: Joint, log2: Log, dt2: real, k: Joint)
    requires 0 <= j.cfg.axis <= 1 && c.safety.gateStale && WriteJoint(c, log, dt, j).sent
    requires k.cfg == j.cfg && k.seqNo == j.seqNo && k.core.lastSeq == WriteJoint(c, log, dt, j).joint.core.lastSeq
    ensures !Masking.DrivesIn(WriteJoint(c, log2, dt2, k).log, |log2|, j.cfg)
  {
    hide WriteJoint, Masking.DrivesIn;
    SentSequence(c, log, dt, j);
    Masking.TurnExactly(c, log2, dt2, k);
  }

  lemma SentSequence(c: Context, log: Log, dt: real, j: Joint)
    requires c.safety.gateStale && WriteJoint(c, log, dt, j).sent
    ensures j.seqNo.Fin? && WriteJoint(c, log, dt, j).joint.core.lastSeq == j.seqNo
  {
    hide MaskJoint, SendJoint, JointShape, HasFault;
    var k := ShapedJoint(j, dt);
    Motion.MaskRecords(c, log, k);
    SendSequence(c, log, k);
  }

  lemma SendSequence(c: Context, log: Log, j: Joint)
    requires c.safety.gateStale && SendJoint(c, log, j).sent
    ensures j.seqNo.Fin? && SendJoint(c, log, j).joint.core.lastSeq == j.seqNo
  {
    hide DoAll, CommandOps, Negated;
  }

  /** A period that is no positive number counts as one millisecond. */
  lemma PeriodMeaning(r: real)
    ensures r > 0.0 ==> EffectiveDt(Fin(r)) == r
    ensures r <= 0.0 ==> 1000.0 * EffectiveDt(Fin(r)) == 1.0
    ensures 1000.0 * EffectiveDt(NaN) == 1000.0 * EffectiveDt(PosInf) == 1000.0 * EffectiveDt(NegInf) == 1.0
  {
  }
}
