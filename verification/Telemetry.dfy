/** What a telemetry poll makes of the words and floats the drive answered, register by register, and which
    of these words keep setpoints and feeds away from the axis. */
module Telemetry {
  import opened Numeric
  import opened Transport
  import opened Joints
  import opened Axis
  import opened Cycle

  /** The answer to the last read of a register of this axis. */
  function Answer(log: Log, cfg: JointConfig, base: int): Option<Reply> {
    LastRead(log, cfg.serial, AxisEndpoint(base, cfg.axis))
  }

  lemma PollAnswer(env: Env, log: Log, cfg: JointConfig, k: nat, base: int)
    requires 0 <= cfg.axis <= 1 && DoAll(env, log, TelemetryOps(cfg)).0 == 0
    requires k < 9 && TelemetryOps(cfg)[k] == Read(cfg.serial, AxisEndpoint(base, cfg.axis))
    requires forall m | k < m < 9 :: TelemetryOps(cfg)[m] != TelemetryOps(cfg)[k]
    ensures var t := DoAll(env, log, TelemetryOps(cfg)).1;
            |t| == |log| + 9 && Answer(t, cfg, base) == Some(t[|log| + k].reply)
  {
    hide DoAll, TelemetryOps, AxisEndpoint, LastRead;
    var t := DoAll(env, log, TelemetryOps(cfg)).1;
    DoAllIssued(env, log, TelemetryOps(cfg));
    assert forall q | |log| <= q < |t| :: t[q].op == TelemetryOps(cfg)[q - |log|];
    OnlyReads(cfg);
    LastReadAt(t, |log| + k);
  }

  lemma OnlyReads(cfg: JointConfig)
    ensures forall m | 0 <= m < 9 :: TelemetryOps(cfg)[m].Read? && TelemetryOps(cfg)[m].serial == cfg.serial
  {
    hide AxisEndpoint;
  }

  lemma NineRegisters(cfg: JointConfig)
    requires 0 <= cfg.axis <= 1
    ensures forall k, m | 0 <= k < m < 9 :: TelemetryOps(cfg)[k] != TelemetryOps(cfg)[m]
  {
  }

  /** The nine answers of a complete poll. */
  lemma PollAnswers(env: Env, log: Log, cfg: JointConfig)
    requires 0 <= cfg.axis <= 1 && DoAll(env, log, TelemetryOps(cfg)).0 == 0
    ensures var t := DoAll(env, log, TelemetryOps(cfg)).1;
            && |t| == |log| + 9
            && Answer(t, cfg, IQ_MEASURED) == Some(t[|log|].reply)
            && Answer(t, cfg, VEL_ESTIMATE) == Some(t[|log| + 1].reply)
            && Answer(t, cfg, POS_ESTIMATE) == Some(t[|log| + 2].reply)
            && Answer(t, cfg, AXIS_ERROR) == Some(t[|log| + 3].reply)
            && Answer(t, cfg, MOTOR_ERROR) == Some(t[|log| + 4].reply)
            && Answer(t, cfg, ENCODER_ERROR) == Some(t[|log| + 5].reply)
            && Answer(t, cfg, CONTROLLER_ERROR) == Some(t[|log| + 6].reply)
            && Answer(t, cfg, FET_TEMPERATURE) == Some(t[|log| + 7].reply)
            && Answer(t, cfg, MOTOR_TEMPERATURE) == Some(t[|log| + 8].reply)
  {
    hide DoAll, Answer, AxisEndpoint;
    NineRegisters(cfg);
    PollAnswer(env, log, cfg, 0, IQ_MEASURED);
    PollAnswer(env, log, cfg, 1, VEL_ESTIMATE);
    PollAnswer(env, log, cfg, 2, POS_ESTIMATE);
    PollAnswer(env, log, cfg, 3, AXIS_ERROR);
    PollAnswer(env, log, cfg, 4, MOTOR_ERROR);
    PollAnswer(env, log, cfg, 5, ENCODER_ERROR);
    PollAnswer(env, log, cfg, 6, CONTROLLER_ERROR);
    PollAnswer(env, log, cfg, 7, FET_TEMPERATURE);
    PollAnswer(env, log, cfg, 8, MOTOR_TEMPERATURE);
  }

  // ---- which samples are accepted ----

  /** |x| does not exceed the limit; a limit that is no number, or positive infinity, excludes nothing. */
  predicate Bounded(x: real, limit: Option<Num>) {
    match limit
    case Some(Fin(b)) => -b <= x <= b
    case Some(NegInf) => false
    case _ => true
  }

  /** A position and a velocity in turns, a current, and a torque constant. */
  predicate Acceptable(cfg: JointConfig, lastValid: Num, pos: Num, vel: Num, iq: Num, torque: Num) {
    && pos.Fin? && vel.Fin? && iq.Fin? && torque.Fin?
    && Bounded(vel.r * TURNS_TO_RADIANS, cfg.feedback.maxVelocity)
    && Bounded(iq.r * torque.r, cfg.feedback.maxEffort)
    && (lastValid.Fin? ==> Bounded(pos.r * TURNS_TO_RADIANS - lastValid.r, cfg.feedback.maxJump))
  }

  lemma AbsBounded(x: Num, limit: Option<Num>)
    requires x.Fin?
    ensures !(limit.Some? && Less(limit.value, Abs(x))) <==> Bounded(x.r, limit)
  {
  }

  lemma ProductFinite(x: Num, y: Num)
    ensures Mul(x, y).Fin? <==> x.Fin? && y.Fin?
    ensures x.Fin? && y.Fin? ==> Mul(x, y).r == x.r * y.r
  {
  }

  lemma FeedbackExactly(cfg: JointConfig, lastValid: Num, pos: Num, vel: Num, iq: Num, torque: Num, s: Sample)
    requires s.kin == Triple(TurnsToRadians(pos), TurnsToRadians(vel), Mul(iq, torque))
    ensures FeedbackValid(cfg, lastValid, s) <==> Acceptable(cfg, lastValid, pos, vel, iq, torque)
  {
    hide Mul, Less, Abs, Bounded, Sub;
    ProductFinite(pos, Fin(TURNS_TO_RADIANS));
    ProductFinite(vel, Fin(TURNS_TO_RADIANS));
    ProductFinite(iq, torque);
    if AllFinite(s.kin) {
      AbsBounded(s.kin.vel, cfg.feedback.maxVelocity);
      AbsBounded(s.kin.eff, cfg.feedback.maxEffort);
      assert s.kin.vel.r == vel.r * TURNS_TO_RADIANS && s.kin.eff.r == iq.r * torque.r;
      if lastValid.Fin? {
        var jump := pos.r * TURNS_TO_RADIANS - lastValid.r;
        Difference(s.kin.pos, lastValid);
        assert Sub(s.kin.pos, lastValid) == Fin(jump);
        AbsBounded(Fin(jump), cfg.feedback.maxJump);
        assert Acceptable(cfg, lastValid, pos, vel, iq, torque) <==>
               Bounded(s.kin.vel.r, cfg.feedback.maxVelocity) && Bounded(s.kin.eff.r, cfg.feedback.maxEffort) &&
               Bounded(jump, cfg.feedback.maxJump);
      }
    }
  }

  lemma Difference(x: Num, y: Num)
    requires x.Fin? && y.Fin?
    ensures Sub(x, y) == Fin(x.r - y.r)
  {
  }

  // ---- what is exported ----

  /** A 32-bit register word read as int32. */
  predicate ReadAsInt32(x: Num, word: int) {
    && x.Fin? && x.r == x.r.Floor as real && -0x8000_0000 <= x.r.Floor < 0x8000_0000
    && (x.r.Floor - word) % 0x1_0000_0000 == 0
  }

  predicate ClearWord(word: int) { word % 0x1_0000_0000 == 0 }

  lemma RegisterIsInt32(word: int)
    ensures ReadAsInt32(Register(word), word)
    ensures Same(Register(word), ZERO) <==> ClearWord(word)
  {
    var i := ToInt32(word);
    assert (i as real).Floor == i;
  }

  /** The four error words of a poll. */
  predicate ExportsErrors(log: Log, cfg: JointConfig, errs: Registers) {
    && Answer(log, cfg, AXIS_ERROR).Some? && ReadAsInt32(errs.axis, Answer(log, cfg, AXIS_ERROR).value.word)
    && Answer(log, cfg, MOTOR_ERROR).Some? && ReadAsInt32(errs.motor, Answer(log, cfg, MOTOR_ERROR).value.word)
    && Answer(log, cfg, ENCODER_ERROR).Some?
    && ReadAsInt32(errs.encoder, Answer(log, cfg, ENCODER_ERROR).value.word)
    && Answer(log, cfg, CONTROLLER_ERROR).Some?
    && ReadAsInt32(errs.controller, Answer(log, cfg, CONTROLLER_ERROR).value.word)
  }

  predicate ClearAnswer(r: Option<Reply>) { r.Some? && ClearWord(r.value.word) }

  /** All four error words of a poll are zero. */
  predicate NoErrors(log: Log, cfg: JointConfig) {
    && ClearAnswer(Answer(log, cfg, AXIS_ERROR)) && ClearAnswer(Answer(log, cfg, MOTOR_ERROR))
    && ClearAnswer(Answer(log, cfg, ENCODER_ERROR)) && ClearAnswer(Answer(log, cfg, CONTROLLER_ERROR))
  }

  predicate ExportsTemperatures(log: Log, cfg: JointConfig, fet: Num, motor: Num) {
    && Answer(log, cfg, FET_TEMPERATURE).Some? && fet == Answer(log, cfg, FET_TEMPERATURE).value.num
    && Answer(log, cfg, MOTOR_TEMPERATURE).Some? && motor == Answer(log, cfg, MOTOR_TEMPERATURE).value.num
  }

  /** Position and velocity from turns to radians, and the torque of a current, in the frame of the joint. */
  function MotionOf(invert: bool, torque: real, pos: real, vel: real, iq: real): Triple {
    var p, v, e := pos * TURNS_TO_RADIANS, vel * TURNS_TO_RADIANS, iq * torque;
    if invert then Triple(Fin(-p), Fin(-v), Fin(-e)) else Triple(Fin(p), Fin(v), Fin(e))
  }

  predicate FiniteAnswer(r: Option<Reply>) { r.Some? && r.value.num.Fin? }

  /** The reported motion. */
  predicate ExportsMotion(log: Log, j: Joint, kin: Triple) {
    && FiniteAnswer(Answer(log, j.cfg, POS_ESTIMATE)) && FiniteAnswer(Answer(log, j.cfg, VEL_ESTIMATE))
    && FiniteAnswer(Answer(log, j.cfg, IQ_MEASURED)) && j.torque.Fin?
    && kin == MotionOf(j.cfg.invert, j.torque.r, Answer(log, j.cfg, POS_ESTIMATE).value.num.r,
                       Answer(log, j.cfg, VEL_ESTIMATE).value.num.r, Answer(log, j.cfg, IQ_MEASURED).value.num.r)
  }

  /** The poll was complete, and what it read passes the feedback limits. */
  predicate AcceptedPoll(c: Context, log: Log, j: Joint) {
    var (status, t) := DoAll(c.env, log, TelemetryOps(j.cfg));
    && status == 0
    && var pos, vel := Answer(t, j.cfg, POS_ESTIMATE), Answer(t, j.cfg, VEL_ESTIMATE);
       var iq := Answer(t, j.cfg, IQ_MEASURED);
       && pos.Some? && vel.Some? && iq.Some?
       && Acceptable(j.cfg, j.core.lastValidPos, pos.value.num, vel.value.num, iq.value.num, j.torque)
  }

  lemma SampleAnswers(c: Context, log: Log, j: Joint)
    requires 0 <= j.cfg.axis <= 1 && DoAll(c.env, log, TelemetryOps(j.cfg)).0 == 0
    ensures var t := DoAll(c.env, log, TelemetryOps(j.cfg)).1;
            && |t| == |log| + 9
            && var s := SampleOf(j.torque, t[|log|..]);
               && ExportsErrors(t, j.cfg, s.errs)
               && (AllClear(s.errs) <==> NoErrors(t, j.cfg))
               && ExportsTemperatures(t, j.cfg, s.fetTemp, s.motorTemp)
               && (FeedbackValid(j.cfg, j.core.lastValidPos, s) <==> AcceptedPoll(c, log, j))
               && (FeedbackValid(j.cfg, j.core.lastValidPos, s) ==> ExportsMotion(t, j, Signed(j.cfg.invert, s.kin)))
  {
    hide DoAll, Answer, TelemetryOps, Register, ReadAsInt32, ClearWord, FeedbackValid, Acceptable, Same, Signed;
    hide TurnsToRadians, Mul, AllClear, MotionOf;
    PollAnswers(c.env, log, j.cfg);
    var t := DoAll(c.env, log, TelemetryOps(j.cfg)).1;
    var b := t[|log|..];
    RegisterIsInt32(b[3].reply.word);
    RegisterIsInt32(b[4].reply.word);
    RegisterIsInt32(b[5].reply.word);
    RegisterIsInt32(b[6].reply.word);
    var s := SampleOf(j.torque, b);
    assert AllClear(s.errs) <==> Same(s.errs.axis, ZERO) && Same(s.errs.motor, ZERO) && Same(s.errs.encoder, ZERO)
                                 && Same(s.errs.controller, ZERO) by { ClearMeaning(s.errs); }
    FeedbackExactly(j.cfg, j.core.lastValidPos, b[2].reply.num, b[1].reply.num, b[0].reply.num, j.torque, s);
    if FeedbackValid(j.cfg, j.core.lastValidPos, s) {
      MotionMeaning(j, b[2].reply.num, b[1].reply.num, b[0].reply.num, s.kin);
    }
  }

  lemma ClearMeaning(errs: Registers)
    ensures AllClear(errs) <==> Same(errs.axis, ZERO) && Same(errs.motor, ZERO) && Same(errs.encoder, ZERO)
                                && Same(errs.controller, ZERO)
  {
  }

  lemma MotionMeaning(j: Joint, pos: Num, vel: Num, iq: Num, kin: Triple)
    requires Acceptable(j.cfg, j.core.lastValidPos, pos, vel, iq, j.torque)
    requires kin == Triple(TurnsToRadians(pos), TurnsToRadians(vel), Mul(iq, j.torque))
    ensures pos.Fin? && vel.Fin? && iq.Fin? && j.torque.Fin?
    ensures Signed(j.cfg.invert, kin) == MotionOf(j.cfg.invert, j.torque.r, pos.r, vel.r, iq.r)
  {
    hide Bounded, Mul;
    ProductFinite(pos, Fin(TURNS_TO_RADIANS));
    ProductFinite(vel, Fin(TURNS_TO_RADIANS));
    ProductFinite(iq, j.torque);
    SignFlip(kin.pos);
    SignFlip(kin.vel);
    SignFlip(kin.eff);
    assert kin.pos == Fin(pos.r * TURNS_TO_RADIANS) && kin.vel == Fin(vel.r * TURNS_TO_RADIANS);
    assert kin.eff == Fin(iq.r * j.torque.r);
  }

  lemma SignFlip(x: Num)
    requires x.Fin?
    ensures Mul(x, Fin(-1.0)) == Fin(-x.r) && Mul(x, Fin(1.0)) == x
  {
  }

  /** A joint that keeps what it knew, held still at its last valid position. */
  predicate HeldBy(j: Joint, k: Joint, error: int) {
    var p := if j.core.lastValidPos.Fin? then j.core.lastValidPos else ZERO;
    k == j.(core := j.core.(kin := Triple(p, ZERO, ZERO), lastValidPos := p, readError := error,
                            telemetryValid := false, healthy := false))
  }

  /** What a poll of a joint leaves, from what the drive answered: unfinished, the joint is held and reports
      the failed status; outside the feedback limits, it is held and reports -1; accepted, it exports the
      four error words as int32, both temperatures and, if all four words are clear, the reported motion, and
      is healthy exactly then. The poll is also reported to the sensor of its drive, unless it was rejected. */
  lemma PollMeaning(c: Context, log: Log, j: Joint)
    requires 0 <= j.cfg.axis <= 1
    ensures var r := ReadJoint(c, log, j);
            var (status, t) := DoAll(c.env, log, TelemetryOps(j.cfg));
            var clear := AcceptedPoll(c, log, j) && NoErrors(t, j.cfg);
            && r.status == status && r.log == t
            && (status != 0 && !FailFast(status) ==> HeldBy(j, r.joint, status) && r.mark == Some(status))
            && (status != 0 && FailFast(status) ==> r.joint == j && r.mark == None)
            && (status == 0 && !AcceptedPoll(c, log, j) ==> HeldBy(j, r.joint, -1) && r.mark == None)
            && (AcceptedPoll(c, log, j) ==>
                  && r.mark == Some(0) && r.joint.core.readError == 0 && r.joint.core.telemetryValid
                  && ExportsErrors(t, j.cfg, r.joint.core.errs)
                  && ExportsTemperatures(t, j.cfg, r.joint.core.fetTemp, r.joint.core.motorTemp)
                  && (r.joint.core.healthy <==> clear))
            && (clear ==> ExportsMotion(t, j, r.joint.core.kin) && r.joint.core.lastValidPos == r.joint.core.kin.pos
                          && r.joint.core.lastValidVel == r.joint.core.kin.vel)
  {
    hide DoAll, TelemetryOps, FeedbackValid, AllClear, Answer, Signed, SampleOf, ReadAsInt32, ClearWord, Acceptable;
    hide ExportsErrors, ExportsMotion;
    DoAllIssued(c.env, log, TelemetryOps(j.cfg));
    if DoAll(c.env, log, TelemetryOps(j.cfg)).0 == 0 {
      SampleAnswers(c, log, j);
      PollAnswers(c.env, log, j.cfg);
    }
  }
}
