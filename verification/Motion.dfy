/** Commanded motion over runs: the slew bound, and convergence to a constant target. */
module Motion {
  import opened Numeric
  import opened Transport
  import opened Joints
  import opened Axis
  import opened Cycle
  import opened Runs
  import opened Discipline
  import Frozen

  /** This write() sent joint i all its setpoints. */
  predicate SentIn(c: Context, s: Hw, period: Num, i: nat)
    requires i < |s.joints|
  {
    var turn := Turn(c, s, period, i);
    turn.Some? && WriteJoint(c, turn.value, EffectiveDt(period), s.joints[i]).sent
  }

  function Sent(c: Context, s: Hw, a: Api, i: nat): bool
    requires i < |s.joints|
  {
    a.WriteCall? && SentIn(c, s, a.period, i)
  }

  /** The command a joint sends in write(), in the frame of the motor. */
  function SentCommand(j: Joint, dt: real): Triple { Oriented(j.cfg, JointShape(j, dt).cmd) }

  lemma AfterSendRecords(c: Context, v: Joint, r: (int, Log))
    ensures var w := AfterSend(c, v, r); w.joint.core.lastCmd == if w.sent then v.cmd else v.core.lastCmd
  {
  }

  lemma SendJointRecords(c: Context, log: Log, j: Joint)
    ensures var r := SendJoint(c, log, j);
            r.joint.core.lastCmd == if r.sent then Oriented(j.cfg, j.cmd) else j.core.lastCmd
  {
    hide DoAll, CommandOps, Negated, AfterSend, Stale;
    var v := Inverted(Unfaulted(j));
    AfterSendRecords(c, v, DoAll(c.env, log, CommandOps(v.cfg, v.level, v.cmd)));
  }

  lemma MaskRecords(c: Context, log: Log, j: Joint)
    ensures var r := MaskJoint(c, log, j); r.joint.core.lastCmd == j.core.lastCmd && !r.sent
  {
    hide IdleOp, FailFast, AxisEndpoint;
    var m := j.(core := j.core.(faulted := true));
    assert m.core.lastCmd == j.core.lastCmd;
  }

  lemma SendRecords(c: Context, log: Log, dt: real, j: Joint)
    ensures var r := WriteJoint(c, log, dt, j);
            r.joint.core.lastCmd == if r.sent then SentCommand(j, dt) else j.core.lastCmd
  {
    hide SendJoint, MaskJoint, JointShape, Oriented, HasFault;
    SendJointRecords(c, log, ShapedJoint(j, dt));
    MaskRecords(c, log, ShapedJoint(j, dt));
  }

  /** Only a complete send moves the record of the last command; recover and cleanup reset it. */
  lemma StepLastCmd(c: Context, s: Hw, a: Api, i: nat)
    requires i < |s.joints| && !a.Cleanup?
    ensures |Step(c, s, a).joints| == |s.joints|
    ensures Step(c, s, a).joints[i].core.lastCmd ==
            if Sent(c, s, a, i) then SentCommand(s.joints[i], EffectiveDt(a.period)) else s.joints[i].core.lastCmd
  {
    hide ReadSpec, WriteSpec, SwitchSpec, InitJoints, DoAll, WriteJoint, SentCommand;
    StepConfig(c, s, a);
    match a {
      case ReadCall => ReadSpecJointFrame(c, s, i);
      case WriteCall(period) =>
        WriteSpecJoint(c, s, period, i);
        if Turn(c, s, period, i).Some? {
          SendRecords(c, Turn(c, s, period, i).value, EffectiveDt(period), s.joints[i]);
        }
      case Switch => SwitchSpecFrame(c, s, i);
      case Activate(created) => Frozen.InitKeepsKin(c, s.(up := true, log := Do(c.env, s.log, Open)), 0, i);
      case _ =>
    }
  }

  /** A complete send put the recorded position on the wire. */
  lemma SentOnWire(c: Context, log: Log, dt: real, j: Joint)
    requires WriteJoint(c, log, dt, j).sent && j.level == POSITION
    ensures var block := WriteJoint(c, log, dt, j).log;
            && |block| > |log|
            && block[|log|].op == PosOp(j.cfg, SentCommand(j, dt))
            && block[|log|].reply.status == 0
  {
    hide WriteJoint, DoAll, PosOp, VelOp, TorqueOp, JointShape;
    WriteBlock(c, log, dt, j);
    DoAllIssued(c.env, log, SentOps(j, dt));
    var block := WriteJoint(c, log, dt, j).log;
    assert block[|log|] == Event(SentOps(j, dt)[0], c.env(block[..|log|], SentOps(j, dt)[0]));
  }

  // ---- slew bound ----

  function TimeOf(c: Context, s: Hw, a: Api, i: nat): real
    requires i < |s.joints|
  {
    if Sent(c, s, a, i) then EffectiveDt(a.period) else 0.0
  }

  /** Total effective time of the complete sends of joint i. */
  function SendTime(c: Context, s: Hw, calls: seq<Api>, i: nat): real
    requires i < |s.joints|
  {
    if calls == [] then 0.0
    else
      var m := |calls| - 1;
      var t := Run(c, s, calls[..m]);
      RunConfig(c, s, calls[..m]);
      SendTime(c, s, calls[..m], i) + TimeOf(c, t, calls[m], i)
  }

  /** Whenever joint i is sent, it is at POSITION level and its command was not rejected; it is never
      recovered or cleaned up. */
  ghost predicate PositionThroughout(c: Context, s: Hw, calls: seq<Api>, i: nat)
    requires i < |s.joints|
  {
    forall n | 0 <= n < |calls| ::
      && !calls[n].Cleanup?
      && var t := Run(c, s, calls[..n]);
         i < |t.joints| && (Sent(c, t, calls[n], i) ==>
           t.joints[i].level == POSITION && !JointShape(t.joints[i], EffectiveDt(calls[n].period)).rejected)
  }

  lemma PositionPrefix(c: Context, s: Hw, calls: seq<Api>, i: nat)
    requires i < |s.joints| && calls != [] && PositionThroughout(c, s, calls, i)
    ensures PositionThroughout(c, s, calls[..|calls| - 1], i)
  {
    hide Run, SentIn, JointShape;
    var less := calls[..|calls| - 1];
    forall n | 0 <= n < |less|
      ensures !less[n].Cleanup?
      ensures var t := Run(c, s, less[..n]);
              i < |t.joints| && (Sent(c, t, less[n], i) ==>
                t.joints[i].level == POSITION && !JointShape(t.joints[i], EffectiveDt(less[n].period)).rejected)
    {
      assert less[..n] == calls[..n] && less[n] == calls[n];
    }
  }

  predicate Within(p: Num, q: Num, bound: real) { p.Fin? && q.Fin? && -bound <= q.r - p.r <= bound }

  /** One send of a non-inverted joint moves the recorded position by at most r*dt. */
  lemma SendStep(j: Joint, dt: real, r: real)
    requires !j.cfg.invert && j.level == POSITION && j.cfg.limits.posRate == Some(Fin(r)) && r >= 0.0
    requires j.core.lastCmd.pos.Fin? && dt > 0.0 && !JointShape(j, dt).rejected
    ensures var p := SentCommand(j, dt).pos;
            Within(j.core.lastCmd.pos, p, r * dt)
    ensures SentCommand(j, dt).pos == RateLimited(j.cmd.pos, j.core.lastCmd.pos, j.cfg.limits.posRate, dt)
  {
    hide StepTowards;
    var x := RateLimited(j.cmd.pos, j.core.lastCmd.pos, j.cfg.limits.posRate, dt);
    RateLimitedMeaning(j.cmd.pos, j.core.lastCmd.pos, r, dt);
    StepTowardsMeaning(j.cmd.pos, j.core.lastCmd.pos.r, r * dt);
    assert Limit(j.cfg.limits, j.level, j.cmd, j.core.lastCmd, dt).cmd.pos == x;
  }

  /** How far rate r gets in a time. */
  function Reach(r: real, time: real): real { r * time }

  /** One call of a run moves the recorded position by at most r times the time it adds. */
  lemma SlewStep(c: Context, s: Hw, a: Api, i: nat, r: real)
    requires i < |s.joints| && s.joints[i].core.lastCmd.pos.Fin? && !a.Cleanup?
    requires !s.joints[i].cfg.invert && s.joints[i].cfg.limits.posRate == Some(Fin(r)) && r >= 0.0
    requires Sent(c, s, a, i) ==>
               s.joints[i].level == POSITION && !JointShape(s.joints[i], EffectiveDt(a.period)).rejected
    ensures |Step(c, s, a).joints| == |s.joints|
    ensures Within(s.joints[i].core.lastCmd.pos, Step(c, s, a).joints[i].core.lastCmd.pos, Reach(r, TimeOf(c, s, a, i)))
  {
    hide Step, SentIn, JointShape, SentCommand, EffectiveDt, RateLimited;
    StepLastCmd(c, s, a, i);
    if Sent(c, s, a, i) {
      SendStep(s.joints[i], EffectiveDt(a.period), r);
    } else {
      assert r * 0.0 == 0.0;
    }
  }

  lemma WithinItself(p: Num, r: real)
    requires p.Fin?
    ensures Within(p, p, Reach(r, 0.0))
  {
    assert r * 0.0 == 0.0;
  }

  lemma WithinFinite(p: Num, q: Num, bound: real)
    requires Within(p, q, bound)
    ensures q.Fin?
  {
  }

  lemma Widen(r: real, time: real, more: real, p: Num, q: Num, q': Num)
    requires Within(p, q, Reach(r, time)) && Within(q, q', Reach(r, more))
    ensures Within(p, q', Reach(r, time + more))
  {
    assert r * (time + more) == r * time + r * more;
  }

  /** Over any run the recorded position of a non-inverted joint moves by at most r times the time of
      its complete sends: masked, stale, gated and failed cycles add nothing. */
  lemma {:induction false} SlewBound(c: Context, s: Hw, calls: seq<Api>, i: nat, r: real)
    requires i < |s.joints| && s.joints[i].core.lastCmd.pos.Fin?
    requires !s.joints[i].cfg.invert && s.joints[i].cfg.limits.posRate == Some(Fin(r)) && r >= 0.0
    requires PositionThroughout(c, s, calls, i)
    ensures |Run(c, s, calls).joints| == |s.joints|
    ensures Within(s.joints[i].core.lastCmd.pos, Run(c, s, calls).joints[i].core.lastCmd.pos,
                   Reach(r, SendTime(c, s, calls, i)))
  {
    hide Step, Sent, TimeOf, JointShape, Within, Reach;
    WithinItself(s.joints[i].core.lastCmd.pos, r);
    if calls != [] {
      var m := |calls| - 1;
      var t := Run(c, s, calls[..m]);
      PositionPrefix(c, s, calls, i);
      SlewBound(c, s, calls[..m], i, r);
      WithinFinite(s.joints[i].core.lastCmd.pos, t.joints[i].core.lastCmd.pos, Reach(r, SendTime(c, s, calls[..m], i)));
      RunConfig(c, s, calls[..m]);
      SlewStep(c, t, calls[m], i, r);
      Widen(r, SendTime(c, s, calls[..m], i), TimeOf(c, t, calls[m], i), s.joints[i].core.lastCmd.pos,
            t.joints[i].core.lastCmd.pos, Run(c, s, calls).joints[i].core.lastCmd.pos);
    }
  }

  lemma SentIsWrite(c: Context, s: Hw, a: Api, i: nat)
    requires i < |s.joints| && Sent(c, s, a, i)
    ensures a.WriteCall?
  {
  }

  // ---- convergence ----

  /** The position after k limited steps of size h from l towards t. */
  function Approach(l: real, t: real, h: real, k: nat): real {
    if t >= l then (if t - l <= k as real * h then t else l + k as real * h)
    else (if l - t <= k as real * h then t else l - k as real * h)
  }

  function Distance(l: real, t: real): real { if t >= l then t - l else l - t }

  lemma ApproachStep(l: real, t: real, h: real, k: nat)
    requires h > 0.0
    ensures StepTowards(Fin(t), Approach(l, t, h, k), h) == Fin(Approach(l, t, h, k + 1))
  {
    assert (k + 1) as real * h == k as real * h + h by { Frozen.OneMore(k, h); }
  }

  /** Monotone, without overshoot, and there exactly once k*h covers the distance. */
  lemma ApproachMeaning(l: real, t: real, h: real, k: nat)
    requires h > 0.0
    ensures var p, q := Approach(l, t, h, k), Approach(l, t, h, k + 1);
            && (l <= p <= q <= t || t <= q <= p <= l)
            && (p == t <==> Distance(l, t) <= k as real * h)
  {
    assert (k + 1) as real * h == k as real * h + h by { Frozen.OneMore(k, h); }
    assert k as real * h >= 0.0;
  }

  function Ceil(x: real): int { -((-x).Floor) }

  lemma Scaled(x: real, y: real, h: real)
    requires h > 0.0
    ensures x * h <= y * h <==> x <= y
  {
    if x <= y {
      assert (y - x) * h >= 0.0;
    } else {
      assert (x - y) * h > 0.0;
    }
  }

  /** The number of steps needed is ceil(distance / step). */
  lemma StepsNeeded(d: real, h: real, k: nat)
    requires h > 0.0
    ensures d <= k as real * h <==> Ceil(d / h) <= k
  {
    var x := d / h;
    assert x * h == d;
    Scaled(x, k as real, h);
    var f := (-x).Floor;
    assert f as real <= -x < f as real + 1.0;
    assert x <= k as real <==> -f <= k;
  }

  predicate RateOk(rate: Option<Num>) { rate.None? || (rate.value.Fin? && rate.value.r >= 0.0) }

  predicate ValidTriple(limits: CommandLimits, t: Triple) { ValidCommand(limits, POSITION, t) }

  /** A limited command between two valid ones is valid. */
  lemma LimitedValid(x: Num, last: Num, rate: Option<Num>, range: Range, dt: real)
    requires ValidComponent(x, range) && ValidComponent(last, range) && RateOk(rate) && dt > 0.0
    ensures ValidComponent(if RateExceeded(x, last, rate, dt) then RateLimited(x, last, rate, dt) else x, range)
  {
    hide RateLimited, RateExceeded, StepTowards;
    if rate.Some? {
      RateLimitedMeaning(x, last, rate.value.r, dt);
      StepTowardsMeaning(x, last.r, rate.value.r * dt);
      var y := RateLimited(x, last, rate, dt);
      Between(x, last, y, range);
    } else {
      NoRate(x, last, dt);
    }
  }

  lemma NoRate(x: Num, last: Num, dt: real)
    ensures !RateExceeded(x, last, None, dt)
  {
  }

  lemma Between(x: Num, last: Num, y: Num, range: Range)
    requires ValidComponent(x, range) && ValidComponent(last, range)
    requires y.Fin? && (last.r <= y.r <= x.r || x.r <= y.r <= last.r)
    ensures ValidComponent(y, range)
  {
  }

  /** A joint whose last command and target are both within its limits is never rejected. */
  lemma NeverRejected(j: Joint, dt: real)
    requires j.level == POSITION && dt > 0.0
    requires ValidTriple(j.cfg.limits, j.cmd) && ValidTriple(j.cfg.limits, j.core.lastCmd)
    requires RateOk(j.cfg.limits.posRate) && RateOk(j.cfg.limits.velRate) && RateOk(j.cfg.limits.effRate)
    ensures !JointShape(j, dt).rejected
    ensures ValidTriple(j.cfg.limits, JointShape(j, dt).cmd)
  {
    hide RateLimited, RateExceeded, ValidComponent;
    LimitedValid(j.cmd.pos, j.core.lastCmd.pos, j.cfg.limits.posRate, j.cfg.limits.pos, dt);
    LimitedValid(j.cmd.vel, j.core.lastCmd.vel, j.cfg.limits.velRate, j.cfg.limits.vel, dt);
    LimitedValid(j.cmd.eff, j.core.lastCmd.eff, j.cfg.limits.effRate, j.cfg.limits.eff, dt);
  }

  /** At every write() of the run, joint i is at POSITION level and commanded to the target again. */
  ghost predicate Recommanded(c: Context, s: Hw, calls: seq<Api>, i: nat, target: Triple, dt: real)
    requires i < |s.joints|
  {
    forall n | 0 <= n < |calls| ::
      && !calls[n].Cleanup?
      && (calls[n].WriteCall? ==>
            var t := Run(c, s, calls[..n]);
            && EffectiveDt(calls[n].period) == dt
            && i < |t.joints| && t.joints[i].level == POSITION && t.joints[i].cmd == target)
  }

  lemma RecommandedPrefix(c: Context, s: Hw, calls: seq<Api>, i: nat, target: Triple, dt: real)
    requires i < |s.joints| && calls != [] && Recommanded(c, s, calls, i, target, dt)
    ensures Recommanded(c, s, calls[..|calls| - 1], i, target, dt)
  {
    hide Run;
    var less := calls[..|calls| - 1];
    forall n | 0 <= n < |less|
      ensures !less[n].Cleanup?
      ensures less[n].WriteCall? ==>
                var t := Run(c, s, less[..n]);
                && EffectiveDt(less[n].period) == dt
                && i < |t.joints| && t.joints[i].level == POSITION && t.joints[i].cmd == target
    {
      assert less[..n] == calls[..n] && less[n] == calls[n];
    }
  }

  function Sends(c: Context, s: Hw, calls: seq<Api>, i: nat): nat
    requires i < |s.joints|
  {
    if calls == [] then 0
    else
      var m := |calls| - 1;
      RunConfig(c, s, calls[..m]);
      Sends(c, s, calls[..m], i) + if Sent(c, Run(c, s, calls[..m]), calls[m], i) then 1 else 0
  }

  lemma Upright(j: Joint, dt: real)
    requires !j.cfg.invert
    ensures SentCommand(j, dt) == JointShape(j, dt).cmd
  {
  }

  /** One send of a recommanded joint: the position advances by one step of the approach. */
  lemma SendApproach(j: Joint, dt: real, r: real, l: real, k: nat)
    requires !j.cfg.invert && j.level == POSITION && dt > 0.0 && r > 0.0
    requires j.cfg.limits.posRate == Some(Fin(r))
    requires RateOk(j.cfg.limits.velRate) && RateOk(j.cfg.limits.effRate)
    requires ValidTriple(j.cfg.limits, j.cmd) && ValidTriple(j.cfg.limits, j.core.lastCmd)
    requires j.core.lastCmd.pos == Fin(Approach(l, j.cmd.pos.r, r * dt, k))
    ensures ValidTriple(j.cfg.limits, SentCommand(j, dt))
    ensures SentCommand(j, dt).pos == Fin(Approach(l, j.cmd.pos.r, r * dt, k + 1))
  {
    hide StepTowards, Approach, RateLimited, JointShape, SentCommand, ValidTriple, Within;
    NeverRejected(j, dt);
    Upright(j, dt);
    ValidFinite(j.cfg.limits, j.cmd);
    RateLimitedMeaning(j.cmd.pos, j.core.lastCmd.pos, r, dt);
    SendStep(j, dt, r);
    assert r * dt > 0.0;
    ApproachStep(l, j.cmd.pos.r, r * dt, k);
  }

  /** After k complete sends the recorded position is the k-th point of the approach, whatever else
      happens in the run. */
  lemma {:induction false} Converges(c: Context, s: Hw, calls: seq<Api>, i: nat, target: Triple, r: real, dt: real)
    requires i < |s.joints| && r > 0.0 && dt > 0.0
    requires !s.joints[i].cfg.invert && s.joints[i].cfg.limits.posRate == Some(Fin(r))
    requires RateOk(s.joints[i].cfg.limits.velRate) && RateOk(s.joints[i].cfg.limits.effRate)
    requires ValidTriple(s.joints[i].cfg.limits, target)
    requires ValidTriple(s.joints[i].cfg.limits, s.joints[i].core.lastCmd)
    requires Recommanded(c, s, calls, i, target, dt)
    ensures |Run(c, s, calls).joints| == |s.joints|
    ensures var l := s.joints[i].core.lastCmd.pos.r;
            var k := Sends(c, s, calls, i);
            var q := Run(c, s, calls).joints[i].core.lastCmd;
            && ValidTriple(s.joints[i].cfg.limits, q)
            && q.pos == Fin(Approach(l, target.pos.r, r * dt, k))
            && (q.pos == target.pos <==> Ceil(Distance(l, target.pos.r) / (r * dt)) <= k)
  {
    hide Step, Sent, JointShape, SentCommand, Approach, ValidTriple;
    assert target.pos.Fin? && s.joints[i].core.lastCmd.pos.Fin? by {
      ValidFinite(s.joints[i].cfg.limits, target);
      ValidFinite(s.joints[i].cfg.limits, s.joints[i].core.lastCmd);
    }
    var l := s.joints[i].core.lastCmd.pos.r;
    var h := r * dt;
    if calls == [] {
      ApproachStart(l, target.pos.r, h);
    } else {
      var m := |calls| - 1;
      var t := Run(c, s, calls[..m]);
      RecommandedPrefix(c, s, calls, i, target, dt);
      Converges(c, s, calls[..m], i, target, r, dt);
      RunConfig(c, s, calls[..m]);
      StepLastCmd(c, t, calls[m], i);
      if Sent(c, t, calls[m], i) {
        assert calls[m].WriteCall? by { SentIsWrite(c, t, calls[m], i); }
        SendApproach(t.joints[i], dt, r, l, Sends(c, s, calls[..m], i));
      }
    }
    var k := Sends(c, s, calls, i);
    ApproachMeaning(l, target.pos.r, h, k);
    StepsNeeded(Distance(l, target.pos.r), h, k);
  }

  lemma ApproachStart(l: real, t: real, h: real)
    ensures Approach(l, t, h, 0) == l
  {
    assert 0 as real * h == 0.0;
  }

  lemma ValidFinite(limits: CommandLimits, t: Triple)
    requires ValidTriple(limits, t)
    ensures t.pos.Fin?
  {
  }

  // ---- commands that are not finite ----

  /** Rate limiting comes before validation. A position that is not a number is always rejected; an
      infinite one only if no rate limit applies to it: otherwise it becomes one finite step. */
  lemma NotFinitePosition(j: Joint, dt: real)
    requires j.level == POSITION && dt > 0.0 && RateOk(j.cfg.limits.posRate) && !j.cmd.pos.Fin?
    ensures j.cmd.pos.NaN? ==> JointShape(j, dt).rejected
    ensures var p := Limit(j.cfg.limits, j.level, j.cmd, j.core.lastCmd, dt).cmd.pos;
            && (p.Fin? <==> !j.cmd.pos.NaN? && j.cfg.limits.posRate.Some? && j.core.lastCmd.pos.Fin?)
            && (p.Fin? ==>
                  var step := j.cfg.limits.posRate.value.r * dt;
                  p.r == if j.cmd.pos.PosInf? then j.core.lastCmd.pos.r + step else j.core.lastCmd.pos.r - step)
  {
    hide Limit;
    var last, rate := j.core.lastCmd.pos, j.cfg.limits.posRate;
    LimitedPosition(j, dt);
    if rate.Some? && last.Fin? {
      StepOfInfinite(j.cmd.pos, last, rate.value.r, dt);
    }
  }

  lemma LimitedPosition(j: Joint, dt: real)
    requires j.level == POSITION
    ensures Limit(j.cfg.limits, j.level, j.cmd, j.core.lastCmd, dt).cmd.pos ==
            RateLimited(j.cmd.pos, j.core.lastCmd.pos, j.cfg.limits.posRate, dt)
    ensures var p := Limit(j.cfg.limits, j.level, j.cmd, j.core.lastCmd, dt).cmd.pos;
            !p.Fin? ==> JointShape(j, dt).rejected
  {
    hide Mul, Less, Abs, Sub, Add, CopySign;
  }

  lemma StepOfInfinite(x: Num, last: Num, r: real, dt: real)
    requires !x.Fin? && last.Fin? && r >= 0.0 && dt > 0.0
    ensures RateLimited(x, last, Some(Fin(r)), dt) ==
            match x
            case PosInf => Fin(last.r + r * dt)
            case NegInf => Fin(last.r - r * dt)
            case _ => x
  {
    RateLimitedMeaning(x, last, r, dt);
  }
}
