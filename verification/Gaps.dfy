/** The limiter across level changes: what write() records of a position it does not send, and how far two
    sent positions with such a gap between them can lie apart. */
module Gaps {
  import opened Numeric
  import opened Transport
  import opened Joints
  import opened Axis
  import opened Cycle
  import opened Runs
  import opened Discipline
  import opened Motion

  /** The position recorded by a complete write() below POSITION level: as commanded, whatever its rate and
      limits, or where the joint is held if the velocity or the effort is rejected. */
  function Unsent(j: Joint, dt: real): Num {
    var p := if JointShape(j, dt).rejected then Fallback(j.core.kin).pos else j.cmd.pos;
    if j.cfg.invert then Neg(p) else p
  }

  lemma UnsentShape(j: Joint, dt: real)
    requires j.level != POSITION
    ensures SentCommand(j, dt).pos == Unsent(j, dt)
    ensures j.level == UNDEFINED ==> !JointShape(j, dt).rejected
  {
    hide RateLimited, RateExceeded, InRange;
  }

  /** Below POSITION level write() records a position that nothing of its traffic contains. */
  lemma UnsentRecord(c: Context, log: Log, dt: real, j: Joint)
    requires WriteJoint(c, log, dt, j).sent && j.level != POSITION && 0 <= j.cfg.axis <= 1
    ensures var r := WriteJoint(c, log, dt, j);
            && r.joint.core.lastCmd.pos == Unsent(j, dt)
            && (forall k | |log| <= k < |r.log| ::
                  !(r.log[k].op.Write? && r.log[k].op.endpoint == AxisEndpoint(INPUT_POS, j.cfg.axis)))
  {
    hide WriteJoint, DoAll, JointShape, Unsent;
    SendRecords(c, log, dt, j);
    UnsentShape(j, dt);
    WriteBlock(c, log, dt, j);
    DoAllIssued(c.env, log, SentOps(j, dt));
    NoPositionOp(j.cfg, j.level, SentCommand(j, dt));
    var block := WriteJoint(c, log, dt, j).log;
    assert forall k | |log| <= k < |block| :: block[k].op == SentOps(j, dt)[k - |log|];
  }

  lemma NoPositionOp(cfg: JointConfig, level: Level, t: Triple)
    requires level != POSITION && 0 <= cfg.axis <= 1
    ensures forall n | 0 <= n < |CommandOps(cfg, level, t)| ::
              var op := CommandOps(cfg, level, t)[n];
              !(op.Write? && op.endpoint == AxisEndpoint(INPUT_POS, cfg.axis))
  {
    hide Saturate, RadiansToTurns;
  }

  // ---- a gap ----

  /** Joint i is never sent at POSITION level, and never recovered or cleaned up. */
  ghost predicate PositionUnsent(c: Context, s: Hw, calls: seq<Api>, i: nat)
    requires i < |s.joints|
  {
    forall n | 0 <= n < |calls| ::
      && !calls[n].Cleanup?
      && var t := Run(c, s, calls[..n]);
         i < |t.joints| && (Sent(c, t, calls[n], i) ==> t.joints[i].level != POSITION)
  }

  /** The position of the last complete write() of the run, or the recorded one before it. */
  function GapRecord(c: Context, s: Hw, calls: seq<Api>, i: nat): Num
    requires i < |s.joints|
  {
    if calls == [] then s.joints[i].core.lastCmd.pos
    else
      var m := |calls| - 1;
      var t := Run(c, s, calls[..m]);
      RunConfig(c, s, calls[..m]);
      if Sent(c, t, calls[m], i) then Unsent(t.joints[i], EffectiveDt(calls[m].period))
      else GapRecord(c, s, calls[..m], i)
  }

  lemma {:induction false} GapRuns(c: Context, s: Hw, calls: seq<Api>, i: nat)
    requires i < |s.joints| && PositionUnsent(c, s, calls, i)
    ensures |Run(c, s, calls).joints| == |s.joints|
    ensures Run(c, s, calls).joints[i].core.lastCmd.pos == GapRecord(c, s, calls, i)
  {
    hide Step, Sent, Unsent, SentCommand;
    if calls != [] {
      var m := |calls| - 1;
      var t := Run(c, s, calls[..m]);
      assert PositionUnsent(c, s, calls[..m], i) by {
        forall n | 0 <= n < m
          ensures !calls[..m][n].Cleanup?
          ensures var u := Run(c, s, calls[..m][..n]);
                  i < |u.joints| && (Sent(c, u, calls[..m][n], i) ==> u.joints[i].level != POSITION)
        {
          assert calls[..m][..n] == calls[..n] && calls[..m][n] == calls[n];
        }
      }
      GapRuns(c, s, calls[..m], i);
      RunConfig(c, s, calls[..m]);
      StepLastCmd(c, t, calls[m], i);
      if Sent(c, t, calls[m], i) {
        SentIsWrite(c, t, calls[m], i);
        UnsentShape(t.joints[i], EffectiveDt(calls[m].period));
      }
    }
  }

  /** With x commanded, m recorded and a step of h, the next position is within a bound of q: the end of
      the step towards x if x is beyond it, and x itself otherwise. */
  predicate StaysWithin(q: Num, m: Num, x: Num, h: real, bound: real) {
    if m.Fin? && Less(Fin(m.r + h), x) then Within(q, Fin(m.r + h), bound)
    else if m.Fin? && Less(x, Fin(m.r - h)) then Within(q, Fin(m.r - h), bound)
    else Within(q, x, bound)
  }

  lemma StepWithin(q: Num, m: real, x: Num, h: real, bound: real)
    requires h >= 0.0
    ensures Within(q, StepTowards(x, m, h), bound) <==> StaysWithin(q, Fin(m), x, h, bound)
  {
  }

  lemma LimitWithin(q: Num, m: Num, x: Num, r: real, dt: real, bound: real)
    requires r >= 0.0 && dt > 0.0
    ensures Within(q, RateLimited(x, m, Some(Fin(r)), dt), bound) <==> StaysWithin(q, m, x, Reach(r, dt), bound)
  {
    hide StepTowards, Within, Less;
    if m.Fin? {
      RateLimitedMeaning(x, m, r, dt);
      StepWithin(q, m.r, x, r * dt, bound);
    }
  }

  lemma SentAfterGap(j: Joint, dt: real, r: real)
    requires !j.cfg.invert && j.level == POSITION && j.cfg.limits.posRate == Some(Fin(r)) && r >= 0.0 && dt > 0.0
    requires !JointShape(j, dt).rejected
    ensures SentCommand(j, dt).pos == RateLimited(j.cmd.pos, j.core.lastCmd.pos, Some(Fin(r)), dt)
  {
    hide Mul, Less, Abs, Sub, Add, CopySign;
  }

  /** Position q was recorded, then the joint was sent at other levels only, and is now sent at POSITION
      level again: the position sent now lies within a bound of q exactly if this holds of q, of the record
      the gap left behind and of the command. */
  lemma GapSlew(c: Context, s: Hw, calls: seq<Api>, period: Num, i: nat, r: real, bound: real)
    requires i < |s.joints| && PositionUnsent(c, s, calls, i)
    requires !s.joints[i].cfg.invert && s.joints[i].cfg.limits.posRate == Some(Fin(r)) && r >= 0.0
    requires var t := Run(c, s, calls);
             && |t.joints| == |s.joints| && t.joints[i].level == POSITION
             && Sent(c, t, WriteCall(period), i) && !JointShape(t.joints[i], EffectiveDt(period)).rejected
    ensures var t := Run(c, s, calls);
            var q, q' := s.joints[i].core.lastCmd.pos, WriteSpec(c, t, period).joints[i].core.lastCmd.pos;
            Within(q, q', bound) <==>
              StaysWithin(q, GapRecord(c, s, calls, i), t.joints[i].cmd.pos, Reach(r, EffectiveDt(period)), bound)
  {
    hide Run, SentIn, JointShape, Within, StaysWithin, Reach, RateLimited, WriteSpec, SentCommand, GapRecord;
    var t := Run(c, s, calls);
    var dt := EffectiveDt(period);
    GapRuns(c, s, calls, i);
    RunConfig(c, s, calls);
    StepLastCmd(c, t, WriteCall(period), i);
    SentAfterGap(t.joints[i], dt, r);
    LimitWithin(s.joints[i].core.lastCmd.pos, t.joints[i].core.lastCmd.pos, t.joints[i].cmd.pos, r, dt, bound);
  }

  /** It holds of every finite command exactly if the gap has moved the record by no more than the bound
      leaves beside one step; with the bound of a single step, exactly if it has not moved it at all. */
  lemma GapAlways(q: Num, m: Num, h: real, bound: real)
    requires q.Fin? && h >= 0.0
    ensures (forall x: Num | x.Fin? :: StaysWithin(q, m, x, h, bound)) <==> Within(q, m, bound - h)
    ensures Within(q, m, h - h) <==> m == q
  {
    if !m.Fin? {
      var x := FarCommand(q, m, h, bound);
      assert !StaysWithin(q, m, x, h, bound);
    } else if forall x: Num | x.Fin? :: StaysWithin(q, m, x, h, bound) {
      assert StaysWithin(q, m, Fin(m.r + h), h, bound);
      assert StaysWithin(q, m, Fin(m.r - h), h, bound);
    }
  }

  /** Without a finite record there is no limit. */
  lemma FarCommand(q: Num, m: Num, h: real, bound: real) returns (x: Num)
    requires q.Fin? && !m.Fin?
    ensures x.Fin? && !StaysWithin(q, m, x, h, bound)
  {
    x := Fin(if bound >= 0.0 then q.r + bound + 1.0 else q.r);
  }
}
