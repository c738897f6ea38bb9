/** The exported kinematic state: always finite, and frozen at the last accepted sample. */
module Frozen {
  import opened Numeric
  import opened Transport
  import opened Joints
  import opened Axis
  import opened Cycle
  import opened Runs

  predicate Settled(c: Core) { AllFinite(c.kin) && c.kin.pos == c.lastValidPos }

  ghost predicate AllSettled(s: Hw) {
    forall i | 0 <= i < |s.joints| :: Settled(s.joints[i].core)
  }

  /** The position a telemetry poll at this log delivers, in the frame of the joint: all nine reads
      succeeded, the feedback checks passed and all four error registers were zero. */
  function CleanPosition(c: Context, log: Log, j: Joint): Option<Num> {
    var r := DoAll(c.env, log, TelemetryOps(j.cfg));
    DoAllIssued(c.env, log, TelemetryOps(j.cfg));
    if r.0 != 0 then None
    else
      var sample := SampleOf(j.torque, r.1[|log|..]);
      if !FeedbackValid(j.cfg, j.core.lastValidPos, sample) || !AllClear(sample.errs) then None
      else Some(if j.cfg.invert then Neg(sample.kin.pos) else sample.kin.pos)
  }

  /** The sample joint i accepts in a read() from s, if any. */
  function Accepted(c: Context, s: Hw, i: nat): Option<Num>
    requires i < |s.joints|
  {
    var turn := ReadTurn(c, s, i);
    if turn.None? then None else CleanPosition(c, turn.value, s.joints[i])
  }

  /** The most recently accepted sample of a run, or the position it started from. */
  function LastAccepted(c: Context, s: Hw, calls: seq<Api>, i: nat): Num
    requires i < |s.joints|
  {
    if calls == [] then s.joints[i].core.kin.pos
    else
      var m := |calls| - 1;
      var t := Run(c, s, calls[..m]);
      RunConfig(c, s, calls[..m]);
      if calls[m].ReadCall? && Accepted(c, t, i).Some? then Accepted(c, t, i).value
      else LastAccepted(c, s, calls[..m], i)
  }

  // ---- one read() ----

  lemma SignedPosition(invert: bool, t: Triple)
    requires AllFinite(t)
    ensures AllFinite(Signed(invert, t))
    ensures Signed(invert, t).pos == if invert then Neg(t.pos) else t.pos
  {
  }

  /** The state a poll leaves behind; `clean` is the accepted position, if any. */
  predicate PollOutcome(before: Core, after: Core, clean: Option<Num>) {
    && Settled(after)
    && after.kin.pos == (if clean.Some? then clean.value else before.kin.pos)
    && (after.healthy ==> clean.Some? && after.telemetryValid && after.readError == 0 && AllClear(after.errs))
    && (!after.healthy ==> after.kin.vel == ZERO && after.kin.eff == ZERO)
  }

  lemma AbsorbSettles(cfg: JointConfig, core: Core, s: Sample)
    requires Settled(core)
    ensures PollOutcome(core, Absorb(cfg, core, s),
              if FeedbackValid(cfg, core.lastValidPos, s) && AllClear(s.errs)
              then Some(if cfg.invert then Neg(s.kin.pos) else s.kin.pos) else None)
  {
    hide FeedbackValid, Signed, AllClear;
    if FeedbackValid(cfg, core.lastValidPos, s) {
      FeedbackFinite(cfg, core.lastValidPos, s);
      SignedPosition(cfg.invert, s.kin);
    }
  }

  lemma PollSettles(c: Context, log: Log, j: Joint)
    requires Settled(j.core)
    ensures var r := ReadJoint(c, log, j);
            !FailFast(r.status) ==> PollOutcome(j.core, r.joint.core, CleanPosition(c, log, j))
    ensures FailFast(ReadJoint(c, log, j).status) ==>
              CleanPosition(c, log, j).None? && ReadJoint(c, log, j).joint == j
  {
    hide FeedbackValid, DoAll, TelemetryOps, Absorb, AllClear;
    var r := DoAll(c.env, log, TelemetryOps(j.cfg));
    DoAllIssued(c.env, log, TelemetryOps(j.cfg));
    if r.0 == 0 {
      AbsorbSettles(j.cfg, j.core, SampleOf(j.torque, r.1[|log|..]));
    }
  }

  lemma FeedbackFinite(cfg: JointConfig, lastValidPos: Num, s: Sample)
    requires FeedbackValid(cfg, lastValidPos, s)
    ensures AllFinite(s.kin)
  {
  }

  lemma CleanPositionOf(c: Context, log: Log, j: Joint, k: Joint)
    requires k.cfg == j.cfg && k.torque == j.torque && k.core.lastValidPos == j.core.lastValidPos
    ensures CleanPosition(c, log, j) == CleanPosition(c, log, k)
  {
  }

  lemma HeldOutcome(before: Core, j: Joint, clean: Option<Num>, status: int)
    requires PollOutcome(before, j.core, clean)
    ensures PollOutcome(before, FailJoint(j, status).core, clean)
  {
  }

  lemma DroppedOutcome(j: Joint)
    requires Settled(j.core)
    ensures PollOutcome(j.core, DropJoint(j).core, None)
  {
  }

  lemma DefaultOutcome(j: Joint, status: int)
    requires Settled(j.core)
    ensures PollOutcome(j.core, FailJoint(j.(core := j.core.(healthy := false)), status).core, None)
  {
  }

  /** After read(), a joint stands at the sample it just accepted, or else where it stood; an
      unhealthy joint has zero velocity and effort, and a healthy one has just accepted a sample, and has
      valid telemetry, no read error and four clear error registers. */
  lemma ReadSettles(c: Context, s: Hw, i: nat)
    requires i < |s.joints| && Settled(s.joints[i].core)
    ensures PollOutcome(s.joints[i].core, ReadSpec(c, s).joints[i].core, Accepted(c, s, i))
  {
    hide ReadSpec, CleanPosition, ReadJoint, PollOutcome, FailJoint, DropJoint, Settled;
    var j := s.joints[i];
    var j' := ReadSpec(c, s).joints[i];
    ReadSpecJoint(c, s, i);
    if !s.up {
      DroppedOutcome(j);
    } else {
      var before := j.(core := j.core.(healthy := false));
      var turn := ReadTurn(c, s, i);
      if turn.Some? {
        PollSettled(c, turn.value, j);
        var r := ReadJoint(c, turn.value, before);
        if !FailFast(r.status) && j' == r.joint {
        } else {
          var status :| FailFast(status) && j' == FailJoint(r.joint, status);
          if FailFast(r.status) {
            DefaultOutcome(j, status);
          } else {
            HeldOutcome(j.core, r.joint, CleanPosition(c, turn.value, j), status);
          }
        }
      } else {
        var status :| FailFast(status) && j' == FailJoint(before, status);
        DefaultOutcome(j, status);
      }
    }
  }

  /** A poll within read(), where the joint has already been marked unhealthy. */
  lemma PollSettled(c: Context, log: Log, j: Joint)
    requires Settled(j.core)
    ensures var before := j.(core := j.core.(healthy := false));
            var r := ReadJoint(c, log, before);
            && (!FailFast(r.status) ==> PollOutcome(j.core, r.joint.core, CleanPosition(c, log, j)))
            && (FailFast(r.status) ==> CleanPosition(c, log, j).None? && r.joint == before)
  {
    hide CleanPosition, ReadJoint;
    var before := j.(core := j.core.(healthy := false));
    PollSettles(c, log, before);
    CleanPositionOf(c, log, j, before);
  }

  lemma ReadKeepsPosition(c: Context, s: Hw, i: nat)
    requires i < |s.joints| && Settled(s.joints[i].core)
    ensures var r := ReadSpec(c, s).joints[i].core;
            Settled(r) &&
            r.kin.pos == (if Accepted(c, s, i).Some? then Accepted(c, s, i).value else s.joints[i].core.kin.pos)
  {
    hide ReadSpec, Accepted;
    ReadSettles(c, s, i);
  }

  // ---- runs ----

  lemma {:induction false} InitKeepsKin(c: Context, s: Hw, i: nat, k: nat)
    requires i <= |s.joints| && k < |s.joints|
    ensures var r := InitJoints(c, s, i).0.joints[k]; r.core == s.joints[k].core
    decreases |s.joints| - i
  {
    hide Retry;
    if i < |s.joints| {
      var r := InitJoint(c, s.log, s.joints[i]);
      if r.status == 0 {
        InitKeepsKin(c, s.(joints := s.joints[i := r.joint], log := r.log), i + 1, k);
      }
    }
  }

  predicate SameKin(a: Core, b: Core) { b.kin == a.kin && b.lastValidPos == a.lastValidPos }

  lemma ActivateKeepsKin(c: Context, s: Hw, created: bool, i: nat)
    requires i < |s.joints|
    ensures var t := ActivateSpec(c, s, created).0;
            |t.joints| == |s.joints| && SameKin(s.joints[i].core, t.joints[i].core)
  {
    hide InitJoints, DoAll;
    InitKeepsKin(c, s.(up := true, log := Do(c.env, s.log, Open)), 0, i);
  }

  lemma ResetKeepsPosition(j: Joint)
    requires Settled(j.core)
    ensures Settled(Reset(j).core) && Reset(j).core.kin.pos == j.core.kin.pos
  {
  }

  lemma SettledStays(a: Core, b: Core)
    requires Settled(a) && SameKin(a, b)
    ensures Settled(b) && b.kin.pos == a.kin.pos
  {
  }

  lemma StepKeepsPosition(c: Context, s: Hw, a: Api, i: nat)
    requires i < |s.joints| && Settled(s.joints[i].core)
    ensures |Step(c, s, a).joints| == |s.joints|
    ensures Settled(Step(c, s, a).joints[i].core)
    ensures Step(c, s, a).joints[i].core.kin.pos ==
            if a.ReadCall? && Accepted(c, s, i).Some? then Accepted(c, s, i).value else s.joints[i].core.kin.pos
  {
    hide ReadSpec, WriteSpec, SwitchSpec, ActivateSpec, DoAll, Accepted, Reset, Settled;
    StepConfig(c, s, a);
    if a.ReadCall? {
      ReadKeepsPosition(c, s, i);
    } else if a.Cleanup? {
      ResetKeepsPosition(s.joints[i]);
    } else {
      assert SameKin(s.joints[i].core, Step(c, s, a).joints[i].core) by { StepKeepsKin(c, s, a, i); }
      SettledStays(s.joints[i].core, Step(c, s, a).joints[i].core);
    }
  }

  lemma StepKeepsKin(c: Context, s: Hw, a: Api, i: nat)
    requires i < |s.joints| && !a.ReadCall? && !a.Cleanup?
    ensures |Step(c, s, a).joints| == |s.joints|
    ensures SameKin(s.joints[i].core, Step(c, s, a).joints[i].core)
  {
    hide WriteSpec, SwitchSpec, ActivateSpec, DoAll;
    match a {
      case WriteCall(period) => WriteSpecFrame(c, s, period, i);
      case Switch => SwitchSpecFrame(c, s, i);
      case Activate(created) => ActivateKeepsKin(c, s, created, i);
      case _ =>
    }
  }

  /** In every run, across failed reads, deactivation, cleanup and recovery, the exported state is
      finite and the position is the most recently accepted sample. */
  lemma {:induction false} FrozenHistory(c: Context, s: Hw, calls: seq<Api>, i: nat)
    requires i < |s.joints| && Settled(s.joints[i].core)
    ensures |Run(c, s, calls).joints| == |s.joints|
    ensures Settled(Run(c, s, calls).joints[i].core)
    ensures Run(c, s, calls).joints[i].core.kin.pos == LastAccepted(c, s, calls, i)
  {
    hide Step, Accepted;
    if calls != [] {
      var m := |calls| - 1;
      FrozenHistory(c, s, calls[..m], i);
      StepKeepsPosition(c, Run(c, s, calls[..m]), calls[m], i);
    }
  }

  /** A configured joint is settled at zero. */
  lemma ConfiguredSettled(cfg: JointConfig)
    ensures Settled(Configured(cfg).core) && Configured(cfg).core.kin.pos == ZERO
  {
  }

  // ---- discontinuity limit ----

  function Reads(calls: seq<Api>): nat {
    if calls == [] then 0
    else Reads(calls[..|calls| - 1]) + if calls[|calls| - 1].ReadCall? then 1 else 0
  }

  lemma AcceptedJump(c: Context, s: Hw, i: nat, d: real)
    requires i < |s.joints| && Settled(s.joints[i].core)
    requires !s.joints[i].cfg.invert && s.joints[i].cfg.feedback.maxJump == Some(Fin(d))
    ensures Accepted(c, s, i).Some? ==> Near(s.joints[i].core.kin.pos, Accepted(c, s, i).value, d)
  {
    hide DoAll, TelemetryOps, ReadTurn, AllClear;
  }

  lemma OneMore(n: nat, d: real)
    ensures (n + 1) as real * d == n as real * d + d
  {
    assert (n + 1) as real == n as real + 1.0;
  }

  /** How far n accepted samples can lead. */
  function Drift(n: nat, d: real): real { n as real * d }

  predicate Near(p: Num, q: Num, bound: real) { p.Fin? && q.Fin? && -bound <= q.r - p.r <= bound }

  lemma NearNext(p: Num, q: Num, q': Num, n: nat, d: real)
    requires Near(p, q, Drift(n, d)) && d >= 0.0
    ensures Near(p, q, Drift(n + 1, d))
    ensures Near(q, q', d) ==> Near(p, q', Drift(n + 1, d))
  {
    OneMore(n, d);
  }

  lemma NearItself(p: Num, d: real)
    requires p.Fin?
    ensures Near(p, p, Drift(0, d))
  {
    assert 0 as real * d == 0.0;
  }

  /** A non-inverted joint with discontinuity limit d moves at most n*d over n reads. */
  lemma {:induction false} JumpBound(c: Context, s: Hw, calls: seq<Api>, i: nat, d: real)
    requires i < |s.joints| && Settled(s.joints[i].core)
    requires !s.joints[i].cfg.invert && s.joints[i].cfg.feedback.maxJump == Some(Fin(d)) && d >= 0.0
    ensures |Run(c, s, calls).joints| == |s.joints|
    ensures Near(s.joints[i].core.kin.pos, Run(c, s, calls).joints[i].core.kin.pos, Drift(Reads(calls), d))
  {
    hide Step, Accepted, Near, Drift, Settled;
    var p := s.joints[i].core.kin.pos;
    SettledFinite(s.joints[i].core);
    NearItself(p, d);
    if calls != [] {
      var m := |calls| - 1;
      var t := Run(c, s, calls[..m]);
      JumpBound(c, s, calls[..m], i, d);
      FrozenHistory(c, s, calls[..m], i);
      RunConfig(c, s, calls[..m]);
      StepKeepsPosition(c, t, calls[m], i);
      AcceptedJump(c, t, i, d);
      NearNext(p, t.joints[i].core.kin.pos, Run(c, s, calls).joints[i].core.kin.pos, Reads(calls[..m]), d);
    }
  }

  lemma SettledFinite(core: Core)
    requires Settled(core)
    ensures core.kin.pos.Fin?
  {
  }

  /** For an inverted joint the check compares a raw sample with a negated one: a joint that stands
      still at p passes it exactly if 2*|p| is within the limit, so far from zero it is rejected. */
  lemma InvertedStandstill(cfg: JointConfig, core: Core, s: Sample, d: real)
    requires Settled(core) && cfg.invert && cfg.feedback == FeedbackLimits(None, None, Some(Fin(d)))
    requires AllFinite(s.kin) && s.kin.pos == Neg(core.kin.pos)
    ensures FeedbackValid(cfg, core.lastValidPos, s) <==> -d <= 2.0 * core.kin.pos.r <= d
  {
  }

  // ---- standing still ----

  /** The position in the nine registers a poll at this log reads, in the frame of the motor. */
  function RawPosition(c: Context, log: Log, cfg: JointConfig): Option<Num> {
    var r := DoAll(c.env, log, TelemetryOps(cfg));
    DoAllIssued(c.env, log, TelemetryOps(cfg));
    if r.0 != 0 then None else Some(SampleOf(NaN, r.1[|log|..]).kin.pos)
  }

  /** Whenever a read() of the run polls joint i completely, the motor reports x. */
  ghost predicate Standing(c: Context, s: Hw, calls: seq<Api>, i: nat, x: Num) {
    forall n | 0 <= n < |calls| && calls[n].ReadCall? ::
      var t := Run(c, s, calls[..n]); i < |t.joints| && ReportsNow(c, t, i, x)
  }

  predicate ReportsNow(c: Context, s: Hw, i: nat, x: Num)
    requires i < |s.joints|
  {
    var turn := ReadTurn(c, s, i);
    turn.Some? ==> var raw := RawPosition(c, turn.value, s.joints[i].cfg); raw.Some? ==> raw.value == x
  }

  /** Too far from the last valid position, a reported position is not accepted. */
  lemma JumpRejected(c: Context, log: Log, j: Joint, x: real, d: real)
    requires RawPosition(c, log, j.cfg).Some? ==> RawPosition(c, log, j.cfg).value == Fin(x)
    requires j.cfg.feedback.maxJump == Some(Fin(d)) && j.core.lastValidPos.Fin?
    requires !(-d <= x - j.core.lastValidPos.r <= d)
    ensures CleanPosition(c, log, j).None?
  {
    hide DoAll, TelemetryOps, AllClear;
    DoAllIssued(c.env, log, TelemetryOps(j.cfg));
  }

  lemma ReadStandstill(c: Context, s: Hw, i: nat, d: real)
    requires i < |s.joints| && Settled(s.joints[i].core) && s.joints[i].cfg.feedback.maxJump == Some(Fin(d))
    requires var p := s.joints[i].core.kin.pos; ReportsNow(c, s, i, Neg(p)) && !(-d <= 2.0 * p.r <= d)
    ensures Accepted(c, s, i).None?
    ensures !ReadSpec(c, s).joints[i].core.healthy
  {
    hide ReadSpec, ReadTurn, CleanPosition, RawPosition;
    var j := s.joints[i];
    var turn := ReadTurn(c, s, i);
    if turn.Some? {
      JumpRejected(c, turn.value, j, -j.core.kin.pos.r, d);
    }
    ReadSettles(c, s, i);
  }

  /** Only read() makes a joint healthy. */
  lemma StepKeepsUnhealthy(c: Context, s: Hw, a: Api, i: nat)
    requires i < |s.joints| && !s.joints[i].core.healthy && !a.ReadCall?
    ensures |Step(c, s, a).joints| == |s.joints| && !Step(c, s, a).joints[i].core.healthy
  {
    hide WriteSpec, SwitchSpec, InitJoints, DoAll;
    StepConfig(c, s, a);
    match a {
      case WriteCall(period) => WriteSpecFrame(c, s, period, i);
      case Switch => SwitchSpecFrame(c, s, i);
      case Activate(created) => InitKeepsKin(c, s.(up := true, log := Do(c.env, s.log, Open)), 0, i);
      case _ =>
    }
  }

  /** An inverted joint whose motor keeps reporting the position the joint stands at is never accepted
      again if twice that position exceeds the discontinuity limit: from the first read() on it is
      unhealthy for the rest of the run, deactivation, activation, cleanup and recovery included. */
  lemma {:induction false} InvertedNeverRecovers(c: Context, s: Hw, calls: seq<Api>, i: nat, d: real)
    requires i < |s.joints| && Settled(s.joints[i].core)
    requires s.joints[i].cfg.invert && s.joints[i].cfg.feedback.maxJump == Some(Fin(d))
    requires var p := s.joints[i].core.kin.pos;
             Standing(c, s, calls, i, Neg(p)) && !(-d <= 2.0 * p.r <= d)
    ensures var t := Run(c, s, calls);
            && |t.joints| == |s.joints|
            && Settled(t.joints[i].core) && t.joints[i].core.kin.pos == s.joints[i].core.kin.pos
            && (Reads(calls) > 0 || !s.joints[i].core.healthy ==> !t.joints[i].core.healthy)
  {
    hide Step, Accepted, ReportsNow, Settled;
    if calls != [] {
      var m := |calls| - 1;
      var t := Run(c, s, calls[..m]);
      assert Standing(c, s, calls[..m], i, Neg(s.joints[i].core.kin.pos)) by {
        forall n | 0 <= n < m && calls[..m][n].ReadCall?
          ensures var t := Run(c, s, calls[..m][..n]);
                  i < |t.joints| && ReportsNow(c, t, i, Neg(s.joints[i].core.kin.pos))
        {
          assert calls[..m][..n] == calls[..n] && calls[..m][n] == calls[n];
        }
      }
      InvertedNeverRecovers(c, s, calls[..m], i, d);
      RunConfig(c, s, calls[..m]);
      StepKeepsPosition(c, t, calls[m], i);
      if calls[m].ReadCall? {
        ReadStandstill(c, t, i, d);
        assert Step(c, t, calls[m]) == ReadSpec(c, t) by { ReadStep(c, t); }
      } else if !t.joints[i].core.healthy {
        StepKeepsUnhealthy(c, t, calls[m], i);
      }
    }
  }

  lemma ReadStep(c: Context, s: Hw)
    ensures Step(c, s, ReadCall) == ReadSpec(c, s)
  {
    hide ReadSpec;
  }
}
