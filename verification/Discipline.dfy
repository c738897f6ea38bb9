/** What reaches the wire, and in which order: setpoints are safe, watchdog feeds are earned, and
    closed loop is entered only on a primed axis. */
module Discipline {
  import opened Numeric
  import opened Transport
  import opened Joints
  import opened Axis
  import opened Cycle
  import opened Runs

  // ---- the events of one turn ----

  function SentOps(j: Joint, dt: real): seq<Op> {
    CommandOps(j.cfg, j.level, Oriented(j.cfg, JointShape(j, dt).cmd))
  }

  /** The turn of a joint in write(): at most one idle request if it is masked, nothing if it is
      stale, and otherwise the setpoints of its level followed by its feed. */
  lemma WriteBlock(c: Context, log: Log, dt: real, j: Joint)
    ensures var r := WriteJoint(c, log, dt, j);
            && (HasFault(c.safety, j.core.errs) ==>
                  r.log == if c.safety.idleOnFault && !j.core.idleRequested
                           then Do(c.env, log, IdleOp(j.cfg)) else log)
            && (!HasFault(c.safety, j.core.errs) ==>
                  r.log == if Stale(c.safety, j.seqNo, j.core.lastSeq) then log
                           else DoAll(c.env, log, SentOps(j, dt)).1)
            && (r.sent <==> && !HasFault(c.safety, j.core.errs)
                            && !Stale(c.safety, j.seqNo, j.core.lastSeq)
                            && DoAll(c.env, log, SentOps(j, dt)).0 == 0)
  {
    hide DoAll, CommandOps, JointShape, Negated;
  }

  lemma AfterPrefix(log: Log, log': Log, k: nat, ops: seq<Op>)
    requires After(log, k, ops) && |log| <= |log'| && log'[..|log|] == log
    ensures After(log', k, ops)
  {
    forall p | k - |ops| <= p < k ensures log'[p] == log[p] {
      assert log'[..|log|][p] == log[p];
    }
  }

  /** Position k of the log is the operation ops[n], and directly before it are ops[..n], successful. */
  ghost predicate InOrder(log: Log, k: nat, ops: seq<Op>) {
    k < |log| && exists n | 0 <= n < |ops| :: log[k].op == ops[n] && After(log, k, ops[..n])
  }

  lemma DoAllInOrder(env: Env, log: Log, ops: seq<Op>, log': Log, k: nat)
    requires var r := DoAll(env, log, ops).1; |log| <= k < |r| <= |log'| && log'[..|r|] == r
    ensures InOrder(log', k, ops)
    ensures k - |log| < |ops| && log'[k].op == ops[k - |log|]
  {
    var r := DoAll(env, log, ops).1;
    DoAllAfter(env, log, ops, k);
    AfterPrefix(r, log', k, ops[..k - |log|]);
    assert log'[..|r|][k] == log'[k];
  }

  // ---- which call of a run issued an event ----

  lemma SwitchJointExtends(c: Context, log: Log, j: Joint)
    ensures Extends(log, SwitchJoint(c, log, j).log, Anything)
  {
    hide SwitchOps, ArmOps;
    DoAllExtends(c.env, log, ArmOps(j.cfg), Anything);
    var k := ClaimJoint(c, log, j);
    forall l, x: Joint
      ensures Extends(l, EnterMode(c, l, x).log, Anything)
    {
      DoAllExtends(c.env, l, SwitchOps(x.cfg, x.level, Primed(x.level, x.cmd, x.core.kin)), Anything);
    }
    ExtendsTransitive(log, k.log, EnterMode(c, k.log, k.joint).log, Anything);
    var u := UnclaimLog(c, log, j.cfg);
    ExtendsTransitive(log, u, EnterMode(c, u, j).log, Anything);
  }

  ghost predicate SwitchOwns(c: Context, turn: Option<Log>, j: Joint, log': Log, k: nat) {
    && turn.Some?
    && var block := SwitchJoint(c, turn.value, j).log;
       && |turn.value| <= k < |block| <= |log'|
       && log'[..|block|] == block
  }

  /** Every event of a mode switch belongs to the turn of one joint. */
  lemma {:induction false} SwitchOwner(c: Context, s: Hw, n: nat, k: nat)
    requires n <= |s.joints|
    ensures var log' := SwitchJoints(c, s, n).0.log;
            && Extends(s.log, log', Anything)
            && (|s.log| <= k < |log'| ==>
                  exists i | n <= i < |s.joints| :: SwitchOwns(c, SwitchTurn(c, s, n, i), s.joints[i], log', k))
    decreases |s.joints| - n
  {
    hide SwitchJoint;
    if n < |s.joints| {
      var r := SwitchJoint(c, s.log, s.joints[n]);
      var t := s.(joints := s.joints[n := r.joint], log := r.log);
      var log' := SwitchJoints(c, s, n).0.log;
      SwitchJointExtends(c, s.log, s.joints[n]);
      if r.status == 0 {
        SwitchOwner(c, t, n + 1, k);
        ExtendsTransitive(s.log, t.log, log', Anything);
      }
      if |s.log| <= k < |log'| {
        if k < |r.log| {
          assert SwitchOwns(c, SwitchTurn(c, s, n, n), s.joints[n], log', k);
        } else {
          var i :| n + 1 <= i < |s.joints| && SwitchOwns(c, SwitchTurn(c, t, n + 1, i), t.joints[i], log', k);
          assert SwitchOwns(c, SwitchTurn(c, s, n, i), s.joints[i], log', k);
        }
      }
    }
  }

  predicate IsFeed(op: Op) {
    op.Call? && (op.endpoint == AxisEndpoint(WATCHDOG_FEED, 0) || op.endpoint == AxisEndpoint(WATCHDOG_FEED, 1))
  }

  predicate IsRequest(op: Op) {
    op.Write? && (op.endpoint == AxisEndpoint(REQUESTED_STATE, 0) || op.endpoint == AxisEndpoint(REQUESTED_STATE, 1))
  }

  predicate IsClosedLoop(op: Op) { IsRequest(op) && op.value == I32(AXIS_STATE_CLOSED_LOOP) }

  /** Neither a feed nor a request for closed loop. */
  predicate IsPlain(op: Op) { !IsFeed(op) && !IsClosedLoop(op) }

  lemma ReadsArePlain(log: Log, log': Log)
    requires Extends(log, log', IsRead)
    ensures Extends(log, log', IsPlain)
  {
  }

  lemma {:induction false} RetryPlain(env: Env, log: Log, op: Op, attempts: nat)
    requires attempts > 0 && IsPlain(op)
    ensures Extends(log, Retry(env, log, op, attempts).1, IsPlain)
    decreases attempts
  {
    hide IsPlain;
    var next := log + [Event(op, env(log, op))];
    assert Extends(log, next, IsPlain);
    if next[|log|].reply.status != 0 && Retryable(next[|log|].reply.status) && attempts > 1 {
      RetryPlain(env, next, op, attempts - 1);
      ExtendsTransitive(log, next, Retry(env, log, op, attempts).1, IsPlain);
    }
  }

  lemma InitJointPlain(c: Context, log: Log, j: Joint)
    requires 0 <= j.cfg.axis <= 1
    ensures Extends(log, InitJoint(c, log, j).log, IsPlain)
  {
    hide Retry, Extends;
    var op := ReadOp(j.cfg, TORQUE_CONSTANT);
    var timeout := WriteOp(j.cfg, WATCHDOG_TIMEOUT, F32(j.cfg.watchdogTimeout));
    var off := WriteOp(j.cfg, ENABLE_WATCHDOG, Flag(false));
    assert IsPlain(op) && IsPlain(timeout) && IsPlain(off);
    var log1 := Retry(c.env, log, op, USB_RETRIES).1;
    RetryPlain(c.env, log, op, USB_RETRIES);
    var log2 := if j.cfg.watchdog then Retry(c.env, log1, timeout, USB_RETRIES).1 else log1;
    if j.cfg.watchdog {
      RetryPlain(c.env, log1, timeout, USB_RETRIES);
      ExtendsTransitive(log, log1, log2, IsPlain);
    }
    RetryPlain(c.env, log2, off, USB_RETRIES);
    ExtendsTransitive(log, log2, Retry(c.env, log2, off, USB_RETRIES).1, IsPlain);
  }

  lemma {:induction false} InitJointsPlain(c: Context, s: Hw, i: nat)
    requires i <= |s.joints| && forall k | 0 <= k < |s.joints| :: 0 <= s.joints[k].cfg.axis <= 1
    ensures Extends(s.log, InitJoints(c, s, i).0.log, IsPlain)
    decreases |s.joints| - i
  {
    hide InitJoint, IsPlain;
    if i < |s.joints| {
      var r := InitJoint(c, s.log, s.joints[i]);
      InitJointPlain(c, s.log, s.joints[i]);
      InitJointConfig(c, s.log, s.joints[i]);
      var t := s.(joints := s.joints[i := r.joint], log := r.log);
      if r.status == 0 {
        InitJointsPlain(c, t, i + 1);
        ExtendsTransitive(s.log, t.log, InitJoints(c, t, i + 1).0.log, IsPlain);
      }
    }
  }

  lemma InitJointConfig(c: Context, log: Log, j: Joint)
    ensures InitJoint(c, log, j).joint.cfg == j.cfg
  {
    hide Retry;
  }

  lemma ActivatePlain(c: Context, s: Hw, created: bool)
    requires DistinctAxes(s)
    ensures Extends(s.log, ActivateSpec(c, s, created).0.log, IsPlain)
  {
    hide InitJoints, DoAll;
    if created {
      var log := Do(c.env, s.log, Open);
      assert Extends(s.log, log, IsPlain);
      var t := s.(up := true, log := log);
      var u := InitJoints(c, t, 0).0;
      InitJointsPlain(c, t, 0);
      InitJointsConfig(c, t, 0);
      ExtendsTransitive(s.log, log, u.log, IsPlain);
      var ops := ClearErrorsOps(u.joints);
      assert ClearErrorsOps(ClearedFlags(u).joints) == ops;
      DoAllExtends(c.env, u.log, ops, IsPlain);
      ExtendsTransitive(s.log, u.log, DoAll(c.env, u.log, ops).1, IsPlain);
    }
  }

  lemma DeactivatePlain(c: Context, s: Hw)
    requires DistinctAxes(s)
    ensures Extends(s.log, DeactivateSpec(c, s).log, IsPlain)
  {
    hide DoAll;
    DoAllExtends(c.env, s.log, IdleOps(s.joints), IsPlain);
  }

  /** Calls other than write() and a mode switch neither feed nor enter closed loop. */
  lemma StepPlain(c: Context, s: Hw, a: Api)
    requires DistinctAxes(s)
    ensures Extends(s.log, Step(c, s, a).log, Anything)
    ensures !a.WriteCall? && !a.Switch? ==> Extends(s.log, Step(c, s, a).log, IsPlain)
  {
    hide ReadSpec, WriteSpec, SwitchJoints, ActivateSpec, DeactivateSpec;
    match a {
      case ReadCall => ReadSpecFrame(c, s); ReadsArePlain(s.log, ReadSpec(c, s).log);
      case WriteCall(period) => WriteSpecOwner(c, s, period, 0);
      case Switch => if s.up { SwitchOwner(c, s, 0, 0); }
      case Activate(created) => ActivatePlain(c, s, created);
      case Deactivate => DeactivatePlain(c, s);
      case _ =>
    }
  }

  ghost predicate IssuedBy(c: Context, s: Hw, calls: seq<Api>, n: nat, k: nat) {
    && n < |calls|
    && var before := Run(c, s, calls[..n]).log;
       var after := Step(c, Run(c, s, calls[..n]), calls[n]).log;
       var final := Run(c, s, calls).log;
       |before| <= k < |after| <= |final| && final[..|after|] == after
  }

  /** Every event of a run was issued by one of its calls. */
  lemma {:induction false} RunEvent(c: Context, s: Hw, calls: seq<Api>, k: nat)
    requires DistinctAxes(s)
    ensures Extends(s.log, Run(c, s, calls).log, Anything)
    ensures |s.log| <= k < |Run(c, s, calls).log| ==> exists n: nat :: IssuedBy(c, s, calls, n, k)
    decreases |calls|
  {
    hide Step;
    if calls != [] {
      var m := |calls| - 1;
      var t := Run(c, s, calls[..m]);
      RunEvent(c, s, calls[..m], k);
      RunConfig(c, s, calls[..m]);
      StepPlain(c, t, calls[m]);
      ExtendsTransitive(s.log, t.log, Run(c, s, calls).log, Anything);
      if |s.log| <= k < |Run(c, s, calls).log| {
        if k < |t.log| {
          var n: nat :| IssuedBy(c, s, calls[..m], n, k);
          assert calls[..m][..n] == calls[..n];
          var after := Step(c, Run(c, s, calls[..n]), calls[n]).log;
          assert Run(c, s, calls).log[..|after|] == t.log[..|after|];
          assert IssuedBy(c, s, calls, n, k);
        } else {
          assert IssuedBy(c, s, calls, m, k);
        }
      }
    }
  }
}
