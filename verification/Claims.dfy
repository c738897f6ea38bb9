/** The claim protocol: a claimed joint has its drive-side watchdog armed. */
module Claims {
  import opened Numeric
  import opened Transport
  import opened Joints
  import opened Axis
  import opened Cycle
  import opened Runs
  import opened Discipline
  import opened Setpoints

  /** ENABLE_WATCHDOG was last written true, successfully. */
  predicate Armed(log: Log, cfg: JointConfig) {
    WrittenOk(log, cfg.serial, AxisEndpoint(ENABLE_WATCHDOG, cfg.axis), Flag(true))
  }

  predicate ClaimOk(log: Log, j: Joint) { j.claimed && j.cfg.watchdog ==> Armed(log, j.cfg) }

  ghost predicate ClaimsArmed(s: Hw) {
    s.up ==> forall i | 0 <= i < |s.joints| :: ClaimOk(s.log, s.joints[i])
  }

  /** The mode switch of this joint fails while the joint is being released. */
  predicate FailedRelease(c: Context, log: Log, j: Joint) {
    && j.level == UNDEFINED && j.claimed && j.cfg.watchdog
    && !HasFault(c.safety, j.core.errs)
    && c.env(UnclaimLog(c, log, j.cfg), IdleOp(j.cfg)).status != 0
  }

  predicate TouchesWatchdog(op: Op) {
    op.Write? && (op.endpoint == AxisEndpoint(ENABLE_WATCHDOG, 0) || op.endpoint == AxisEndpoint(ENABLE_WATCHDOG, 1))
  }

  predicate LeavesWatchdog(op: Op) { !TouchesWatchdog(op) }

  /** Traffic that leaves the watchdog registers alone keeps every Armed fact, either way. */
  lemma ArmedFrame(log: Log, log': Log, cfg: JointConfig)
    requires Extends(log, log', LeavesWatchdog) && 0 <= cfg.axis <= 1
    ensures Armed(log', cfg) == Armed(log, cfg)
  {
    LastWriteFrame(log, log', cfg.serial, AxisEndpoint(ENABLE_WATCHDOG, cfg.axis), LeavesWatchdog);
  }

  lemma EnterLeavesWatchdog(c: Context, log: Log, j: Joint)
    requires 0 <= j.cfg.axis <= 1
    ensures Extends(log, EnterMode(c, log, j).log, LeavesWatchdog)
  {
    hide DoAll, Extends, SetpointOps, Primed;
    var t := Primed(j.level, j.cmd, j.core.kin);
    SwitchOpsLeave(j.cfg, j.level, t);
    DoAllExtends(c.env, log, SwitchOps(j.cfg, j.level, t), LeavesWatchdog);
    assert Extends(log, log, LeavesWatchdog) by { ExtendsRefl(log); }
  }

  lemma ExtendsRefl(log: Log)
    ensures Extends(log, log, LeavesWatchdog)
  {
  }

  lemma SwitchOpsLeave(cfg: JointConfig, level: Level, t: Triple)
    requires 0 <= cfg.axis <= 1
    ensures forall n | 0 <= n < |SwitchOps(cfg, level, t)| :: LeavesWatchdog(SwitchOps(cfg, level, t)[n])
  {
  }

  /** The claim of one joint across its turn, exactly: it survives unless the release of a joint with
      a watchdog fails on the idle request of the mode switch, which leaves the joint claimed with
      its watchdog switched off. */
  lemma SwitchJointClaim(c: Context, log: Log, j: Joint)
    requires 0 <= j.cfg.axis <= 1 && ClaimOk(log, j)
    ensures var r := SwitchJoint(c, log, j);
            && (ClaimOk(r.log, r.joint) <==> !FailedRelease(c, log, j))
            && (r.status == 0 ==> (r.joint.claimed <==> r.joint.level != UNDEFINED))
  {
    hide Primed, SwitchOps, LastWrite, WrittenOk;
    if j.level != UNDEFINED && !j.claimed {
      ClaimArms(c, log, j);
      var r := ClaimJoint(c, log, j);
      if r.status == 0 {
        EnterLeavesWatchdog(c, r.log, r.joint);
        ArmedFrame(r.log, EnterMode(c, r.log, r.joint).log, j.cfg);
      }
    } else if j.level == UNDEFINED && j.claimed {
      var u := UnclaimLog(c, log, j.cfg);
      EnterLeavesWatchdog(c, u, j);
      ArmedFrame(u, EnterMode(c, u, j).log, j.cfg);
      UnclaimDisarms(c, log, j.cfg);
      if !HasFault(c.safety, j.core.errs) {
        ReleaseStatus(c, u, j);
      }
    } else {
      EnterLeavesWatchdog(c, log, j);
      ArmedFrame(log, EnterMode(c, log, j).log, j.cfg);
    }
  }

  /** That happens: the bus accepts the first three operations and refuses the fourth. */
  lemma ReleaseCanFail(cfg: JointConfig, cmd: Triple) returns (c: Context, log: Log, j: Joint)
    requires 0 <= cfg.axis <= 1 && cfg.watchdog
    ensures ClaimOk(log, j) && FailedRelease(c, log, j) && j.cfg == cfg
    ensures var r := SwitchJoint(c, log, j); r.joint.claimed && !Armed(r.log, cfg) && r.status != 0
  {
    hide SetpointOps;
    c := Context((h: Log, op: Op) => Reply(if |h| == 3 then LIBUSB_ERROR_IO else 0, ZERO, 0),
                 Safety(true, false, false, false));
    var arm := WriteOp(cfg, ENABLE_WATCHDOG, Flag(true));
    log := [Event(arm, c.env([], arm))];
    var k := Configured(cfg);
    j := k.(claimed := true);
    assert log[..0] == [];
    SwitchJointClaim(c, log, j);
    ReleaseFails(c, log, j);
  }

  /** Releasing consists of the one idle request. */
  lemma ReleaseStatus(c: Context, log: Log, j: Joint)
    requires j.level == UNDEFINED && !HasFault(c.safety, j.core.errs)
    ensures EnterMode(c, log, j).status == c.env(log, IdleOp(j.cfg)).status
  {
    var ops := [IdleOp(j.cfg)];
    assert ops[0..] == ops && ops[1..] == [];
    DoAllStep(c.env, log, ops, 0);
  }

  lemma UnclaimDisarms(c: Context, log: Log, cfg: JointConfig)
    ensures !Armed(UnclaimLog(c, log, cfg), cfg)
  {
    var a := Do(c.env, log, IdleOp(cfg));
    var op := WriteOp(cfg, ENABLE_WATCHDOG, Flag(false));
    LastWriteAppend(a, Event(op, c.env(a, op)), cfg.serial, op.endpoint);
  }

  lemma ClaimArms(c: Context, log: Log, j: Joint)
    requires 0 <= j.cfg.axis <= 1 && !j.claimed
    ensures var r := ClaimJoint(c, log, j);
            && !r.joint.claimed && r.joint.cfg == j.cfg && r.joint.level == j.level
            && (r.status == 0 && j.cfg.watchdog ==> Armed(r.log, j.cfg))
  {
    hide LastWrite;
    var r := ClaimJoint(c, log, j);
    if r.status == 0 && j.cfg.watchdog {
      var ops := ArmOps(j.cfg);
      var arm := DoAll(c.env, log, ops).1;
      DoAllIssued(c.env, log, ops);
      assert arm[|log|].op == ops[0];
      LastWriteAt(arm, |log|, |arm|);
      assert arm[..|arm|] == arm;
      assert Armed(arm, j.cfg);
      assert Extends(arm, r.log, LeavesWatchdog);
      ArmedFrame(arm, r.log, j.cfg);
    }
  }

  // ---- other joints ----

  lemma SwitchJointOwnAxis(c: Context, log: Log, j: Joint, cfg: JointConfig)
    requires 0 <= j.cfg.axis <= 1 && 0 <= cfg.axis <= 1
    requires j.cfg.serial != cfg.serial || j.cfg.axis != cfg.axis
    ensures Armed(SwitchJoint(c, log, j).log, cfg) == Armed(log, cfg)
  {
    hide DoAll, Extends, Primed, LastWrite;
    var p := (op: Op) => !WritesTo(op, cfg.serial, AxisEndpoint(ENABLE_WATCHDOG, cfg.axis));
    var arm := DoAll(c.env, log, ArmOps(j.cfg)).1;
    DoAllExtends(c.env, log, ArmOps(j.cfg), p);
    var r := ClaimJoint(c, log, j);
    assert Extends(log, r.log, p) by { ClaimExtends(c, log, j, p); }
    var u := UnclaimLog(c, log, j.cfg);
    assert Extends(log, u, p) by { UnclaimExtends(c, log, j.cfg, p); }
    EnterExtends(c, log, j, p);
    EnterExtends(c, r.log, r.joint, p);
    EnterExtends(c, u, j, p);
    ExtendsTransitive(log, r.log, EnterMode(c, r.log, r.joint).log, p);
    ExtendsTransitive(log, u, EnterMode(c, u, j).log, p);
    LastWriteFrame(log, SwitchJoint(c, log, j).log, cfg.serial, AxisEndpoint(ENABLE_WATCHDOG, cfg.axis), p);
  }

  predicate ClaimOp(op: Op, cfg: JointConfig) {
    op.Read? || op.Call? || WritesTo(op, cfg.serial, AxisEndpoint(ENABLE_WATCHDOG, cfg.axis))
  }

  lemma ClaimExtends(c: Context, log: Log, j: Joint, p: Op -> bool)
    requires forall op :: ClaimOp(op, j.cfg) ==> p(op)
    ensures Extends(log, ClaimJoint(c, log, j).log, p)
    ensures ClaimJoint(c, log, j).joint.cfg == j.cfg
  {
    hide DoAll;
    DoAllExtends(c.env, log, ArmOps(j.cfg), p);
  }

  lemma UnclaimExtends(c: Context, log: Log, cfg: JointConfig, p: Op -> bool)
    requires p(IdleOp(cfg)) && p(WriteOp(cfg, ENABLE_WATCHDOG, Flag(false)))
    ensures Extends(log, UnclaimLog(c, log, cfg), p)
  {
  }

  lemma EnterExtends(c: Context, log: Log, j: Joint, p: Op -> bool)
    requires 0 <= j.cfg.axis <= 1 && forall op :: LeavesWatchdog(op) ==> p(op)
    ensures Extends(log, EnterMode(c, log, j).log, p)
  {
    hide EnterMode;
    EnterLeavesWatchdog(c, log, j);
  }

  // ---- the whole switch ----

  /** Joint i is reached by a switch that begins at joint k, and its release fails there. */
  predicate FailsAt(c: Context, s: Hw, k: nat, i: nat)
    requires k <= i < |s.joints|
  {
    var turn := SwitchTurn(c, s, k, i);
    turn.Some? && FailedRelease(c, turn.value, s.joints[i])
  }

  ghost predicate FailsFrom(c: Context, s: Hw, k: nat)
    requires k <= |s.joints|
  {
    exists i | k <= i < |s.joints| :: FailsAt(c, s, k, i)
  }

  /** A mode switch from s reaches a joint whose release fails. */
  ghost predicate ReleaseFailsIn(c: Context, s: Hw) { s.up && FailsFrom(c, s, 0) }

  /** What the first turn leaves for the others. */
  lemma FailsLater(c: Context, s: Hw, k: nat)
    requires k < |s.joints|
    ensures var r := SwitchJoint(c, s.log, s.joints[k]);
            FailsFrom(c, s, k) <==>
              || FailedRelease(c, s.log, s.joints[k])
              || (r.status == 0 && FailsFrom(c, s.(joints := s.joints[k := r.joint], log := r.log), k + 1))
  {
    hide SwitchJoint, FailedRelease;
    var r := SwitchJoint(c, s.log, s.joints[k]);
    var t := s.(joints := s.joints[k := r.joint], log := r.log);
    assert FailsAt(c, s, k, k) <==> FailedRelease(c, s.log, s.joints[k]);
    forall i | k < i < |s.joints|
      ensures FailsAt(c, s, k, i) <==> r.status == 0 && FailsAt(c, t, k + 1, i)
    {
    }
    if FailsFrom(c, s, k) {
      var i :| k <= i < |s.joints| && FailsAt(c, s, k, i);
      assert i > k ==> FailsAt(c, t, k + 1, i);
    }
    if r.status == 0 && FailsFrom(c, t, k + 1) {
      var i :| k + 1 <= i < |t.joints| && FailsAt(c, t, k + 1, i);
      assert FailsAt(c, s, k, i);
    }
  }

  /** One turn of a switch: the claims of all joints survive exactly if it is no failed release. */
  lemma SwitchTurnClaims(c: Context, s: Hw, k: nat)
    requires k < |s.joints| && DistinctAxes(s)
    requires forall i | 0 <= i < |s.joints| :: ClaimOk(s.log, s.joints[i])
    ensures var r := SwitchJoint(c, s.log, s.joints[k]);
            && r.joint.cfg == s.joints[k].cfg
            && (ClaimOk(r.log, r.joint) <==> !FailedRelease(c, s.log, s.joints[k]))
            && (forall i | 0 <= i < |s.joints| && i != k :: ClaimOk(r.log, s.joints[i]))
            && (r.status == 0 ==> (r.joint.claimed <==> r.joint.level != UNDEFINED))
  {
    hide SwitchJoint, Armed, FailedRelease;
    var r := SwitchJoint(c, s.log, s.joints[k]);
    SwitchJointFrame(c, s.log, s.joints[k]);
    SwitchJointClaim(c, s.log, s.joints[k]);
    forall i | 0 <= i < |s.joints| && i != k ensures ClaimOk(r.log, s.joints[i]) {
      SwitchJointOwnAxis(c, s.log, s.joints[k], s.joints[i].cfg);
    }
  }

  lemma {:induction false} SwitchJointsClaims(c: Context, s: Hw, k: nat)
    requires k <= |s.joints| && DistinctAxes(s)
    requires forall i | 0 <= i < |s.joints| :: ClaimOk(s.log, s.joints[i])
    ensures var (t, status) := SwitchJoints(c, s, k);
            && ((forall i | 0 <= i < |t.joints| :: ClaimOk(t.log, t.joints[i])) <==> !FailsFrom(c, s, k))
            && (status == 0 ==> !FailsFrom(c, s, k))
            && (status == 0 ==>
                  forall i | k <= i < |t.joints| :: t.joints[i].claimed <==> t.joints[i].level != UNDEFINED)
    decreases |s.joints| - k
  {
    hide SwitchJoint, FailedRelease, ClaimOk, FailsAt;
    if k < |s.joints| {
      var r := SwitchJoint(c, s.log, s.joints[k]);
      var t := s.(joints := s.joints[k := r.joint], log := r.log);
      SwitchTurnClaims(c, s, k);
      ReleaseFails(c, s.log, s.joints[k]);
      FailsLater(c, s, k);
      if FailedRelease(c, s.log, s.joints[k]) {
        assert !ClaimOk(t.log, t.joints[k]);
      } else {
        assert forall i | 0 <= i < |t.joints| :: ClaimOk(t.log, t.joints[i]);
        if r.status == 0 {
          SwitchJointsClaims(c, t, k + 1);
          SwitchJointsTurn(c, t, k + 1, k);
        }
      }
    }
  }

  lemma ReleaseFails(c: Context, log: Log, j: Joint)
    ensures FailedRelease(c, log, j) ==> SwitchJoint(c, log, j).status != 0
  {
    if FailedRelease(c, log, j) {
      ReleaseStatus(c, UnclaimLog(c, log, j.cfg), j);
    }
  }

  // ---- the other calls ----

  lemma WriteLeavesWatchdog(c: Context, s: Hw, period: Num)
    requires DistinctAxes(s)
    ensures Extends(s.log, WriteSpec(c, s, period).log, LeavesWatchdog)
  {
    hide WriteSpec, SafeCommand, SetpointOps, Oriented;
    var log' := WriteSpec(c, s, period).log;
    WriteSpecOwner(c, s, period, 0);
    forall k | |s.log| <= k < |log'| ensures LeavesWatchdog(log'[k].op) {
      WriteIsSafe(c, s, period, k);
      var i: nat, t: Triple :| i < |s.joints| && SafeCommand(s.joints[i], t) &&
        var j := s.joints[i];
        log'[k].op == IdleOp(j.cfg) ||
        (InOrder(log', k, CommandOps(j.cfg, j.level, Oriented(j.cfg, t))) &&
         (log'[k].op == FeedOp(j.cfg) || SafeValue(log'[k].op)));
      SetpointsLeave(s.joints[i].cfg, s.joints[i].level, Oriented(s.joints[i].cfg, t));
    }
  }

  lemma SetpointsLeave(cfg: JointConfig, level: Level, t: Triple)
    requires 0 <= cfg.axis <= 1
    ensures forall n | 0 <= n < |CommandOps(cfg, level, t)| :: LeavesWatchdog(CommandOps(cfg, level, t)[n])
  {
  }

  /** write() leaves the claims alone. */
  lemma WriteKeepsClaims(c: Context, s: Hw, period: Num)
    requires DistinctAxes(s) && ClaimsArmed(s)
    ensures ClaimsArmed(WriteSpec(c, s, period))
  {
    hide WriteSpec, Armed, WriteJoint;
    var t := WriteSpec(c, s, period);
    WriteLeavesWatchdog(c, s, period);
    WriteUp(c, s, period);
    forall i: nat | i < |t.joints| && t.up ensures ClaimOk(t.log, t.joints[i]) {
      WriteSpecFrame(c, s, period, i);
      ArmedFrame(s.log, t.log, s.joints[i].cfg);
    }
  }

  lemma {:induction false} WriteJointsUp(c: Context, s: Hw, dt: real, k: nat)
    requires k <= |s.joints|
    ensures var p := WriteJoints(c, s, dt, k);
            && (p.s.up <==> s.up && !p.stopped)
            && p.s.outputs == s.outputs && p.s.sensors == s.sensors && p.s.drives == s.drives
    decreases |s.joints| - k
  {
    hide WriteJoint, Counted;
    if k < |s.joints| {
      var r := WriteJoint(c, s.log, dt, s.joints[k]);
      if !r.stop {
        WriteJointsUp(c, AfterJointWrite(s, k, dt, r), dt, k + 1);
      }
    }
  }

  lemma WriteUp(c: Context, s: Hw, period: Num)
    ensures WriteSpec(c, s, period).up ==> s.up
    ensures WriteSpec(c, s, period).outputs == s.outputs
    ensures WriteSpec(c, s, period).sensors == s.sensors && WriteSpec(c, s, period).drives == s.drives
  {
    hide WriteJoints;
    WriteJointsUp(c, s, EffectiveDt(period), 0);
  }

  lemma ReadKeepsClaims(c: Context, s: Hw)
    requires DistinctAxes(s) && ClaimsArmed(s)
    ensures ClaimsArmed(ReadSpec(c, s))
  {
    hide ReadSpec, Armed;
    var t := ReadSpec(c, s);
    ReadSpecFrame(c, s);
    assert Extends(s.log, t.log, LeavesWatchdog);
    forall i: nat | i < |t.joints| && t.up ensures ClaimOk(t.log, t.joints[i]) {
      ReadSpecJointFrame(c, s, i);
      ArmedFrame(s.log, t.log, s.joints[i].cfg);
    }
  }

  lemma DeactivateKeepsClaims(c: Context, s: Hw)
    requires DistinctAxes(s) && ClaimsArmed(s)
    ensures ClaimsArmed(DeactivateSpec(c, s))
  {
    hide DoAll, Armed;
    var t := DeactivateSpec(c, s);
    DoAllExtends(c.env, s.log, IdleOps(s.joints), LeavesWatchdog);
    forall i | 0 <= i < |t.joints| && t.up ensures ClaimOk(t.log, t.joints[i]) {
      ArmedFrame(s.log, t.log, s.joints[i].cfg);
    }
  }

  /** A mode switch keeps the claims armed exactly if no joint it reaches fails to be released. */
  lemma SwitchKeepsClaims(c: Context, s: Hw)
    requires DistinctAxes(s) && ClaimsArmed(s)
    ensures ClaimsArmed(SwitchSpec(c, s).0) <==> !ReleaseFailsIn(c, s)
    ensures SwitchSpec(c, s).1 == 0 ==> !ReleaseFailsIn(c, s)
  {
    hide SwitchJoints, ClaimOk, FailsFrom;
    if s.up {
      SwitchJointsClaims(c, s, 0);
      SwitchKeepsUp(c, s);
    }
  }

  lemma SwitchKeepsUp(c: Context, s: Hw)
    ensures SwitchSpec(c, s).0.up == s.up
  {
    hide SwitchJoint;
    if s.up && s.joints != [] {
      SwitchJointsTurn(c, s, 0, 0);
    }
  }

  /** Every call keeps the claims armed, but for a switch in which a release fails. */
  lemma StepKeepsClaims(c: Context, s: Hw, a: Api)
    requires DistinctAxes(s) && ClaimsArmed(s)
    ensures ClaimsArmed(Step(c, s, a)) <==> !(a.Switch? && ReleaseFailsIn(c, s))
  {
    hide ReadSpec, WriteSpec, SwitchSpec, DeactivateSpec, InitTransport, DoAll, Armed, ReleaseFailsIn;
    match a {
      case ReadCall => ReadKeepsClaims(c, s);
      case WriteCall(period) => WriteKeepsClaims(c, s, period);
      case Switch => SwitchKeepsClaims(c, s);
      case Activate(created) => ActivateUnclaims(c, s, created);
      case Deactivate => DeactivateKeepsClaims(c, s);
      case _ =>
    }
  }

  /** Activation leaves either no transport or no claim. */
  lemma ActivateUnclaims(c: Context, s: Hw, created: bool)
    ensures var t := ActivateSpec(c, s, created).0;
            t.up ==> forall i | 0 <= i < |t.joints| :: !t.joints[i].claimed
  {
    hide DoAll;
    if created && Do(c.env, s.log, Open)[|s.log|].reply.status == 0 {
      InitJointsUp(c, s.(up := true, log := Do(c.env, s.log, Open)), 0);
    }
  }

  lemma {:induction false} InitJointsUp(c: Context, s: Hw, i: nat)
    requires i <= |s.joints| && s.up
    ensures var (t, status) := InitJoints(c, s, i); t.up <==> status == 0
    decreases |s.joints| - i
  {
    hide InitJoint;
    if i < |s.joints| {
      var r := InitJoint(c, s.log, s.joints[i]);
      if r.status == 0 {
        InitJointsUp(c, s.(joints := s.joints[i := r.joint], log := r.log), i + 1);
      }
    }
  }

  /** No mode switch of the run reaches a joint whose release fails. */
  ghost predicate ReleasesSucceed(c: Context, s: Hw, calls: seq<Api>) {
    forall n | 0 <= n < |calls| && calls[n].Switch? :: !ReleaseFailsIn(c, Run(c, s, calls[..n]))
  }

  /** After every call of the run, and before the first. */
  ghost predicate AlwaysArmed(c: Context, s: Hw, calls: seq<Api>) {
    forall n | 0 <= n <= |calls| :: ClaimsArmed(Run(c, s, calls[..n]))
  }

  lemma ReleasesNext(c: Context, s: Hw, calls: seq<Api>)
    requires calls != []
    ensures var m := |calls| - 1;
            ReleasesSucceed(c, s, calls) <==>
              ReleasesSucceed(c, s, calls[..m]) && !(calls[m].Switch? && ReleaseFailsIn(c, Run(c, s, calls[..m])))
  {
    hide Run, ReleaseFailsIn;
    var m := |calls| - 1;
    assert forall n | 0 <= n < m :: calls[..m][..n] == calls[..n] && calls[..m][n] == calls[n];
    if ReleasesSucceed(c, s, calls) {
      forall n | 0 <= n < m && calls[..m][n].Switch? ensures !ReleaseFailsIn(c, Run(c, s, calls[..m][..n])) {
        assert calls[n].Switch?;
      }
    }
  }

  lemma ArmedNext(c: Context, s: Hw, calls: seq<Api>)
    requires calls != []
    ensures AlwaysArmed(c, s, calls) <==>
              AlwaysArmed(c, s, calls[..|calls| - 1]) && ClaimsArmed(Run(c, s, calls))
  {
    hide Run, ClaimsArmed;
    var m := |calls| - 1;
    assert calls[..m + 1] == calls;
    assert forall n | 0 <= n <= m :: calls[..m][..n] == calls[..n];
    if AlwaysArmed(c, s, calls) {
      forall n | 0 <= n <= m ensures ClaimsArmed(Run(c, s, calls[..m][..n])) {
        assert ClaimsArmed(Run(c, s, calls[..n]));
      }
    }
  }

  /** Throughout a run every claimed joint with a watchdog has it armed in the drive, whenever a
      transport exists, exactly if in no mode switch of the run a release fails. */
  lemma {:induction false} ClaimInvariant(c: Context, s: Hw, calls: seq<Api>)
    requires DistinctAxes(s) && ClaimsArmed(s)
    ensures AlwaysArmed(c, s, calls) <==> ReleasesSucceed(c, s, calls)
  {
    hide Step, ClaimsArmed, ReleaseFailsIn;
    if calls == [] {
      assert calls[..0] == [];
    } else {
      var m := |calls| - 1;
      ReleasesNext(c, s, calls);
      ArmedNext(c, s, calls);
      ClaimInvariant(c, s, calls[..m]);
      if AlwaysArmed(c, s, calls[..m]) {
        assert calls[..m][..m] == calls[..m];
        RunConfig(c, s, calls[..m]);
        StepKeepsClaims(c, Run(c, s, calls[..m]), calls[m]);
      }
    }
  }

  /** Right after a successful switch with a transport, exactly the joints with a level are claimed. */
  lemma SwitchClaimsLevels(c: Context, s: Hw)
    requires DistinctAxes(s) && ClaimsArmed(s) && s.up && SwitchSpec(c, s).1 == 0
    ensures var t := SwitchSpec(c, s).0;
            forall i | 0 <= i < |t.joints| :: t.joints[i].claimed <==> t.joints[i].level != UNDEFINED
  {
    hide SwitchJoints;
    SwitchJointsClaims(c, s, 0);
  }

  // ---- after a failed release ----

  /** Claimed with the watchdog off, as a failed release leaves it. */
  predicate Unguarded(log: Log, j: Joint) { j.claimed && j.cfg.watchdog && !Armed(log, j.cfg) }

  /** The next mode switch of the joint is an entry, not a release. */
  predicate Reenters(c: Context, j: Joint) { j.level != UNDEFINED && !HasFault(c.safety, j.core.errs) }

  /** A joint still claimed from a failed release that gets a level again is not armed: if the switch
      succeeds it requests closed loop, with the watchdog still off. */
  lemma ReentryUnguarded(c: Context, log: Log, j: Joint)
    requires 0 <= j.cfg.axis <= 1 && Unguarded(log, j) && Reenters(c, j)
    ensures var r := SwitchJoint(c, log, j);
            && Unguarded(r.log, r.joint)
            && (r.status == 0 ==> |r.log| > |log| && r.log[|r.log| - 1].op == ClosedLoopOp(j.cfg)
                                  && r.log[|r.log| - 1].reply.status == 0)
  {
    hide Primed, SetpointOps, DoAll, HasFault, Armed;
    var ops := SwitchOps(j.cfg, j.level, Primed(j.level, j.cmd, j.core.kin));
    EnterLeavesWatchdog(c, log, j);
    ArmedFrame(log, EnterMode(c, log, j).log, j.cfg);
    DoAllIssued(c.env, log, ops);
    assert ops[|ops| - 1] == ClosedLoopOp(j.cfg);
    var end := DoAll(c.env, log, ops).1;
    if DoAll(c.env, log, ops).0 == 0 {
      assert end[|end| - 1].op == ops[|end| - 1 - |log|];
    }
  }

  lemma {:induction false} SwitchKeepsUnguarded(c: Context, s: Hw, k: nat, i: nat)
    requires k <= |s.joints| && i < |s.joints| && DistinctAxes(s)
    requires Unguarded(s.log, s.joints[i]) && (k <= i ==> Reenters(c, s.joints[i]))
    ensures var t := SwitchJoints(c, s, k).0; Unguarded(t.log, t.joints[i])
    decreases |s.joints| - k
  {
    hide SwitchJoint, Armed, Reenters;
    if k < |s.joints| {
      var r := SwitchJoint(c, s.log, s.joints[k]);
      SwitchJointFrame(c, s.log, s.joints[k]);
      if k == i {
        ReentryUnguarded(c, s.log, s.joints[i]);
      } else {
        SwitchJointOwnAxis(c, s.log, s.joints[k], s.joints[i].cfg);
      }
      if r.status == 0 {
        SwitchKeepsUnguarded(c, s.(joints := s.joints[k := r.joint], log := r.log), k + 1, i);
      }
    }
  }

  lemma StepKeepsUnguarded(c: Context, s: Hw, a: Api, i: nat)
    requires i < |s.joints| && DistinctAxes(s) && Unguarded(s.log, s.joints[i])
    requires !a.Activate? && !a.Cleanup? && (a.Switch? ==> Reenters(c, s.joints[i]))
    ensures |Step(c, s, a).joints| == |s.joints|
    ensures Unguarded(Step(c, s, a).log, Step(c, s, a).joints[i])
  {
    hide ReadSpec, WriteSpec, SwitchJoints, DoAll, Armed, Reenters;
    StepConfig(c, s, a);
    match a {
      case ReadCall =>
        ReadSpecFrame(c, s);
        ReadSpecJointFrame(c, s, i);
        assert Extends(s.log, ReadSpec(c, s).log, LeavesWatchdog);
        ArmedFrame(s.log, ReadSpec(c, s).log, s.joints[i].cfg);
      case WriteCall(period) =>
        WriteLeavesWatchdog(c, s, period);
        WriteSpecFrame(c, s, period, i);
        ArmedFrame(s.log, WriteSpec(c, s, period).log, s.joints[i].cfg);
      case Switch => if s.up { SwitchKeepsUnguarded(c, s, 0, i); }
      case Deactivate =>
        DoAllExtends(c.env, s.log, IdleOps(s.joints), LeavesWatchdog);
        ArmedFrame(s.log, DoAll(c.env, s.log, IdleOps(s.joints)).1, s.joints[i].cfg);
      case _ =>
    }
  }

  ghost predicate NeverReleased(c: Context, s: Hw, calls: seq<Api>, i: nat) {
    forall n | 0 <= n < |calls| ::
      && !calls[n].Activate? && !calls[n].Cleanup?
      && (calls[n].Switch? ==> var t := Run(c, s, calls[..n]); i < |t.joints| && Reenters(c, t.joints[i]))
  }

  /** It stays so through reads, writes, deactivation and switches to other levels, until it is released
      or masked in a switch, or activated again. */
  lemma {:induction false} UnguardedRun(c: Context, s: Hw, calls: seq<Api>, i: nat)
    requires i < |s.joints| && DistinctAxes(s) && Unguarded(s.log, s.joints[i])
    requires NeverReleased(c, s, calls, i)
    ensures var t := Run(c, s, calls); |t.joints| == |s.joints| && Unguarded(t.log, t.joints[i])
  {
    hide Step, Unguarded, Reenters;
    if calls != [] {
      var m := |calls| - 1;
      assert NeverReleased(c, s, calls[..m], i) by {
        forall n | 0 <= n < m
          ensures !calls[..m][n].Activate? && !calls[..m][n].Cleanup?
          ensures calls[..m][n].Switch? ==>
                    var t := Run(c, s, calls[..m][..n]); i < |t.joints| && Reenters(c, t.joints[i])
        {
          assert calls[..m][..n] == calls[..n] && calls[..m][n] == calls[n];
        }
      }
      UnguardedRun(c, s, calls[..m], i);
      RunConfig(c, s, calls[..m]);
      StepKeepsUnguarded(c, Run(c, s, calls[..m]), calls[m], i);
    }
  }
}
