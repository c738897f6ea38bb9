/** The three guarantees about the wire, over whole runs. */
module Setpoints {
  import opened Numeric
  import opened Transport
  import opened Joints
  import opened Axis
  import opened Cycle
  import opened Runs
  import opened Discipline

  // ---- wire safety ----

  /** A setpoint operation: a finite float that survives the conversion. */
  predicate SafeValue(op: Op) { op.Write? && op.value.F32? && FloatRange(op.value.x) }

  /** The operations are the setpoints of a joint's level for a command t that is either within the
      configured limits or the hold fallback, before the inversion sign. */
  ghost predicate SafeCommand(j: Joint, t: Triple) {
    ValidCommand(j.cfg.limits, j.level, t) || t == Fallback(j.core.kin)
  }

  lemma ShapeSafe(j: Joint, dt: real)
    ensures SafeCommand(j, JointShape(j, dt).cmd)
    ensures var ops := SetpointOps(j.cfg, j.level, Oriented(j.cfg, JointShape(j, dt).cmd));
            forall n | 0 <= n < |ops| :: SafeValue(ops[n])
  {
    hide Limit, InRange;
  }

  /** Event k is an idle request, or it belongs to the setpoint block of a joint whose command is safe. */
  ghost predicate SafeEvent(s: Hw, log: Log, k: nat) {
    k < |log| && exists i: nat, t: Triple | i < |s.joints| ::
      && SafeCommand(s.joints[i], t)
      && var j := s.joints[i];
         || log[k].op == IdleOp(j.cfg)
         || (&& InOrder(log, k, CommandOps(j.cfg, j.level, Oriented(j.cfg, t)))
             && (log[k].op == FeedOp(j.cfg) || SafeValue(log[k].op)))
  }

  /** Whatever the commands are, NaN and infinities included. */
  lemma WriteIsSafe(c: Context, s: Hw, period: Num, k: nat)
    requires |s.log| <= k < |WriteSpec(c, s, period).log|
    ensures SafeEvent(s, WriteSpec(c, s, period).log, k)
  {
    hide WriteSpec, WriteJoint, JointShape, CommandOps, SetpointOps, SafeCommand, SafeValue, InOrder;
    var log' := WriteSpec(c, s, period).log;
    var dt := EffectiveDt(period);
    WriteSpecOwner(c, s, period, k);
    var i: nat :| i < |s.joints| && Owns(c, Turn(c, s, period, i), dt, s.joints[i], log', k);
    var j := s.joints[i];
    var turn := Turn(c, s, period, i).value;
    var t := JointShape(j, dt).cmd;
    ShapeSafe(j, dt);
    WriteBlock(c, turn, dt, j);
    assert log'[k] == WriteJoint(c, turn, dt, j).log[k] by {
      assert log'[..|WriteJoint(c, turn, dt, j).log|][k] == log'[k];
    }
    if !HasFault(c.safety, j.core.errs) {
      DoAllInOrder(c.env, turn, SentOps(j, dt), log', k);
      SentIsSafe(j, dt, k - |turn|);
    }
  }

  lemma SentIsSafe(j: Joint, dt: real, n: nat)
    requires n < |SentOps(j, dt)|
    ensures SentOps(j, dt)[n] == FeedOp(j.cfg) || SafeValue(SentOps(j, dt)[n])
  {
    hide JointShape, SetpointOps, SafeCommand, SafeValue;
    ShapeSafe(j, dt);
    var sets := SetpointOps(j.cfg, j.level, Oriented(j.cfg, JointShape(j, dt).cmd));
    if n < |sets| {
      assert SentOps(j, dt)[n] == sets[n];
    }
  }

  // ---- watchdog feeds in write() ----

  /** Joint i, in this write(), was sent every setpoint of its level, and event k is the feed that
      ends its turn. */
  ghost predicate EarnedFeed(c: Context, s: Hw, period: Num, i: nat, log: Log, k: nat) {
    && i < |s.joints|
    && Turn(c, s, period, i).Some?
    && var j := s.joints[i];
       var block := WriteJoint(c, Turn(c, s, period, i).value, EffectiveDt(period), j).log;
       && k == |block| - 1 && k < |log|
       && log[k].op == FeedOp(j.cfg)
       && After(log, k, SetpointOps(j.cfg, j.level, Oriented(j.cfg, JointShape(j, EffectiveDt(period)).cmd)))
       && j.cfg.watchdog && j.level != UNDEFINED
       && !HasFault(c.safety, j.core.errs)
       && !Stale(c.safety, j.seqNo, j.core.lastSeq)
  }

  lemma SetpointsAreWrites(cfg: JointConfig, level: Level, t: Triple)
    requires 0 <= cfg.axis <= 1
    ensures forall n | 0 <= n < |SetpointOps(cfg, level, t)| ::
              SetpointOps(cfg, level, t)[n].Write? && IsPlain(SetpointOps(cfg, level, t)[n])
  {
  }

  lemma WriteFeed(c: Context, s: Hw, period: Num, k: nat)
    requires DistinctAxes(s)
    requires var log' := WriteSpec(c, s, period).log; |s.log| <= k < |log'| && IsFeed(log'[k].op)
    ensures exists i: nat :: EarnedFeed(c, s, period, i, WriteSpec(c, s, period).log, k)
  {
    hide WriteSpec, WriteJoint, JointShape, SetpointOps, DoAll;
    var log' := WriteSpec(c, s, period).log;
    var dt := EffectiveDt(period);
    WriteSpecOwner(c, s, period, k);
    var i: nat :| i < |s.joints| && Owns(c, Turn(c, s, period, i), dt, s.joints[i], log', k);
    var j := s.joints[i];
    var turn := Turn(c, s, period, i).value;
    var t := Oriented(j.cfg, JointShape(j, dt).cmd);
    var block := WriteJoint(c, turn, dt, j).log;
    WriteBlock(c, turn, dt, j);
    assert log'[..|block|][k] == log'[k];
    if HasFault(c.safety, j.core.errs) {
      assert false;
    } else {
      var ops := SentOps(j, dt);
      DoAllIssued(c.env, turn, ops);
      DoAllAfter(c.env, turn, ops, k);
      SetpointsAreWrites(j.cfg, j.level, t);
      assert ops[k - |turn|] == log'[k].op;
      assert k - |turn| == |SetpointOps(j.cfg, j.level, t)|;
      assert ops[..k - |turn|] == SetpointOps(j.cfg, j.level, t);
      AfterPrefix(block, log', k, SetpointOps(j.cfg, j.level, t));
      assert EarnedFeed(c, s, period, i, log', k);
    }
  }

  /** No axis is fed twice in one write(). */
  lemma WriteFeedsOnce(c: Context, s: Hw, period: Num, k: nat, m: nat)
    requires DistinctAxes(s)
    requires var log' := WriteSpec(c, s, period).log;
             && |s.log| <= k < |log'| && |s.log| <= m < |log'|
             && IsFeed(log'[k].op) && log'[m].op == log'[k].op
    ensures k == m
  {
    hide WriteSpec, WriteJoint, JointShape, SetpointOps, HasFault, Stale;
    var log' := WriteSpec(c, s, period).log;
    WriteFeed(c, s, period, k);
    WriteFeed(c, s, period, m);
    var i: nat :| EarnedFeed(c, s, period, i, log', k);
    var n: nat :| EarnedFeed(c, s, period, n, log', m);
    assert s.joints[i].cfg.serial == s.joints[n].cfg.serial && s.joints[i].cfg.axis == s.joints[n].cfg.axis;
    assert i == n;
  }

  /** A joint that was sent in full ends its turn with a successful feed, if its watchdog is on. */
  lemma SentIsFed(c: Context, log: Log, dt: real, j: Joint)
    requires WriteJoint(c, log, dt, j).sent && j.cfg.watchdog && j.level != UNDEFINED
    ensures var block := WriteJoint(c, log, dt, j).log;
            && |block| > |log|
            && block[|block| - 1].op == FeedOp(j.cfg)
            && block[|block| - 1].reply.status == 0
  {
    hide WriteJoint, JointShape, SetpointOps, DoAll;
    WriteBlock(c, log, dt, j);
    DoAllIssued(c.env, log, SentOps(j, dt));
    var block := WriteJoint(c, log, dt, j).log;
    var k := |block| - 1;
    assert block[k] == Event(SentOps(j, dt)[k - |log|], c.env(block[..k], SentOps(j, dt)[k - |log|]));
  }

  // ---- mode switch ----

  function EntryCommand(j: Joint): Triple { Primed(j.level, j.cmd, j.core.kin) }

  /** The turn of a joint in a mode switch: arming, bookkeeping, or the ordered entry sequence. */
  lemma SwitchBlock(c: Context, log: Log, j: Joint, log': Log, k: nat)
    requires SwitchOwns(c, Some(log), j, log', k)
    requires 0 <= j.cfg.axis <= 1
    ensures || IsPlain(log'[k].op)
            || (j.level != UNDEFINED && !j.claimed && InOrder(log', k, ArmOps(j.cfg)))
            || InOrder(log', k, SwitchOps(j.cfg, j.level, EntryCommand(j)))
  {
    hide DoAll, Primed, InOrder, SwitchOps, ArmOps, ClaimJoint, EnterMode;
    var block := SwitchJoint(c, log, j).log;
    if j.level != UNDEFINED && !j.claimed {
      var r := ClaimJoint(c, log, j);
      ClaimKeepsEntry(c, log, j);
      if r.status == 0 {
        EnterBlock(c, r.log, r.joint, log', k);
      }
      if k < |r.log| {
        ClaimBlock(c, log, j, log', k);
      }
    } else if j.level == UNDEFINED && j.claimed {
      var u := UnclaimLog(c, log, j.cfg);
      EnterBlock(c, u, j, log', k);
      if k < |u| {
        assert log'[k] == u[k] by { assert log'[..|u|][k] == log'[k]; }
      }
    } else {
      EnterBlock(c, log, j, log', k);
    }
  }

  lemma ClaimKeepsEntry(c: Context, log: Log, j: Joint)
    ensures var r := ClaimJoint(c, log, j);
            && r.joint.cfg == j.cfg && r.joint.level == j.level && EntryCommand(r.joint) == EntryCommand(j)
  {
    hide ClaimJoint, Primed;
    ClaimFrame(c, log, j);
  }

  lemma ClaimBlock(c: Context, log: Log, j: Joint, log': Log, k: nat)
    requires var r := ClaimJoint(c, log, j).log; |log| <= k < |r| <= |log'| && log'[..|r|] == r
    requires 0 <= j.cfg.axis <= 1
    ensures IsPlain(log'[k].op) || InOrder(log', k, ArmOps(j.cfg))
  {
    hide DoAll, ArmOps, InOrder;
    var arm := DoAll(c.env, log, ArmOps(j.cfg)).1;
    var r := ClaimJoint(c, log, j).log;
    assert log'[k] == r[k] by { assert log'[..|r|][k] == log'[k]; }
    assert |arm| <= |r| && r[..|arm|] == arm;
    if k < |arm| {
      assert log'[..|arm|] == arm by { assert log'[..|r|][..|arm|] == log'[..|arm|]; }
      DoAllInOrder(c.env, log, ArmOps(j.cfg), log', k);
    }
  }

  lemma EnterBlock(c: Context, log: Log, j: Joint, log': Log, k: nat)
    requires var r := EnterMode(c, log, j).log; |r| <= |log'| && log'[..|r|] == r
    ensures |log| <= |log'| && log'[..|log|] == log
    ensures |log| <= k < |EnterMode(c, log, j).log| ==>
              InOrder(log', k, SwitchOps(j.cfg, j.level, EntryCommand(j)))
  {
    hide DoAll, SwitchOps, Primed;
    var ops := SwitchOps(j.cfg, j.level, EntryCommand(j));
    var r := EnterMode(c, log, j).log;
    DoAllIssued(c.env, log, ops);
    assert r[..|log|] == log;
    assert log'[..|r|][..|log|] == log'[..|log|];
    if |log| <= k < |r| {
      DoAllInOrder(c.env, log, ops, log', k);
    }
  }

  /** A feed in a mode switch directly follows the successful arming of a joint being claimed. */
  ghost predicate ArmingFeed(s: Hw, i: nat, log: Log, k: nat) {
    && i < |s.joints| && k < |log|
    && var j := s.joints[i];
       && j.level != UNDEFINED && !j.claimed && j.cfg.watchdog
       && log[k].op == FeedOp(j.cfg)
       && After(log, k, [WriteOp(j.cfg, ENABLE_WATCHDOG, Flag(true))])
  }

  /** Closed loop is requested for joint i directly after its level and priming setpoints. */
  ghost predicate OrderedEntry(s: Hw, i: nat, log: Log, k: nat) {
    && i < |s.joints| && k < |log|
    && var j := s.joints[i];
       && j.level != UNDEFINED
       && log[k].op == ClosedLoopOp(j.cfg)
       && After(log, k, EntryOps(j.cfg, j.level, EntryCommand(j)))
  }

  /** The joint whose turn in a mode switch issued event k. */
  lemma SwitchOwnerOf(c: Context, s: Hw, k: nat) returns (i: nat)
    requires DistinctAxes(s)
    requires var log' := SwitchSpec(c, s).0.log; |s.log| <= k < |log'|
    ensures i < |s.joints|
    ensures var log' := SwitchSpec(c, s).0.log;
            var j := s.joints[i];
            || IsPlain(log'[k].op)
            || (j.level != UNDEFINED && !j.claimed && InOrder(log', k, ArmOps(j.cfg)))
            || InOrder(log', k, SwitchOps(j.cfg, j.level, EntryCommand(j)))
  {
    hide SwitchJoint, SwitchJoints, Primed, SwitchOps, ArmOps, InOrder, IsPlain;
    var log' := SwitchSpec(c, s).0.log;
    SwitchOwner(c, s, 0, k);
    i :| 0 <= i < |s.joints| && SwitchOwns(c, SwitchTurn(c, s, 0, i), s.joints[i], log', k);
    SwitchBlock(c, SwitchTurn(c, s, 0, i).value, s.joints[i], log', k);
  }

  lemma ArmingOrder(cfg: JointConfig, log: Log, k: nat)
    requires 0 <= cfg.axis <= 1 && InOrder(log, k, ArmOps(cfg)) && !IsPlain(log[k].op)
    ensures cfg.watchdog && log[k].op == FeedOp(cfg)
    ensures After(log, k, [WriteOp(cfg, ENABLE_WATCHDOG, Flag(true))])
  {
    var ops := ArmOps(cfg);
    var n :| 0 <= n < |ops| && log[k].op == ops[n] && After(log, k, ops[..n]);
    assert ops[..1] == [WriteOp(cfg, ENABLE_WATCHDOG, Flag(true))];
  }

  lemma EntryOrder(cfg: JointConfig, level: Level, t: Triple, log: Log, k: nat)
    requires 0 <= cfg.axis <= 1 && InOrder(log, k, SwitchOps(cfg, level, t)) && !IsPlain(log[k].op)
    ensures level != UNDEFINED && log[k].op == ClosedLoopOp(cfg) && IsClosedLoop(log[k].op) && !IsFeed(log[k].op)
    ensures After(log, k, EntryOps(cfg, level, t))
  {
    hide SetpointOps;
    EntryHasNoFeed(cfg, level, t);
    var ops := SwitchOps(cfg, level, t);
    var n :| 0 <= n < |ops| && log[k].op == ops[n] && After(log, k, ops[..n]);
    assert n == |ops| - 1 && ops[..n] == EntryOps(cfg, level, t);
  }

  lemma SwitchFeeds(c: Context, s: Hw, k: nat)
    requires DistinctAxes(s)
    requires var log' := SwitchSpec(c, s).0.log; |s.log| <= k < |log'| && IsFeed(log'[k].op)
    ensures exists i: nat :: ArmingFeed(s, i, SwitchSpec(c, s).0.log, k)
  {
    hide SwitchSpec, SwitchOps, ArmOps, InOrder, Primed;
    var log' := SwitchSpec(c, s).0.log;
    var i := SwitchOwnerOf(c, s, k);
    var j := s.joints[i];
    if InOrder(log', k, SwitchOps(j.cfg, j.level, EntryCommand(j))) {
      EntryOrder(j.cfg, j.level, EntryCommand(j), log', k);
    } else {
      ArmingOrder(j.cfg, log', k);
      assert ArmingFeed(s, i, log', k);
    }
  }

  lemma SwitchEntries(c: Context, s: Hw, k: nat)
    requires DistinctAxes(s)
    requires var log' := SwitchSpec(c, s).0.log; |s.log| <= k < |log'| && IsClosedLoop(log'[k].op)
    ensures exists i: nat :: OrderedEntry(s, i, SwitchSpec(c, s).0.log, k)
  {
    hide SwitchSpec, SwitchOps, ArmOps, InOrder, Primed;
    var log' := SwitchSpec(c, s).0.log;
    var i := SwitchOwnerOf(c, s, k);
    var j := s.joints[i];
    if InOrder(log', k, SwitchOps(j.cfg, j.level, EntryCommand(j))) {
      EntryOrder(j.cfg, j.level, EntryCommand(j), log', k);
      assert OrderedEntry(s, i, log', k);
    } else {
      ArmingOrder(j.cfg, log', k);
    }
  }

  /** Only the last operation of a switch sequence can request closed loop, and none is a feed. */
  lemma EntryHasNoFeed(cfg: JointConfig, level: Level, t: Triple)
    requires 0 <= cfg.axis <= 1
    ensures var ops := SwitchOps(cfg, level, t);
            && (forall n | 0 <= n < |ops| :: !IsFeed(ops[n]))
            && (forall n | 0 <= n < |ops| && IsClosedLoop(ops[n]) :: n == |ops| - 1 && level != UNDEFINED)
  {
    hide SetpointOps;
    SetpointsAreWrites(cfg, level, t);
    var ops := SwitchOps(cfg, level, t);
    if level != UNDEFINED {
      var sets := SetpointOps(cfg, level, t);
      assert forall n | 1 <= n < |ops| - 1 :: ops[n] == sets[n - 1];
    }
  }

  // ---- whole runs ----

  /** Over any run, a watchdog feed is the one directly after a successful ENABLE_WATCHDOG=true on a
      claim, or directly follows successful writes of every setpoint of that joint's level. */
  lemma FeedDiscipline(c: Context, s: Hw, calls: seq<Api>, k: nat)
    requires DistinctAxes(s)
    requires |s.log| <= k < |Run(c, s, calls).log| && IsFeed(Run(c, s, calls).log[k].op)
    ensures exists n: nat, i: nat ::
              && IssuedBy(c, s, calls, n, k)
              && var t := Run(c, s, calls[..n]);
                 var log := Step(c, t, calls[n]).log;
                 || (calls[n].WriteCall? && EarnedFeed(c, t, calls[n].period, i, log, k))
                 || (calls[n].Switch? && ArmingFeed(t, i, log, k))
  {
    hide WriteSpec, SwitchSpec, ReadSpec, ActivateSpec, DeactivateSpec, EarnedFeed, ArmingFeed;
    RunEvent(c, s, calls, k);
    var n: nat :| IssuedBy(c, s, calls, n, k);
    var t := Run(c, s, calls[..n]);
    var log := Step(c, t, calls[n]).log;
    RunConfig(c, s, calls[..n]);
    StepPlain(c, t, calls[n]);
    assert log[k] == Run(c, s, calls).log[k] by { assert Run(c, s, calls).log[..|log|][k] == log[k]; }
    if calls[n].WriteCall? {
      WriteFeed(c, t, calls[n].period, k);
      var i: nat :| EarnedFeed(c, t, calls[n].period, i, log, k);
      assert IssuedBy(c, s, calls, n, k) && EarnedFeed(c, t, calls[n].period, i, log, k);
    } else {
      assert calls[n].Switch?;
      SwitchFeeds(c, t, k);
      var i: nat :| ArmingFeed(t, i, log, k);
      assert IssuedBy(c, s, calls, n, k) && ArmingFeed(t, i, log, k);
    }
  }

  /** Over any run, whenever closed loop is requested the drive's mode register has just been set to
      the joint's level and its input registers hold the priming values. */
  lemma ClosedLoopEntry(c: Context, s: Hw, calls: seq<Api>, k: nat)
    requires DistinctAxes(s)
    requires |s.log| <= k < |Run(c, s, calls).log| && IsClosedLoop(Run(c, s, calls).log[k].op)
    ensures exists n: nat, i: nat ::
              && IssuedBy(c, s, calls, n, k) && calls[n].Switch?
              && var t := Run(c, s, calls[..n]);
                 && OrderedEntry(t, i, Step(c, t, calls[n]).log, k)
                 && PrimedRegisters(Run(c, s, calls).log[..k], t.joints[i].cfg, t.joints[i].level,
                                    EntryCommand(t.joints[i]))
  {
    hide WriteSpec, SwitchSpec, ReadSpec, ActivateSpec, DeactivateSpec, PrimedRegisters, EntryOps;
    RunEvent(c, s, calls, k);
    var n: nat :| IssuedBy(c, s, calls, n, k);
    var t := Run(c, s, calls[..n]);
    var log := Step(c, t, calls[n]).log;
    RunConfig(c, s, calls[..n]);
    StepPlain(c, t, calls[n]);
    var final := Run(c, s, calls).log;
    assert log[k] == final[k] by { assert final[..|log|][k] == log[k]; }
    if calls[n].WriteCall? {
      WriteIsPlain(c, t, calls[n].period, k);
      assert false;
    } else {
      assert calls[n].Switch?;
      SwitchEntries(c, t, k);
      var i: nat :| OrderedEntry(t, i, log, k);
      var j := t.joints[i];
      assert final[..k] == log[..k] by { assert final[..|log|][..k] == final[..k]; }
      EntryRegisters(log, k, j.cfg, j.level, EntryCommand(j));
      assert IssuedBy(c, s, calls, n, k) && OrderedEntry(t, i, log, k);
    }
  }

  /** write() never requests closed loop. */
  lemma WriteIsPlain(c: Context, s: Hw, period: Num, k: nat)
    requires DistinctAxes(s)
    requires |s.log| <= k < |WriteSpec(c, s, period).log|
    ensures !IsClosedLoop(WriteSpec(c, s, period).log[k].op)
  {
    hide WriteSpec, SafeCommand, Oriented, SetpointOps;
    var log := WriteSpec(c, s, period).log;
    WriteIsSafe(c, s, period, k);
  }

  predicate PrimedRegisters(log: Log, cfg: JointConfig, level: Level, t: Triple) {
    && WrittenOk(log, cfg.serial, AxisEndpoint(CONTROL_MODE, cfg.axis), I32(LevelCode(level)))
    && (level == POSITION ==> Register(log, PosOp(cfg, t)))
    && (level == POSITION || level == VELOCITY ==> Register(log, VelOp(cfg, t)))
    && Register(log, TorqueOp(cfg, t))
  }

  predicate Register(log: Log, op: Op)
    requires op.Write?
  {
    WrittenOk(log, op.serial, op.endpoint, op.value)
  }

  /** The last write among the events log[p..k] decides. */
  lemma {:induction false} LastWriteAt(log: Log, p: nat, k: nat)
    requires p < k <= |log| && log[p].op.Write?
    requires forall q | p < q < k :: !WritesTo(log[q].op, log[p].op.serial, log[p].op.endpoint)
    ensures LastWrite(log[..k], log[p].op.serial, log[p].op.endpoint) == Some(log[p])
    decreases k
  {
    assert log[..k] == log[..k - 1] + [log[k - 1]];
    LastWriteAppend(log[..k - 1], log[k - 1], log[p].op.serial, log[p].op.endpoint);
    if p < k - 1 {
      LastWriteAt(log, p, k - 1);
    }
  }

  lemma EntryRegisters(log: Log, k: nat, cfg: JointConfig, level: Level, t: Triple)
    requires 0 <= cfg.axis <= 1 && level != UNDEFINED
    requires After(log, k, EntryOps(cfg, level, t))
    ensures PrimedRegisters(log[..k], cfg, level, t)
  {
    hide LastWrite, Saturate, RadiansToTurns;
    var start := k - |EntryOps(cfg, level, t)|;
    LastWriteAt(log, start, k);
    match level {
      case POSITION =>
        LastWriteAt(log, start + 1, k);
        LastWriteAt(log, start + 2, k);
        LastWriteAt(log, start + 3, k);
      case VELOCITY =>
        LastWriteAt(log, start + 1, k);
        LastWriteAt(log, start + 2, k);
      case EFFORT =>
        LastWriteAt(log, start + 1, k);
      case UNDEFINED =>
    }
  }
}
