/** The turn of one joint in a mode switch, operation by operation: what is written, read and called on its
    axis, in which order, and what the joint remembers of it. */
module Turns {
  import opened Numeric
  import opened Transport
  import opened Joints
  import opened Axis
  import opened Cycle
  import opened Runs
  import opened Telemetry
  import opened Masking

  // ---- scripts ----

  function Put(cfg: JointConfig, base: int, value: Wire): Op { Write(cfg.serial, AxisEndpoint(base, cfg.axis), value) }

  function Get(cfg: JointConfig, base: int): Op { Read(cfg.serial, AxisEndpoint(base, cfg.axis)) }

  function Invoke(cfg: JointConfig, base: int): Op { Call(cfg.serial, AxisEndpoint(base, cfg.axis)) }

  /** The operations are issued in order, up to and including the first that fails. */
  ghost predicate Issues(log: Log, log': Log, ops: seq<Op>, status: int) {
    && |log| <= |log'| <= |log| + |ops| && log'[..|log|] == log
    && (forall n | |log| <= n < |log'| :: log'[n].op == ops[n - |log|])
    && (forall n | |log| <= n < |log'| - 1 :: log'[n].reply.status == 0)
    && (|log'| > |log| ==> log'[|log'| - 1].reply.status == status)
    && (if status == 0 then |log'| == |log| + |ops| else |log'| > |log|)
  }

  lemma DoAllIssues(env: Env, log: Log, ops: seq<Op>)
    ensures Issues(log, DoAll(env, log, ops).1, ops, DoAll(env, log, ops).0)
  {
    DoAllIssued(env, log, ops);
  }

  lemma DoIssues(env: Env, log: Log, op: Op)
    ensures Issues(log, Do(env, log, op), [op], env(log, op).status)
  {
  }

  /** A script ends where an operation of its first part fails, and goes on to the second otherwise. */
  lemma IssuesThen(a: Log, b: Log, d: Log, first: seq<Op>, second: seq<Op>, s: int, t: int)
    requires Issues(a, b, first, s)
    requires s == 0 ==> Issues(b, d, second, t)
    ensures s != 0 ==> Issues(a, b, first + second, s)
    ensures s == 0 ==> Issues(a, d, first + second, t)
  {
    if s == 0 {
      assert d[..|a|] == d[..|b|][..|a|];
      forall n | |a| <= n < |b| ensures d[n] == b[n] {
        assert d[..|b|][n] == d[n];
      }
    }
  }

  function Arming(cfg: JointConfig): seq<Op> {
    if cfg.watchdog then [Put(cfg, ENABLE_WATCHDOG, Flag(true)), Invoke(cfg, WATCHDOG_FEED)] else []
  }

  function InTurns(x: Num): Wire { F32(Saturate(RadiansToTurns(x))) }

  const NOTHING := F32(ZERO)

  /** Control mode 3, 2 or 1, setpoints that hold the measured state, and closed loop, which is state 8; or
      idle, which is state 1. */
  function Entry(cfg: JointConfig, level: Level, kin: Triple): seq<Op> {
    match level
    case POSITION => [Put(cfg, CONTROL_MODE, I32(3)), Put(cfg, INPUT_POS, InTurns(kin.pos)),
                      Put(cfg, INPUT_VEL, NOTHING), Put(cfg, INPUT_TORQUE, NOTHING),
                      Put(cfg, REQUESTED_STATE, I32(8))]
    case VELOCITY => [Put(cfg, CONTROL_MODE, I32(2)), Put(cfg, INPUT_VEL, InTurns(kin.vel)),
                      Put(cfg, INPUT_TORQUE, NOTHING), Put(cfg, REQUESTED_STATE, I32(8))]
    case EFFORT => [Put(cfg, CONTROL_MODE, I32(1)), Put(cfg, INPUT_TORQUE, F32(Saturate(kin.eff))),
                    Put(cfg, REQUESTED_STATE, I32(8))]
    case UNDEFINED => [Put(cfg, REQUESTED_STATE, I32(1))]
  }

  lemma ZeroTurns()
    ensures InTurns(ZERO) == NOTHING && F32(Saturate(ZERO)) == NOTHING
  {
  }

  lemma EntryOpsMeaning(cfg: JointConfig, level: Level, cmd: Triple, kin: Triple)
    ensures SwitchOps(cfg, level, Primed(level, cmd, kin)) == Entry(cfg, level, kin)
  {
    hide AxisEndpoint, Saturate, RadiansToTurns;
    ZeroTurns();
  }

  // ---- entering a level, or idle ----

  /** Positive as an error register. */
  predicate Positive(x: Num) { x.Fin? && x.r >= 1.0 }

  predicate MaskedBy(c: Context, errs: Registers) {
    c.safety.maskFaulted &&
    (Positive(errs.axis) || Positive(errs.motor) || Positive(errs.encoder) || Positive(errs.controller))
  }

  lemma FaultMeaning(c: Context, errs: Registers)
    ensures HasFault(c.safety, errs) <==> MaskedBy(c, errs)
  {
  }

  function EntryScript(c: Context, j: Joint): seq<Op> {
    if MaskedBy(c, j.core.errs) then [] else Entry(j.cfg, j.level, j.core.kin)
  }

  /** What the joint is after its entry: masked, it has lost its level and its claim; entered, it is claimed
      exactly if it has a level; failed, it keeps both and remembers the error. */
  predicate Entered(c: Context, j: Joint, k: Joint, status: int) {
    if MaskedBy(c, j.core.errs) then status == 0 && k == j.(level := UNDEFINED, claimed := false)
    else
      && k == j.(cmd := k.cmd, claimed := k.claimed, core := j.core.(writeError := status))
      && k.claimed == (if status == 0 then j.level != UNDEFINED else j.claimed)
  }

  lemma EnterMeaning(c: Context, log: Log, j: Joint)
    ensures var r := EnterMode(c, log, j);
            Issues(log, r.log, EntryScript(c, j), r.status) && Entered(c, j, r.joint, r.status)
  {
    hide DoAll, SwitchOps, Entry, Primed, HasFault, MaskedBy;
    FaultMeaning(c, j.core.errs);
    EntryOpsMeaning(j.cfg, j.level, j.cmd, j.core.kin);
    DoAllIssues(c.env, log, SwitchOps(j.cfg, j.level, Primed(j.level, j.cmd, j.core.kin)));
  }

  /** Without a change of its claim the joint only enters its level, or idle. */
  lemma StayMeaning(c: Context, log: Log, j: Joint)
    requires j.claimed <==> j.level != UNDEFINED
    ensures var r := SwitchJoint(c, log, j);
            Issues(log, r.log, EntryScript(c, j), r.status) && Entered(c, j, r.joint, r.status)
  {
    hide EnterMode, EntryScript, Entered;
    EnterMeaning(c, log, j);
  }

  /** A release idles the axis and disarms its watchdog, whatever is answered, and then enters idle. */
  lemma ReleaseMeaning(c: Context, log: Log, j: Joint)
    requires j.claimed && j.level == UNDEFINED
    ensures var r := SwitchJoint(c, log, j);
            && |r.log| >= |log| + 2 && r.log[..|log|] == log
            && r.log[|log|].op == Put(j.cfg, REQUESTED_STATE, I32(1))
            && r.log[|log| + 1].op == Put(j.cfg, ENABLE_WATCHDOG, Flag(false))
            && Issues(r.log[..|log| + 2], r.log, EntryScript(c, j), r.status)
            && Entered(c, j, r.joint, r.status)
  {
    hide EnterMode, EntryScript, Entered, AxisEndpoint;
    var u := UnclaimLog(c, log, j.cfg);
    EnterMeaning(c, u, j);
    var r := SwitchJoint(c, log, j);
    assert r.log[..|log| + 2] == u;
    assert r.log[..|log|] == u[..|log|];
    assert r.log[|log|] == u[|log|] && r.log[|log| + 1] == u[|log| + 1];
  }

  // ---- claiming ----

  const WATCHDOG_EXPIRY := 0x800

  /** The axis error read at position n is nothing but an expired watchdog. */
  predicate OnlyExpired(word: int) { word % 0x1_0000_0000 == WATCHDOG_EXPIRY }

  /** The axis error a claim exports: what it read, or zero once it has cleared the expiry. */
  function ClaimedError(log: Log, n: nat): Num
    requires n < |log|
  {
    var word := log[n].reply.word;
    if OnlyExpired(word) && n + 1 < |log| && log[n + 1].reply.status == 0 then ZERO
    else Fin((word % 0x1_0000_0000) as real)
  }

  function Clearing(cfg: JointConfig, word: int): seq<Op> {
    if OnlyExpired(word) then [Invoke(cfg, CLEAR_ERRORS)] else []
  }

  /** Where a claim reads the axis error. */
  function ErrorRead(log: Log, cfg: JointConfig): nat { |log| + |Arming(cfg)| }

  /** The claim has armed the watchdog and read the axis error. */
  predicate KnowsError(log: Log, log': Log, cfg: JointConfig) {
    ErrorRead(log, cfg) < |log'| && log'[ErrorRead(log, cfg)].reply.status == 0
  }

  lemma ArmingMeaning(cfg: JointConfig)
    ensures ArmOps(cfg) == Arming(cfg)
  {
  }

  function FailedClaim(j: Joint, status: int): Joint { j.(core := j.core.(writeError := status)) }

  function ShowingError(j: Joint, x: Num): Joint { j.(core := j.core.(errs := j.core.errs.(axis := x))) }

  /** A claim whose arming was answered with r. */
  lemma ClaimSteps(c: Context, log: Log, j: Joint, log1: Log, log2: Log, log3: Log)
    requires log1 == DoAll(c.env, log, Arming(j.cfg)).1
    requires log2 == Do(c.env, log1, Get(j.cfg, AXIS_ERROR)) && log3 == Do(c.env, log2, Invoke(j.cfg, CLEAR_ERRORS))
    ensures var status := DoAll(c.env, log, Arming(j.cfg)).0;
            var read, cleared := log2[|log1|].reply, log3[|log2|].reply.status;
            var word := read.word % 0x1_0000_0000;
            ClaimJoint(c, log, j) ==
            if status != 0 then JointSwitch(FailedClaim(j, status), log1, status)
            else if read.status != 0 then JointSwitch(FailedClaim(j, read.status), log2, read.status)
            else if word != WATCHDOG_EXPIRY then JointSwitch(ShowingError(j, Fin(word as real)), log2, 0)
            else if cleared != 0 then
              JointSwitch(FailedClaim(ShowingError(j, Fin(word as real)), cleared), log3, cleared)
            else JointSwitch(ShowingError(j, ZERO), log3, 0)
  {
    hide DoAll, AxisEndpoint, ArmOps, Arming;
    ArmingMeaning(j.cfg);
  }

  /** What a claim does before the level is entered. */
  lemma ClaimMeaning(c: Context, log: Log, j: Joint)
    ensures var r := ClaimJoint(c, log, j);
            var n := ErrorRead(log, j.cfg);
            && (!KnowsError(log, r.log, j.cfg) ==>
                  && r.status != 0 && r.joint == j.(core := j.core.(writeError := r.status))
                  && Issues(log, r.log, Arming(j.cfg) + [Get(j.cfg, AXIS_ERROR)], r.status))
            && (KnowsError(log, r.log, j.cfg) ==>
                  && Issues(log, r.log, Arming(j.cfg) + [Get(j.cfg, AXIS_ERROR)] +
                                        Clearing(j.cfg, r.log[n].reply.word), r.status)
                  && r.joint == j.(core := j.core.(errs := j.core.errs.(axis := ClaimedError(r.log, n)),
                                                   writeError := if r.status == 0 then j.core.writeError
                                                                 else r.status)))
  {
    hide DoAll, Issues, ClaimJoint, Arming, Get, Invoke;
    var (status, log1) := DoAll(c.env, log, Arming(j.cfg));
    DoAllIssues(c.env, log, Arming(j.cfg));
    IssuesLength(log, log1, Arming(j.cfg), status);
    var op := Get(j.cfg, AXIS_ERROR);
    var log2 := Do(c.env, log1, op);
    var log3 := Do(c.env, log2, Invoke(j.cfg, CLEAR_ERRORS));
    ClaimSteps(c, log, j, log1, log2, log3);
    DoIssues(c.env, log1, op);
    IssuesThen(log, log1, log2, Arming(j.cfg), [op], status, log2[|log1|].reply.status);
    if status == 0 && log2[|log1|].reply.status == 0 {
      ClearStep(c, log, log2, Arming(j.cfg) + [op], j.cfg, log2[|log1|].reply.word);
      assert log3[|log1|] == log2[|log1|];
    }
  }

  lemma ClearStep(c: Context, log: Log, mid: Log, ops: seq<Op>, cfg: JointConfig, word: int)
    requires Issues(log, mid, ops, 0)
    ensures !OnlyExpired(word) ==> Issues(log, mid, ops + Clearing(cfg, word), 0)
    ensures OnlyExpired(word) ==>
              var clear := Invoke(cfg, CLEAR_ERRORS);
              Issues(log, Do(c.env, mid, clear), ops + Clearing(cfg, word), c.env(mid, clear).status)
  {
    hide Issues, OnlyExpired;
    var clear := Invoke(cfg, CLEAR_ERRORS);
    assert ops + [] == ops;
    DoIssues(c.env, mid, clear);
    IssuesThen(log, mid, Do(c.env, mid, clear), ops, [clear], 0, c.env(mid, clear).status);
  }

  lemma IssuesLength(log: Log, log': Log, ops: seq<Op>, status: int)
    requires Issues(log, log', ops, status)
    ensures if status == 0 then |log'| == |log| + |ops| else |log'| <= |log| + |ops| && |log'| > |log|
    ensures status != 0 ==> log'[|log'| - 1].reply.status == status
  {
  }

  /** The turn of a joint that gets a level: its watchdog is armed and fed, the axis error is read, and
      cleared exactly if it is nothing but an expired watchdog, in which case it is exported as zero once the
      drive has accepted the clearing, and otherwise as read. With this axis error and the other three the
      joint is masked, or enters its level. */
  lemma ClaimTurn(c: Context, log: Log, j: Joint)
    requires j.level != UNDEFINED && !j.claimed
    ensures var r := SwitchJoint(c, log, j);
            var n := ErrorRead(log, j.cfg);
            && (!KnowsError(log, r.log, j.cfg) ==>
                  && r.status != 0 && r.joint == j.(core := j.core.(writeError := r.status))
                  && Issues(log, r.log, Arming(j.cfg) + [Get(j.cfg, AXIS_ERROR)], r.status))
            && (KnowsError(log, r.log, j.cfg) ==>
                  var word := r.log[n].reply.word;
                  var k := j.(core := j.core.(errs := j.core.errs.(axis := ClaimedError(r.log, n))));
                  && Issues(log, r.log, Arming(j.cfg) + [Get(j.cfg, AXIS_ERROR)] + Clearing(j.cfg, word) +
                                        EntryScript(c, k), r.status)
                  && r.joint.core.errs == k.core.errs
                  && (r.status == 0 ==> Entered(c, k, r.joint, 0)))
  {
    hide ClaimJoint, EnterMode, EntryScript, Entered, Issues, Arming, Clearing, Get;
    ClaimMeaning(c, log, j);
    var a := ClaimJoint(c, log, j);
    var clearing := if KnowsError(log, a.log, j.cfg)
                    then Clearing(j.cfg, a.log[ErrorRead(log, j.cfg)].reply.word) else [];
    var first := Arming(j.cfg) + [Get(j.cfg, AXIS_ERROR)] + clearing;
    if a.status != 0 {
      if KnowsError(log, a.log, j.cfg) {
        var k := j.(core := j.core.(errs := j.core.errs.(axis := ClaimedError(a.log, ErrorRead(log, j.cfg)))));
        IssuesThen(log, a.log, a.log, first, EntryScript(c, k), a.status, 0);
      }
    } else {
      EnterMeaning(c, a.log, a.joint);
      var b := EnterMode(c, a.log, a.joint);
      IssuesThen(log, a.log, b.log, first, EntryScript(c, a.joint), 0, b.status);
      EntryKeepsErrors(c, a.joint, b.joint, b.status);
      SameEvents(a.log, b.log, EntryScript(c, a.joint), b.status, ErrorRead(log, j.cfg));
      ClearedLength(log, a.log, j.cfg);
    }
  }

  lemma EntryKeepsErrors(c: Context, j: Joint, k: Joint, status: int)
    requires Entered(c, j, k, status)
    ensures k.core.errs == j.core.errs
  {
  }

  lemma SameEvents(log: Log, log': Log, ops: seq<Op>, status: int, n: nat)
    requires Issues(log, log', ops, status) && n < |log|
    ensures n < |log'| && log'[n] == log[n]
    ensures n + 1 < |log| ==> n + 1 < |log'| && log'[n + 1] == log[n + 1]
  {
    assert log'[..|log|][n] == log'[n];
    if n + 1 < |log| {
      assert log'[..|log|][n + 1] == log'[n + 1];
    }
  }

  lemma ClearedLength(log: Log, log': Log, cfg: JointConfig)
    requires KnowsError(log, log', cfg)
    requires Issues(log, log', Arming(cfg) + [Get(cfg, AXIS_ERROR)] +
                               Clearing(cfg, log'[ErrorRead(log, cfg)].reply.word), 0)
    ensures OnlyExpired(log'[ErrorRead(log, cfg)].reply.word) ==> ErrorRead(log, cfg) + 1 < |log'|
  {
  }

  /** The operation is issued at `from` or later. */
  ghost predicate Occurs(log: Log, from: nat, op: Op) { exists n | from <= n < |log| :: log[n].op == op }

  lemma NotElsewhere(cfg: JointConfig, level: Level, kin: Triple)
    requires 0 <= cfg.axis <= 1
    ensures forall n | 0 <= n < |Entry(cfg, level, kin)| :: Entry(cfg, level, kin)[n].Write?
    ensures Invoke(cfg, CLEAR_ERRORS) !in Arming(cfg) + [Get(cfg, AXIS_ERROR)]
    ensures Put(cfg, REQUESTED_STATE, I32(8)) !in Arming(cfg) + [Get(cfg, AXIS_ERROR)] + [Invoke(cfg, CLEAR_ERRORS)]
  {
    hide Saturate, RadiansToTurns;
  }

  /** A claim that gets to know the axis error calls CLEAR_ERRORS exactly if the word is 0x800. */
  lemma ClearsExactly(c: Context, log: Log, j: Joint)
    requires 0 <= j.cfg.axis <= 1 && j.level != UNDEFINED && !j.claimed
    requires KnowsError(log, SwitchJoint(c, log, j).log, j.cfg)
    ensures var r := SwitchJoint(c, log, j);
            var word := r.log[ErrorRead(log, j.cfg)].reply.word;
            Occurs(r.log, |log|, Invoke(j.cfg, CLEAR_ERRORS)) <==> word % 0x1_0000_0000 == 0x800
  {
    hide SwitchJoint, Entry, Arming, AxisEndpoint, ClaimedError, Entered;
    ClaimTurn(c, log, j);
    var r, n := SwitchJoint(c, log, j), ErrorRead(log, j.cfg);
    var word := r.log[n].reply.word;
    var k := j.(core := j.core.(errs := j.core.errs.(axis := ClaimedError(r.log, n))));
    NotElsewhere(j.cfg, j.level, k.core.kin);
    var ops := Arming(j.cfg) + [Get(j.cfg, AXIS_ERROR)] + Clearing(j.cfg, word) + EntryScript(c, k);
    var clear := Invoke(j.cfg, CLEAR_ERRORS);
    if OnlyExpired(word) {
      Attempted(log, r.log, ops, r.status, n - |log|);
      assert ops[n + 1 - |log|] == clear;
    }
  }

  /** After a success, the next operation of a script is attempted. */
  lemma Attempted(log: Log, log': Log, ops: seq<Op>, status: int, n: nat)
    requires Issues(log, log', ops, status) && n + 1 < |ops|
    requires |log| + n < |log'| && log'[|log| + n].reply.status == 0
    ensures |log| + n + 1 < |log'| && log'[|log| + n + 1].op == ops[n + 1]
  {
  }

  lemma PositiveWord(x: Num, word: int)
    requires ReadAsInt32(x, word)
    ensures Positive(x) <==> FaultWord(word)
  {
    SameResidue(x.r.Floor, word);
  }

  /** The error words a claim is masked for: any axis error but an expired watchdog, and the other three. */
  predicate ClaimFault(log: Log, cfg: JointConfig, word: int) {
    || (word % 0x1_0000_0000 != 0 && !OnlyExpired(word))
    || FaultAnswer(Answer(log, cfg, MOTOR_ERROR)) || FaultAnswer(Answer(log, cfg, ENCODER_ERROR))
    || FaultAnswer(Answer(log, cfg, CONTROLLER_ERROR))
  }

  lemma ClaimFaultMeaning(log: Log, cfg: JointConfig, word: int)
    ensures ClaimFault(log, cfg, word) <==>
              || (word % 0x1_0000_0000 != 0 && !OnlyExpired(word))
              || FaultAnswer(Answer(log, cfg, MOTOR_ERROR)) || FaultAnswer(Answer(log, cfg, ENCODER_ERROR))
              || FaultAnswer(Answer(log, cfg, CONTROLLER_ERROR))
  {
    hide FaultAnswer;
  }

  lemma PolledFaults(c: Context, log: Log, cfg: JointConfig, errs: Registers, axis: Num)
    requires ExportsErrors(log, cfg, errs) && c.safety.maskFaulted
    ensures MaskedBy(c, errs) <==> FaultRead(log, cfg)
    ensures MaskedBy(c, errs.(axis := axis)) <==>
              || Positive(axis) || FaultAnswer(Answer(log, cfg, MOTOR_ERROR))
              || FaultAnswer(Answer(log, cfg, ENCODER_ERROR)) || FaultAnswer(Answer(log, cfg, CONTROLLER_ERROR))
  {
    hide Answer, ReadAsInt32, FaultWord, Positive;
    PositiveWord(errs.axis, Answer(log, cfg, AXIS_ERROR).value.word);
    PositiveWord(errs.motor, Answer(log, cfg, MOTOR_ERROR).value.word);
    PositiveWord(errs.encoder, Answer(log, cfg, ENCODER_ERROR).value.word);
    PositiveWord(errs.controller, Answer(log, cfg, CONTROLLER_ERROR).value.word);
  }

  lemma ClaimedPositive(log: Log, n: nat)
    requires n < |log| && (OnlyExpired(log[n].reply.word) ==> n + 1 < |log| && log[n + 1].reply.status == 0)
    ensures Positive(ClaimedError(log, n)) <==>
              log[n].reply.word % 0x1_0000_0000 != 0 && !OnlyExpired(log[n].reply.word)
  {
  }

  /** The fault a mode switch sees, with the four words of the last poll, or with the axis error it has
      read itself in place of the first. */
  predicate FaultSeen(polled: Log, log: Log, log': Log, k: Joint) {
    if k.level != UNDEFINED && !k.claimed
    then ErrorRead(log, k.cfg) < |log'| && ClaimFault(polled, k.cfg, log'[ErrorRead(log, k.cfg)].reply.word)
    else FaultRead(polled, k.cfg)
  }

  /** A successful turn in a mode switch, after an accepted poll and with masking on: if a fault is seen the
      joint ends at UNDEFINED and unclaimed; otherwise it keeps its level, and is claimed exactly if it has
      one. */
  lemma SwitchMasked(c: Context, log: Log, j: Joint, log2: Log, k: Joint)
    requires 0 <= j.cfg.axis <= 1 && AcceptedPoll(c, log, j) && c.safety.maskFaulted
    requires k == ReadJoint(c, log, j).joint.(cmd := k.cmd, seqNo := k.seqNo, level := k.level, claimed := k.claimed)
    requires SwitchJoint(c, log2, k).status == 0
    ensures var t := DoAll(c.env, log, TelemetryOps(j.cfg)).1;
            var r := SwitchJoint(c, log2, k);
            if FaultSeen(t, log2, r.log, k) then r.joint.level == UNDEFINED && !r.joint.claimed
            else r.joint.level == k.level && (r.joint.claimed <==> k.level != UNDEFINED)
  {
    hide SwitchJoint, ReadJoint, DoAll, AcceptedPoll, ExportsErrors, Positive, FaultRead, EntryScript, ClaimedError;
    hide Arming, Clearing, Get, MaskedBy, FaultAnswer, ClaimFault;
    PollMeaning(c, log, j);
    assert k.cfg == j.cfg by { ReadJointFrame(c, log, j); }
    var t, r := DoAll(c.env, log, TelemetryOps(j.cfg)).1, SwitchJoint(c, log2, k);
    if k.level != UNDEFINED && !k.claimed {
      ClaimTurn(c, log2, k);
      var n := ErrorRead(log2, k.cfg);
      ClearedIn(c, log2, k);
      ClaimedPositive(r.log, n);
      PolledFaults(c, t, j.cfg, k.core.errs, ClaimedError(r.log, n));
      assert ClaimFault(t, k.cfg, r.log[n].reply.word) <==>
             MaskedBy(c, k.core.errs.(axis := ClaimedError(r.log, n))) by {
        ClaimFaultMeaning(t, k.cfg, r.log[n].reply.word);
      }
    } else {
      PolledFaults(c, t, j.cfg, k.core.errs, ZERO);
      if k.level == UNDEFINED && k.claimed {
        ReleaseMeaning(c, log2, k);
      } else {
        StayMeaning(c, log2, k);
      }
    }
  }

  /** A claim that succeeds has cleared the expiry it has read. */
  lemma ClearedIn(c: Context, log: Log, j: Joint)
    requires j.level != UNDEFINED && !j.claimed && SwitchJoint(c, log, j).status == 0
    ensures var r, n := SwitchJoint(c, log, j), ErrorRead(log, j.cfg);
            && KnowsError(log, r.log, j.cfg)
            && (OnlyExpired(r.log[n].reply.word) ==> n + 1 < |r.log| && r.log[n + 1].reply.status == 0)
  {
    hide SwitchJoint, EntryScript, ClaimedError, Entered, Arming, Get;
    ClaimTurn(c, log, j);
  }
}
