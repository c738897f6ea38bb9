/** Where the refinement begins: what a freshly started thread makes of its first cycle, and exactly when
    it then agrees with the synchronous interface. */
module Start {
  import opened Numeric
  import opened Transport
  import opened Joints
  import opened Axis
  import opened Cycle
  import opened Runs
  import opened Worker
  import opened Refinement
  import opened Lockstep
  import Claims
  import Frozen
  import Isolation
  import Motion
  import SlotInvariants
  import ThreadWire

  // ---- fresh joints ----

  function FreshCore(p: Num): Core {
    Core(Triple(p, ZERO, ZERO), p, ZERO, NO_REGISTERS, NaN, NaN, 0, 0, false, false, false, false, false,
         Triple(p, ZERO, ZERO), NaN, false, false)
  }

  /** A joint as configuration or reset_runtime_state leaves it: held where it stands, commanded to
      stay there, at no level. */
  predicate Fresh(j: Joint) {
    var p := j.core.kin.pos;
    && p.Fin? && Unflagged(j.core) == FreshCore(p)
    && j.level == UNDEFINED && j.cmd == Triple(p, ZERO, ZERO) && j.seqNo == ZERO
  }

  ghost predicate AllFresh(s: Hw) { forall i | 0 <= i < |s.joints| :: Fresh(s.joints[i]) }

  lemma ResetFresh(j: Joint)
    ensures Fresh(Reset(j)) && !Reset(j).claimed && Reset(j).torque == NaN
  {
  }

  lemma ConfiguredFresh(cfg: JointConfig)
    ensures Fresh(Configured(cfg)) && Configured(cfg).core.kin.pos == ZERO
  {
  }

  /** on_cleanup and recover() leave fresh joints. */
  lemma CleanupFresh(s: Hw)
    ensures AllFresh(CleanupSpec(s)) && !CleanupSpec(s).up && !CleanupSpec(s).outputs
    ensures forall i | 0 <= i < |s.joints| ::
              !CleanupSpec(s).joints[i].claimed && CleanupSpec(s).joints[i].torque == NaN
  {
    hide Reset, Fresh;
    forall i | 0 <= i < |s.joints|
      ensures Fresh(CleanupSpec(s).joints[i])
      ensures !CleanupSpec(s).joints[i].claimed && CleanupSpec(s).joints[i].torque == NaN
    {
      ResetFresh(s.joints[i]);
    }
  }

  lemma {:induction false} InitKeepsFresh(c: Context, s: Hw, i: nat)
    requires i <= |s.joints| && AllFresh(s)
    ensures AllFresh(InitJoints(c, s, i).0)
    decreases |s.joints| - i
  {
    hide Retry;
    if i < |s.joints| {
      var r := InitJoint(c, s.log, s.joints[i]);
      var t := s.(joints := s.joints[i := r.joint], log := r.log);
      assert Fresh(r.joint);
      if r.status == 0 {
        InitKeepsFresh(c, t, i + 1);
      }
    }
  }

  /** Activation keeps them fresh. */
  lemma ActivateFresh(c: Context, s: Hw, created: bool)
    requires AllFresh(s)
    ensures AllFresh(ActivateSpec(c, s, created).0)
  {
    hide InitJoints, DoAll;
    InitKeepsFresh(c, s.(up := true, log := Do(c.env, s.log, Open)), 0);
    var (t, ok) := InitTransport(c, s, created);
    if ok {
      var u := if c.safety.gateOutputs then t.(outputs := true) else t;
      forall i | 0 <= i < |u.joints| ensures Fresh(ClearedFlags(u).joints[i]) {
        assert Fresh(u.joints[i]);
      }
    }
  }

  // ---- a joint under the blank order ----

  /** The limiter record of a started thread, or of a thread after blank orders. */
  predicate Blanked(t: Triple) { t == NAN3 || t == ZERO3 }

  lemma NoEffortStep(last: Num, rate: Option<Num>, dt: real)
    requires (last == ZERO || last == NaN) && Motion.RateOk(rate) && dt > 0.0
    ensures !RateExceeded(ZERO, last, rate, dt)
  {
    hide Mul, Abs, Sub, Less;
    NoStepNeeded(ZERO, rate, dt);
  }

  /** A command without effort at no level is never limited or rejected, if none was sent before. */
  lemma IdleShape(limits: CommandLimits, t: Triple, last: Triple, dt: real, kin: Triple)
    requires t.eff == ZERO && (last.eff == ZERO || last.eff == NaN) && Motion.RateOk(limits.effRate) && dt > 0.0
    ensures Shape(limits, UNDEFINED, t, last, dt, kin) == Shaped(t, false, false, false, false)
  {
    hide RateExceeded, RateLimited;
    NoEffortStep(last.eff, limits.effRate, dt);
  }

  // ---- the record of the thread ----

  ghost predicate AllBlanked(w: Work) {
    forall i | 0 <= i < |w.slots| :: BlankedSlot(w.slots[i])
  }

  lemma MaskRecord(c: Context, log: Log, x: Slot)
    ensures var y := MaskSlot(c, log, x).slot; y.cfg == x.cfg && y.core.lastCmd == x.core.lastCmd
  {
    hide IdleOp, StopOn;
    var m := x.(core := x.core.(faulted := true));
    assert m.core.lastCmd == x.core.lastCmd;
  }

  lemma SendRecord(c: Context, log: Log, x: Slot)
    ensures var y := SendSlot(c, log, x, BLANK_ORDER, ZERO3).slot;
            y.cfg == x.cfg && (y.core.lastCmd == x.core.lastCmd || y.core.lastCmd == ZERO3)
  {
    hide DoAll, CommandOps, Stale;
    NothingSent(c.env, log, x.cfg, Oriented(x.cfg, ZERO3));
  }

  lemma WriteBlanked(c: Context, log: Log, dt: real, x: Slot)
    requires Blanked(x.core.lastCmd) && Motion.RateOk(x.cfg.limits.effRate) && dt > 0.0
    ensures var y := WriteSlot(c, log, dt, x, BLANK_ORDER).slot; y.cfg == x.cfg && Blanked(y.core.lastCmd)
  {
    hide Shape, SendSlot, MaskSlot, HasFault;
    IdleShape(x.cfg.limits, ZERO3, x.core.lastCmd, dt, x.core.kin);
    var y := Flagged(x, Shaped(ZERO3, false, false, false, false));
    MaskRecord(c, log, y);
    SendRecord(c, log, y);
  }

  predicate BlankedSlot(x: Slot) { Blanked(x.core.lastCmd) && Motion.RateOk(x.cfg.limits.effRate) }

  /** In the place of one of n joints. */
  function BlankedSlots(n: nat): SlotInvariants.SlotProperty { (i, x) => i < n ==> BlankedSlot(x) }

  /** Under blank orders the limiter record of every slot stays empty or zero, however the cycle ends. */
  lemma CycleBlanked(c: Context, w: Work)
    requires AllBlanked(w)
    ensures AllBlanked(CycleSpec(c, w, BlankPost(|w.slots|)))
  {
    hide CycleSpec, PollSlot, WriteSlot, OrderAt, BlankPost, Blanked;
    var n := |w.slots|;
    var post, p := BlankPost(n), BlankedSlots(n);
    assert forall i: nat, x: Slot :: p(i, x) <==> (i < n ==> BlankedSlot(x));
    forall i: nat, x: Slot, log: Log | p(i, x) ensures p(i, PollSlot(c, log, x).0) {
      if i < n {
        assert BlankedSlot(x);
        PollFrame(c, log, x);
      }
    }
    forall i: nat, x: Slot, log: Log | p(i, x)
      ensures p(i, WriteSlot(c, log, EffectiveDt(post.dt), x, OrderAt(post, i)).slot)
    {
      if i < n {
        assert BlankedSlot(x) && OrderAt(post, i) == BLANK_ORDER;
        WriteBlanked(c, log, EffectiveDt(post.dt), x);
      }
    }
    SlotInvariants.CycleKeeps(c, w, post, p);
    assert forall i: nat | i < n :: p(i, CycleSpec(c, w, post).slots[i]);
  }

  // ---- the first cycle ----

  ghost predicate EffortRatesOk(s: Hw) {
    forall i | 0 <= i < |s.joints| :: Motion.RateOk(s.joints[i].cfg.limits.effRate)
  }

  ghost predicate AllAtZero(s: Hw) { forall i | 0 <= i < |s.joints| :: s.joints[i].core.kin.pos == ZERO }

  lemma FreshSettled(j: Joint)
    requires Fresh(j)
    ensures Quiet(j) && j.core.kin.pos.Fin? && Frozen.Settled(j.core)
  {
  }

  /** Nothing is measured of a fresh joint: standing at zero it agrees in every poll. */
  lemma FreshPoll(c: Context, log: Log, j: Joint)
    requires Fresh(j) && j.core.kin.pos == ZERO
    ensures PollMatches(c, log, j)
  {
    hide DoAll, TelemetryOps, SampleOf, FeedbackValid, AllClear;
  }

  /** A fresh joint is never stale, has no empty record, and is commanded to where it stands. */
  lemma FreshWrite(c: Context, log: Log, dt: real, j: Joint, k: Joint)
    requires Fresh(j) && ReadFrame(j, k) && Motion.RateOk(j.cfg.limits.effRate) && dt > 0.0
    ensures WriteMatchesAt(c, log, dt, k) <==> j.core.kin.pos == ZERO && !HasFault(c.safety, k.core.errs)
  {
    hide RateExceeded, HasFault, IdleOp;
    NoEffortStep(ZERO, j.cfg.limits.effRate, dt);
  }

  lemma FreshAgrees(c: Context, s: Hw, period: Num, i: nat)
    requires NoFailFast(c.env) && Writable(c, s) && i < |s.joints| && Fresh(s.joints[i])
    requires Motion.RateOk(s.joints[i].cfg.limits.effRate)
    ensures ReadMatches(c, s, i) && WriteMatches(c, s, period, i) <==>
              s.joints[i].core.kin.pos == ZERO && !HasFault(c.safety, ReadSpec(c, s).joints[i].core.errs)
  {
    hide ReadSpec, ReadTurn, WriteTurn, Fresh, PollMatches, WriteMatchesAt, HasFault, ReadFrame;
    var t, dt := ReadSpec(c, s), EffectiveDt(period);
    ReadSpecFrame(c, s);
    ReadSpecJointFrame(c, s, i);
    TurnReached(c, t, dt, 0, i);
    FreshWrite(c, WriteTurn(c, t, dt, 0, i).value, dt, s.joints[i], t.joints[i]);
    if s.joints[i].core.kin.pos == ZERO && ReadTurn(c, s, i).Some? {
      FreshPoll(c, ReadTurn(c, s, i).value, s.joints[i]);
    }
  }

  lemma {:induction false} TurnReached(c: Context, s: Hw, dt: real, k: nat, i: nat)
    requires NoFailFast(c.env) && k <= i < |s.joints|
    ensures WriteTurn(c, s, dt, k, i).Some?
    decreases i - k
  {
    hide WriteJoint, Counted;
    if k < i {
      Isolation.NoFailFastWrite(c, s.log, dt, s.joints[k]);
      TurnReached(c, AfterJointWrite(s, k, dt, WriteJoint(c, s.log, dt, s.joints[k])), dt, k + 1, i);
    }
  }

  /** Exactly when a thread started beside a freshly activated interface agrees with it after the first
      cycle of both: if every joint is held at zero and none is masked for a fault. Held anywhere else, a
      joint of the interface remembers its position as its last command, and the thread zero. */
  lemma FirstCycle(c: Context, s: Hw, period: Num)
    requires NoFailFast(c.env) && Writable(c, s) && AllFresh(s) && EffortRatesOk(s)
    ensures Related(FirstSyncCycle(c, s, period), FirstThreadCycle(c, s)) <==>
              && AllAtZero(s)
              && forall i | 0 <= i < |s.joints| :: !HasFault(c.safety, ReadSpec(c, s).joints[i].core.errs)
  {
    hide ReadSpec, FirstSyncCycle, FirstThreadCycle, Fresh, HasFault, Related, ReadMatches, WriteMatches, Quiet;
    hide Frozen.Settled;
    forall i: nat | i < |s.joints|
      ensures Quiet(s.joints[i]) && Frozen.Settled(s.joints[i].core)
      ensures ReadMatches(c, s, i) && WriteMatches(c, s, period, i) <==>
                s.joints[i].core.kin.pos == ZERO && !HasFault(c.safety, ReadSpec(c, s).joints[i].core.errs)
    {
      FreshSettled(s.joints[i]);
      FreshAgrees(c, s, period, i);
    }
    FirstCycleExactly(c, s, period);
  }

  /** A joint at no level that is commanded to stay where it was last sent. */
  predicate Resting(j: Joint) {
    && j.level == UNDEFINED && j.cmd.pos.Fin? && j.cmd == Triple(j.cmd.pos, ZERO, ZERO)
    && j.core.lastCmd == j.cmd && Motion.RateOk(j.cfg.limits.effRate)
  }

  /** It keeps a record of where it is held. */
  lemma HeldRecord(c: Context, s: Hw, period: Num, i: nat)
    requires i < |s.joints| && Resting(s.joints[i])
    ensures var p := s.joints[i].cmd.pos.r;
            var q := FirstSyncCycle(c, s, period).joints[i].core.lastCmd.pos;
            q == Fin(p) || q == Fin(-p)
  {
    hide ReadSpec, WriteSpec, WriteJoint, Shape, FirstSyncCycle;
    var u := ReadSpec(c, s);
    FirstSync(c, s, period);
    ReadSpecJointFrame(c, s, i);
    var j := u.joints[i];
    var t := s.joints[i].cmd;
    assert j.level == UNDEFINED && j.cmd == t && j.core.lastCmd == t;
    IdleShape(j.cfg.limits, t, t, EffectiveDt(period), j.core.kin);
    WriteSpecJoint(c, u, period, i);
    if Turn(c, u, period, i).Some? {
      Motion.SendRecords(c, Turn(c, u, period, i).value, EffectiveDt(period), j);
    }
  }

  /** Resting anywhere but at zero, on any bus, the interface and the thread part in the first cycle. */
  lemma RestingParts(c: Context, s: Hw, period: Num, i: nat)
    requires i < |s.joints| && Resting(s.joints[i]) && s.joints[i].cmd.pos != ZERO && EffortRatesOk(s)
    ensures !Related(FirstSyncCycle(c, s, period), FirstThreadCycle(c, s))
  {
    hide FirstSyncCycle, FirstThreadCycle, Resting, Blanked;
    assert s.joints[i].cmd.pos.Fin? by { RestingFinite(s.joints[i]); }
    HeldRecord(c, s, period, i);
    StartedBlanked(c, s);
    BlankedPosition(FirstThreadCycle(c, s).slots[i].core.lastCmd);
  }

  lemma RestingFinite(j: Joint)
    requires Resting(j)
    ensures j.cmd.pos.Fin?
  {
  }

  lemma StartedBlanked(c: Context, s: Hw)
    requires EffortRatesOk(s)
    ensures |FirstThreadCycle(c, s).slots| == |s.joints|
    ensures forall i | 0 <= i < |s.joints| :: Blanked(FirstThreadCycle(c, s).slots[i].core.lastCmd)
  {
    hide CycleSpec;
    assert AllBlanked(StartedWork(s));
    CycleBlanked(c, StartedWork(s));
  }

  lemma BlankedPosition(t: Triple)
    requires Blanked(t)
    ensures t.pos == NaN || t.pos == ZERO
  {
  }

  /** From such a start, the thread and the interface agree after every later cycle in which controllers
      rewrite all commands. */
  lemma RefinesFromStart(c: Context, s: Hw, period: Num, posts: seq<Post>)
    requires NoFailFast(c.env) && Writable(c, s) && AllFresh(s) && EffortRatesOk(s) && AllAtZero(s)
    requires forall i | 0 <= i < |s.joints| :: !HasFault(c.safety, ReadSpec(c, s).joints[i].core.errs)
    ensures Related(SyncCycles(c, FirstSyncCycle(c, s, period), posts), WorkerCycles(c, FirstThreadCycle(c, s), posts))
  {
    hide ReadSpec, SyncCycle, FirstThreadCycle, Fresh, HasFault, OwnPost;
    FirstCycle(c, s, period);
    assert Frozen.AllSettled(s) by {
      forall i | 0 <= i < |s.joints| ensures Frozen.Settled(s.joints[i].core) {
        FreshSettled(s.joints[i]);
      }
    }
    SyncCycleKeeps(c, s, OwnPost(s, period));
    RunRefines(c, FirstSyncCycle(c, s, period), FirstThreadCycle(c, s), posts);
  }

  /** An interface activated for the first time, straight from its configuration, has all joints at zero:
      it agrees with its thread after the first cycle exactly if no fault is masked in it. */
  lemma FirstActivation(c: Context, s: Hw, created: bool, period: Num)
    requires NoFailFast(c.env) && EffortRatesOk(s)
    requires forall i | 0 <= i < |s.joints| :: s.joints[i] == Configured(s.joints[i].cfg)
    requires Writable(c, Step(c, s, Activate(created)))
    ensures var t := Step(c, s, Activate(created));
            Related(FirstSyncCycle(c, t, period), FirstThreadCycle(c, t)) <==>
              forall i | 0 <= i < |t.joints| :: !HasFault(c.safety, ReadSpec(c, t).joints[i].core.errs)
  {
    hide ReadSpec, ActivateSpec, FirstSyncCycle, FirstThreadCycle, Configured, Fresh, HasFault, Writable;
    var t := Step(c, s, Activate(created));
    forall i: nat | i < |s.joints| ensures Fresh(s.joints[i]) && s.joints[i].core.kin.pos == ZERO {
      ConfiguredFresh(s.joints[i].cfg);
    }
    ActivateFresh(c, s, created);
    StepConfig(c, s, Activate(created));
    forall i: nat | i < |t.joints| ensures t.joints[i].core.kin.pos == ZERO {
      Frozen.ActivateKeepsKin(c, s, created, i);
    }
    FirstCycle(c, t, period);
  }

  // ---- deactivation and activation ----

  lemma {:induction false} InitKeepsResting(c: Context, s: Hw, k: nat, i: nat)
    requires k <= |s.joints| && i < |s.joints| && Resting(s.joints[i])
    ensures var j := InitJoints(c, s, k).0.joints[i]; Resting(j) && j.cmd == s.joints[i].cmd
    decreases |s.joints| - k
  {
    hide Retry;
    if k < |s.joints| {
      var r := InitJoint(c, s.log, s.joints[k]);
      if r.status == 0 {
        InitKeepsResting(c, s.(joints := s.joints[k := r.joint], log := r.log), k + 1, i);
      }
    }
  }

  lemma ActivateKeepsResting(c: Context, s: Hw, created: bool, i: nat)
    requires i < |s.joints| && Resting(s.joints[i])
    ensures var t := ActivateSpec(c, s, created).0;
            |t.joints| == |s.joints| && Resting(t.joints[i]) && t.joints[i].cmd == s.joints[i].cmd
  {
    hide InitJoints, DoAll, Resting;
    InitKeepsResting(c, s.(up := true, log := Do(c.env, s.log, Open)), 0, i);
    ClearKeepsResting(InitTransport(c, s, created).0.joints[i]);
  }

  lemma TwoCalls(c: Context, s: Hw, a: Api, b: Api)
    ensures Run(c, s, [a, b]) == Step(c, Step(c, s, a), b)
  {
    hide Step;
    assert [a, b][..1] == [a] && [a][..0] == [];
    assert Run(c, s, [a]) == Step(c, s, a);
  }

  /** The same after deactivating and activating an interface with a joint resting at p: it goes on from
      p, the thread started beside it from zero. */
  lemma RestartParts(c: Context, s: Hw, created: bool, period: Num, i: nat)
    requires i < |s.joints| && Resting(s.joints[i]) && s.joints[i].cmd.pos != ZERO && EffortRatesOk(s)
    ensures var t := Run(c, s, [Deactivate, Activate(created)]);
            |t.joints| == |s.joints| && !Related(FirstSyncCycle(c, t, period), FirstThreadCycle(c, t))
  {
    hide Run, ActivateSpec, DoAll, Resting, FirstSyncCycle, FirstThreadCycle, Related;
    RunConfig(c, s, [Deactivate, Activate(created)]);
    TwoCalls(c, s, Deactivate, Activate(created));
    ActivateKeepsResting(c, DeactivateSpec(c, s), created, i);
    RestingParts(c, Run(c, s, [Deactivate, Activate(created)]), period, i);
  }

  lemma ClearKeepsResting(j: Joint)
    requires Resting(j)
    ensures Resting(j.(claimed := false, core := j.core.(faulted := false, idleRequested := false)))
  {
  }

  ghost predicate AtNoLevel(s: Hw) { forall i | 0 <= i < |s.joints| :: s.joints[i].level == UNDEFINED }

  lemma {:induction false} InitKeepsLevels(c: Context, s: Hw, k: nat)
    requires k <= |s.joints| && AtNoLevel(s)
    ensures AtNoLevel(InitJoints(c, s, k).0)
    decreases |s.joints| - k
  {
    hide Retry;
    if k < |s.joints| {
      var r := InitJoint(c, s.log, s.joints[k]);
      if r.status == 0 {
        InitKeepsLevels(c, s.(joints := s.joints[k := r.joint], log := r.log), k + 1);
      }
    }
  }

  /** A successful activation forgets all faults. */
  lemma ActivateQuiet(c: Context, s: Hw, created: bool)
    requires AtNoLevel(s)
    ensures var t := ActivateSpec(c, s, created).0; t.up ==> AllQuiet(t)
  {
    hide InitJoints, DoAll;
    var start := s.(up := true, log := Do(c.env, s.log, Open));
    InitKeepsLevels(c, start, 0);
    Claims.InitJointsUp(c, start, 0);
  }

  /** After deactivation and activation, exactly: with all joints at no level, whatever was measured,
      commanded and recorded of them before, the interface and a thread started beside it agree after the
      first cycle of both if and only if every joint matches in its poll and in its write. */
  lemma RestartExactly(c: Context, s: Hw, created: bool, period: Num)
    requires NoFailFast(c.env) && Frozen.AllSettled(s) && AtNoLevel(s)
    requires Writable(c, Run(c, s, [Deactivate, Activate(created)]))
    ensures var t := Run(c, s, [Deactivate, Activate(created)]);
            Related(FirstSyncCycle(c, t, period), FirstThreadCycle(c, t)) <==>
              forall i: nat | i < |t.joints| :: ReadMatches(c, t, i) && WriteMatches(c, t, period, i)
  {
    hide Run, ActivateSpec, DoAll, FirstSyncCycle, FirstThreadCycle, Related, ReadMatches, WriteMatches, AllQuiet;
    hide Frozen.Settled;
    var calls := [Deactivate, Activate(created)];
    var t := Run(c, s, calls);
    TwoCalls(c, s, Deactivate, Activate(created));
    ActivateQuiet(c, DeactivateSpec(c, s), created);
    RunConfig(c, s, calls);
    forall i: nat | i < |t.joints| ensures Frozen.Settled(t.joints[i].core) {
      Frozen.FrozenHistory(c, s, calls, i);
    }
    FirstCycleExactly(c, t, period);
  }

  /** What the two positions are after the first poll, for any activated joint: the interface goes on
      from where it stood, the thread from zero. They agree exactly as said here; in particular a joint
      whose sample neither accepts has the two apart unless it stands at zero. */
  lemma RestartPosition(c: Context, log: Log, j: Joint)
    requires NoFailFast(c.env) && Frozen.Settled(j.core)
    ensures var a := Frozen.CleanPosition(c, log, j);
            var b := Frozen.CleanPosition(c, log, j.(core := Started(j).core));
            var p, x := j.core.kin.pos, ReadJoint(c, log, j).joint.core.kin.pos;
            var y := PollSlot(c, log, Started(j)).0.core.kin.pos;
            && x == (if a.Some? then a.value else p)
            && y == (if b.Some? then b.value else ZERO)
            && (a.Some? && b.Some? ==> x == y)
            && (a.None? && b.None? ==> (x == y <==> p == ZERO))
            && (p == ZERO ==> x == y)
  {
    hide Frozen.CleanPosition, ReadJoint, PollSlot;
    var k := j.(core := Started(j).core);
    assert Frozen.Settled(k.core);
    assert Pending(Started(j), k);
    Isolation.NoFailFastTelemetry(c, log, j);
    Isolation.NoFailFastTelemetry(c, log, k);
    Frozen.PollSettles(c, log, j);
    Frozen.PollSettles(c, log, k);
    PollRefines(c, log, Started(j), k);
    SameSample(c, log, j, k);
    if j.core.kin.pos == ZERO {
      Frozen.CleanPositionOf(c, log, j, k);
    }
  }

  /** Accepted by both, the sample is the same. */
  lemma SameSample(c: Context, log: Log, j: Joint, k: Joint)
    requires k.cfg == j.cfg && k.torque == j.torque
    ensures var a, b := Frozen.CleanPosition(c, log, j), Frozen.CleanPosition(c, log, k);
            a.Some? && b.Some? ==> a == b
  {
    hide DoAll, TelemetryOps, SampleOf, FeedbackValid, AllClear;
    DoAllIssued(c.env, log, TelemetryOps(j.cfg));
  }

  /** With a discontinuity limit d, a joint that stands still at p is accepted by the interface, and by
      the thread exactly if p is within d of zero: beyond, the thread rejects it and keeps zero as its reference. */
  lemma RestartDiscontinuity(cfg: JointConfig, p: Num, s: Sample, d: real)
    requires !cfg.invert && cfg.feedback == FeedbackLimits(None, None, Some(Fin(d))) && d >= 0.0
    requires AllFinite(s.kin) && s.kin.pos == p
    ensures FeedbackValid(cfg, p, s)
    ensures FeedbackValid(cfg, ZERO, s) <==> -d <= p.r <= d
  {
  }

  /** Every complete poll of the axis reports position x. */
  ghost predicate AlwaysReports(c: Context, cfg: JointConfig, x: Num) {
    forall log :: var raw := Frozen.RawPosition(c, log, cfg); raw.Some? ==> raw.value == x
  }

  /** Not accepted since the start: held at zero and unhealthy. */
  predicate NeverAccepted(x: Slot) { x.core.lastValidPos == ZERO && x.core.kin == ZERO3 && !x.core.healthy }

  /** A slot that was never accepted is not accepted in a poll that reports a position beyond the limit. */
  lemma PollRejects(c: Context, log: Log, x: Slot, p: real, d: real)
    requires NeverAccepted(x) && x.cfg.feedback.maxJump == Some(Fin(d)) && !(-d <= p <= d)
    requires var raw := Frozen.RawPosition(c, log, x.cfg); raw.Some? ==> raw.value == Fin(p)
    ensures NeverAccepted(PollSlot(c, log, x).0)
  {
    hide DoAll, TelemetryOps, AllClear;
    DoAllIssued(c.env, log, TelemetryOps(x.cfg));
  }

  lemma WriteAcceptsNothing(c: Context, log: Log, dt: real, x: Slot, o: Order)
    requires NeverAccepted(x)
    ensures NeverAccepted(WriteSlot(c, log, dt, x, o).slot)
  {
    hide WriteSlot;
    WriteKeepsMeasured(c, log, dt, x, o);
  }

  /** In the place of joint n, never accepted. */
  function Rejected(n: nat, cfg: JointConfig): SlotInvariants.SlotProperty {
    (i: nat, x: Slot) => i == n ==> x.cfg == cfg && NeverAccepted(x)
  }

  lemma CycleRejects(c: Context, w: Work, post: Post, n: nat, p: real, d: real)
    requires n < |w.slots| && NeverAccepted(w.slots[n])
    requires w.slots[n].cfg.feedback.maxJump == Some(Fin(d)) && !(-d <= p <= d)
    requires AlwaysReports(c, w.slots[n].cfg, Fin(p))
    ensures var y := CycleSpec(c, w, post).slots[n]; y.cfg == w.slots[n].cfg && NeverAccepted(y)
  {
    hide CycleSpec, PollSlot, WriteSlot, OrderAt, Frozen.RawPosition;
    var cfg := w.slots[n].cfg;
    var q := Rejected(n, cfg);
    assert forall i: nat, x: Slot :: q(i, x) <==> (i == n ==> x.cfg == cfg && NeverAccepted(x));
    forall i: nat, x: Slot, log: Log | q(i, x) ensures q(i, PollSlot(c, log, x).0) {
      if i == n {
        PollFrame(c, log, x);
        PollRejects(c, log, x, p, d);
      }
    }
    forall i: nat, x: Slot, log: Log | q(i, x)
      ensures q(i, WriteSlot(c, log, EffectiveDt(post.dt), x, OrderAt(post, i)).slot)
    {
      if i == n {
        WriteAcceptsNothing(c, log, EffectiveDt(post.dt), x, OrderAt(post, i));
        ThreadWire.OrderConfig(c, log, EffectiveDt(post.dt), x, OrderAt(post, i));
      }
    }
    SlotInvariants.CycleKeeps(c, w, post, q);
    assert q(n, CycleSpec(c, w, post).slots[n]);
  }

  /** After a start, a joint that keeps standing beyond its discontinuity limit from zero is not accepted
      in any number of cycles, whatever it is commanded: the thread exports zero, unhealthy. */
  lemma {:induction false} RestartNeverAccepts(c: Context, s: Hw, posts: seq<Post>, n: nat, p: real, d: real)
    requires n < |s.joints| && s.joints[n].cfg.feedback.maxJump == Some(Fin(d)) && !(-d <= p <= d)
    requires AlwaysReports(c, s.joints[n].cfg, Fin(p))
    ensures var w := WorkerCycles(c, StartedWork(s), posts);
            && |w.slots| == |s.joints|
            && w.slots[n].cfg == s.joints[n].cfg
            && NeverAccepted(w.slots[n])
  {
    hide CycleSpec, AlwaysReports;
    if posts != [] {
      var m := |posts| - 1;
      RestartNeverAccepts(c, s, posts[..m], n, p, d);
      CycleRejects(c, WorkerCycles(c, StartedWork(s), posts[..m]), posts[m], n, p, d);
    }
  }
}
