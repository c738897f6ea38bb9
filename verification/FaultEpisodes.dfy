/** What a faulted joint is sent while the fault lasts. */
module FaultEpisodes {
  import opened Numeric
  import opened Transport
  import opened Joints
  import opened Errors
  import opened Axis
  import opened Cycle
  import opened Runs
  import opened Isolation
  import Frozen
  import I = SlotInvariants
  import W = Worker

  /** The traffic of an axis without the telemetry reads. */
  function Requests(log: Log, cfg: JointConfig): Log {
    if log == [] then []
    else
      var e := log[|log| - 1];
      Requests(log[..|log| - 1], cfg) +
      if OnAxis(e.op, cfg.serial, cfg.axis) && !e.op.Read? then [e] else []
  }

  lemma RequestsAppend(log: Log, e: Event, cfg: JointConfig)
    ensures Requests(log + [e], cfg) ==
            Requests(log, cfg) + if OnAxis(e.op, cfg.serial, cfg.axis) && !e.op.Read? then [e] else []
  {
    assert (log + [e])[..|log|] == log;
  }

  function Silent(cfg: JointConfig): Op -> bool { (op: Op) => op.Read? || !OnAxis(op, cfg.serial, cfg.axis) }

  lemma {:induction false} RequestsFrame(log: Log, log': Log, cfg: JointConfig)
    requires Extends(log, log', Silent(cfg))
    ensures Requests(log', cfg) == Requests(log, cfg)
    decreases |log'|
  {
    hide OnAxis;
    if |log'| == |log| {
      assert log' == log;
    } else {
      var n := |log'| - 1;
      assert log'[..n][..|log|] == log'[..|log|];
      RequestsFrame(log, log'[..n], cfg);
      assert log' == log'[..n] + [log'[n]];
      RequestsAppend(log'[..n], log'[n], cfg);
    }
  }

  lemma OffIsSilent(log: Log, log': Log, cfg: JointConfig)
    requires Extends(log, log', Off(cfg.serial, cfg.axis)) || Extends(log, log', IsRead)
    ensures Extends(log, log', Silent(cfg))
  {
  }

  // ---- one write() ----

  /** The requests of joint i in write(): those of its own turn. */
  lemma {:induction false} TurnRequests(c: Context, s: Hw, dt: real, k: nat, i: nat)
    requires i < |s.joints| && k <= |s.joints| && DistinctAxes(s)
    ensures var cfg := s.joints[i].cfg;
            var log' := WriteJoints(c, s, dt, k).s.log;
            && (i < k ==> Requests(log', cfg) == Requests(s.log, cfg))
            && (k <= i ==>
                  match WriteTurn(c, s, dt, k, i)
                  case None => Requests(log', cfg) == Requests(s.log, cfg)
                  case Some(turn) =>
                    && Requests(turn, cfg) == Requests(s.log, cfg)
                    && Requests(log', cfg) == Requests(WriteJoint(c, turn, dt, s.joints[i]).log, cfg))
    decreases |s.joints| - k
  {
    hide WriteJoint, Requests, Counted;
    if k < |s.joints| {
      var r := WriteJoint(c, s.log, dt, s.joints[k]);
      WriteJointFrame(c, s.log, dt, s.joints[k]);
      var cfg := s.joints[i].cfg;
      if k != i {
        assert Apart(s.joints[k].cfg, cfg);
        WriteElsewhere(c, s.log, dt, s.joints[k], cfg);
        OffIsSilent(s.log, r.log, cfg);
        RequestsFrame(s.log, r.log, cfg);
      }
      if !r.stop {
        TurnRequests(c, AfterJointWrite(s, k, dt, r), dt, k + 1, i);
      }
    }
  }

  /** Joint i has a turn in this write(). */
  predicate Executed(c: Context, s: Hw, period: Num, i: nat)
    requires i < |s.joints|
  {
    Turn(c, s, period, i).Some?
  }

  /** What a faulted joint is sent by one write(): an idle request, unless one has already succeeded. */
  lemma FaultedWrite(c: Context, s: Hw, period: Num, i: nat) returns (reply: Reply)
    requires i < |s.joints| && DistinctAxes(s) && c.safety.maskFaulted && c.safety.idleOnFault
    requires Executed(c, s, period, i) ==> Faulty(s.joints[i].core.errs)
    ensures var t := WriteSpec(c, s, period);
            var j, k := s.joints[i].core, t.joints[i].core;
            if Executed(c, s, period, i) && !j.idleRequested then
              && Requests(t.log, s.joints[i].cfg) ==
                 Requests(s.log, s.joints[i].cfg) + [Event(IdleOp(s.joints[i].cfg), reply)]
              && (k.idleRequested <==> reply.status == 0)
            else
              && Requests(t.log, s.joints[i].cfg) == Requests(s.log, s.joints[i].cfg)
              && k.idleRequested == j.idleRequested
  {
    hide WriteJoints, Requests, JointShape, IdleOp, Faulty, FailFast;
    WriteSpecJoint(c, s, period, i);
    reply := Reply(0, ZERO, 0);
    if Writable(c, s) {
      TurnRequests(c, s, EffectiveDt(period), 0, i);
      if Executed(c, s, period, i) {
        var turn := Turn(c, s, period, i).value;
        var j := s.joints[i];
        reply := c.env(turn, IdleOp(j.cfg));
        var e := Event(IdleOp(j.cfg), reply);
        RequestsAppend(turn, e, j.cfg);
        CommandsOnAxis(j.cfg, j.level, j.cmd);
        assert !e.op.Read? by { IdleIsWrite(j.cfg); }
      }
    }
  }

  lemma IdleIsWrite(cfg: JointConfig)
    ensures IdleOp(cfg).Write?
  {
  }

  // ---- episodes ----

  /** Calls that make up control cycles, and every executed write() of joint i sees a fault. */
  ghost predicate FaultedThroughout(c: Context, s: Hw, calls: seq<Api>, i: nat) {
    forall n | 0 <= n < |calls| ::
      && (calls[n].ReadCall? || calls[n].WriteCall? || calls[n].Command? || calls[n].Prepare?)
      && (calls[n].WriteCall? ==>
            var t := Run(c, s, calls[..n]);
            i < |t.joints| && (Executed(c, t, calls[n].period, i) ==> Faulty(t.joints[i].core.errs)))
  }

  /** Idle requests that all fail but the last, and the flag says whether the last one succeeded. */
  ghost predicate Episode(cfg: JointConfig, requests: Log, done: bool) {
    && (forall k | 0 <= k < |requests| :: requests[k].op == IdleOp(cfg))
    && (forall k | 0 <= k < |requests| - 1 :: requests[k].reply.status != 0)
    && (done <==> requests != [] && requests[|requests| - 1].reply.status == 0)
  }

  lemma QuietStep(c: Context, s: Hw, a: Api, i: nat)
    requires i < |s.joints| && (a.ReadCall? || a.Command? || a.Prepare?)
    ensures var t := Step(c, s, a);
            && |t.joints| == |s.joints|
            && Requests(t.log, s.joints[i].cfg) == Requests(s.log, s.joints[i].cfg)
            && t.joints[i].core.idleRequested == s.joints[i].core.idleRequested
            && t.joints[i].core.faulted == s.joints[i].core.faulted
  {
    hide ReadSpec, Requests, OnAxis;
    if a.ReadCall? {
      ReadSpecJointFrame(c, s, i);
      ReadSpecFrame(c, s);
      OffIsSilent(s.log, ReadSpec(c, s).log, s.joints[i].cfg);
      RequestsFrame(s.log, ReadSpec(c, s).log, s.joints[i].cfg);
    }
  }

  lemma PrefixFaulted(c: Context, s: Hw, calls: seq<Api>, i: nat)
    requires calls != [] && FaultedThroughout(c, s, calls, i)
    ensures FaultedThroughout(c, s, calls[..|calls| - 1], i)
  {
    hide Run, Executed, Faulty;
    var less := calls[..|calls| - 1];
    forall n | 0 <= n < |less|
      ensures less[n].ReadCall? || less[n].WriteCall? || less[n].Command? || less[n].Prepare?
      ensures less[n].WriteCall? ==>
                var t := Run(c, s, less[..n]);
                i < |t.joints| && (Executed(c, t, less[n].period, i) ==> Faulty(t.joints[i].core.errs))
    {
      assert less[..n] == calls[..n] && less[n] == calls[n];
    }
  }

  /** The requests an axis received during a run. */
  function Since(before: Log, after: Log, cfg: JointConfig): Log {
    var a, b := Requests(before, cfg), Requests(after, cfg);
    if |a| <= |b| then b[|a|..] else []
  }

  /** While the fault lasts, the axis receives idle requests only: one in every executed write() until
      one succeeds, and nothing after that. */
  lemma {:induction false} FaultEpisode(c: Context, s: Hw, calls: seq<Api>, i: nat)
    requires i < |s.joints| && DistinctAxes(s) && c.safety.maskFaulted && c.safety.idleOnFault
    requires FaultedThroughout(c, s, calls, i)
    ensures |Run(c, s, calls).joints| == |s.joints|
    ensures var cfg := s.joints[i].cfg;
            var t := Run(c, s, calls);
            var since := Since(s.log, t.log, cfg);
            && Requests(t.log, cfg) == Requests(s.log, cfg) + since
            && (s.joints[i].core.idleRequested ==> since == [] && t.joints[i].core.idleRequested)
            && (!s.joints[i].core.idleRequested ==> Episode(cfg, since, t.joints[i].core.idleRequested))
  {
    hide Step, Requests, IdleOp, Faulty, Executed;
    var cfg := s.joints[i].cfg;
    if calls != [] {
      var m := |calls| - 1;
      var t := Run(c, s, calls[..m]);
      PrefixFaulted(c, s, calls, i);
      FaultEpisode(c, s, calls[..m], i);
      RunConfig(c, s, calls[..m]);
      EpisodeStep(c, t, calls[m], i, s.log, s.joints[i].core.idleRequested);
    }
  }

  lemma EpisodeStep(c: Context, s: Hw, a: Api, i: nat, start: Log, done: bool)
    requires i < |s.joints| && DistinctAxes(s) && c.safety.maskFaulted && c.safety.idleOnFault
    requires a.ReadCall? || a.WriteCall? || a.Command? || a.Prepare?
    requires a.WriteCall? ==> (Executed(c, s, a.period, i) ==> Faulty(s.joints[i].core.errs))
    requires var cfg := s.joints[i].cfg;
             var since := Since(start, s.log, cfg);
             && Requests(s.log, cfg) == Requests(start, cfg) + since
             && (done ==> since == [] && s.joints[i].core.idleRequested)
             && (!done ==> Episode(cfg, since, s.joints[i].core.idleRequested))
    ensures |Step(c, s, a).joints| == |s.joints|
    ensures var cfg := s.joints[i].cfg;
            var t := Step(c, s, a);
            var since := Since(start, t.log, cfg);
            && Requests(t.log, cfg) == Requests(start, cfg) + since
            && (done ==> since == [] && t.joints[i].core.idleRequested)
            && (!done ==> Episode(cfg, since, t.joints[i].core.idleRequested))
  {
    hide ReadSpec, WriteSpec, Requests, IdleOp, Faulty, Executed;
    var cfg := s.joints[i].cfg;
    var t := Step(c, s, a);
    if a.WriteCall? {
      var reply := FaultedWrite(c, s, a.period, i);
      var since := Since(start, s.log, cfg);
      if Executed(c, s, a.period, i) && !s.joints[i].core.idleRequested {
        assert Requests(t.log, cfg) == Requests(start, cfg) + (since + [Event(IdleOp(cfg), reply)]);
        assert Since(start, t.log, cfg) == since + [Event(IdleOp(cfg), reply)];
      } else {
        assert Since(start, t.log, cfg) == since;
      }
    } else {
      QuietStep(c, s, a, i);
    }
  }

  // ---- the flags ----

  ghost predicate FlagsAgree(s: Hw) {
    forall i | 0 <= i < |s.joints| :: s.joints[i].core.idleRequested ==> s.joints[i].core.faulted
  }

  lemma MaskFlags(c: Context, log: Log, j: Joint)
    ensures MaskJoint(c, log, j).joint.core.faulted
  {
    hide IdleOp, FailFast;
    var m := j.(core := j.core.(faulted := true));
    assert m.core.faulted;
  }

  lemma SendFlags(c: Context, log: Log, j: Joint)
    ensures !SendJoint(c, log, j).joint.core.idleRequested
  {
    hide DoAll, CommandOps, Stale, Negated, AfterSend;
    var v := Inverted(Unfaulted(j));
    SentFlags(c, v, DoAll(c.env, log, CommandOps(v.cfg, v.level, v.cmd)));
  }

  lemma SentFlags(c: Context, v: Joint, r: (int, Log))
    ensures AfterSend(c, v, r).joint.core.idleRequested == v.core.idleRequested
  {
    var failed := v.core.(writeError := r.0);
    assert failed.idleRequested == v.core.idleRequested;
    var seqNo := if c.safety.gateStale then v.seqNo else v.core.lastSeq;
    var sent := v.core.(writeError := 0, lastCmd := v.cmd, lastSeq := seqNo);
    assert sent.idleRequested == v.core.idleRequested;
  }

  lemma WriteKeepsFlags(c: Context, log: Log, dt: real, j: Joint)
    ensures var k := WriteJoint(c, log, dt, j).joint.core; k.idleRequested ==> k.faulted
  {
    hide MaskJoint, SendJoint, JointShape, HasFault;
    MaskFlags(c, log, ShapedJoint(j, dt));
    SendFlags(c, log, ShapedJoint(j, dt));
  }

  lemma StepKeepsFlags(c: Context, s: Hw, a: Api)
    requires FlagsAgree(s)
    ensures FlagsAgree(Step(c, s, a))
  {
    hide ReadSpec, WriteSpec, WriteJoint, SwitchSpec, InitJoints, DoAll;
    StepConfig(c, s, a);
    forall i: nat | i < |s.joints|
      ensures var k := Step(c, s, a).joints[i].core; k.idleRequested ==> k.faulted
    {
      match a {
        case ReadCall => ReadSpecJointFrame(c, s, i);
        case WriteCall(period) =>
          WriteSpecJoint(c, s, period, i);
          if Turn(c, s, period, i).Some? {
            WriteKeepsFlags(c, Turn(c, s, period, i).value, EffectiveDt(period), s.joints[i]);
          }
        case Switch => SwitchSpecFrame(c, s, i);
        case Activate(created) => Frozen.InitKeepsKin(c, s.(up := true, log := Do(c.env, s.log, Open)), 0, i);
        case _ =>
      }
    }
  }

  /** An idle request is only remembered for a joint that is remembered as faulted. */
  lemma {:induction false} FlagsInvariant(c: Context, s: Hw, calls: seq<Api>)
    requires FlagsAgree(s)
    ensures FlagsAgree(Run(c, s, calls))
  {
    hide Step, FlagsAgree;
    if calls != [] {
      FlagsInvariant(c, s, calls[..|calls| - 1]);
      StepKeepsFlags(c, Run(c, s, calls[..|calls| - 1]), calls[|calls| - 1]);
    }
  }

  // ---- the thread ----

  predicate SlotFlags(x: W.Slot) { x.core.idleRequested ==> x.core.faulted }

  ghost predicate SlotsAgree(w: W.Work) { forall i | 0 <= i < |w.slots| :: SlotFlags(w.slots[i]) }

  lemma AbsorbKeepsFlags(x: W.Slot, s: Sample)
    requires SlotFlags(x)
    ensures SlotFlags(W.AbsorbSlot(x, s))
  {
    hide FeedbackValid, AllClear, W.HeldKin, Signed;
  }

  lemma PollKeepsSlotFlags(c: Context, log: Log, x: W.Slot)
    requires SlotFlags(x)
    ensures SlotFlags(W.PollSlot(c, log, x).0)
  {
    hide DoAll, TelemetryOps, SampleOf, W.AbsorbSlot, W.HeldKin;
    var r := DoAll(c.env, log, TelemetryOps(x.cfg));
    DoAllIssued(c.env, log, TelemetryOps(x.cfg));
    if r.0 == 0 {
      AbsorbKeepsFlags(x, SampleOf(x.torque, r.1[|log|..]));
    }
  }

  lemma MaskSlotFlags(c: Context, log: Log, x: W.Slot)
    ensures W.MaskSlot(c, log, x).slot.core.faulted
  {
    hide IdleOp, W.StopOn;
    var m := x.(core := x.core.(faulted := true));
    assert m.core.faulted;
  }

  lemma SendSlotFlags(c: Context, log: Log, x: W.Slot, o: W.Order, t: Triple)
    ensures !W.SendSlot(c, log, x, o, t).slot.core.idleRequested
  {
    hide DoAll, CommandOps, Stale, Oriented, W.StopOn;
  }

  lemma WriteKeepsSlotFlags(c: Context, log: Log, dt: real, x: W.Slot, o: W.Order)
    ensures SlotFlags(W.WriteSlot(c, log, dt, x, o).slot)
  {
    hide W.MaskSlot, W.SendSlot, W.OrderShape, W.Flagged, HasFault;
    var t := W.OrderShape(x, o, dt);
    MaskSlotFlags(c, log, W.Flagged(x, t));
    SendSlotFlags(c, log, W.Flagged(x, t), o, t.cmd);
  }

  function FlagsOfSlots(): I.SlotProperty { (i, x) => SlotFlags(x) }

  /** The same for the vectors of the I/O thread, over every cycle, fail-fast ends included. */
  lemma ThreadFlagsInvariant(c: Context, w: W.Work, post: W.Post)
    requires SlotsAgree(w)
    ensures SlotsAgree(W.CycleSpec(c, w, post))
  {
    hide W.CycleSpec, W.PollSlot, W.WriteSlot, W.OrderAt;
    var p := FlagsOfSlots();
    assert forall i: nat, x: W.Slot :: p(i, x) <==> SlotFlags(x);
    forall i: nat, x: W.Slot, log: Log | p(i, x) ensures p(i, W.PollSlot(c, log, x).0) {
      PollKeepsSlotFlags(c, log, x);
    }
    forall i: nat, x: W.Slot, log: Log | p(i, x)
      ensures p(i, W.WriteSlot(c, log, EffectiveDt(post.dt), x, W.OrderAt(post, i)).slot)
    {
      WriteKeepsSlotFlags(c, log, EffectiveDt(post.dt), x, W.OrderAt(post, i));
    }
    I.CycleKeeps(c, w, post, p);
  }
}
