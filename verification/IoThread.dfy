/** The I/O thread as the code it is: one method per part of the cycle, updating the snapshot and the
    thread's vectors in place. */
module IoThread {
  import opened Numeric
  import opened Transport
  import opened Joints
  import opened Axis
  import opened Cycle
  import opened Discipline
  import opened Setpoints
  import opened Worker
  import opened ThreadWire
  import FaultEpisodes

  class AsyncWorker {
    const bus: Bus
    const safety: Safety

    var slots: seq<Slot>
    var sensors: seq<Sensor>
    var drives: seq<Drive>
    var connected: bool
    var outputsEnabled: bool
    var stats: Stats

    function Ctx(): Context { Context(bus.env, safety) }

    function View(): Work
      reads this, bus
    {
      Work(slots, sensors, drives, connected, outputsEnabled, stats, bus.log)
    }

    /** async_io_init_buffers, beside an interface in state s. */
    constructor (bus: Bus, safety: Safety, s: Hw)
      requires s.log == bus.log
      ensures this.bus == bus && this.safety == safety
      ensures View() == StartedWork(s)
    {
      this.bus := bus;
      this.safety := safety;
      slots := seq(|s.joints|, i requires 0 <= i < |s.joints| => Started(s.joints[i]));
      sensors := seq(|s.sensors|, i requires 0 <= i < |s.sensors| => Sensor(s.sensors[i].serial, NaN, NaN));
      drives := seq(|s.drives|, i requires 0 <= i < |s.drives| => Drive(s.drives[i].serial, 0, 0));
      connected := s.up;
      outputsEnabled := s.outputs;
      stats := s.stats;
    }

    method MarkAllUnhealthyAndDrop(status: int)
      modifies this`slots, this`sensors, this`connected
      ensures View() == Abort(old(View()), status)
    {
      connected := false;
      for i := 0 to |slots|
        invariant |slots| == |old(slots)| && unchanged(`sensors) && !connected
        invariant forall k | 0 <= k < i :: slots[k] == FailSlot(old(slots)[k], status)
        invariant forall k | i <= k < |slots| :: slots[k] == old(slots)[k]
      {
        var core := slots[i].core.(healthy := false, telemetryValid := false,
                                   readError := status, writeError := status);
        slots := slots[i := slots[i].(core := core.(kin := HeldKin(core)))];
      }
      assert slots == Abort(old(View()), status).slots;
      for i := 0 to |sensors|
        invariant |sensors| == |old(sensors)| && !connected && slots == Abort(old(View()), status).slots
        invariant forall k | 0 <= k < i :: sensors[k] == old(sensors)[k].(vbus := NaN)
        invariant forall k | i <= k < |sensors| :: sensors[k] == old(sensors)[k]
      {
        sensors := sensors[i := sensors[i].(vbus := NaN)];
      }
      assert sensors == Abort(old(View()), status).sensors;
    }

    method ReadWithoutTransport()
      modifies this`slots, this`sensors
      ensures View() == LoseAll(old(View()))
    {
      for i := 0 to |slots|
        invariant |slots| == |old(slots)| && unchanged(`sensors)
        invariant forall k | 0 <= k < i :: slots[k] == LoseSlot(old(slots)[k])
        invariant forall k | i <= k < |slots| :: slots[k] == old(slots)[k]
      {
        var core := slots[i].core.(healthy := false, telemetryValid := false);
        slots := slots[i := slots[i].(core := core.(kin := HeldKin(core)))];
      }
      assert slots == LoseAll(old(View())).slots;
      for i := 0 to |sensors|
        invariant |sensors| == |old(sensors)| && slots == LoseAll(old(View())).slots
        invariant forall k | 0 <= k < i :: sensors[k] == Sensor(old(sensors)[k].serial, NaN, NaN)
        invariant forall k | i <= k < |sensors| :: sensors[k] == old(sensors)[k]
      {
        sensors := sensors[i := sensors[i].(vbus := NaN, transportError := NaN)];
      }
      assert sensors == LoseAll(old(View())).sensors;
    }

    method ClearFlags()
      modifies this`slots
      ensures View() == ClearLimiterFlags(old(View()))
    {
      for i := 0 to |slots|
        invariant |slots| == |old(slots)|
        invariant forall k | 0 <= k < i :: slots[k] == old(slots)[k].(core := Unflagged(old(slots)[k].core))
        invariant forall k | i <= k < |slots| :: slots[k] == old(slots)[k]
      {
        var core := slots[i].core.(posLimited := false);
        core := core.(velLimited := false);
        core := core.(effLimited := false);
        slots := slots[i := slots[i].(core := core)];
      }
      assert slots == ClearLimiterFlags(old(View())).slots;
    }

    method PollSensors() returns (stopped: bool)
      modifies this`slots, this`sensors, this`connected, bus
      ensures Stage(View(), stopped) == SensorStage(Ctx(), old(View()), 0)
    {
      hide Abort;
      var i := 0;
      while i < |sensors|
        invariant i <= |sensors|
        invariant SensorStage(Ctx(), View(), i) == SensorStage(Ctx(), old(View()), 0)
      {
        var r := bus.Perform(Read(sensors[i].serial, VBUS_VOLTAGE));
        if r.status != 0 {
          sensors := sensors[i := sensors[i].(transportError := Fin(r.status as real), vbus := NaN)];
          if FailFast(r.status) {
            MarkAllUnhealthyAndDrop(r.status);
            return true;
          }
        } else {
          sensors := sensors[i := sensors[i].(vbus := r.num, transportError := ZERO)];
        }
        i := i + 1;
      }
      stopped := false;
    }

    method PollDrives() returns (stopped: bool)
      modifies this`slots, this`sensors, this`drives, this`connected, bus
      ensures Stage(View(), stopped) == DriveStage(Ctx(), old(View()), 0)
    {
      hide Abort;
      var i := 0;
      while i < |drives|
        invariant i <= |drives|
        invariant DriveStage(Ctx(), View(), i) == DriveStage(Ctx(), old(View()), 0)
      {
        var r := bus.Perform(Read(drives[i].serial, CAN_ERROR));
        if r.status != 0 {
          drives := drives[i := drives[i].(readError := r.status, canError := 0)];
          if FailFast(r.status) {
            MarkAllUnhealthyAndDrop(r.status);
            return true;
          }
        } else {
          drives := drives[i := drives[i].(readError := 0, canError := ToUint32(r.word))];
        }
        i := i + 1;
      }
      stopped := false;
    }

    /** A sample that passed the feedback checks. */
    static method AcceptSample(slot: Slot, sample: Sample) returns (core: Core)
      requires FeedbackValid(slot.cfg, slot.core.lastValidPos, sample)
      ensures slot.(core := core) == AbsorbSlot(slot, sample)
    {
      hide FeedbackValid, Signed, AllClear, HeldKin;
      core := slot.core;
      var errorsClear := AllClear(sample.errs);
      core := core.(healthy := errorsClear);
      if errorsClear {
        core := core.(kin := Signed(slot.cfg.invert, sample.kin));
        core := core.(lastValidPos := core.kin.pos, lastValidVel := core.kin.vel);
      } else {
        assert HeldKin(core) == HeldKin(slot.core) by { HealthIrrelevant(slot.core, errorsClear); }
        core := core.(kin := HeldKin(core));
      }
      core := core.(errs := sample.errs, fetTemp := sample.fetTemp, motorTemp := sample.motorTemp,
                    readError := 0, telemetryValid := true);
    }

    static lemma HealthIrrelevant(core: Core, healthy: bool)
      ensures HeldKin(core.(healthy := healthy)) == HeldKin(core)
    {
    }

    method PollOne(slot: Slot) returns (x: Slot, status: int)
      modifies bus
      ensures (x, status, bus.log) == PollSlot(Ctx(), old(bus.log), slot)
    {
      hide DoAll, TelemetryOps, SampleOf, FeedbackValid;
      var sample;
      status, sample := ReadAxisTelemetry(bus, slot.cfg, slot.torque);
      if status != 0 {
        var core := slot.core.(readError := status, telemetryValid := false, healthy := false);
        return slot.(core := core.(kin := HeldKin(core))), status;
      }
      if !FeedbackValid(slot.cfg, slot.core.lastValidPos, sample) {
        var core := slot.core.(readError := -1, telemetryValid := false, healthy := false);
        return slot.(core := core.(kin := HeldKin(core))), status;
      }
      var core := AcceptSample(slot, sample);
      x := slot.(core := core);
    }

    method PollJoints() returns (stopped: bool)
      modifies this`slots, this`sensors, this`connected, bus
      ensures Stage(View(), stopped) == JointStage(Ctx(), old(View()), 0)
    {
      hide Abort, PollSlot;
      var i := 0;
      while i < |slots|
        invariant i <= |slots|
        invariant JointStage(Ctx(), View(), i) == JointStage(Ctx(), old(View()), 0)
      {
        var x, status := PollOne(slots[i]);
        slots := slots[i := x];
        if FailFast(status) {
          MarkAllUnhealthyAndDrop(status);
          return true;
        }
        i := i + 1;
      }
      stopped := false;
    }

    /** Rate limiting of the local copies, channel by channel. */
    method LimitOrder(slot: Slot, order: Order, dt: real) returns (cmd: Triple, pos: bool, vel: bool, eff: bool)
      modifies this`stats
      ensures Limit(slot.cfg.limits, order.level, order.cmd, slot.core.lastCmd, dt) == Limits(cmd, pos, vel, eff)
      ensures stats == old(stats).(rateLimits := old(stats).rateLimits +
                (if pos then 1 else 0) + (if vel then 1 else 0) + (if eff then 1 else 0))
    {
      hide RateLimited, RateExceeded;
      var last, limits := slot.core.lastCmd, slot.cfg.limits;
      cmd := order.cmd;
      pos, vel, eff := false, false, false;
      if order.level == POSITION {
        var limited, ok := ApplyRateLimiting(cmd.pos, last.pos, limits.posRate, dt);
        cmd := cmd.(pos := limited);
        if !ok {
          pos := true;
          stats := stats.(rateLimits := stats.rateLimits + 1);
        }
      }
      if order.level == POSITION || order.level == VELOCITY {
        var limited, ok := ApplyRateLimiting(cmd.vel, last.vel, limits.velRate, dt);
        cmd := cmd.(vel := limited);
        if !ok {
          vel := true;
          stats := stats.(rateLimits := stats.rateLimits + 1);
        }
      }
      var limited, ok := ApplyRateLimiting(cmd.eff, last.eff, limits.effRate, dt);
      cmd := cmd.(eff := limited);
      if !ok {
        eff := true;
        stats := stats.(rateLimits := stats.rateLimits + 1);
      }
    }

    /** The limiter only raises flags: they were cleared when the cycle began. */
    static method RaiseFlags(slot: Slot, pos: bool, vel: bool, eff: bool) returns (x: Slot)
      ensures forall cmd, rejected :: x == Flagged(slot, Shaped(cmd, pos, vel, eff, rejected))
    {
      var core := slot.core;
      if pos {
        core := core.(posLimited := true);
      }
      if vel {
        core := core.(velLimited := true);
      }
      if eff {
        core := core.(effLimited := true);
      }
      x := slot.(core := core);
    }

    method ShapeOrder(slot: Slot, order: Order, dt: real) returns (cmd: Triple, x: Slot)
      modifies this`stats
      ensures var t := OrderShape(slot, order, dt);
              cmd == t.cmd && x == Flagged(slot, t) && stats == CountedShape(t, old(stats))
    {
      hide Limit, ValidComponent, Flagged;
      var pos, vel, eff;
      cmd, pos, vel, eff := LimitOrder(slot, order, dt);
      x := RaiseFlags(slot, pos, vel, eff);
      var valid := ValidateJointCommand(slot.cfg.limits, order.level, cmd);
      if !valid && order.level != UNDEFINED {
        stats := stats.(rejections := stats.rejections + 1);
        var kin := slot.core.kin;
        cmd := cmd.(pos := if kin.pos.Fin? then kin.pos else ZERO);
        cmd := cmd.(vel := if kin.vel.Fin? then kin.vel else ZERO);
        cmd := cmd.(eff := ZERO);
      }
      assert OrderShape(slot, order, dt) == Shaped(cmd, pos, vel, eff, !valid);
    }

    method MaskFaulted(slot: Slot) returns (x: Slot, status: Option<int>)
      modifies bus
      ensures SlotWrite(x, bus.log, status) == MaskSlot(Ctx(), old(bus.log), slot)
    {
      x := slot.(core := slot.core.(faulted := true));
      status := None;
      if safety.idleOnFault && !x.core.idleRequested {
        var r := bus.Perform(IdleOp(x.cfg));
        if r.status != 0 {
          x := x.(core := x.core.(writeError := r.status));
          status := StopOn(r.status);
        } else {
          x := x.(core := x.core.(idleRequested := true));
        }
      }
    }

    method SendOrder(slot: Slot, order: Order, cmd: Triple) returns (x: Slot, status: Option<int>)
      modifies bus
      ensures SlotWrite(x, bus.log, status) == SendSlot(Ctx(), old(bus.log), slot, order, cmd)
    {
      hide SentSlot, CommandOps, Negated, DoAll;
      x := slot.(core := slot.core.(faulted := false, idleRequested := false));
      var local := cmd;
      if x.cfg.invert {
        local := Negated(local);
      }
      if safety.gateStale {
        if !order.seqNo.Fin? || Same(order.seqNo, x.core.lastSeq) {
          return x.(core := x.core.(writeError := 0)), None;
        }
      }
      var result := WriteAxisCommand(bus, x.cfg, order.level, local);
      x, status := RecordOutcome(x, order, local, result);
    }

    method RecordOutcome(slot: Slot, order: Order, cmd: Triple, result: int) returns (x: Slot, status: Option<int>)
      ensures SlotWrite(x, bus.log, status) == SentSlot(Ctx(), slot, order, cmd, (result, bus.log))
    {
      x := slot;
      if result != 0 {
        return x.(core := x.core.(writeError := result)), StopOn(result);
      }
      x := x.(core := x.core.(writeError := 0, lastCmd := cmd));
      if safety.gateStale {
        x := x.(core := x.core.(lastSeq := order.seqNo));
      }
      status := None;
    }

    method WriteOne(slot: Slot, order: Order, dt: real) returns (x: Slot, status: Option<int>)
      modifies this`stats, bus
      ensures SlotWrite(x, bus.log, status) == WriteSlot(Ctx(), old(bus.log), dt, slot, order)
      ensures stats == CountedShape(OrderShape(slot, order, dt), old(stats))
    {
      hide MaskSlot, SendSlot, OrderShape, CountedShape, Flagged;
      var cmd;
      cmd, x := ShapeOrder(slot, order, dt);
      if HasFault(safety, slot.core.errs) {
        x, status := MaskFaulted(x);
      } else {
        x, status := SendOrder(x, order, cmd);
      }
    }

    method WritePhase(post: Post) returns (stopped: bool)
      modifies this`slots, this`sensors, this`connected, this`stats, bus
      ensures Stage(View(), stopped) == WriteStage(Ctx(), old(View()), post)
    {
      hide Abort, WriteSlot, OrderShape, CountedShape;
      var dt := EffectiveDt(post.dt);
      stopped := false;
      if !connected || (safety.gateOutputs && !outputsEnabled) {
        return;
      }
      var i := 0;
      while i < |slots|
        invariant i <= |slots| && !stopped
        invariant SlotStage(Ctx(), View(), post, i) == SlotStage(Ctx(), old(View()), post, 0)
      {
        var x, status := WriteOne(slots[i], OrderAt(post, i), dt);
        slots := slots[i := x];
        if status.Some? {
          MarkAllUnhealthyAndDrop(status.value);
          return true;
        }
        i := i + 1;
      }
    }

    /** async_io_thread_main between taking a command and publishing the snapshot. */
    method RunStages(post: Post)
      modifies this, bus
      ensures View() == CycleSpec(Ctx(), old(View()), post)
    {
      hide SensorStage, DriveStage, JointStage, WriteStage, LoseAll, ClearLimiterFlags;
      ClearFlags();
      if !connected {
        ReadWithoutTransport();
      } else {
        var stopped := PollSensors();
        if stopped {
          return;
        }
        stopped := PollDrives();
        if stopped {
          return;
        }
        stopped := PollJoints();
        if stopped {
          return;
        }
      }
      stats := stats.(readCycles := stats.readCycles + 1);
      var stopped := WritePhase(post);
      if stopped {
        return;
      }
      stats := stats.(writeCycles := stats.writeCycles + 1);
    }

    /** One cycle: what it sends is safe, its watchdog feeds are earned, and the fault flags stay
        consistent, however it ends. */
    method RunCycle(post: Post)
      modifies this, bus
      ensures View() == CycleSpec(Ctx(), old(View()), post)
      ensures FaultEpisodes.SlotsAgree(old(View())) ==> FaultEpisodes.SlotsAgree(View())
      ensures forall k: nat | |old(bus.log)| <= k < |bus.log| ::
                bus.log[k].op.Read? || SafeEvent(Writing(Ctx(), old(View()), post), bus.log, k)
      ensures DistinctSlots(old(View())) ==>
                forall k: nat | |old(bus.log)| <= k < |bus.log| && IsFeed(bus.log[k].op) ::
                  exists i: nat :: EarnedFeed(Ctx(), Writing(Ctx(), old(View()), post), post.dt, i, bus.log, k)
    {
      hide CycleSpec, SafeEvent, EarnedFeed, IsFeed, DistinctSlots, Writing, FaultEpisodes.SlotsAgree;
      ghost var before := View();
      RunStages(post);
      if FaultEpisodes.SlotsAgree(before) {
        FaultEpisodes.ThreadFlagsInvariant(Ctx(), before, post);
      }
      forall k: nat | |before.log| <= k < |bus.log|
        ensures bus.log[k].op.Read? || SafeEvent(Writing(Ctx(), before, post), bus.log, k)
      {
        ThreadIsSafe(Ctx(), before, post, k);
      }
      if DistinctSlots(before) {
        forall k: nat | |before.log| <= k < |bus.log| && IsFeed(bus.log[k].op)
          ensures exists i: nat :: EarnedFeed(Ctx(), Writing(Ctx(), before, post), post.dt, i, bus.log, k)
        {
          ThreadFeed(Ctx(), before, post, k);
        }
      }
    }
  }
}
