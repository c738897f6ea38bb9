/** One cycle of the I/O thread: a second implementation of read() followed by write(), on snapshots
    and on local copies of the commands. */
module Worker {
  import opened Numeric
  import opened Transport
  import opened Joints
  import opened Axis
  import opened Cycle

  /** What the thread keeps per joint: the static copy, the telemetry snapshot, its private vectors. */
  datatype Slot = Slot(cfg: JointConfig, torque: Num, core: Core)

  /** The commands of one joint as posted by write(). */
  datatype Order = Order(cmd: Triple, level: Level, seqNo: Num)

  datatype Post = Post(dt: Num, orders: seq<Order>)

  const NO_ORDER := Order(Triple(ZERO, ZERO, ZERO), UNDEFINED, NaN)

  function OrderAt(post: Post, i: nat): Order { if i < |post.orders| then post.orders[i] else NO_ORDER }

  datatype Work = Work(
    slots: seq<Slot>,
    sensors: seq<Sensor>,
    drives: seq<Drive>,
    up: bool,
    outputs: bool,
    stats: Stats,
    log: Log)

  datatype Stage = Stage(w: Work, stopped: bool)

  // ---- holding ----

  function HeldKin(c: Core): Triple {
    Triple(if c.lastValidPos.Fin? then c.lastValidPos else ZERO, ZERO, ZERO)
  }

  function LoseSlot(x: Slot): Slot {
    x.(core := x.core.(healthy := false, telemetryValid := false, kin := HeldKin(x.core)))
  }

  function FailSlot(x: Slot, status: int): Slot {
    x.(core := LoseSlot(x).core.(readError := status, writeError := status))
  }

  /** mark_all_unhealthy_and_hold followed by transport_.reset(). */
  function Abort(w: Work, status: int): Work {
    w.(slots := seq(|w.slots|, i requires 0 <= i < |w.slots| => FailSlot(w.slots[i], status)),
       sensors := seq(|w.sensors|, i requires 0 <= i < |w.sensors| => w.sensors[i].(vbus := NaN)),
       up := false)
  }

  function LoseAll(w: Work): Work {
    w.(slots := seq(|w.slots|, i requires 0 <= i < |w.slots| => LoseSlot(w.slots[i])),
       sensors := seq(|w.sensors|, i requires 0 <= i < |w.sensors| => Sensor(w.sensors[i].serial, NaN, NaN)))
  }

  function Unflagged(c: Core): Core { c.(posLimited := false, velLimited := false, effLimited := false) }

  function ClearLimiterFlags(w: Work): Work {
    w.(slots := seq(|w.slots|, i requires 0 <= i < |w.slots| =>
         w.slots[i].(core := Unflagged(w.slots[i].core))))
  }

  // ---- read phase ----

  function SensorStage(c: Context, w: Work, i: nat): (p: Stage)
    requires i <= |w.sensors|
    ensures |p.w.slots| == |w.slots|
    decreases |w.sensors| - i
  {
    if i == |w.sensors| then Stage(w, false)
    else
      var (x, status, log) := ReadSensor(c, w.log, w.sensors[i]);
      var t := w.(sensors := w.sensors[i := x], log := log);
      if FailFast(status) then Stage(Abort(t, status), true) else SensorStage(c, t, i + 1)
  }

  function DriveStage(c: Context, w: Work, i: nat): (p: Stage)
    requires i <= |w.drives|
    ensures |p.w.slots| == |w.slots|
    decreases |w.drives| - i
  {
    if i == |w.drives| then Stage(w, false)
    else
      var (x, status, log) := ReadDrive(c, w.log, w.drives[i]);
      var t := w.(drives := w.drives[i := x], log := log);
      if FailFast(status) then Stage(Abort(t, status), true) else DriveStage(c, t, i + 1)
  }

  function AbsorbSlot(x: Slot, s: Sample): Slot {
    if !FeedbackValid(x.cfg, x.core.lastValidPos, s) then x.(core := LoseSlot(x).core.(readError := -1))
    else
      var k := Signed(x.cfg.invert, s.kin);
      var kept :=
        if AllClear(s.errs) then x.core.(kin := k, lastValidPos := k.pos, lastValidVel := k.vel)
        else x.core.(kin := HeldKin(x.core));
      x.(core := kept.(errs := s.errs, fetTemp := s.fetTemp, motorTemp := s.motorTemp,
                       readError := 0, telemetryValid := true, healthy := AllClear(s.errs)))
  }

  function PolledSlot(log: Log, x: Slot, r: (int, Log)): Slot
    requires r.0 == 0 ==> |r.1| == |log| + 9
  {
    if r.0 != 0 then x.(core := LoseSlot(x).core.(readError := r.0))
    else AbsorbSlot(x, SampleOf(x.torque, r.1[|log|..]))
  }

  function PollSlot(c: Context, log: Log, x: Slot): (Slot, int, Log) {
    var r := DoAll(c.env, log, TelemetryOps(x.cfg));
    DoAllIssued(c.env, log, TelemetryOps(x.cfg));
    (PolledSlot(log, x, r), r.0, r.1)
  }

  function JointStage(c: Context, w: Work, i: nat): (p: Stage)
    requires i <= |w.slots|
    ensures |p.w.slots| == |w.slots|
    decreases |w.slots| - i
  {
    if i == |w.slots| then Stage(w, false)
    else
      var (x, status, log) := PollSlot(c, w.log, w.slots[i]);
      var t := w.(slots := w.slots[i := x], log := log);
      if FailFast(status) then Stage(Abort(t, status), true) else JointStage(c, t, i + 1)
  }

  function ReadStage(c: Context, w: Work): (p: Stage)
    ensures |p.w.slots| == |w.slots|
  {
    if !w.up then Stage(LoseAll(w), false)
    else
      var p := SensorStage(c, w, 0);
      if p.stopped then p else
      var q := DriveStage(c, p.w, 0);
      if q.stopped then q else JointStage(c, q.w, 0)
  }

  // ---- write phase ----

  /** `status` is the fail-fast status that ends the cycle, if any. */
  datatype SlotWrite = SlotWrite(slot: Slot, log: Log, status: Option<int>)

  function OrderShape(x: Slot, o: Order, dt: real): Shaped {
    Shape(x.cfg.limits, o.level, o.cmd, x.core.lastCmd, dt, x.core.kin)
  }

  function Flagged(x: Slot, t: Shaped): Slot {
    x.(core := x.core.(posLimited := t.pos || x.core.posLimited, velLimited := t.vel || x.core.velLimited,
                       effLimited := t.eff || x.core.effLimited))
  }

  function StopOn(status: int): Option<int> { if FailFast(status) then Some(status) else None }

  function MaskSlot(c: Context, log: Log, x: Slot): SlotWrite {
    var m := x.(core := x.core.(faulted := true));
    if c.safety.idleOnFault && !x.core.idleRequested then
      var r := c.env(log, IdleOp(x.cfg));
      var log' := log + [Event(IdleOp(x.cfg), r)];
      if r.status != 0 then SlotWrite(m.(core := m.core.(writeError := r.status)), log', StopOn(r.status))
      else SlotWrite(m.(core := m.core.(idleRequested := true)), log', None)
    else SlotWrite(m, log, None)
  }

  function SentSlot(c: Context, x: Slot, o: Order, t: Triple, r: (int, Log)): SlotWrite {
    if r.0 != 0 then SlotWrite(x.(core := x.core.(writeError := r.0)), r.1, StopOn(r.0))
    else SlotWrite(
      x.(core := x.core.(writeError := 0, lastCmd := t,
                         lastSeq := if c.safety.gateStale then o.seqNo else x.core.lastSeq)),
      r.1, None)
  }

  function UnfaultedSlot(x: Slot): Slot { x.(core := x.core.(faulted := false, idleRequested := false)) }

  /** The thread inverts its local copy before it looks at the sequence number. */
  function SendSlot(c: Context, log: Log, x: Slot, o: Order, t: Triple): SlotWrite {
    var u := UnfaultedSlot(x);
    if Stale(c.safety, o.seqNo, x.core.lastSeq) then SlotWrite(u.(core := u.core.(writeError := 0)), log, None)
    else
      var v := Oriented(x.cfg, t);
      SentSlot(c, u, o, v, DoAll(c.env, log, CommandOps(x.cfg, o.level, v)))
  }

  function WriteSlot(c: Context, log: Log, dt: real, x: Slot, o: Order): SlotWrite {
    var t := OrderShape(x, o, dt);
    if HasFault(c.safety, x.core.errs) then MaskSlot(c, log, Flagged(x, t))
    else SendSlot(c, log, Flagged(x, t), o, t.cmd)
  }

  function CountedShape(t: Shaped, stats: Stats): Stats {
    stats.(rateLimits := stats.rateLimits + Events(t),
           rejections := stats.rejections + if t.rejected then 1 else 0)
  }

  function AfterSlotWrite(w: Work, i: nat, dt: real, o: Order, r: SlotWrite): Work
    requires i < |w.slots|
  {
    w.(slots := w.slots[i := r.slot], log := r.log, stats := CountedShape(OrderShape(w.slots[i], o, dt), w.stats))
  }

  function SlotStage(c: Context, w: Work, post: Post, i: nat): (p: Stage)
    requires i <= |w.slots|
    ensures |p.w.slots| == |w.slots|
    decreases |w.slots| - i
  {
    if i == |w.slots| then Stage(w, false)
    else
      var dt := EffectiveDt(post.dt);
      var r := WriteSlot(c, w.log, dt, w.slots[i], OrderAt(post, i));
      var t := AfterSlotWrite(w, i, dt, OrderAt(post, i), r);
      if r.status.Some? then Stage(Abort(t, r.status.value), true) else SlotStage(c, t, post, i + 1)
  }

  predicate Sendable(c: Context, w: Work) { w.up && (!c.safety.gateOutputs || w.outputs) }

  function WriteStage(c: Context, w: Work, post: Post): (p: Stage)
    ensures |p.w.slots| == |w.slots|
  {
    if Sendable(c, w) then SlotStage(c, w, post, 0) else Stage(w, false)
  }

  /** The whole cycle; both counters advance unless a fail-fast error jumps to publishing. */
  function CycleSpec(c: Context, w: Work, post: Post): (t: Work)
    ensures |t.slots| == |w.slots|
  {
    var p := ReadStage(c, ClearLimiterFlags(w));
    if p.stopped then p.w else
    var q := WriteStage(c, p.w.(stats := p.w.stats.(readCycles := p.w.stats.readCycles + 1)), post);
    if q.stopped then q.w else q.w.(stats := q.w.stats.(writeCycles := q.w.stats.writeCycles + 1))
  }

  // ---- async_io_init_buffers ----

  /** The thread's record of a joint after async_io_init_buffers. */
  function Started(j: Joint): Slot {
    var t := Triple(NaN, NaN, NaN);
    Slot(j.cfg, j.torque,
         Core(Triple(ZERO, ZERO, ZERO), ZERO, ZERO, NO_REGISTERS, NaN, NaN, 0, 0, false, false,
              false, false, false, t, NaN, false, false))
  }

  /** The thread's whole state when it is started beside this interface. */
  function StartedWork(s: Hw): Work {
    Work(seq(|s.joints|, i requires 0 <= i < |s.joints| => Started(s.joints[i])),
         seq(|s.sensors|, i requires 0 <= i < |s.sensors| => Sensor(s.sensors[i].serial, NaN, NaN)),
         seq(|s.drives|, i requires 0 <= i < |s.drives| => Drive(s.drives[i].serial, 0, 0)),
         s.up, s.outputs, s.stats, s.log)
  }

  const BLANK_ORDER := Order(Triple(ZERO, ZERO, ZERO), UNDEFINED, ZERO)

  /** The command the buffers hold before the first write(): a zero order for each of n joints, at no
      level, with sequence number zero. */
  function BlankPost(n: nat): (post: Post)
    ensures |post.orders| == n && forall i | 0 <= i < n :: OrderAt(post, i) == BLANK_ORDER
  {
    Post(ZERO, seq(n, i => BLANK_ORDER))
  }
}
