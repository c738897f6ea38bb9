/** The controller over the USB transport: what a latched error means for every later cycle. */
module Outage {
  import opened Numeric
  import opened Transport
  import opened Joints
  import opened Axis
  import opened Cycle
  import opened Runs
  import U = Usb
  import H = Handles

  /** Each transport object gets its own device list and its own bus. */
  datatype Session = Session(link: U.Link, scan: U.Scan)

  /** How values travel as bytes; every register the controller reads has four of them. */
  datatype Codec = Codec(bytes: Wire -> seq<U.Byte>, num: seq<U.Byte> -> Num, word: seq<U.Byte> -> int)

  datatype Setup = Setup(session: Log -> Session, rows: seq<seq<int>>, codec: Codec)

  datatype Live = Live(u: U.Usb, link: U.Link)

  const FRESH := U.Usb(map[], 0, 0, [], [], [])

  function Perform(x: Setup, t: Live, op: Op): U.Exchanged
    requires !op.Open?
  {
    match op
    case Read(serial, endpoint) => U.ReadImpl(t.link, t.u, serial, endpoint, 4)
    case Write(serial, endpoint, value) => U.WriteImpl(t.link, t.u, serial, endpoint, x.codec.bytes(value))
    case Call(serial, endpoint) => U.WriteImpl(t.link, t.u, serial, endpoint, [])
  }

  /** The transport object after the operations of a log; Open replaces it by a fresh one. */
  function Current(x: Setup, log: Log): Live {
    if log == [] then Live(FRESH, x.session([]).link)
    else
      var m := |log| - 1;
      var op := log[m].op;
      if op.Open? then
        var y := x.session(log[..m]);
        Live(U.InitializeSpec(y.link, FRESH, y.scan, x.rows).0, y.link)
      else
        var t := Current(x, log[..m]);
        t.(u := Perform(x, t, op).u)
  }

  /** The environment of the controller that ODriveUSB amounts to. */
  function Answered(x: Setup, log: Log, op: Op): Reply {
    if op.Open? then
      var y := x.session(log);
      Reply(U.InitializeSpec(y.link, FRESH, y.scan, x.rows).1, ZERO, 0)
    else
      var r := Perform(x, Current(x, log), op);
      Reply(r.status, x.codec.num(r.payload), x.codec.word(r.payload))
  }

  function UsbEnv(x: Setup): Env { (log, op) => Answered(x, log, op) }

  predicate Latched(x: Setup, log: Log) { Current(x, log).u.sticky != 0 }

  // ---- what every transport object keeps ----

  /** The latch holds TIMEOUT, NO_DEVICE or nothing; the requests are numbered. */
  ghost predicate Sound(u: U.Usb) { (u.sticky == 0 || U.Latches(u.sticky)) && U.Numbered(u) }

  lemma ExchangeSound(link: U.Link, u: U.Usb, h: U.Handle, endpoint: int, size: int, payload: seq<U.Byte>)
    requires Sound(u)
    ensures Sound(U.Exchange(link, u, h, endpoint, size, payload).u)
  {
    hide U.Exchange, U.Numbered;
    U.Latch(link, u, h, endpoint, size, payload);
    U.ExchangeNumbered(link, u, h, endpoint, size, payload);
  }

  lemma SameTraffic(u: U.Usb, v: U.Usb)
    requires u.sticky == v.sticky && u.sequence == v.sequence && u.wire == v.wire
    ensures Sound(u) == Sound(v)
  {
  }

  lemma {:induction false} DiscoverSound(link: U.Link, u: U.Usb, devices: seq<U.Device>)
    requires Sound(u)
    ensures Sound(U.Discover(link, u, devices))
    decreases |devices|
  {
    hide U.Exchange, Sound;
    if devices != [] {
      var m := |devices| - 1;
      DiscoverSound(link, u, devices[..m]);
      var t := U.Discover(link, u, devices[..m]);
      var d := devices[m];
      var v := t.(acquired := t.acquired + [d.handle]);
      SameTraffic(t, v);
      ExchangeSound(link, v, d.handle, U.SERIAL_NUMBER, 8, []);
      var w := U.Probe(link, t, d);
      SameTraffic(w, if U.Opens(d) && U.Claims(d) then U.ReadFrom(link, v, d.handle, U.SERIAL_NUMBER, 8).u else t);
    }
  }

  lemma {:induction false} PurgeTraffic(u: U.Usb)
    ensures var v := U.Purge(u); v.sticky == u.sticky && v.sequence == u.sequence && v.wire == u.wire
    decreases |u.handles|
  {
    if u.handles != map[] && U.MinKey(u.handles) < 0 {
      var k := U.MinKey(u.handles);
      assert k in u.handles.Keys;
      PurgeTraffic(U.Close(u, u.handles[k]).(handles := u.handles - {k}));
    }
  }

  lemma InitializeSound(link: U.Link, scan: U.Scan, rows: seq<seq<int>>)
    ensures Sound(U.InitializeSpec(link, FRESH, scan, rows).0)
  {
    hide U.Discover, U.Purge, U.MatchAll, U.Rekey, U.Flatten, Sound;
    var u := FRESH.(sequence := 0, sticky := 0);
    assert Sound(u) by { FreshSound(); }
    DiscoverSound(link, u, scan.devices);
    var d := U.Discover(link, u, scan.devices);
    var v := U.InitializeSpec(link, FRESH, scan, rows).0;
    if d.handles != map[] {
      PurgeTraffic(d.(handles := U.Rekey(d.handles)));
    }
    PurgeTraffic(d.(handles := U.MatchAll(d.handles, U.Flatten(rows)).0));
    SameTraffic(v, if scan.initStatus == 0 && scan.listStatus >= 0 && scan.devices != [] then d else u);
  }

  lemma FreshSound()
    ensures Sound(FRESH)
  {
  }

  lemma PerformSound(x: Setup, t: Live, op: Op)
    requires Sound(t.u) && !op.Open?
    ensures Sound(Perform(x, t, op).u)
  {
    hide U.Exchange, Sound;
    var h := U.Find(t.u, op.serial);
    if h.Some? {
      ExchangeSound(t.link, t.u, h.value, op.endpoint, 4, []);
      ExchangeSound(t.link, t.u, h.value, op.endpoint, 0, []);
      if op.Write? {
        ExchangeSound(t.link, t.u, h.value, op.endpoint, 0, x.codec.bytes(op.value));
      }
    }
  }

  lemma {:induction false} CurrentSound(x: Setup, log: Log)
    ensures Sound(Current(x, log).u)
    decreases |log|
  {
    hide Perform, U.InitializeSpec, Sound;
    if log == [] {
      FreshSound();
    } else {
      var m := |log| - 1;
      CurrentSound(x, log[..m]);
      if log[m].op.Open? {
        InitializeSound(x.session(log[..m]).link, x.session(log[..m]).scan, x.rows);
      } else {
        PerformSound(x, Current(x, log[..m]), log[m].op);
      }
    }
  }

  /** After any operations of any controller, the n-th request packet of the current transport carries
      the number Spread(n % 16384). */
  lemma WireNumbers(x: Setup, log: Log, k: nat)
    requires k < |Current(x, log).u.wire| && Current(x, log).u.wire[k].Out?
    ensures var wire := Current(x, log).u.wire;
            var s := U.Spread((U.Requests(wire[..k]) + 1) % 16384);
            |wire[k].packet| >= 2 && wire[k].packet[0] == U.Low(s) && wire[k].packet[1] == U.High(s)
  {
    hide Current, U.Spread;
    CurrentSound(x, log);
    U.SequenceClosedForm(U.Requests(Current(x, log).u.wire[..k]) + 1);
  }

  lemma PerformKeepsHandles(x: Setup, t: Live, op: Op)
    requires !op.Open?
    ensures var u := Perform(x, t, op).u;
            u.handles == t.u.handles && u.acquired == t.u.acquired && u.closed == t.u.closed
  {
    hide U.Exchange;
    var h := U.Find(t.u, op.serial);
    if h.Some? {
      U.Latch(t.link, t.u, h.value, op.endpoint, 4, []);
      U.Latch(t.link, t.u, h.value, op.endpoint, 0, []);
      if op.Write? {
        U.Latch(t.link, t.u, h.value, op.endpoint, 0, x.codec.bytes(op.value));
      }
    }
  }

  /** Every device list has distinct handles and loses none. */
  ghost predicate GoodSessions(x: Setup) {
    forall log: Log ::
      var y := x.session(log);
      H.DistinctHandles(y.scan.devices) && H.KeepsHandles(y.link, FRESH, y.scan)
  }

  /** At any time of any run, every handle of the current transport is filed once or closed once, and
      destroying it would close exactly the rest. */
  lemma {:induction false} CurrentConserved(x: Setup, log: Log)
    requires GoodSessions(x)
    ensures H.Conserved(Current(x, log).u)
    decreases |log|
  {
    hide Perform, U.InitializeSpec, H.Conserved, H.KeepsHandles, H.DistinctHandles;
    if log == [] {
      H.StartConserved(FRESH);
    } else {
      var m := |log| - 1;
      CurrentConserved(x, log[..m]);
      if log[m].op.Open? {
        var y := x.session(log[..m]);
        H.InitializeConserves(y.link, FRESH, y.scan, x.rows);
      } else {
        var t := Current(x, log[..m]);
        PerformKeepsHandles(x, t, log[m].op);
        H.SameBookkeeping(t.u, Perform(x, t, log[m].op).u);
      }
    }
  }

  // ---- the latch, seen by the controller ----

  /** A transport that has latched fails every operation fast, and does nothing on the bus. */
  lemma LatchedAnswers(x: Setup, log: Log, op: Op)
    requires Latched(x, log) && !op.Open?
    ensures FailFast(UsbEnv(x)(log, op).status)
    ensures Perform(x, Current(x, log), op).u == Current(x, log).u
  {
    hide Current;
    CurrentSound(x, log);
  }

  /** An operation whose transfer ends in TIMEOUT or NO_DEVICE latches the transport; nothing else
      does. */
  lemma LatchesExactly(x: Setup, log: Log, op: Op)
    requires !Latched(x, log) && !op.Open?
    ensures var e := Event(op, UsbEnv(x)(log, op));
            Latched(x, log + [e]) <==>
              FailFast(e.reply.status) && U.Find(Current(x, log).u, op.serial).Some?
  {
    hide U.Exchange, Current;
    var e := Event(op, UsbEnv(x)(log, op));
    var t := Current(x, log);
    Appended(x, log, e);
    var h := U.Find(t.u, op.serial);
    if h.Some? {
      U.Latch(t.link, t.u, h.value, op.endpoint, 4, []);
      U.Latch(t.link, t.u, h.value, op.endpoint, 0, []);
      if op.Write? {
        U.Latch(t.link, t.u, h.value, op.endpoint, 0, x.codec.bytes(op.value));
      }
    }
  }

  lemma Appended(x: Setup, log: Log, e: Event)
    requires !e.op.Open?
    ensures Current(x, log + [e]) == Current(x, log).(u := Perform(x, Current(x, log), e.op).u)
  {
    assert (log + [e])[..|log|] == log;
  }

  predicate NotOpen(op: Op) { !op.Open? }

  lemma {:induction false} LatchedStays(x: Setup, log: Log, log': Log)
    requires Latched(x, log) && Extends(log, log', NotOpen)
    ensures Current(x, log') == Current(x, log)
    decreases |log'|
  {
    hide Perform, Current;
    if |log'| == |log| {
      assert log' == log;
    } else {
      var m := |log'| - 1;
      assert log'[..m][..|log|] == log'[..|log|];
      LatchedStays(x, log, log'[..m]);
      LatchedAnswers(x, log'[..m], log'[m].op);
      assert log'[..m] + [log'[m]] == log';
      Appended(x, log'[..m], log'[m]);
    }
  }

  // ---- one read() ----

  /** Unhealthy, telemetry invalid, and held at the last accepted position. */
  predicate Down(j: Joint) {
    && !j.core.healthy && !j.core.telemetryValid
    && j.core.kin == Triple(j.core.lastValidPos, ZERO, ZERO) && j.core.lastValidPos.Fin?
  }

  lemma HeldIsDown(j: Joint, status: int)
    ensures Down(FailJoint(j, status)) && Down(DropJoint(j))
  {
  }

  lemma TelemetryFails(c: Context, log: Log, j: Joint)
    requires FailFast(c.env(log, TelemetryOps(j.cfg)[0]).status)
    ensures FailFast(ReadJoint(c, log, j).status)
  {
    hide TelemetryOps;
    var ops := TelemetryOps(j.cfg);
    assert ops[0..] == ops;
    DoAllStep(c.env, log, ops, 0);
    DoAllIssued(c.env, log, ops);
  }

  /** In an outage every read() leaves every joint down. */
  lemma ReadInOutage(c: Context, x: Setup, s: Hw, i: nat)
    requires c.env == UsbEnv(x) && (Latched(x, s.log) || !s.up) && i < |s.joints|
    ensures Down(ReadSpec(c, s).joints[i])
  {
    hide ReadJoint, FailJoint, DropJoint, Down, UsbEnv, TelemetryOps, FailFast, Current;
    ReadSpecJoint(c, s, i);
    if !s.up {
      HeldIsDown(s.joints[i], 0);
    } else {
      var turn := ReadTurn(c, s, i);
      var before := s.joints[i].(core := s.joints[i].core.(healthy := false));
      if turn.Some? {
        TurnStillLatched(c, x, s, i);
        var op := TelemetryOps(s.joints[i].cfg)[0];
        assert !op.Open? by { TelemetryReads(s.joints[i].cfg); }
        LatchedAnswers(x, turn.value, op);
        TelemetryFails(c, turn.value, before);
      }
      var polled := if turn.Some? then ReadJoint(c, turn.value, before).joint else before;
      var status :| FailFast(status) && ReadSpec(c, s).joints[i] == FailJoint(polled, status);
      HeldIsDown(polled, status);
    }
  }

  lemma TelemetryReads(cfg: JointConfig)
    ensures forall n | 0 <= n < 9 :: TelemetryOps(cfg)[n].Read?
  {
  }

  lemma ReadsOpenNothing(log: Log, log': Log)
    requires Extends(log, log', IsRead)
    ensures Extends(log, log', NotOpen)
  {
  }

  lemma {:induction false} JointTurnReads(c: Context, s: Hw, k: nat, i: nat)
    requires k <= i < |s.joints|
    ensures var t := JointTurn(c, s, k, i); t.Some? ==> Extends(s.log, t.value, IsRead)
    decreases i - k
  {
    hide ReadJoint;
    if k < i {
      var r := ReadJoint(c, s.log, s.joints[k]);
      ReadJointExtends(c, s.log, s.joints[k]);
      if !FailFast(r.status) {
        var t := AfterJointRead(s, k, r);
        JointTurnReads(c, t, k + 1, i);
        if JointTurn(c, t, k + 1, i).Some? {
          ExtendsTransitive(s.log, t.log, JointTurn(c, t, k + 1, i).value, IsRead);
        }
      }
    }
  }

  lemma TurnStillLatched(c: Context, x: Setup, s: Hw, i: nat)
    requires i < |s.joints| && Latched(x, s.log) && ReadTurn(c, s, i).Some?
    ensures Latched(x, ReadTurn(c, s, i).value)
  {
    hide Current;
    var d := DefaultUnhealthy(s);
    ReadSensorsFrame(c, d, 0);
    var p := ReadSensors(c, d, 0);
    ReadDrivesFrame(c, p.s, 0);
    var q := ReadDrives(c, p.s, 0);
    JointTurnReads(c, q.s, 0, i);
    var turn := ReadTurn(c, s, i).value;
    ExtendsTransitive(s.log, p.s.log, q.s.log, IsRead);
    ExtendsTransitive(s.log, q.s.log, turn, IsRead);
    ReadsOpenNothing(s.log, turn);
    LatchedStays(x, s.log, turn);
  }

  // ---- every call but activation ----

  lemma CommandsOpenNothing(cfg: JointConfig, level: Level, t: Triple)
    ensures forall n | 0 <= n < |CommandOps(cfg, level, t)| :: NotOpen(CommandOps(cfg, level, t)[n])
    ensures forall n | 0 <= n < |SwitchOps(cfg, level, t)| :: NotOpen(SwitchOps(cfg, level, t)[n])
    ensures forall n | 0 <= n < |ArmOps(cfg)| :: NotOpen(ArmOps(cfg)[n])
  {
    hide AxisEndpoint, Saturate, RadiansToTurns;
  }

  lemma WriteJointOpensNothing(c: Context, log: Log, dt: real, j: Joint)
    ensures Extends(log, WriteJoint(c, log, dt, j).log, NotOpen)
  {
    hide DoAll, CommandOps, ShapedJoint, Inverted, Stale, HasFault, WriteJoint, AxisEndpoint;
    var v := Inverted(Unfaulted(ShapedJoint(j, dt)));
    TurnTraffic(c, log, dt, j);
    CommandsOpenNothing(v.cfg, v.level, v.cmd);
    DoAllExtends(c.env, log, CommandOps(v.cfg, v.level, v.cmd), NotOpen);
  }

  lemma {:induction false} WritesOpenNothing(c: Context, s: Hw, dt: real, k: nat)
    requires k <= |s.joints|
    ensures Extends(s.log, WriteJoints(c, s, dt, k).s.log, NotOpen)
    decreases |s.joints| - k
  {
    hide WriteJoint, Counted;
    if k < |s.joints| {
      var r := WriteJoint(c, s.log, dt, s.joints[k]);
      WriteJointOpensNothing(c, s.log, dt, s.joints[k]);
      if !r.stop {
        var t := AfterJointWrite(s, k, dt, r);
        WritesOpenNothing(c, t, dt, k + 1);
        ExtendsTransitive(s.log, t.log, WriteJoints(c, t, dt, k + 1).s.log, NotOpen);
      }
    }
  }

  lemma EnterOpensNothing(c: Context, log: Log, j: Joint)
    ensures Extends(log, EnterMode(c, log, j).log, NotOpen)
  {
    hide SwitchOps, Primed, HasFault, DoAll;
    var t := Primed(j.level, j.cmd, j.core.kin);
    CommandsOpenNothing(j.cfg, j.level, t);
    DoAllExtends(c.env, log, SwitchOps(j.cfg, j.level, t), NotOpen);
  }

  lemma ClaimOpensNothing(c: Context, log: Log, j: Joint)
    ensures Extends(log, ClaimJoint(c, log, j).log, NotOpen)
  {
    hide ArmOps, DoAll, AxisEndpoint;
    CommandsOpenNothing(j.cfg, j.level, j.cmd);
    DoAllExtends(c.env, log, ArmOps(j.cfg), NotOpen);
  }

  lemma SwitchJointOpensNothing(c: Context, log: Log, j: Joint)
    ensures Extends(log, SwitchJoint(c, log, j).log, NotOpen)
  {
    hide EnterMode, ClaimJoint;
    var r := ClaimJoint(c, log, j);
    ClaimOpensNothing(c, log, j);
    EnterOpensNothing(c, r.log, r.joint);
    ExtendsTransitive(log, r.log, EnterMode(c, r.log, r.joint).log, NotOpen);
    var u := UnclaimLog(c, log, j.cfg);
    assert Extends(log, u, NotOpen);
    EnterOpensNothing(c, u, j);
    ExtendsTransitive(log, u, EnterMode(c, u, j).log, NotOpen);
    EnterOpensNothing(c, log, j);
  }

  lemma {:induction false} SwitchesOpenNothing(c: Context, s: Hw, k: nat)
    requires k <= |s.joints|
    ensures Extends(s.log, SwitchJoints(c, s, k).0.log, NotOpen)
    decreases |s.joints| - k
  {
    hide SwitchJoint;
    if k < |s.joints| {
      var r := SwitchJoint(c, s.log, s.joints[k]);
      SwitchJointOpensNothing(c, s.log, s.joints[k]);
      if r.status == 0 {
        var t := s.(joints := s.joints[k := r.joint], log := r.log);
        SwitchesOpenNothing(c, t, k + 1);
        ExtendsTransitive(s.log, t.log, SwitchJoints(c, t, k + 1).0.log, NotOpen);
      }
    }
  }

  lemma StepOpensNothing(c: Context, s: Hw, a: Api)
    requires !a.Activate?
    ensures Extends(s.log, Step(c, s, a).log, NotOpen)
    ensures !s.up ==> !Step(c, s, a).up
  {
    hide ReadSpec, WriteJoints, SwitchJoints, DoAll;
    match a {
      case ReadCall => ReadSpecFrame(c, s); ReadsOpenNothing(s.log, ReadSpec(c, s).log);
      case WriteCall(period) => WritesOpenNothing(c, s, EffectiveDt(period), 0);
      case Switch => SwitchesOpenNothing(c, s, 0);
      case Deactivate => DoAllExtends(c.env, s.log, IdleOps(s.joints), NotOpen);
      case _ =>
    }
  }

  /** From a latched error on, and until an activation builds a new transport, whatever is called: no
      transfer reaches the bus, and after every read() every joint is down. */
  lemma {:induction false} OutageLasts(c: Context, x: Setup, s: Hw, calls: seq<Api>)
    requires c.env == UsbEnv(x) && Latched(x, s.log)
    requires forall n | 0 <= n < |calls| :: !calls[n].Activate?
    ensures Current(x, Run(c, s, calls).log) == Current(x, s.log)
    ensures calls != [] && calls[|calls| - 1].ReadCall? ==>
              forall i | 0 <= i < |Run(c, s, calls).joints| :: Down(Run(c, s, calls).joints[i])
    decreases |calls|
  {
    hide Step, UsbEnv, Current, Down;
    if calls != [] {
      var m := |calls| - 1;
      OutageLasts(c, x, s, calls[..m]);
      var t := Run(c, s, calls[..m]);
      StepOpensNothing(c, t, calls[m]);
      LatchedStays(x, t.log, Step(c, t, calls[m]).log);
      if calls[m].ReadCall? {
        OutageRead(c, x, t);
      }
    }
  }

  lemma OutageRead(c: Context, x: Setup, s: Hw)
    requires c.env == UsbEnv(x) && Latched(x, s.log)
    ensures forall i | 0 <= i < |Step(c, s, ReadCall).joints| :: Down(Step(c, s, ReadCall).joints[i])
  {
    hide ReadSpec, UsbEnv, Current, Down;
    forall i: nat | i < |s.joints| ensures Down(ReadSpec(c, s).joints[i]) {
      ReadInOutage(c, x, s, i);
    }
  }
}
