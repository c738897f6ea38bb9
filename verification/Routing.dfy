/** What an operation of the controller becomes on the USB bus: which device its packets go to, and what
    they carry. */
module Routing {
  import opened Numeric
  import T = Transport
  import opened Usb
  import opened Handles
  import opened Outage

  // ---- packets ----

  predicate Endpoint(e: int) { 0 <= e < 0x8000 }

  /** A little-endian 16-bit number. */
  function Word16(low: int, high: int): int { low + 256 * high }

  /** A request that expects a response: the endpoint with the highest bit set, the size of the response, the
      payload, and the checksum of the endpoint table, or the protocol version for endpoint 0. */
  predicate Request(p: seq<Byte>, endpoint: int, size: int, payload: seq<Byte>) {
    && |p| == 8 + |payload|
    && Word16(p[2], p[3]) == endpoint + 0x8000 && p[3] >= 128
    && Word16(p[4], p[5]) == size
    && p[6..|p| - 2] == payload
    && Word16(p[|p| - 2], p[|p| - 1]) == if endpoint == 0 then 1 else 0x9b40
  }

  lemma TwoBytes(x: int)
    requires 0 <= x < 0x1_0000
    ensures Word16(Low(x), High(x)) == x
  {
    assert x == 256 * (x / 256) + x % 256;
    assert 0 <= x / 256 < 256;
  }

  lemma ReplyBytes(e: int)
    requires Endpoint(e)
    ensures Low(WithReplyBit(e)) == Low(e + 0x8000) && High(WithReplyBit(e)) == High(e + 0x8000)
    ensures High(e + 0x8000) >= 128
  {
    var x := e + 0x8000;
    assert WithReplyBit(e) == x - 0x1_0000;
    assert x == 256 * (x / 256) + x % 256;
    assert 128 <= x / 256 < 256;
    assert (x - 0x1_0000) / 256 == x / 256 - 256 && (x - 0x1_0000) % 256 == x % 256;
  }

  lemma EncodedRequest(sequence: int, endpoint: int, size: int, payload: seq<Byte>)
    requires Endpoint(endpoint) && Endpoint(size)
    ensures Request(Encode(sequence, WithReplyBit(endpoint), size, payload), endpoint, size, payload)
  {
    hide WithReplyBit, Low, High;
    var p := Encode(sequence, WithReplyBit(endpoint), size, payload);
    ReplyBytes(endpoint);
    TwoBytes(endpoint + 0x8000);
    TwoBytes(size);
    Checksum(endpoint);
    TwoBytes(Crc(WithReplyBit(endpoint)));
    assert p[6..|p| - 2] == payload;
  }

  lemma Checksum(endpoint: int)
    requires Endpoint(endpoint)
    ensures Crc(WithReplyBit(endpoint)) == if endpoint == 0 then 1 else 0x9b40
  {
  }

  /** The first 16 bytes of an answer without its first two. */
  function AnswerOf(data: seq<Byte>): seq<Byte> {
    var n := if |data| > 16 then 16 else |data|;
    if n < 2 then [] else data[2..n]
  }

  lemma AnswerBytes(data: seq<Byte>)
    ensures Decode(Received(data)) == AnswerOf(data)
  {
  }

  /** One operation on an open device: a request, and if it was accepted one answer is fetched from the same
      device; the operation succeeds exactly if both transfers do and the answer, header included, is not
      shorter than asked for. */
  lemma ExchangeMeaning(link: Link, u: Usb, handle: Handle, endpoint: int, size: int, payload: seq<Byte>)
    requires u.sticky == 0 && Endpoint(endpoint) && Endpoint(size)
    ensures var x := Exchange(link, u, handle, endpoint, size, payload);
            var n := |u.wire|;
            && n < |x.u.wire| <= n + 2 && x.u.wire[..n] == u.wire
            && x.u.wire[n].Out? && x.u.wire[n].handle == handle
            && Request(x.u.wire[n].packet, endpoint, size, payload)
            && var sent := link(u.wire, x.u.wire[n]);
               && (|x.u.wire| == n + 2 <==> sent.status == 0)
               && (sent.status != 0 ==> x.status == sent.status)
               && (sent.status == 0 ==>
                     && x.u.wire[n + 1] == In(handle)
                     && var got := link(x.u.wire[..n + 1], In(handle));
                        && (got.status != 0 ==> x.status == got.status)
                        && (got.status == 0 ==>
                              && (x.status == 0 <==> |got.data| >= size && 16 >= size)
                              && (x.status != 0 ==> x.status == LIBUSB_ERROR_IO)
                              && (x.status == 0 ==> x.payload == AnswerOf(got.data))))
  {
    hide Encode, NextSequence, WithReplyBit, Request, Decode, AnswerOf;
    EncodedRequest(NextSequence(u.sequence), endpoint, size, payload);
    var out := Out(handle, Encode(NextSequence(u.sequence), WithReplyBit(endpoint), size, payload));
    var x := Exchange(link, u, handle, endpoint, size, payload);
    if link(u.wire, out).status == 0 {
      var got := link(u.wire + [out], In(handle));
      assert x.u.wire[..|u.wire| + 1] == u.wire + [out];
      AnswerBytes(got.data);
    }
  }

  lemma AnswerPrefix(data: seq<Byte>, size: nat)
    requires 2 + size <= |data| && 2 + size <= 16
    ensures |AnswerOf(data)| >= size && AnswerOf(data)[..size] == data[2..2 + size]
  {
    var n := if |data| > 16 then 16 else |data|;
    assert data[2..n][..size] == data[2..2 + size];
  }

  /** A read of some bytes succeeds exactly if both transfers do and the answer holds them behind its header,
      and delivers exactly these; it is otherwise like any other operation. */
  lemma ReadMeaning(link: Link, u: Usb, handle: Handle, endpoint: int, size: nat)
    requires u.sticky == 0 && Endpoint(endpoint) && 0 < size < 0x8000
    ensures var x := ReadFrom(link, u, handle, endpoint, size);
            var n := |u.wire|;
            && x.u == Exchange(link, u, handle, endpoint, size, []).u && |x.u.wire| > n
            && (x.status == 0 <==>
                  && |x.u.wire| == n + 2
                  && var got := link(x.u.wire[..n + 1], In(handle));
                     got.status == 0 && 2 + size <= |got.data| && 2 + size <= 16)
            && (x.status == 0 ==> x.payload == link(x.u.wire[..n + 1], In(handle)).data[2..2 + size])
  {
    hide Exchange, Request;
    ExchangeMeaning(link, u, handle, endpoint, size, []);
    var x := Exchange(link, u, handle, endpoint, size, []);
    if x.status == 0 {
      var data := link(x.u.wire[..|u.wire| + 1], In(handle)).data;
      if 2 + size <= |data| && 2 + size <= 16 {
        AnswerPrefix(data, size);
      }
    }
  }

  // ---- what a device reports ----

  /** Eight bytes as a little-endian number. */
  function Serial(b: seq<Byte>): int
    requires |b| == 8
  {
    Word16(b[0], b[1]) + 0x1_0000 * Word16(b[2], b[3]) + 0x1_0000_0000 * Word16(b[4], b[5]) +
    0x1_0000_0000_0000 * Word16(b[6], b[7])
  }

  lemma WordMeaning(b: seq<Byte>)
    requires |b| == 8
    ensures Word(b) == Serial(b)
  {
    hide Word;
    WordStep(b);
    WordStep(b[1..]);
    WordStep(b[2..]);
    WordStep(b[3..]);
    WordStep(b[4..]);
    WordStep(b[5..]);
    WordStep(b[6..]);
    WordStep(b[7..]);
    assert b[1..][1..] == b[2..] && b[2..][1..] == b[3..] && b[3..][1..] == b[4..] && b[4..][1..] == b[5..];
    assert b[5..][1..] == b[6..] && b[6..][1..] == b[7..] && b[7..][1..] == [];
    assert Word([]) == 0 by { WordOfZeros([]); }
  }

  lemma WordStep(b: seq<Byte>)
    requires b != []
    ensures Word(b) == b[0] + 256 * Word(b[1..])
  {
  }

  lemma SerialRange(b: seq<Byte>)
    requires |b| == 8 && b[7] < 128
    ensures 0 <= Serial(b) < 0x8000_0000_0000_0000
  {
  }

  lemma FitsInt64(x: int)
    requires -0x8000_0000_0000_0000 <= x < 0x8000_0000_0000_0000
    ensures ToInt64(x) == x
  {
  }

  /** Below 2^63 the key is the negated number. */
  lemma KeyMeaning(b: seq<Byte>)
    requires |b| == 8 && b[7] < 128
    ensures 0 <= Serial(b) < 0x8000_0000_0000_0000
    ensures KeyOf(b) == -Serial(b)
  {
    hide Word, Serial, ToInt64;
    WordMeaning(b);
    SerialRange(b);
    FitsInt64(Serial(b));
    FitsInt64(-Serial(b));
  }

  /** A device reports a serial number below 2^63 exactly if it is an ODrive that can be described, opened,
      detached from the kernel if necessary and claimed, and answers the read of eight bytes from endpoint 4
      with this number. */
  lemma ReportMeaning(link: Link, u: Usb, d: Device, serial: int)
    requires u.sticky == 0
    ensures var x := ReadFrom(link, u.(acquired := u.acquired + [d.handle]), d.handle, 4, 8);
            && (Reported(link, u, d).Some? <==>
                  && d.described && d.isODrive && d.open == 0 && d.claim == 0
                  && (d.kernelActive == 0 || d.detach == 0) && x.status == 0)
            && (Reported(link, u, d).Some? && |x.payload| == 8 && x.payload[7] < 128 ==>
                  (Reported(link, u, d) == Some(-serial) <==> serial == Serial(x.payload)))
  {
    hide ReadFrom, KeyOf, Serial;
    var x := ReadFrom(link, u.(acquired := u.acquired + [d.handle]), d.handle, 4, 8);
    if |x.payload| == 8 && x.payload[7] < 128 {
      KeyMeaning(x.payload);
    }
  }

  // ---- the outcome of initialize ----

  lemma {:induction false} MatchSucceeds(m: map<int, Handle>, requested: seq<int>)
    requires forall s | s in requested :: s > 0
    ensures MatchAll(m, requested).1 <==> forall s | s in requested :: s in m || -s in m
    decreases |requested|
  {
    hide Insert;
    if requested != [] {
      HeadAndTail(requested);
      assert requested[0] in requested;
      var r := MatchOne(m, requested[0]);
      if r.Some? {
        assert forall s | s > 0 :: (s in r.value || -s in r.value) <==> (s in m || -s in m) by {
          MatchKeeps(m, requested[0]);
        }
        MatchSucceeds(r.value, requested[1..]);
      }
    }
  }

  lemma MatchKeeps(m: map<int, Handle>, serial: int)
    requires serial > 0 && MatchOne(m, serial).Some?
    ensures var r := MatchOne(m, serial).value; forall s | s > 0 :: (s in r || -s in r) <==> (s in m || -s in m)
  {
  }

  /** initialize fails with the status of libusb if that fails, and with NO_DEVICE if devices are present but
      none can be used, or two or more can but not all of the requested serial numbers are among them; it
      succeeds without any device, and with a single usable one. */
  lemma InitializeOutcome(link: Link, u: Usb, scan: Scan, rows: seq<seq<int>>)
    requires forall s | s in Flatten(rows) :: s > 0
    ensures var (v, status) := InitializeSpec(link, u, scan, rows);
            var found := Discover(link, u.(sequence := 0, sticky := 0), scan.devices).handles;
            status == if scan.initStatus != 0 then scan.initStatus
                      else if scan.listStatus < 0 then scan.listStatus
                      else if scan.devices == [] then 0
                      else if |found| == 0 then -4
                      else if |found| == 1 || forall s | s in Flatten(rows) :: s in found || -s in found then 0
                      else -4
  {
    hide Discover, Purge, MatchAll, Rekey, Flatten;
    MatchSucceeds(Discover(link, u.(sequence := 0, sticky := 0), scan.devices).handles, Flatten(rows));
  }

  // ---- all requests of a transport ----

  /** Every request on the wire asks for a response. */
  ghost predicate Asking(wire: seq<Transfer>) {
    forall k | 0 <= k < |wire| && wire[k].Out? :: |wire[k].packet| >= 8 && wire[k].packet[3] >= 128
  }

  lemma ExchangeAsks(link: Link, u: Usb, handle: Handle, endpoint: int, size: int, payload: seq<Byte>)
    requires Asking(u.wire) && Endpoint(endpoint) && Endpoint(size)
    ensures Asking(Exchange(link, u, handle, endpoint, size, payload).u.wire)
  {
    hide Exchange;
    if u.sticky == 0 {
      ExchangeMeaning(link, u, handle, endpoint, size, payload);
      var wire := Exchange(link, u, handle, endpoint, size, payload).u.wire;
      forall k | 0 <= k < |wire| && wire[k].Out? ensures |wire[k].packet| >= 8 && wire[k].packet[3] >= 128 {
        if k < |u.wire| {
          assert wire[k] == wire[..|u.wire|][k];
        }
      }
    } else {
      Latch(link, u, handle, endpoint, size, payload);
    }
  }

  lemma {:induction false} DiscoverAsks(link: Link, u: Usb, devices: seq<Device>)
    requires Asking(u.wire)
    ensures Asking(Discover(link, u, devices).wire)
    decreases |devices|
  {
    hide Exchange, Asking;
    if devices != [] {
      var m := |devices| - 1;
      DiscoverAsks(link, u, devices[..m]);
      var t, d := Discover(link, u, devices[..m]), devices[m];
      ExchangeAsks(link, t.(acquired := t.acquired + [d.handle]), d.handle, SERIAL_NUMBER, 8, []);
    }
  }

  lemma InitializeAsks(link: Link, scan: Scan, rows: seq<seq<int>>)
    ensures Asking(InitializeSpec(link, FRESH, scan, rows).0.wire)
  {
    hide Discover, Purge, MatchAll, Rekey, Flatten;
    var u := FRESH.(sequence := 0, sticky := 0);
    DiscoverAsks(link, u, scan.devices);
    var d := Discover(link, u, scan.devices);
    if d.handles != map[] {
      PurgeTraffic(d.(handles := Rekey(d.handles)));
    }
    PurgeTraffic(d.(handles := MatchAll(d.handles, Flatten(rows)).0));
  }

  predicate Addressed(op: T.Op) { op.Open? || Endpoint(op.endpoint) }

  lemma PerformAsks(x: Setup, t: Live, op: T.Op)
    requires Asking(t.u.wire) && !op.Open? && Addressed(op)
    ensures Asking(Perform(x, t, op).u.wire)
  {
    hide Exchange, Asking;
    var h := Find(t.u, op.serial);
    if h.Some? {
      ExchangeAsks(t.link, t.u, h.value, op.endpoint, 4, []);
      ExchangeAsks(t.link, t.u, h.value, op.endpoint, 0, []);
      if op.Write? {
        ExchangeAsks(t.link, t.u, h.value, op.endpoint, 0, x.codec.bytes(op.value));
      }
    }
  }

  /** After any operations on endpoints below 0x8000, every request of the current transport asks for a
      response. */
  lemma {:induction false} WireAsks(x: Setup, log: T.Log)
    requires forall n | 0 <= n < |log| :: Addressed(log[n].op)
    ensures Asking(Current(x, log).u.wire)
    decreases |log|
  {
    hide Perform, InitializeSpec, Asking;
    if log == [] {
      assert Asking([]) by { NothingAsked(); }
    } else {
      var m := |log| - 1;
      assert forall n | 0 <= n < m :: log[..m][n] == log[n];
      WireAsks(x, log[..m]);
      if log[m].op.Open? {
        InitializeAsks(x.session(log[..m]).link, x.session(log[..m]).scan, x.rows);
      } else {
        PerformAsks(x, Current(x, log[..m]), log[m].op);
      }
    }
  }

  lemma NothingAsked()
    ensures Asking([])
  {
  }

  // ---- which device ----

  /** Everything added to the wire goes to this device. */
  ghost predicate GoesTo(before: seq<Transfer>, after: seq<Transfer>, handle: Handle) {
    && |before| <= |after| && after[..|before|] == before
    && forall k | |before| <= k < |after| :: after[k].handle == handle
  }

  lemma ExchangeGoes(link: Link, u: Usb, handle: Handle, endpoint: int, size: int, payload: seq<Byte>)
    ensures GoesTo(u.wire, Exchange(link, u, handle, endpoint, size, payload).u.wire, handle)
  {
    hide Encode, NextSequence, Decode;
  }

  /** The handle an operation uses: the one filed under its serial number, or for serial number 0 the one
      filed under the least. */
  ghost predicate FiledFor(handles: map<int, Handle>, serial: int, handle: Handle) {
    if serial != 0 then serial in handles && handles[serial] == handle
    else exists k | k in handles :: handles[k] == handle && forall m | m in handles :: k <= m
  }

  /** What a read or write through the map of devices puts on the bus goes to the device filed for the serial
      number; without one it fails with NO_DEVICE and leaves the bus alone. */
  lemma ImplGoes(link: Link, u: Usb, serial: int, endpoint: int, size: nat, payload: seq<Byte>)
    ensures var r, w := ReadImpl(link, u, serial, endpoint, size), WriteImpl(link, u, serial, endpoint, payload);
            && (forall h | FiledFor(u.handles, serial, h) :: GoesTo(u.wire, r.u.wire, h) && GoesTo(u.wire, w.u.wire, h))
            && ((forall h :: !FiledFor(u.handles, serial, h)) ==>
                  r.u == u && r.status == -4 && w.u == u && w.status == -4)
  {
    hide Exchange, GoesTo;
    var h := Find(u, serial);
    if h.Some? {
      assert FiledFor(u.handles, serial, h.value);
      ExchangeGoes(link, u, h.value, endpoint, size, []);
      ExchangeGoes(link, u, h.value, endpoint, 0, payload);
      OneHandle(u.handles, serial);
    } else {
      NoHandle(u, serial);
    }
  }

  /** The same of an operation of the controller. */
  lemma PerformGoes(x: Setup, t: Live, op: T.Op)
    requires !op.Open?
    ensures var r := Perform(x, t, op);
            && (forall h | FiledFor(t.u.handles, op.serial, h) :: GoesTo(t.u.wire, r.u.wire, h))
            && ((forall h :: !FiledFor(t.u.handles, op.serial, h)) ==> r.u == t.u && r.status == -4)
  {
    hide ReadImpl, WriteImpl, FiledFor, GoesTo;
    ImplGoes(t.link, t.u, op.serial, op.endpoint, 4, []);
    if op.Write? {
      ImplGoes(t.link, t.u, op.serial, op.endpoint, 4, x.codec.bytes(op.value));
    }
  }

  /** The request of an operation: four bytes are read, a value is written as its bytes, a call writes none. */
  lemma OperationRequest(x: Setup, t: Live, op: T.Op, h: Handle)
    requires !op.Open? && t.u.sticky == 0 && Endpoint(op.endpoint) && FiledFor(t.u.handles, op.serial, h)
    ensures var u := Perform(x, t, op).u;
            var n := |t.u.wire|;
            n < |u.wire| && u.wire[n].Out? &&
            match op
            case Read(_, e) => Request(u.wire[n].packet, e, 4, [])
            case Write(_, e, value) => Request(u.wire[n].packet, e, 0, x.codec.bytes(value))
            case Call(_, e) => Request(u.wire[n].packet, e, 0, [])
  {
    hide Exchange, Request, GoesTo;
    var f := Find(t.u, op.serial);
    if f.None? {
      NoHandle(t.u, op.serial);
    } else {
      ExchangeMeaning(t.link, t.u, f.value, op.endpoint, 4, []);
      ExchangeMeaning(t.link, t.u, f.value, op.endpoint, 0, []);
      if op.Write? {
        ExchangeMeaning(t.link, t.u, f.value, op.endpoint, 0, x.codec.bytes(op.value));
      }
    }
  }

  lemma OneHandle(handles: map<int, Handle>, serial: int)
    ensures forall g, h | FiledFor(handles, serial, g) && FiledFor(handles, serial, h) :: g == h
  {
  }

  lemma NoHandle(u: Usb, serial: int)
    requires Find(u, serial).None?
    ensures forall h :: !FiledFor(u.handles, serial, h)
  {
  }

  lemma {:induction false} HandlesStay(x: Setup, log: T.Log, m: nat)
    requires m < |log| && forall n | m < n < |log| :: !log[n].op.Open?
    ensures Current(x, log).u.handles == Current(x, log[..m + 1]).u.handles
    decreases |log|
  {
    hide Perform, InitializeSpec;
    var k := |log| - 1;
    if m == k {
      assert log[..m + 1] == log;
    } else {
      assert log[..k][..m + 1] == log[..m + 1];
      HandlesStay(x, log[..k], m);
      PerformKeepsHandles(x, Current(x, log[..k]), log[k].op);
    }
  }

  /** The last opening of a transport found two or more devices with positive, distinct serial numbers, and
      matched all requested ones. */
  ghost predicate Opened(x: Setup, log: T.Log, m: nat) {
    && m < |log| && log[m].op.Open? && (forall n | m < n < |log| :: !log[n].op.Open?)
    && var y := x.session(log[..m]);
       && DistinctHandles(y.scan.devices) && GoodSerials(y.link, FRESH, y.scan.devices) && Scans(y.scan)
       && |Discover(y.link, FRESH, y.scan.devices).handles| >= 2
       && InitializeSpec(y.link, FRESH, y.scan, x.rows).1 == 0
       && forall s | s in Flatten(x.rows) :: s > 0
  }

  /** Device n of the list reported this serial number. */
  predicate Reports(y: Session, n: nat, serial: int) {
    n < |y.scan.devices| && ReportedAt(y.link, FRESH, y.scan.devices, n) == Some(-serial)
  }

  lemma OpenedHandles(x: Setup, log: T.Log, m: nat)
    requires Opened(x, log, m)
    ensures var handles := Current(x, log).u.handles;
            var y := x.session(log[..m]);
            && (forall s :: s in handles <==> s in Flatten(x.rows))
            && forall s | s in handles :: exists n: nat :: Reports(y, n, s) && y.scan.devices[n].handle == handles[s]
  {
    hide Discover, InitializeSpec, Flatten, GoodSerials, DistinctHandles, ReportedAt, Current;
    var y := x.session(log[..m]);
    HandlesStay(x, log, m);
    assert log[..m + 1][..m] == log[..m];
    OpenGives(x, log[..m + 1]);
    assert FRESH.(sequence := 0, sticky := 0) == FRESH;
    InitializeMatches(y.link, FRESH, y.scan, x.rows);
    var handles := Current(x, log).u.handles;
    forall s | s in handles ensures exists n: nat :: Reports(y, n, s) && y.scan.devices[n].handle == handles[s] {
      var n :| && 0 <= n < |y.scan.devices|
               && ReportedAt(y.link, FRESH.(sequence := 0, sticky := 0), y.scan.devices, n) == Some(-s)
               && y.scan.devices[n].handle == handles[s];
      assert Reports(y, n, s);
    }
  }

  lemma OpenGives(x: Setup, log: T.Log)
    requires log != [] && log[|log| - 1].op.Open?
    ensures var y := x.session(log[..|log| - 1]);
            Current(x, log).u == InitializeSpec(y.link, FRESH, y.scan, x.rows).0
  {
    hide InitializeSpec;
  }

  /** At any time after such an opening, an operation for a requested serial number adds transfers only to
      and from the device that reported it; one for serial number 0 goes to the device of the least requested
      one; one for another serial number fails with NO_DEVICE, and nothing happens on the bus. */
  lemma RoutedBySerial(x: Setup, log: T.Log, m: nat, op: T.Op)
    requires Opened(x, log, m) && !op.Open?
    ensures var t := Current(x, log);
            var y := x.session(log[..m]);
            var u := Perform(x, t, op).u;
            && (op.serial in Flatten(x.rows) ==>
                  exists n: nat :: Reports(y, n, op.serial) && GoesTo(t.u.wire, u.wire, y.scan.devices[n].handle))
            && (op.serial == 0 ==> forall s | s in Flatten(x.rows) && (forall r | r in Flatten(x.rows) :: s <= r) ::
                  exists n: nat :: Reports(y, n, s) && GoesTo(t.u.wire, u.wire, y.scan.devices[n].handle))
            && (op.serial != 0 && op.serial !in Flatten(x.rows) ==> u == t.u && Perform(x, t, op).status == -4)
  {
    hide Discover, Perform, Flatten, ReportedAt, GoesTo, Current, Opened;
    RequestsPositive(x, log, m);
    OpenedHandles(x, log, m);
    var t, y := Current(x, log), x.session(log[..m]);
    var handles := t.u.handles;
    PerformGoes(x, t, op);
    if op.serial in Flatten(x.rows) {
      var n: nat :| Reports(y, n, op.serial) && y.scan.devices[n].handle == handles[op.serial];
      assert FiledFor(handles, op.serial, y.scan.devices[n].handle);
    }
    if op.serial == 0 {
      forall s | s in Flatten(x.rows) && (forall r | r in Flatten(x.rows) :: s <= r)
        ensures exists n: nat :: Reports(y, n, s) &&
                  GoesTo(t.u.wire, Perform(x, t, op).u.wire, y.scan.devices[n].handle)
      {
        var n: nat :| Reports(y, n, s) && y.scan.devices[n].handle == handles[s];
        assert FiledFor(handles, 0, y.scan.devices[n].handle);
      }
    }
  }

  lemma RequestsPositive(x: Setup, log: T.Log, m: nat)
    requires Opened(x, log, m)
    ensures m < |log| && forall s | s in Flatten(x.rows) :: s > 0
  {
    hide Flatten, Discover, InitializeSpec;
  }
}
