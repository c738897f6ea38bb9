/** ODriveUSB: packets and sequence numbers, the sticky error latch, and the bookkeeping of device
    handles. libusb is an arbitrary answer to every call. */
module Usb {
  import opened Numeric

  type Byte = b: int | 0 <= b < 256

  type Handle = nat

  datatype Transfer = Out(handle: Handle, packet: seq<Byte>) | In(handle: Handle)

  datatype Answer = Answer(status: int, data: seq<Byte>)

  /** The other end of the bus, given the transfers so far. */
  type Link = (seq<Transfer>, Transfer) -> Answer

  const LIBUSB_ERROR_IO := -1
  const LIBUSB_ERROR_NO_DEVICE := -4
  const LIBUSB_ERROR_TIMEOUT := -7

  const ODRIVE_PROTOCOL_VERSION := 1
  const JSON_CRC := 0x9b40
  const ODRIVE_MAX_PACKET_SIZE: nat := 16
  const SERIAL_NUMBER := 4

  predicate Latches(status: int) { status == LIBUSB_ERROR_TIMEOUT || status == LIBUSB_ERROR_NO_DEVICE }

  // ---- sequence numbers ----

  /** (s + 1) & 0x7fff, then | 0x80. */
  function NextSequence(s: int): int {
    var k := (s + 1) % 0x8000;
    if (k / 0x80) % 2 == 0 then k + 0x80 else k
  }

  /** The number carried by the n-th transfer. */
  function Sequence(n: nat): int { if n == 0 then 0 else NextSequence(Sequence(n - 1)) }

  function Spread(k: nat): nat { 256 * (k / 128) + 128 + k % 128 }

  lemma SpreadStep(k: nat)
    requires k < 16384
    ensures NextSequence(Spread(k)) == Spread((k + 1) % 16384)
  {
    var q, r := k / 128, k % 128;
    assert k == 128 * q + r && q < 128;
    var s := Spread(k) + 1;
    assert s == 256 * q + 129 + r;
    if r < 127 {
      assert (k + 1) % 16384 == k + 1 && (k + 1) / 128 == q && (k + 1) % 128 == r + 1;
      assert s % 0x8000 == s;
      assert s / 0x80 == 2 * q + 1;
    } else {
      assert s == 256 * (q + 1);
      if q < 127 {
        assert (k + 1) / 128 == q + 1 && (k + 1) % 128 == 0;
        assert s / 0x80 == 2 * (q + 1);
      } else {
        assert k + 1 == 16384;
      }
    }
  }

  lemma Wraps(n: nat)
    ensures (n % 16384 + 1) % 16384 == (n + 1) % 16384
  {
  }

  lemma {:induction false} SequenceClosedForm(n: nat)
    requires n >= 1
    ensures Sequence(n) == Spread(n % 16384)
  {
    if n == 1 {
      assert Sequence(0) == 0;
    } else {
      hide Spread, NextSequence;
      SequenceClosedForm(n - 1);
      SpreadStep((n - 1) % 16384);
      Wraps(n - 1);
    }
  }

  lemma SpreadInjective(a: nat, b: nat)
    requires Spread(a) == Spread(b)
    ensures a == b
  {
    assert a == 128 * (a / 128) + a % 128 && b == 128 * (b / 128) + b % 128;
  }

  lemma SpreadRange(k: nat)
    requires k < 16384
    ensures 0 <= Spread(k) < 0x8000 && (Spread(k) / 0x80) % 2 == 1
  {
    var q := k / 128;
    assert q < 128;
    assert Spread(k) / 0x80 == 2 * q + 1;
  }

  lemma SameResidue(m: nat, n: nat)
    requires m < n < m + 16384
    ensures m % 16384 != n % 16384
  {
  }

  /** Any 16384 consecutive transfers carry distinct, non-negative 15-bit numbers with bit 7 set. */
  lemma SequenceDistinct(m: nat, n: nat)
    requires 1 <= m < n < m + 16384
    ensures Sequence(m) != Sequence(n)
    ensures 0 <= Sequence(n) < 0x8000 && (Sequence(n) / 0x80) % 2 == 1
  {
    hide Spread, Sequence;
    SequenceClosedForm(m);
    SequenceClosedForm(n);
    SameResidue(m, n);
    if Sequence(m) == Sequence(n) {
      SpreadInjective(m % 16384, n % 16384);
      assert false;
    }
    SpreadRange(n % 16384);
  }

  // ---- packets ----

  function Low(x: int): Byte { x % 256 }

  function High(x: int): Byte { (x / 256) % 256 }

  predicate Int16(x: int) { -0x8000 <= x < 0x8000 }

  lemma BytesInjective(x: int, y: int)
    requires Int16(x) && Int16(y) && Low(x) == Low(y) && High(x) == High(y)
    ensures x == y
  {
    assert x == 256 * (x / 256) + x % 256 && y == 256 * (y / 256) + y % 256;
  }

  function Crc(endpoint: int): int { if endpoint % 0x8000 == 0 then ODRIVE_PROTOCOL_VERSION else JSON_CRC }

  function Encode(sequence: int, endpoint: int, responseSize: int, payload: seq<Byte>): seq<Byte> {
    [Low(sequence), High(sequence), Low(endpoint), High(endpoint), Low(responseSize), High(responseSize)]
    + payload + [Low(Crc(endpoint)), High(Crc(endpoint))]
  }

  method EncodePacket(sequence: int, endpoint: int, responseSize: int, payload: seq<Byte>)
    returns (packet: seq<Byte>)
    ensures packet == Encode(sequence, endpoint, responseSize, payload)
  {
    packet := [];
    packet := packet + [Low(sequence)];
    packet := packet + [High(sequence)];
    packet := packet + [Low(endpoint)];
    packet := packet + [High(endpoint)];
    packet := packet + [Low(responseSize)];
    packet := packet + [High(responseSize)];
    ghost var header := packet;
    for i := 0 to |payload|
      invariant packet == header + payload[..i]
    {
      packet := packet + [payload[i]];
    }
    assert payload[..|payload|] == payload;
    var crc := Crc(endpoint);
    packet := packet + [Low(crc)];
    packet := packet + [High(crc)];
  }

  /** A packet determines everything it was made from. */
  lemma EncodeInjective(s1: int, e1: int, r1: int, p1: seq<Byte>, s2: int, e2: int, r2: int, p2: seq<Byte>)
    requires Int16(s1) && Int16(e1) && Int16(r1) && Int16(s2) && Int16(e2) && Int16(r2)
    requires Encode(s1, e1, r1, p1) == Encode(s2, e2, r2, p2)
    ensures s1 == s2 && e1 == e2 && r1 == r2 && p1 == p2
  {
    var a, b := Encode(s1, e1, r1, p1), Encode(s2, e2, r2, p2);
    assert a[0] == b[0] && a[1] == b[1] && a[2] == b[2] && a[3] == b[3] && a[4] == b[4] && a[5] == b[5];
    BytesInjective(s1, s2);
    BytesInjective(e1, e2);
    BytesInjective(r1, r2);
    assert p1 == a[6..|a| - 2] && p2 == b[6..|b| - 2];
  }

  function Decode(packet: seq<Byte>): seq<Byte> { if |packet| < 2 then [] else packet[2..] }

  method DecodePacket(packet: seq<Byte>) returns (payload: seq<Byte>)
    ensures payload == Decode(packet)
  {
    payload := [];
    var i := 2;
    while i < |packet|
      invariant |packet| >= 2 ==> 2 <= i <= |packet| && payload == packet[2..i]
      invariant |packet| < 2 ==> payload == []
    {
      payload := payload + [packet[i]];
      i := i + 1;
    }
  }

  // ---- the transport object ----

  /** The fields of ODriveUSB, the traffic, and every handle libusb gave out or took back. */
  datatype Usb = Usb(
    handles: map<int, Handle>,
    sequence: int,
    sticky: int,
    wire: seq<Transfer>,
    acquired: seq<Handle>,
    closed: seq<Handle>)

  datatype Exchanged = Exchanged(u: Usb, status: int, payload: seq<Byte>)

  function Latched(u: Usb, status: int): Usb { if Latches(status) then u.(sticky := status) else u }

  function Received(data: seq<Byte>): seq<Byte> {
    if |data| > ODRIVE_MAX_PACKET_SIZE then data[..ODRIVE_MAX_PACKET_SIZE] else data
  }

  /** The endpoint with the reply bit, as an int16. */
  function WithReplyBit(endpoint: int): int {
    if endpoint >= 0 then endpoint - 0x8000 else endpoint
  }

  /** endpointOperation with a response expected. */
  function Exchange(link: Link, u: Usb, handle: Handle, endpoint: int, size: int, payload: seq<Byte>): Exchanged {
    if u.sticky != 0 then Exchanged(u, u.sticky, [])
    else
      var n := NextSequence(u.sequence);
      var out := Out(handle, Encode(n, WithReplyBit(endpoint), size, payload));
      var a := link(u.wire, out);
      var v := u.(sequence := n, wire := u.wire + [out]);
      if a.status != 0 then Exchanged(Latched(v, a.status), a.status, [])
      else
        var b := link(v.wire, In(handle));
        var w := v.(wire := v.wire + [In(handle)]);
        if b.status != 0 then Exchanged(Latched(w, b.status), b.status, [])
        else if |Received(b.data)| < size then Exchanged(w, LIBUSB_ERROR_IO, [])
        else Exchanged(w, 0, Decode(Received(b.data)))
  }

  /** A read of `size` bytes from an open handle. */
  function ReadFrom(link: Link, u: Usb, handle: Handle, endpoint: int, size: nat): Exchanged {
    var x := Exchange(link, u, handle, endpoint, size, []);
    if x.status != 0 then x
    else if |x.payload| < size then Exchanged(x.u, LIBUSB_ERROR_IO, [])
    else Exchanged(x.u, 0, x.payload[..size])
  }

  // ---- the latch ----

  /** A latched transport answers every operation with its latched error and leaves the bus alone; an
      operation latches it exactly if a transfer of it ends with TIMEOUT or NO_DEVICE. */
  lemma Latch(link: Link, u: Usb, handle: Handle, endpoint: int, size: int, payload: seq<Byte>)
    ensures var x := Exchange(link, u, handle, endpoint, size, payload);
            && (u.sticky != 0 ==> x.u == u && x.status == u.sticky)
            && (u.sticky == 0 ==>
                  && |u.wire| < |x.u.wire| <= |u.wire| + 2
                  && (x.u.sticky != 0 <==> Latches(x.status))
                  && (x.u.sticky != 0 ==> x.u.sticky == x.status))
            && x.u.handles == u.handles && x.u.acquired == u.acquired && x.u.closed == u.closed
  {
    hide Encode, NextSequence;
  }

  /** The number of request packets on the wire. */
  function Requests(wire: seq<Transfer>): nat {
    if wire == [] then 0
    else Requests(wire[..|wire| - 1]) + if wire[|wire| - 1].Out? then 1 else 0
  }

  /** The n-th request on the wire carries the n-th sequence number, and so will the next one. */
  ghost predicate Numbered(u: Usb) {
    && u.sequence == Sequence(Requests(u.wire))
    && forall k | 0 <= k < |u.wire| && u.wire[k].Out? ::
         && |u.wire[k].packet| >= 2
         && var s := Sequence(Requests(u.wire[..k]) + 1);
            u.wire[k].packet[0] == Low(s) && u.wire[k].packet[1] == High(s)
  }

  lemma RequestsAppend(wire: seq<Transfer>, t: Transfer)
    ensures Requests(wire + [t]) == Requests(wire) + if t.Out? then 1 else 0
  {
    assert (wire + [t])[..|wire|] == wire;
  }

  lemma NumberedAppend(u: Usb, t: Transfer, next: int)
    requires Numbered(u)
    requires t.Out? ==> next == Sequence(Requests(u.wire) + 1) && |t.packet| >= 2 &&
                        t.packet[0] == Low(next) && t.packet[1] == High(next)
    requires t.In? ==> next == u.sequence
    ensures Numbered(u.(wire := u.wire + [t], sequence := next))
  {
    hide Sequence, Low, High, Requests;
    var wire := u.wire + [t];
    RequestsAppend(u.wire, t);
    assert wire[..|u.wire|] == u.wire;
    forall k | 0 <= k < |wire| && wire[k].Out?
      ensures |wire[k].packet| >= 2
      ensures var s := Sequence(Requests(wire[..k]) + 1); wire[k].packet[0] == Low(s) && wire[k].packet[1] == High(s)
    {
      if k < |u.wire| {
        assert wire[..k] == u.wire[..k];
      }
    }
  }

  lemma ExchangeNumbered(link: Link, u: Usb, handle: Handle, endpoint: int, size: int, payload: seq<Byte>)
    requires Numbered(u)
    ensures Numbered(Exchange(link, u, handle, endpoint, size, payload).u)
  {
    hide Numbered, NextSequence, Latches;
    if u.sticky == 0 {
      var n := NextSequence(u.sequence);
      assert n == Sequence(Requests(u.wire) + 1) by { NumberedNow(u); }
      var out := Out(handle, Encode(n, WithReplyBit(endpoint), size, payload));
      NumberedAppend(u, out, n);
      var v := u.(sequence := n, wire := u.wire + [out]);
      NumberedAppend(v, In(handle), n);
      var w := v.(wire := v.wire + [In(handle)]);
      LatchNumbered(v, link(u.wire, out).status);
      LatchNumbered(w, link(v.wire, In(handle)).status);
    }
  }

  lemma NumberedNow(u: Usb)
    requires Numbered(u)
    ensures u.sequence == Sequence(Requests(u.wire))
  {
  }

  lemma LatchNumbered(u: Usb, status: int)
    requires Numbered(u)
    ensures Numbered(Latched(u, status))
  {
  }

  // ---- discovery ----

  /** What libusb says about one entry of the device list. */
  datatype Device = Device(
    described: bool, isODrive: bool, handle: Handle,
    open: int, kernelActive: int, detach: int, claim: int)

  function ToInt64(n: int): int { (n + 0x8000_0000_0000_0000) % 0x1_0000_0000_0000_0000 - 0x8000_0000_0000_0000 }

  /** A little-endian 64-bit word. */
  function Word(data: seq<Byte>): nat {
    if data == [] then 0 else data[0] + 256 * Word(data[1..])
  }

  function Close(u: Usb, handle: Handle): Usb { u.(closed := u.closed + [handle]) }

  /** std::map::insert keeps an existing entry. */
  function Insert(m: map<int, Handle>, key: int, handle: Handle): map<int, Handle> {
    if key in m then m else m[key := handle]
  }

  predicate Claims(d: Device) { !(d.kernelActive != 0 && d.detach != 0) && d.claim == 0 }

  predicate Opens(d: Device) { d.described && d.isODrive && d.open == 0 }

  function Probe(link: Link, u: Usb, d: Device): Usb {
    if !Opens(d) then u
    else
      var v := u.(acquired := u.acquired + [d.handle]);
      if !Claims(d) then Close(v, d.handle)
      else
        var x := ReadFrom(link, v, d.handle, SERIAL_NUMBER, 8);
        if x.status != 0 then Close(x.u, d.handle)
        else x.u.(handles := Insert(x.u.handles, KeyOf(x.payload), d.handle))
  }

  /** The negated serial number. */
  function KeyOf(data: seq<Byte>): int { ToInt64(-ToInt64(Word(data))) }

  function Discover(link: Link, u: Usb, devices: seq<Device>): Usb {
    if devices == [] then u
    else Probe(link, Discover(link, u, devices[..|devices| - 1]), devices[|devices| - 1])
  }

  /** The key under which a probed device is to be filed, if it reports a serial number. */
  function Reported(link: Link, u: Usb, d: Device): Option<int> {
    if !Opens(d) || !Claims(d) then None
    else
      var x := ReadFrom(link, u.(acquired := u.acquired + [d.handle]), d.handle, SERIAL_NUMBER, 8);
      if x.status != 0 then None else Some(KeyOf(x.payload))
  }

  // ---- matching ----

  function MinKey(m: map<int, Handle>): (k: int)
    requires m != map[]
    ensures k in m && forall x | x in m :: k <= x
  {
    Least(m.Keys);
    var k :| k in m && forall x | x in m :: k <= x;
    k
  }

  lemma NonEmpty(s: set<int>)
    ensures s == {} || exists a :: a in s
  {
    assert (forall a: int :: a !in s) ==> s == {};
  }

  lemma {:induction false} Least(s: set<int>)
    requires s != {}
    ensures exists k :: k in s && forall x | x in s :: k <= x
    decreases |s|
  {
    NonEmpty(s);
    var a :| a in s;
    var rest := s - {a};
    if rest == {} {
      assert s == {a};
    } else {
      Least(rest);
      var b :| b in rest && forall x | x in rest :: b <= x;
      var k := if a <= b then a else b;
      assert k in s;
      forall x | x in s ensures k <= x {
        assert x == a || x in rest;
      }
    }
  }

  /** read_impl, write_impl and call look up the device; serial number 0 stands for the first one. */
  function Find(u: Usb, serial: int): Option<Handle> {
    if serial != 0 then (if serial in u.handles then Some(u.handles[serial]) else None)
    else if u.handles == map[] then None
    else Some(u.handles[MinKey(u.handles)])
  }

  function ReadImpl(link: Link, u: Usb, serial: int, endpoint: int, size: nat): Exchanged {
    match Find(u, serial)
    case None => Exchanged(u, LIBUSB_ERROR_NO_DEVICE, [])
    case Some(handle) => ReadFrom(link, u, handle, endpoint, size)
  }

  /** A call is a write without payload. */
  function WriteImpl(link: Link, u: Usb, serial: int, endpoint: int, payload: seq<Byte>): Exchanged {
    match Find(u, serial)
    case None => Exchanged(u, LIBUSB_ERROR_NO_DEVICE, [])
    case Some(handle) => Exchange(link, u, handle, endpoint, 0, payload)
  }

  /** A single device is taken whatever serial numbers are asked for. */
  function Rekey(m: map<int, Handle>): map<int, Handle>
    requires m != map[]
  {
    var k := MinKey(m);
    Insert(m, -k, m[k]) - {k}
  }

  /** One requested serial number; None if no device has it. */
  function MatchOne(m: map<int, Handle>, serial: int): Option<map<int, Handle>> {
    if serial in m then Some(m)
    else if -serial in m then Some(Insert(m, serial, m[-serial]) - {-serial})
    else None
  }

  /** The map after the requests, and whether all were met; the first missing one ends the search. */
  function MatchAll(m: map<int, Handle>, requested: seq<int>): (map<int, Handle>, bool)
    decreases |requested|
  {
    if requested == [] then (m, true)
    else
      var r := MatchOne(m, requested[0]);
      if r.None? then (m, false) else MatchAll(r.value, requested[1..])
  }

  function Flatten(rows: seq<seq<int>>): seq<int> {
    if rows == [] then [] else rows[0] + Flatten(rows[1..])
  }

  /** Unmatched devices are closed again. */
  function Purge(u: Usb): Usb
    decreases |u.handles|
  {
    if u.handles == map[] || MinKey(u.handles) >= 0 then u
    else
      var k := MinKey(u.handles);
      assert k in u.handles.Keys;
      Purge(Close(u, u.handles[k]).(handles := u.handles - {k}))
  }

  /** The destructor. */
  function Destroy(u: Usb): Usb
    decreases |u.handles|
  {
    if u.handles == map[] then u
    else
      var k := MinKey(u.handles);
      assert k in u.handles.Keys;
      Destroy(Close(u, u.handles[k]).(handles := u.handles - {k}))
  }

  datatype Scan = Scan(initStatus: int, listStatus: int, devices: seq<Device>)

  /** initialize. An empty device list is reported as success. */
  function InitializeSpec(link: Link, u0: Usb, scan: Scan, rows: seq<seq<int>>): (Usb, int) {
    var u := u0.(sequence := 0, sticky := 0);
    if scan.initStatus != 0 then (u, scan.initStatus)
    else if scan.listStatus < 0 then (u, scan.listStatus)
    else if scan.devices == [] then (u, 0)
    else
      var d := Discover(link, u, scan.devices);
      if d.handles == map[] then (d, LIBUSB_ERROR_NO_DEVICE)
      else if |d.handles| == 1 then (Purge(d.(handles := Rekey(d.handles))), 0)
      else
        var (m, ok) := MatchAll(d.handles, Flatten(rows));
        if ok then (Purge(d.(handles := m)), 0) else (d.(handles := m), LIBUSB_ERROR_NO_DEVICE)
  }
}
