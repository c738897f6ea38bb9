/** ODriveUSB as the class it is, over a libusb that records what it was asked to do. */
module UsbObject {
  import opened Numeric
  import opened Usb
  import Handles
  import Routing

  /** libusb: the transfers, and the handles it has given out and taken back. */
  class Port {
    const link: Link
    var wire: seq<Transfer>
    var acquired: seq<Handle>
    var closed: seq<Handle>

    constructor (link: Link)
      ensures this.link == link && wire == [] && acquired == [] && closed == []
    {
      this.link := link;
      wire, acquired, closed := [], [], [];
    }

    /** libusb_bulk_transfer. */
    method BulkTransfer(t: Transfer) returns (a: Answer)
      modifies this`wire
      ensures a == link(old(wire), t) && wire == old(wire) + [t]
    {
      a := link(wire, t);
      wire := wire + [t];
    }

    /** libusb_open. */
    method OpenDevice(d: Device) returns (status: int)
      modifies this`acquired
      ensures status == d.open
      ensures acquired == if status == 0 then old(acquired) + [d.handle] else old(acquired)
    {
      status := d.open;
      if status == 0 {
        acquired := acquired + [d.handle];
      }
    }

    /** libusb_release_interface where needed, and libusb_close. */
    method CloseDevice(handle: Handle)
      modifies this`closed
      ensures closed == old(closed) + [handle]
    {
      closed := closed + [handle];
    }
  }

  class ODriveUsb {
    const port: Port
    var handles: map<int, Handle>
    var sequenceNumber: int
    var stickyError: int

    function View(): Usb
      reads this, port
    {
      Usb(handles, sequenceNumber, stickyError, port.wire, port.acquired, port.closed)
    }

    constructor (port: Port)
      ensures this.port == port && handles == map[] && sequenceNumber == 0 && stickyError == 0
    {
      this.port := port;
      handles, sequenceNumber, stickyError := map[], 0, 0;
    }

    // ---- one exchange ----

    method LatchError(status: int)
      modifies this`stickyError
      ensures View() == Latched(old(View()), status)
    {
      if status == LIBUSB_ERROR_TIMEOUT || status == LIBUSB_ERROR_NO_DEVICE {
        stickyError := status;
      }
    }

    method EndpointOperation(handle: Handle, endpoint: int, responseSize: int, request: seq<Byte>)
      returns (status: int, response: seq<Byte>)
      modifies this`sequenceNumber, this`stickyError, port`wire
      ensures Exchanged(View(), status, response) ==
              Exchange(port.link, old(View()), handle, endpoint, responseSize, request)
    {
      hide Encode, NextSequence;
      response := [];
      if stickyError != 0 {
        return stickyError, [];
      }
      sequenceNumber := NextSequence(sequenceNumber);
      var packet := EncodePacket(sequenceNumber, WithReplyBit(endpoint), responseSize, request);
      var sent := port.BulkTransfer(Out(handle, packet));
      if sent.status != 0 {
        LatchError(sent.status);
        return sent.status, [];
      }
      var received := port.BulkTransfer(In(handle));
      if received.status != 0 {
        LatchError(received.status);
        return received.status, [];
      }
      var data := Received(received.data);
      if |data| < responseSize {
        return LIBUSB_ERROR_IO, [];
      }
      response := DecodePacket(data);
      status := 0;
    }

    method ReadHandle(handle: Handle, endpoint: int, size: nat) returns (status: int, value: seq<Byte>)
      modifies this`sequenceNumber, this`stickyError, port`wire
      ensures Exchanged(View(), status, value) == ReadFrom(port.link, old(View()), handle, endpoint, size)
    {
      hide Exchange;
      status, value := EndpointOperation(handle, endpoint, size, []);
      if status != 0 {
        return;
      }
      if |value| < size {
        return LIBUSB_ERROR_IO, [];
      }
      value := value[..size];
    }

    method Lookup(serial: int) returns (handle: Option<Handle>)
      ensures handle == Find(View(), serial)
    {
      if serial != 0 {
        handle := if serial in handles then Some(handles[serial]) else None;
      } else {
        handle := if handles == map[] then None else Some(handles[MinKey(handles)]);
      }
    }

    method Read(serial: int, endpoint: int, size: nat) returns (status: int, value: seq<Byte>)
      modifies this`sequenceNumber, this`stickyError, port`wire
      ensures Exchanged(View(), status, value) == ReadImpl(port.link, old(View()), serial, endpoint, size)
      ensures forall h | Routing.FiledFor(handles, serial, h) :: Routing.GoesTo(old(port.wire), port.wire, h)
    {
      hide ReadFrom, Routing.FiledFor, Routing.GoesTo;
      Routing.ImplGoes(port.link, View(), serial, endpoint, size, []);
      var handle := Lookup(serial);
      if handle.None? {
        return LIBUSB_ERROR_NO_DEVICE, [];
      }
      status, value := ReadHandle(handle.value, endpoint, size);
    }

    method Write(serial: int, endpoint: int, value: seq<Byte>) returns (status: int, response: seq<Byte>)
      modifies this`sequenceNumber, this`stickyError, port`wire
      ensures Exchanged(View(), status, response) == WriteImpl(port.link, old(View()), serial, endpoint, value)
      ensures forall h | Routing.FiledFor(handles, serial, h) :: Routing.GoesTo(old(port.wire), port.wire, h)
    {
      hide Exchange, Routing.FiledFor, Routing.GoesTo;
      Routing.ImplGoes(port.link, View(), serial, endpoint, 0, value);
      var handle := Lookup(serial);
      if handle.None? {
        return LIBUSB_ERROR_NO_DEVICE, [];
      }
      status, response := EndpointOperation(handle.value, endpoint, 0, value);
    }

    // ---- initialize ----

    method ProbeDevice(d: Device)
      modifies this, port
      ensures View() == Probe(port.link, old(View()), d)
    {
      hide ReadFrom, KeyOf;
      if !d.described || !d.isODrive {
        return;
      }
      var opening := port.OpenDevice(d);
      if opening != 0 {
        return;
      }
      if d.kernelActive != 0 && d.detach != 0 {
        port.CloseDevice(d.handle);
        return;
      }
      if d.claim != 0 {
        port.CloseDevice(d.handle);
        return;
      }
      var status, data := ReadHandle(d.handle, SERIAL_NUMBER, 8);
      if status != 0 {
        port.CloseDevice(d.handle);
        return;
      }
      handles := Insert(handles, KeyOf(data), d.handle);
    }

    method DiscoverDevices(devices: seq<Device>)
      modifies this, port
      ensures View() == Discover(port.link, old(View()), devices)
    {
      hide Probe;
      for i := 0 to |devices|
        invariant View() == Discover(port.link, old(View()), devices[..i])
      {
        assert devices[..i + 1][..i] == devices[..i];
        ProbeDevice(devices[i]);
      }
      assert devices[..|devices|] == devices;
    }

    /** The nested loops over the serial numbers of every joint and sensor. */
    method MatchSerials(rows: seq<seq<int>>) returns (ok: bool)
      modifies this`handles
      ensures (handles, ok) == MatchAll(old(handles), Flatten(rows))
    {
      hide Insert;
      assert rows[0..] == rows;
      for i := 0 to |rows|
        invariant MatchAll(handles, Flatten(rows[i..])) == MatchAll(old(handles), Flatten(rows))
      {
        assert rows[i..][1..] == rows[i + 1..];
        assert rows[i][0..] == rows[i];
        for j := 0 to |rows[i]|
          invariant MatchAll(handles, rows[i][j..] + Flatten(rows[i + 1..])) == MatchAll(old(handles), Flatten(rows))
        {
          var serial := rows[i][j];
          ghost var todo := rows[i][j..] + Flatten(rows[i + 1..]);
          assert todo[0] == serial && todo[1..] == rows[i][j + 1..] + Flatten(rows[i + 1..]);
          if serial !in handles {
            if -serial in handles {
              handles := Insert(handles, serial, handles[-serial]) - {-serial};
            } else {
              return false;
            }
          }
        }
        assert rows[i][|rows[i]|..] + Flatten(rows[i + 1..]) == Flatten(rows[i + 1..]);
      }
      ok := true;
    }

    /** The erasing loop over the map, in key order. */
    method PurgeUnmatched()
      modifies this`handles, port`closed
      ensures View() == Purge(old(View()))
    {
      var rest := handles;
      while rest != map[]
        invariant rest == handles || (View() == Purge(View()) && forall k | k in rest :: k >= 0)
        invariant Purge(View()) == Purge(old(View()))
        decreases |rest|
      {
        var k := MinKey(rest);
        assert k in rest.Keys;
        if k < 0 {
          port.CloseDevice(handles[k]);
          handles := handles - {k};
        }
        rest := rest - {k};
      }
    }

    /** On a fresh object no handle is lost exactly if no serial number is reported twice and what is
        found is not a single device with serial number zero. */
    method Initialize(scan: Scan, rows: seq<seq<int>>) returns (status: int)
      modifies this, port
      ensures (View(), status) == InitializeSpec(port.link, old(View()), scan, rows)
      ensures Handles.Start(old(View())) && Handles.DistinctHandles(scan.devices) ==>
                (Handles.Conserved(View()) <==> Handles.KeepsHandles(port.link, old(View()), scan))
    {
      hide InitializeSpec, Handles.Start, Handles.DistinctHandles, Handles.Conserved, Handles.KeepsHandles;
      ghost var before := View();
      status := Connect(scan, rows);
      if Handles.Start(before) && Handles.DistinctHandles(scan.devices) {
        Handles.InitializeConserves(port.link, before, scan, rows);
      }
    }

    method Connect(scan: Scan, rows: seq<seq<int>>) returns (status: int)
      modifies this, port
      ensures (View(), status) == InitializeSpec(port.link, old(View()), scan, rows)
    {
      hide Discover, Purge, MatchAll, Flatten;
      sequenceNumber := 0;
      stickyError := 0;
      if scan.initStatus != 0 {
        return scan.initStatus;
      }
      if scan.listStatus < 0 {
        return scan.listStatus;
      }
      if scan.devices == [] {
        return 0;
      }
      DiscoverDevices(scan.devices);
      if handles == map[] {
        return LIBUSB_ERROR_NO_DEVICE;
      }
      if |handles| == 1 {
        var k := MinKey(handles);
        handles := Insert(handles, -k, handles[k]);
        handles := handles - {k};
      } else {
        var ok := MatchSerials(rows);
        if !ok {
          return LIBUSB_ERROR_NO_DEVICE;
        }
      }
      PurgeUnmatched();
      status := 0;
    }

    /** ~ODriveUSB: if no handle was lost, every one ever acquired has now been closed exactly once. */
    method Dispose()
      modifies this`handles, port`closed
      ensures View() == Destroy(old(View()))
      ensures Handles.Conserved(old(View())) ==>
                Handles.NoRepeat(port.closed) && forall h :: h in port.closed <==> h in port.acquired
    {
      hide Destroy, Handles.Conserved;
      ghost var before := View();
      CloseAll();
      if Handles.Conserved(before) {
        Handles.DestroyCloses(before);
      }
    }

    method CloseAll()
      modifies this`handles, port`closed
      ensures View() == Destroy(old(View()))
    {
      while handles != map[]
        invariant Destroy(View()) == Destroy(old(View()))
        decreases |handles|
      {
        var k := MinKey(handles);
        assert k in handles.Keys;
        port.CloseDevice(handles[k]);
        handles := handles - {k};
      }
    }
  }
}
