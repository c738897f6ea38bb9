/** Every handle libusb gives out is filed under exactly one serial number or closed exactly once. */
module Handles {
  import opened Numeric
  import opened Usb

  predicate NoRepeat(s: seq<Handle>) { forall i, k | 0 <= i < k < |s| :: s[i] != s[k] }

  /** Filed under one key or closed once, and nothing else is filed or closed. */
  ghost predicate Conserved(u: Usb) {
    && NoRepeat(u.acquired) && NoRepeat(u.closed)
    && (forall k1, k2 | k1 in u.handles && k2 in u.handles && k1 != k2 :: u.handles[k1] != u.handles[k2])
    && (forall k | k in u.handles :: u.handles[k] in u.acquired && u.handles[k] !in u.closed)
    && (forall h | h in u.closed :: h in u.acquired)
    && (forall h | h in u.acquired :: h in u.closed || exists k :: k in u.handles && u.handles[k] == h)
  }

  // ---- discovery ----

  lemma ReadKeepsHandles(link: Link, u: Usb, handle: Handle, endpoint: int, size: nat)
    ensures var v := ReadFrom(link, u, handle, endpoint, size).u;
            v.handles == u.handles && v.acquired == u.acquired && v.closed == u.closed
  {
    hide Exchange;
    Latch(link, u, handle, endpoint, size, []);
  }

  lemma InNew(s: seq<Handle>, h: Handle)
    ensures forall x :: x in s + [h] <==> x in s || x == h
    ensures NoRepeat(s) && h !in s ==> NoRepeat(s + [h])
  {
  }

  lemma AcquiredAndClosed(u: Usb, h: Handle)
    requires Conserved(u) && h !in u.acquired
    ensures Conserved(u.(acquired := u.acquired + [h], closed := u.closed + [h]))
  {
    InNew(u.acquired, h);
    InNew(u.closed, h);
  }

  /** A newly opened handle is kept safe exactly if its key is free: std::map::insert drops it otherwise. */
  lemma AcquiredAndFiled(u: Usb, h: Handle, key: int)
    requires Conserved(u) && h !in u.acquired
    ensures Conserved(u.(acquired := u.acquired + [h], handles := Insert(u.handles, key, h))) <==> key !in u.handles
  {
    InNew(u.acquired, h);
    var v := u.(acquired := u.acquired + [h], handles := Insert(u.handles, key, h));
    if key in u.handles {
      assert h in v.acquired && h !in v.closed;
      assert forall k | k in v.handles :: v.handles[k] != h;
    } else {
      assert v.handles[key] == h;
      forall x | x in v.acquired ensures x in v.closed || exists k :: k in v.handles && v.handles[k] == x {
        if x != h && x !in u.closed {
          var k :| k in u.handles && u.handles[k] == x;
          assert k in v.handles && v.handles[k] == x;
        }
      }
    }
  }

  /** One device: conserved exactly if it does not report a serial number that is already filed. */
  lemma ProbeConserves(link: Link, u: Usb, d: Device)
    requires Conserved(u) && d.handle !in u.acquired
    ensures Conserved(Probe(link, u, d)) <==>
              Reported(link, u, d).None? || Reported(link, u, d).value !in u.handles
  {
    hide ReadFrom, Conserved, KeyOf;
    if Opens(d) {
      AcquiredAndClosed(u, d.handle);
      if Claims(d) {
        var v := u.(acquired := u.acquired + [d.handle]);
        var x := ReadFrom(link, v, d.handle, SERIAL_NUMBER, 8);
        ReadKeepsHandles(link, v, d.handle, SERIAL_NUMBER, 8);
        SameBookkeeping(Close(v, d.handle), Close(x.u, d.handle));
        if x.status == 0 {
          AcquiredAndFiled(u, d.handle, KeyOf(x.payload));
          SameBookkeeping(v.(handles := Insert(u.handles, KeyOf(x.payload), d.handle)),
                          x.u.(handles := Insert(u.handles, KeyOf(x.payload), d.handle)));
        }
      }
    }
  }

  lemma SameBookkeeping(u: Usb, v: Usb)
    requires u.handles == v.handles && u.acquired == v.acquired && u.closed == v.closed
    ensures Conserved(u) == Conserved(v)
  {
  }

  function Before(devices: seq<Device>, n: nat): seq<Device>
    requires n <= |devices|
  {
    devices[..n]
  }

  /** The key device n reports in its turn of the discovery. */
  function ReportedAt(link: Link, u: Usb, devices: seq<Device>, n: nat): Option<int>
    requires n < |devices|
  {
    Reported(link, Discover(link, u, Before(devices, n)), devices[n])
  }

  ghost predicate DistinctHandles(devices: seq<Device>) {
    forall i, k | 0 <= i < k < |devices| :: devices[i].handle != devices[k].handle
  }

  /** No serial number is reported twice. */
  ghost predicate DistinctReports(link: Link, u: Usb, devices: seq<Device>) {
    forall n, m | 0 <= n < m < |devices| && ReportedAt(link, u, devices, n).Some? &&
                  ReportedAt(link, u, devices, m).Some? ::
      ReportedAt(link, u, devices, n).value != ReportedAt(link, u, devices, m).value
  }

  /** All reported serial numbers are positive and distinct. */
  ghost predicate GoodSerials(link: Link, u: Usb, devices: seq<Device>) {
    && (forall n | 0 <= n < |devices| && ReportedAt(link, u, devices, n).Some? ::
          ReportedAt(link, u, devices, n).value < 0)
    && DistinctReports(link, u, devices)
  }

  /** The reports of a list are distinct exactly if those of its front are, and the last one is new. */
  lemma DistinctNext(link: Link, u: Usb, devices: seq<Device>)
    requires devices != []
    ensures var m := |devices| - 1;
            DistinctReports(link, u, devices) <==>
              && DistinctReports(link, u, devices[..m])
              && forall n | 0 <= n < m && ReportedAt(link, u, devices, n).Some? ::
                   ReportedAt(link, u, devices, m).None? ||
                   ReportedAt(link, u, devices, n).value != ReportedAt(link, u, devices, m).value
  {
    hide Reported, ReportedAt;
    SameReports(link, u, devices, |devices| - 1);
  }

  /** A handle is filed under the key its device reported, and nothing else is filed. */
  ghost predicate FiledAsReported(link: Link, u: Usb, devices: seq<Device>, m: map<int, Handle>) {
    && (forall n | 0 <= n < |devices| && ReportedAt(link, u, devices, n).Some? ::
          var key := ReportedAt(link, u, devices, n).value; key in m && m[key] == devices[n].handle)
    && (forall key | key in m ::
          exists n | 0 <= n < |devices| ::
            ReportedAt(link, u, devices, n) == Some(key) && devices[n].handle == m[key])
  }

  lemma ProbeFiles(link: Link, u: Usb, d: Device)
    ensures var v := Probe(link, u, d);
            && v.handles == (match Reported(link, u, d)
                             case None => u.handles
                             case Some(key) => Insert(u.handles, key, d.handle))
            && (v.acquired == u.acquired || v.acquired == u.acquired + [d.handle])
  {
    hide ReadFrom, KeyOf;
    var v := u.(acquired := u.acquired + [d.handle]);
    ReadKeepsHandles(link, v, d.handle, SERIAL_NUMBER, 8);
  }

  ghost predicate Start(u: Usb) { u.handles == map[] && u.acquired == [] && u.closed == [] }

  /** An open handle that is under no key and was not closed. */
  predicate Lost(u: Usb, h: Handle) {
    h in u.acquired && h !in u.closed && forall k | k in u.handles :: u.handles[k] != h
  }

  lemma LostBreaks(u: Usb, h: Handle)
    requires Lost(u, h)
    ensures !Conserved(u)
  {
  }

  /** A probe that breaks conservation loses a handle. */
  lemma ProbeLoses(link: Link, u: Usb, d: Device) returns (h: Handle)
    requires Conserved(u) && d.handle !in u.acquired && !Conserved(Probe(link, u, d))
    ensures Lost(Probe(link, u, d), h)
  {
    hide ReadFrom, Conserved, KeyOf;
    ProbeConserves(link, u, d);
    var v := u.(acquired := u.acquired + [d.handle]);
    ReadKeepsHandles(link, v, d.handle, SERIAL_NUMBER, 8);
    h := d.handle;
    assert h !in u.closed && forall k | k in u.handles :: u.handles[k] != h by { Unknown(u, h); }
  }

  lemma Unknown(u: Usb, h: Handle)
    requires Conserved(u) && h !in u.acquired
    ensures h !in u.closed && forall k | k in u.handles :: u.handles[k] != h
  {
  }

  /** Later probes do not find a lost handle again. */
  lemma ProbeKeepsLost(link: Link, u: Usb, d: Device, h: Handle)
    requires Lost(u, h) && d.handle !in u.acquired
    ensures Lost(Probe(link, u, d), h)
  {
    hide ReadFrom, KeyOf;
    var v := u.(acquired := u.acquired + [d.handle]);
    ReadKeepsHandles(link, v, d.handle, SERIAL_NUMBER, 8);
    InNew(u.acquired, d.handle);
    InNew(u.closed, d.handle);
  }

  ghost predicate SomeLost(u: Usb) { exists h :: Lost(u, h) }

  /** Discovery, exactly: with distinct reports everything is conserved and filed as reported, and with
      a repeated report some handle is lost. */
  lemma {:induction false} DiscoverExactly(link: Link, u: Usb, devices: seq<Device>)
    requires Start(u) && DistinctHandles(devices)
    ensures forall h | h in Discover(link, u, devices).acquired ::
              exists n | 0 <= n < |devices| :: devices[n].handle == h
    ensures DistinctReports(link, u, devices) ==>
              && Conserved(Discover(link, u, devices))
              && FiledAsReported(link, u, devices, Discover(link, u, devices).handles)
    ensures !DistinctReports(link, u, devices) ==> SomeLost(Discover(link, u, devices))
    decreases |devices|
  {
    hide Probe, Reported, Conserved, Lost, DistinctReports, ReportedAt;
    if devices == [] {
      assert Conserved(u) by { StartConserved(u); }
      assert DistinctReports(link, u, devices) by { EmptyReports(link, u); }
    } else {
      var m := |devices| - 1;
      var less, d := devices[..m], devices[m];
      DiscoverExactly(link, u, less);
      var t := Discover(link, u, less);
      assert d.handle !in t.acquired by {
        assert forall n | 0 <= n < |less| :: less[n] == devices[n];
      }
      ProbeFiles(link, t, d);
      AcquiredFrom(less, d, t, Probe(link, t, d));
      assert less + [d] == devices;
      DistinctNext(link, u, devices);
      if DistinctReports(link, u, less) {
        DiscoverNext(link, u, devices);
      } else {
        var h :| Lost(t, h);
        ProbeKeepsLost(link, t, d, h);
      }
    }
  }

  lemma EmptyReports(link: Link, u: Usb)
    ensures DistinctReports(link, u, [])
  {
  }

  /** One more device after a list with distinct reports. */
  lemma DiscoverNext(link: Link, u: Usb, devices: seq<Device>)
    requires devices != []
    requires var m := |devices| - 1;
             var t := Discover(link, u, devices[..m]);
             && Conserved(t) && devices[m].handle !in t.acquired
             && DistinctReports(link, u, devices[..m])
             && FiledAsReported(link, u, devices[..m], t.handles)
    ensures var v := Discover(link, u, devices);
            && (DistinctReports(link, u, devices) ==> Conserved(v) && FiledAsReported(link, u, devices, v.handles))
            && (!DistinctReports(link, u, devices) ==> SomeLost(v))
  {
    hide Probe, Reported, Conserved, Lost, FiledAsReported, DistinctReports;
    var m := |devices| - 1;
    var t, d := Discover(link, u, devices[..m]), devices[m];
    var v := Probe(link, t, d);
    assert v == Discover(link, u, devices);
    SameReports(link, u, devices, m);
    assert ReportedAt(link, u, devices, m) == Reported(link, t, d);
    FreshKey(link, u, devices, t);
    ProbeConserves(link, t, d);
    ProbeFiles(link, t, d);
    if DistinctReports(link, u, devices) {
      FiledNext(link, u, devices, t, v);
    } else {
      var h := ProbeLoses(link, t, d);
    }
  }

  lemma StartConserved(u: Usb)
    requires Start(u)
    ensures Conserved(u)
  {
  }

  lemma SameReports(link: Link, u: Usb, devices: seq<Device>, m: nat)
    requires m < |devices|
    ensures forall n | 0 <= n < m :: ReportedAt(link, u, devices[..m], n) == ReportedAt(link, u, devices, n)
    ensures Before(devices, m) == devices[..m]
  {
    hide Reported, Discover;
    forall n | 0 <= n < m ensures Before(devices[..m], n) == Before(devices, n) {
    }
  }

  /** The last report is new exactly if its key is free. */
  lemma FreshKey(link: Link, u: Usb, devices: seq<Device>, t: Usb)
    requires devices != [] && DistinctReports(link, u, devices[..|devices| - 1])
    requires FiledAsReported(link, u, devices[..|devices| - 1], t.handles)
    ensures var r := ReportedAt(link, u, devices, |devices| - 1);
            DistinctReports(link, u, devices) <==> r.None? || r.value !in t.handles
  {
    hide ReportedAt, DistinctReports;
    var m := |devices| - 1;
    SameReports(link, u, devices, m);
    DistinctNext(link, u, devices);
    var r := ReportedAt(link, u, devices, m);
    forall n | 0 <= n < m ensures ReportedAt(link, u, devices[..m], n) == ReportedAt(link, u, devices, n) {
    }
    if r.Some? && r.value in t.handles {
      var less, key := devices[..m], r.value;
      var n :| 0 <= n < |less| && ReportedAt(link, u, less, n) == Some(key) && less[n].handle == t.handles[key];
      assert ReportedAt(link, u, devices, n) == Some(r.value);
    }
  }

  lemma AcquiredFrom(less: seq<Device>, d: Device, t: Usb, v: Usb)
    requires forall h | h in t.acquired :: exists n | 0 <= n < |less| :: less[n].handle == h
    requires v.acquired == t.acquired || v.acquired == t.acquired + [d.handle]
    ensures forall h | h in v.acquired :: exists n | 0 <= n < |less + [d]| :: (less + [d])[n].handle == h
  {
    var devices := less + [d];
    forall h | h in v.acquired ensures exists n | 0 <= n < |devices| :: devices[n].handle == h {
      if h in t.acquired {
        var n :| 0 <= n < |less| && less[n].handle == h;
        assert devices[n].handle == h;
      } else {
        assert devices[|less|].handle == h;
      }
    }
  }

  lemma FiledNext(link: Link, u: Usb, devices: seq<Device>, t: Usb, v: Usb)
    requires devices != []
    requires FiledAsReported(link, u, devices[..|devices| - 1], t.handles)
    requires var r := ReportedAt(link, u, devices, |devices| - 1);
             && (r.Some? ==> r.value !in t.handles)
             && v.handles == (match r
                              case None => t.handles
                              case Some(key) => Insert(t.handles, key, devices[|devices| - 1].handle))
    ensures FiledAsReported(link, u, devices, v.handles)
  {
    hide ReportedAt;
    var m := |devices| - 1;
    SameReports(link, u, devices, m);
    forall key | key in v.handles
      ensures exists n | 0 <= n < |devices| ::
                ReportedAt(link, u, devices, n) == Some(key) && devices[n].handle == v.handles[key]
    {
      if key in t.handles {
        var n :| 0 <= n < m && ReportedAt(link, u, devices[..m], n) == Some(key) &&
                 devices[..m][n].handle == t.handles[key];
        assert ReportedAt(link, u, devices, n) == Some(key) && devices[n].handle == v.handles[key];
      } else {
        assert ReportedAt(link, u, devices, m) == Some(key) && devices[m].handle == v.handles[key];
      }
    }
    forall n | 0 <= n < |devices| && ReportedAt(link, u, devices, n).Some?
      ensures var key := ReportedAt(link, u, devices, n).value; key in v.handles && v.handles[key] == devices[n].handle
    {
      if n < m {
        assert ReportedAt(link, u, devices[..m], n) == ReportedAt(link, u, devices, n);
      }
    }
  }

  // ---- refiling, purging and destruction ----

  /** Moving a handle to a free key loses nothing. */
  lemma MoveConserves(u: Usb, a: int, b: int)
    requires Conserved(u) && a in u.handles && b !in u.handles
    ensures Conserved(u.(handles := Insert(u.handles, b, u.handles[a]) - {a}))
  {
    var v := u.(handles := Insert(u.handles, b, u.handles[a]) - {a});
    assert v.handles[b] == u.handles[a];
    forall h | h in v.acquired ensures h in v.closed || exists k :: k in v.handles && v.handles[k] == h {
      if h !in u.closed {
        var k :| k in u.handles && u.handles[k] == h;
        var k' := if k == a then b else k;
        assert k' in v.handles && v.handles[k'] == h;
      }
    }
  }

  lemma CloseConserves(u: Usb, k: int)
    requires Conserved(u) && k in u.handles
    ensures Conserved(Close(u, u.handles[k]).(handles := u.handles - {k}))
  {
    var h := u.handles[k];
    var v := Close(u, h).(handles := u.handles - {k});
    InNew(u.closed, h);
    forall x | x in v.acquired ensures x in v.closed || exists k' :: k' in v.handles && v.handles[k'] == x {
      if x !in u.closed && x != h {
        var k' :| k' in u.handles && u.handles[k'] == x;
        assert k' in v.handles && v.handles[k'] == x;
      }
    }
  }

  lemma {:induction false} MatchConserves(u: Usb, requested: seq<int>)
    requires Conserved(u)
    ensures Conserved(u.(handles := MatchAll(u.handles, requested).0))
    decreases |requested|
  {
    hide Conserved;
    if requested != [] {
      var s := requested[0];
      var r := MatchOne(u.handles, s);
      if s !in u.handles && -s in u.handles {
        MoveConserves(u, -s, s);
      }
      if r.Some? {
        MatchConserves(u.(handles := r.value), requested[1..]);
      }
    }
    assert u.(handles := u.handles) == u;
  }

  lemma {:induction false} PurgeConserves(u: Usb)
    requires Conserved(u)
    ensures var v := Purge(u);
            && Conserved(v)
            && v.handles == (map k | k in u.handles && k >= 0 :: u.handles[k])
            && v.acquired == u.acquired
    decreases |u.handles|
  {
    hide Conserved;
    if u.handles != map[] && MinKey(u.handles) < 0 {
      var k := MinKey(u.handles);
      assert k in u.handles.Keys;
      CloseConserves(u, k);
      PurgeConserves(Close(u, u.handles[k]).(handles := u.handles - {k}));
    }
  }

  /** After destruction every handle ever acquired has been closed exactly once. */
  lemma {:induction false} DestroyCloses(u: Usb)
    requires Conserved(u)
    ensures var v := Destroy(u);
            && v.handles == map[] && v.acquired == u.acquired && NoRepeat(v.closed)
            && forall h :: h in v.closed <==> h in u.acquired
    decreases |u.handles|
  {
    if u.handles == map[] {
    } else {
      var k := MinKey(u.handles);
      assert k in u.handles.Keys;
      CloseConserves(u, k);
      DestroyCloses(Close(u, u.handles[k]).(handles := u.handles - {k}));
    }
  }

  /** The single device keeps its handle exactly if its serial number is not zero. */
  lemma RekeyConserves(u: Usb, k: int)
    requires Conserved(u) && u.handles.Keys == {k}
    ensures Rekey(u.handles) == (if k == 0 then map[] else map[-k := u.handles[k]])
    ensures Conserved(u.(handles := Rekey(u.handles))) <==> k != 0
  {
    assert u.handles == map[k := u.handles[k]];
    assert MinKey(u.handles) == k;
    if k != 0 {
      MoveConserves(u, k, -k);
      assert Insert(u.handles, -k, u.handles[k]) - {k} == map[-k := u.handles[k]];
    } else {
      var v := u.(handles := Rekey(u.handles));
      assert Insert(u.handles, 0, u.handles[0]) - {0} == map[];
      assert u.handles[0] in v.acquired && u.handles[0] !in v.closed;
    }
  }

  lemma OneKey(m: map<int, Handle>)
    requires |m| == 1
    ensures m.Keys == {MinKey(m)}
  {
    var k := MinKey(m);
    assert k in m.Keys;
    var rest := m.Keys - {k};
    assert |rest| == 0;
    assert rest == {};
  }

  // ---- initialize ----

  lemma ValuesStay(m: map<int, Handle>, serial: int, h: Handle)
    requires forall k | k in m :: m[k] != h
    ensures MatchOne(m, serial).Some? ==>
              var r := MatchOne(m, serial).value; forall k | k in r :: r[k] != h
  {
  }

  lemma {:induction false} MatchKeepsLost(u: Usb, requested: seq<int>, h: Handle)
    requires Lost(u, h)
    ensures Lost(u.(handles := MatchAll(u.handles, requested).0), h)
    decreases |requested|
  {
    if requested != [] {
      var r := MatchOne(u.handles, requested[0]);
      ValuesStay(u.handles, requested[0], h);
      if r.Some? {
        MatchKeepsLost(u.(handles := r.value), requested[1..], h);
      }
    }
    assert u.(handles := u.handles) == u;
  }

  lemma RekeyKeepsLost(u: Usb, h: Handle)
    requires Lost(u, h) && u.handles != map[]
    ensures Lost(u.(handles := Rekey(u.handles)), h)
  {
  }

  lemma {:induction false} PurgeKeepsLost(u: Usb, h: Handle)
    requires Lost(u, h)
    ensures Lost(Purge(u), h)
    decreases |u.handles|
  {
    if u.handles != map[] && MinKey(u.handles) < 0 {
      var k := MinKey(u.handles);
      assert k in u.handles.Keys;
      InNew(u.closed, u.handles[k]);
      PurgeKeepsLost(Close(u, u.handles[k]).(handles := u.handles - {k}), h);
    }
  }

  /** The scan comes to opening devices. */
  predicate Scans(scan: Scan) { scan.initStatus == 0 && scan.listStatus >= 0 }

  /** No handle is lost by this initialize: no serial number is reported twice, and what is found is not
      a single device with serial number zero. */
  ghost predicate KeepsHandles(link: Link, u: Usb, scan: Scan) {
    var v := u.(sequence := 0, sticky := 0);
    Scans(scan) ==>
      DistinctReports(link, v, scan.devices) && Discover(link, v, scan.devices).handles.Keys != {0}
  }

  lemma AfterDiscovery(d: Usb, rows: seq<seq<int>>)
    requires Conserved(d) && d.handles != map[]
    ensures |d.handles| == 1 ==> (Conserved(Purge(d.(handles := Rekey(d.handles)))) <==> d.handles.Keys != {0})
    ensures var m := MatchAll(d.handles, Flatten(rows)).0;
            Conserved(d.(handles := m)) && Conserved(Purge(d.(handles := m)))
  {
    hide Conserved, Purge, MatchAll, Rekey, Flatten;
    MatchConserves(d, Flatten(rows));
    PurgeConserves(d.(handles := MatchAll(d.handles, Flatten(rows)).0));
    if |d.handles| == 1 {
      OneKey(d.handles);
      var k := MinKey(d.handles);
      RekeyConserves(d, k);
      if k != 0 {
        PurgeConserves(d.(handles := Rekey(d.handles)));
      } else {
        var h := RekeyLoses(d);
        PurgeKeepsLost(d.(handles := Rekey(d.handles)), h);
        LostBreaks(Purge(d.(handles := Rekey(d.handles))), h);
      }
    }
  }

  lemma RekeyLoses(u: Usb) returns (h: Handle)
    requires Conserved(u) && u.handles.Keys == {0}
    ensures Lost(u.(handles := Rekey(u.handles)), h)
  {
    RekeyConserves(u, 0);
    h := u.handles[0];
  }

  /** However initialize returns on a fresh object, every acquired handle is filed under exactly one key
      or closed exactly once, if and only if no serial number is reported twice and what is found is
      not a single device with serial number zero. */
  lemma InitializeConserves(link: Link, u: Usb, scan: Scan, rows: seq<seq<int>>)
    requires Start(u) && DistinctHandles(scan.devices)
    ensures Conserved(InitializeSpec(link, u, scan, rows).0) <==> KeepsHandles(link, u, scan)
  {
    hide Conserved, Purge, MatchAll, Rekey, DistinctReports, DistinctHandles, Flatten, Lost;
    var v := u.(sequence := 0, sticky := 0);
    StartConserved(v);
    if Scans(scan) {
      DiscoverExactly(link, v, scan.devices);
      var d := Discover(link, v, scan.devices);
      if DistinctReports(link, v, scan.devices) {
        if d.handles != map[] {
          AfterDiscovery(d, rows);
        }
        if |d.handles| >= 2 {
          TwoKeys(d.handles);
        }
      } else {
        InitializeLoses(link, u, scan, rows);
      }
    }
  }

  lemma TwoKeys(m: map<int, Handle>)
    requires |m| >= 2
    ensures m.Keys != {0}
  {
    assert |m.Keys| == |m|;
  }

  /** A handle lost in the discovery stays lost. */
  lemma InitializeLoses(link: Link, u: Usb, scan: Scan, rows: seq<seq<int>>)
    requires Scans(scan) && SomeLost(Discover(link, u.(sequence := 0, sticky := 0), scan.devices)) && u.acquired == []
    ensures !Conserved(InitializeSpec(link, u, scan, rows).0)
  {
    hide Conserved, Purge, MatchAll, Rekey, Flatten, Probe;
    var d := Discover(link, u.(sequence := 0, sticky := 0), scan.devices);
    var h :| Lost(d, h);
    LostBreaks(d, h);
    if d.handles != map[] {
      RekeyKeepsLost(d, h);
      MatchKeepsLost(d, Flatten(rows), h);
      var a, b := d.(handles := Rekey(d.handles)), d.(handles := MatchAll(d.handles, Flatten(rows)).0);
      PurgeKeepsLost(a, h);
      PurgeKeepsLost(b, h);
      LostBreaks(Purge(a), h);
      LostBreaks(b, h);
      LostBreaks(Purge(b), h);
    }
  }

  lemma KeyIsNegative(link: Link, u: Usb, devices: seq<Device>, m: map<int, Handle>, k: int)
    requires FiledAsReported(link, u, devices, m) && GoodSerials(link, u, devices) && k in m
    ensures k < 0
  {
  }

  /** From m to r, the positive requests have moved from their negated keys to themselves, and the
      other positive keys stay. */
  ghost predicate Moved(m: map<int, Handle>, r: map<int, Handle>, requested: seq<int>) {
    && (forall s | s in requested :: s in r && (s in m || -s in m) && r[s] == if s in m then m[s] else m[-s])
    && (forall k | k in r && k > 0 :: k in m || k in requested)
    && (forall k | k in m && k > 0 :: k in r && r[k] == m[k])
    && (forall k | k in r && k < 0 :: k in m && r[k] == m[k])
  }

  lemma HeadAndTail(s: seq<int>)
    requires s != []
    ensures forall x :: x in s <==> x == s[0] || x in s[1..]
  {
    assert s == [s[0]] + s[1..];
  }

  lemma MoveThen(m: map<int, Handle>, r: map<int, Handle>, requested: seq<int>)
    requires requested != [] && requested[0] > 0 && (forall s | s in requested :: s > 0)
    requires var one := MatchOne(m, requested[0]); one.Some? && Moved(one.value, r, requested[1..])
    ensures Moved(m, r, requested)
  {
    var s0 := requested[0];
    var one := MatchOne(m, s0).value;
    assert s0 in one && one[s0] == if s0 in m then m[s0] else m[-s0];
    HeadAndTail(requested);
    forall s | s in requested
      ensures s in r && (s in m || -s in m) && r[s] == if s in m then m[s] else m[-s]
    {
      if s in requested[1..] {
        assert s in one || -s in one;
      }
    }
  }

  lemma {:induction false} MatchResult(m: map<int, Handle>, requested: seq<int>)
    requires forall s | s in requested :: s > 0
    ensures var (r, ok) := MatchAll(m, requested); ok ==> Moved(m, r, requested)
    decreases |requested|
  {
    hide Moved, MatchOne;
    if requested == [] {
      MovedItself(m);
    } else {
      HeadAndTail(requested);
      assert requested[0] in requested;
      var r := MatchOne(m, requested[0]);
      if r.Some? {
        MatchResult(r.value, requested[1..]);
        if MatchAll(m, requested).1 {
          MoveThen(m, MatchAll(m, requested).0, requested);
        }
      }
    }
  }

  lemma MovedItself(m: map<int, Handle>)
    ensures Moved(m, m, [])
  {
  }

  /** initialize succeeds with two or more devices found: the keys are exactly the requested serial
      numbers, each with the handle of the device that reported it. */
  lemma InitializeMatches(link: Link, u: Usb, scan: Scan, rows: seq<seq<int>>)
    requires Start(u) && DistinctHandles(scan.devices)
    requires GoodSerials(link, u.(sequence := 0, sticky := 0), scan.devices)
    requires scan.initStatus == 0 && scan.listStatus >= 0
    requires |Discover(link, u.(sequence := 0, sticky := 0), scan.devices).handles| >= 2
    requires InitializeSpec(link, u, scan, rows).1 == 0
    requires forall s | s in Flatten(rows) :: s > 0
    ensures var m := InitializeSpec(link, u, scan, rows).0.handles;
            && (forall k :: k in m <==> k in Flatten(rows))
            && (forall k | k in m ::
                  exists n | 0 <= n < |scan.devices| ::
                    && ReportedAt(link, u.(sequence := 0, sticky := 0), scan.devices, n) == Some(-k)
                    && scan.devices[n].handle == m[k])
  {
    hide Conserved, Purge, MatchAll, ReportedAt, Discover, DistinctHandles, Flatten, Moved, GoodSerials;
    var v := u.(sequence := 0, sticky := 0);
    GoodIsDistinct(link, v, scan.devices);
    var d := Discover(link, v, scan.devices);
    var requested := Flatten(rows);
    DiscoverExactly(link, v, scan.devices);
    MatchConserves(d, requested);
    MatchResult(d.handles, requested);
    var r := MatchAll(d.handles, requested).0;
    PurgeConserves(d.(handles := r));
    forall k | k in d.handles ensures k < 0 {
      KeyIsNegative(link, v, scan.devices, d.handles, k);
    }
    var m := InitializeSpec(link, u, scan, rows).0.handles;
    assert m == map k | k in r && k >= 0 :: r[k];
    MatchedKeys(d.handles, r, m, requested);
    assert forall k | k in m :: -k in d.handles && m[k] == d.handles[-k];
  }

  lemma MatchedKeys(d: map<int, Handle>, r: map<int, Handle>, m: map<int, Handle>, requested: seq<int>)
    requires Moved(d, r, requested) && (forall k | k in d :: k < 0) && (forall s | s in requested :: s > 0)
    requires MatchAll(d, requested) == (r, true) && m == map k | k in r && k >= 0 :: r[k]
    ensures forall k :: k in m <==> k in requested
    ensures forall k | k in m :: -k in d && m[k] == d[-k]
  {
    ZeroAbsent(d, requested);
  }

  lemma GoodIsDistinct(link: Link, u: Usb, devices: seq<Device>)
    requires GoodSerials(link, u, devices)
    ensures DistinctReports(link, u, devices)
  {
  }

  lemma {:induction false} ZeroAbsent(m: map<int, Handle>, requested: seq<int>)
    requires 0 !in m && forall s | s in requested :: s > 0
    ensures 0 !in MatchAll(m, requested).0
    decreases |requested|
  {
    if requested != [] && MatchOne(m, requested[0]).Some? {
      HeadAndTail(requested);
      ZeroAbsent(MatchOne(m, requested[0]).value, requested[1..]);
    }
  }

  /** A lone device is accepted under its own serial number, whatever was requested. */
  lemma LoneDevice(link: Link, u: Usb, scan: Scan, rows: seq<seq<int>>, k: int)
    requires scan.initStatus == 0 && scan.listStatus >= 0 && scan.devices != []
    requires Discover(link, u.(sequence := 0, sticky := 0), scan.devices).handles.Keys == {k} && k < 0
    ensures var (v, status) := InitializeSpec(link, u, scan, rows);
            && status == 0
            && v.handles == map[-k := Discover(link, u.(sequence := 0, sticky := 0), scan.devices).handles[k]]
  {
    hide Discover, Flatten;
    var d := Discover(link, u.(sequence := 0, sticky := 0), scan.devices);
    assert |d.handles.Keys| == 1;
    assert MinKey(d.handles) == k;
    assert Rekey(d.handles) == map[-k := d.handles[k]];
    assert MinKey(Rekey(d.handles)) == -k by { assert -k in Rekey(d.handles); }
  }

  // ---- two scans that lose a handle ----

  /** A bus on which every transfer succeeds and every answer carries the same bytes. */
  function Echo(data: seq<Byte>): Link {
    (wire, t: Transfer) => Answer(0, if t.In? then [0, 0] + data else [])
  }

  /** A device that can be opened and claimed. */
  function Willing(handle: Handle): Device { Device(true, true, handle, 0, 0, 0, 0) }

  lemma EchoRead(u: Usb, handle: Handle, data: seq<Byte>)
    requires |data| == 8 && u.sticky == 0
    ensures var x := ReadFrom(Echo(data), u, handle, SERIAL_NUMBER, 8);
            x.status == 0 && x.payload == data && x.u.sticky == 0
  {
    hide Encode, NextSequence;
    var received := [0, 0] + data;
    assert |received| == 10 && received[2..] == data && data[..8] == data;
  }

  lemma EchoProbe(u: Usb, handle: Handle, data: seq<Byte>)
    requires |data| == 8 && u.sticky == 0
    ensures Reported(Echo(data), u, Willing(handle)) == Some(KeyOf(data))
    ensures var v := Probe(Echo(data), u, Willing(handle));
            v.sticky == 0 && v.handles == Insert(u.handles, KeyOf(data), handle)
  {
    hide ReadFrom, KeyOf;
    var v := u.(acquired := u.acquired + [handle]);
    EchoRead(v, handle, data);
    ReadKeepsHandles(Echo(data), v, handle, SERIAL_NUMBER, 8);
  }

  /** Two devices that report the same serial number: initialize succeeds and one handle is lost. */
  lemma RepeatedSerialLeaks(u: Usb, rows: seq<seq<int>>, data: seq<Byte>) returns (link: Link, scan: Scan)
    requires Start(u) && |data| == 8
    ensures DistinctHandles(scan.devices)
    ensures var (v, status) := InitializeSpec(link, u, scan, rows); status == 0 && !Conserved(v)
  {
    hide Probe, Reported, KeyOf, Conserved, Purge, Rekey, Insert;
    link := Echo(data);
    var d0, d1 := Willing(0), Willing(1);
    var devices := [d0, d1];
    scan := Scan(0, 0, devices);
    var v := u.(sequence := 0, sticky := 0);
    assert devices[..0] == [] && devices[..1] == [d0] && [d0][..0] == [] && devices[..2] == devices;
    EchoProbe(v, 0, data);
    var t := Probe(link, v, d0);
    assert t == Discover(link, v, [d0]) by { OneProbe(link, v, d0); }
    EchoProbe(t, 1, data);
    assert ReportedAt(link, v, devices, 0) == ReportedAt(link, v, devices, 1) == Some(KeyOf(data));
    assert !DistinctReports(link, v, devices);
    InitializeConserves(link, u, scan, rows);
    var d := Discover(link, v, devices);
    assert d.handles == Insert(Insert(map[], KeyOf(data), 0), KeyOf(data), 1);
    InsertTwice(KeyOf(data));
  }

  lemma OneProbe(link: Link, u: Usb, d: Device)
    ensures Discover(link, u, [d]) == Probe(link, u, d)
  {
    hide Probe;
    assert [d][..0] == [];
  }

  lemma InsertTwice(key: int)
    ensures |Insert(Insert(map[], key, 0), key, 1)| == 1
  {
    assert Insert(Insert(map[], key, 0), key, 1) == map[key := 0];
  }

  lemma {:induction false} WordOfZeros(data: seq<Byte>)
    requires forall i | 0 <= i < |data| :: data[i] == 0
    ensures Word(data) == 0
    decreases |data|
  {
    if data != [] {
      WordOfZeros(data[1..]);
    }
  }

  lemma ZeroKey(data: seq<Byte>)
    requires forall i | 0 <= i < |data| :: data[i] == 0
    ensures KeyOf(data) == 0
  {
    WordOfZeros(data);
  }

  /** A single device with serial number zero: initialize succeeds and its handle is lost. */
  lemma ZeroSerialLeaks(u: Usb, rows: seq<seq<int>>, data: seq<Byte>) returns (link: Link, scan: Scan)
    requires Start(u) && |data| == 8 && forall i | 0 <= i < 8 :: data[i] == 0
    ensures DistinctHandles(scan.devices) && |scan.devices| == 1
    ensures var (v, status) := InitializeSpec(link, u, scan, rows); status == 0 && !Conserved(v)
  {
    hide Probe, Conserved, Purge, Rekey, KeyOf, Flatten, MatchAll;
    ZeroKey(data);
    link := Echo(data);
    var devices := [Willing(0)];
    scan := Scan(0, 0, devices);
    var v := u.(sequence := 0, sticky := 0);
    EchoProbe(v, 0, data);
    OneProbe(link, v, Willing(0));
    var d := Discover(link, v, devices);
    SoleKey(d.handles);
    InitializeConserves(link, u, scan, rows);
  }

  lemma SoleKey(m: map<int, Handle>)
    requires m == Insert(map[], 0, 0)
    ensures m.Keys == {0} && |m| == 1 && m != map[]
  {
    assert m == map[0 := 0];
  }
}
