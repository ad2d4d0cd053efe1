/**
  The scan-list session view-model (`ScanListViewModel`): the duplicate-free
  scan accumulator, the session fields and their event handlers, the
  negotiation chain (service, characteristics, initial read, subscription)
  and the guarded command writes.
 */
module ScanList {
  import opened Wrappers
  import opened Catalog
  import opened Transport

  /** `PeripheralDiscovery`: one advertisement seen while scanning; `rssi` stands for its payload. */
  datatype Discovery = Discovery(id: PeripheralId, rssi: int)

  function Ids(list: seq<Discovery>): set<PeripheralId>
  {
    set i | 0 <= i < |list| :: list[i].id
  }

  ghost predicate DistinctIds(list: seq<Discovery>)
  {
    forall i, j :: 0 <= i < j < |list| ==> list[i].id != list[j].id
  }

  // ---------------------------------------------------------------------
  // The scan accumulator
  // ---------------------------------------------------------------------

  /** The closure given to `.scan([])`: a discovery whose id is already listed is dropped. */
  function Accumulate(list: seq<Discovery>, d: Discovery): (r: seq<Discovery>)
    ensures list <= r && |r| <= |list| + 1
    ensures Ids(r) == Ids(list) + {d.id}
  {
    if d.id in Ids(list) then list
    else
      IdsAppend(list, d);
      list + [d]
  }

  /** The value `.scan` has emitted after the discoveries `ds`, starting from `acc`. */
  function ScanFold(acc: seq<Discovery>, ds: seq<Discovery>): seq<Discovery>
    decreases |ds|
  {
    if ds == [] then acc else ScanFold(Accumulate(acc, ds[0]), ds[1..])
  }

  /**
    Reference definition: the discoveries of `ds`, in order, that carry the
    first occurrence of an id not in `seen`.
   */
  function FirstSeen(ds: seq<Discovery>, seen: set<PeripheralId>): seq<Discovery>
    decreases |ds|
  {
    if ds == [] then []
    else if ds[0].id in seen then FirstSeen(ds[1..], seen)
    else [ds[0]] + FirstSeen(ds[1..], seen + {ds[0].id})
  }

  /** The accumulator only appends, and a new id lands at the end. */
  lemma AccumulateOnlyAppends(list: seq<Discovery>, d: Discovery)
    ensures list <= Accumulate(list, d)
    ensures d.id in Ids(list) ==> Accumulate(list, d) == list
    ensures d.id !in Ids(list) ==>
      |Accumulate(list, d)| == |list| + 1 && Accumulate(list, d)[|list|] == d
    ensures Ids(Accumulate(list, d)) == Ids(list) + {d.id}
  {
  }

  lemma IdsAppend(list: seq<Discovery>, d: Discovery)
    ensures Ids(list + [d]) == Ids(list) + {d.id}
  {
    var r := list + [d];
    forall x | x in Ids(r) ensures x in Ids(list) + {d.id} {
      var i :| 0 <= i < |r| && r[i].id == x;
      if i < |list| { assert list[i].id == x; }
    }
    forall x | x in Ids(list) ensures x in Ids(r) {
      var i :| 0 <= i < |list| && list[i].id == x;
      assert r[i].id == x;
    }
    assert r[|list|].id == d.id;
  }

  lemma IdsPrepend(d: Discovery, list: seq<Discovery>)
    ensures Ids([d] + list) == {d.id} + Ids(list)
  {
    var r := [d] + list;
    forall x | x in Ids(r) ensures x in {d.id} + Ids(list) {
      var i :| 0 <= i < |r| && r[i].id == x;
      if i > 0 { assert list[i - 1].id == x; }
    }
    forall x | x in Ids(list) ensures x in Ids(r) {
      var i :| 0 <= i < |list| && list[i].id == x;
      assert r[i + 1].id == x;
    }
    assert r[0].id == d.id;
  }

  /** Folding one more discovery into a duplicate-free list keeps it duplicate-free. */
  lemma AccumulatePreservesDistinct(list: seq<Discovery>, d: Discovery)
    ensures DistinctIds(list) ==> DistinctIds(Accumulate(list, d))
  {
  }

  /** The scanned list is the given list followed by the first sighting of every new id. */
  lemma {:induction false} ScanFoldIsFirstSeen(acc: seq<Discovery>, ds: seq<Discovery>)
    ensures ScanFold(acc, ds) == acc + FirstSeen(ds, Ids(acc))
    decreases |ds|
  {
    if ds != [] {
      var d := ds[0];
      AccumulateOnlyAppends(acc, d);
      ScanFoldIsFirstSeen(Accumulate(acc, d), ds[1..]);
      if d.id !in Ids(acc) {
        assert acc + [d] + FirstSeen(ds[1..], Ids(acc) + {d.id})
            == acc + ([d] + FirstSeen(ds[1..], Ids(acc) + {d.id}));
      }
    }
  }

  /** A discovery whose id is not yet listed can go in front of a duplicate-free list. */
  lemma DistinctPrepend(d: Discovery, rest: seq<Discovery>)
    requires d.id !in Ids(rest) && DistinctIds(rest)
    ensures DistinctIds([d] + rest)
  {
    var r := [d] + rest;
    forall i, j | 0 <= i < j < |r| ensures r[i].id != r[j].id {
      if i == 0 { assert rest[j - 1].id in Ids(rest); }
      else { assert r[i] == rest[i - 1] && r[j] == rest[j - 1]; }
    }
  }

  /** The first sightings name every id of `ds` outside `seen`, each exactly once. */
  lemma {:induction false} FirstSeenIds(ds: seq<Discovery>, seen: set<PeripheralId>)
    ensures Ids(FirstSeen(ds, seen)) == Ids(ds) - seen
    ensures DistinctIds(FirstSeen(ds, seen))
    decreases |ds|
  {
    if ds != [] {
      var d := ds[0];
      IdsPrepend(d, ds[1..]);
      assert ds == [d] + ds[1..];
      if d.id in seen {
        FirstSeenIds(ds[1..], seen);
      } else {
        var rest := FirstSeen(ds[1..], seen + {d.id});
        FirstSeenIds(ds[1..], seen + {d.id});
        IdsPrepend(d, rest);
        DistinctPrepend(d, rest);
      }
    }
  }

  /**
    A whole scan session: starting from the empty list, the emitted list holds
    every discovered id exactly once, in the order of first sighting.
   */
  lemma ScanSession(ds: seq<Discovery>)
    ensures ScanFold([], ds) == FirstSeen(ds, {})
    ensures DistinctIds(ScanFold([], ds))
    ensures Ids(ScanFold([], ds)) == Ids(ds)
  {
    ScanFoldIsFirstSeen([], ds);
    assert Ids([]) == {};
    FirstSeenIds(ds, {});
  }

  // ---------------------------------------------------------------------
  // Guards over the discovered characteristics
  // ---------------------------------------------------------------------

  /** `characteristics.first(where: { $0.uuid == u })`. */
  function FirstWithUuid(cs: seq<Characteristic>, u: Uuid): (r: Option<Characteristic>)
    ensures r.None? <==> forall c :: c in cs ==> c.uuid != u
    ensures r.Some? ==> exists i :: 0 <= i < |cs| && cs[i] == r.value && r.value.uuid == u &&
                                   forall j :: 0 <= j < i ==> cs[j].uuid != u
    decreases |cs|
  {
    if cs == [] then None
    else if cs[0].uuid == u then Some(cs[0])
    else
      var r := FirstWithUuid(cs[1..], u);
      assert forall c :: c in cs ==> c == cs[0] || c in cs[1..];
      if r.Some? then
        var i :| 0 <= i < |cs[1..]| && cs[1..][i] == r.value && r.value.uuid == u &&
                 forall j :: 0 <= j < i ==> cs[1..][j].uuid != u;
        assert cs[i + 1] == r.value;
        assert forall j :: 1 <= j < i + 1 ==> cs[j] == cs[1..][j - 1];
        r
      else r
  }

  /**
    The `guard let characteristic = ..., let peripheral = connectedPeripheral`
    shared by the read and the two commands: it passes exactly when a
    characteristic with the role's UUID has been discovered and a peripheral
    is connected, and then yields that peripheral and the first such
    characteristic.
   */
  function Target(cs: seq<Characteristic>, connected: Option<PeripheralId>, role: CharacteristicRole)
    : (r: Option<(PeripheralId, Characteristic)>)
    ensures r.Some? <==> connected.Some? && exists c :: c in cs && c.uuid == RoleUuid(role)
    ensures r.Some? ==> r.value.0 == connected.value && r.value.1 in cs &&
                        r.value.1.uuid == RoleUuid(role) &&
                        FirstWithUuid(cs, RoleUuid(role)) == Some(r.value.1)
  {
    match FirstWithUuid(cs, RoleUuid(role))
    case None => None
    case Some(c) =>
      match connected
      case None => None
      case Some(p) => Some((p, c))
  }

  /**
    The requests of one command (`setCamera(on:)` or `takePhoto`) carrying
    `value`: at most one write, issued only when the guard passes, of exactly
    the one byte `value`, with response, to the first command characteristic
    of the connected peripheral.
   */
  function CommandWrites(cs: seq<Characteristic>, connected: Option<PeripheralId>, value: byte)
    : (r: seq<Request>)
    ensures |r| <= 1
    ensures r != [] <==> connected.Some? && exists c :: c in cs && c.uuid == RoleUuid(Command)
    ensures forall q :: q in r ==>
      q.WriteValue? && q.value == [value] && q.writeType == WithResponse &&
      Some(q.peripheral) == connected && q.characteristic in cs &&
      q.characteristic.uuid == RoleUuid(Command) &&
      FirstWithUuid(cs, RoleUuid(Command)) == Some(q.characteristic)
  {
    match Target(cs, connected, Command)
    case None => []
    case Some((p, c)) => [WriteValue(p, c, [value], WithResponse)]
  }

  /**
    The requests of `readCameraState`: one read of the first camera-state
    characteristic of the connected peripheral when the guard passes, and
    none otherwise.
   */
  function CameraStateReads(cs: seq<Characteristic>, connected: Option<PeripheralId>)
    : (r: seq<Request>)
    ensures |r| <= 1
    ensures r != [] <==> connected.Some? && exists c :: c in cs && c.uuid == RoleUuid(Camera)
    ensures forall q :: q in r ==>
      q.ReadValue? && Some(q.peripheral) == connected && q.characteristic in cs &&
      q.characteristic.uuid == RoleUuid(Camera) &&
      FirstWithUuid(cs, RoleUuid(Camera)) == Some(q.characteristic)
  {
    match Target(cs, connected, Camera)
    case None => []
    case Some((p, c)) => [ReadValue(p, c)]
  }

  /** What the `characteristics.forEach` loop asks for: an update stream and notify-on per camera characteristic. */
  function CameraSubscriptions(p: PeripheralId, cs: seq<Characteristic>): seq<Request>
    decreases |cs|
  {
    if cs == [] then []
    else
      var c := cs[|cs| - 1];
      CameraSubscriptions(p, cs[..|cs| - 1]) +
      (if c.uuid == RoleUuid(Camera) then [ListenForUpdates(p, c), SetNotifyValue(p, c, true)] else [])
  }

  /**
    The subscriptions go to `p` only and concern camera-state characteristics
    of `cs` only; every camera-state characteristic gets both its update
    stream and notify-on; there are none exactly when no camera-state
    characteristic was discovered.
   */
  lemma {:induction false} CameraSubscriptionsExact(p: PeripheralId, cs: seq<Characteristic>)
    ensures forall q :: q in CameraSubscriptions(p, cs) ==>
      (q.ListenForUpdates? || (q.SetNotifyValue? && q.enabled)) &&
      q.peripheral == p && q.characteristic in cs && q.characteristic.uuid == RoleUuid(Camera)
    ensures forall c :: c in cs && c.uuid == RoleUuid(Camera) ==>
      ListenForUpdates(p, c) in CameraSubscriptions(p, cs) &&
      SetNotifyValue(p, c, true) in CameraSubscriptions(p, cs)
    ensures CameraSubscriptions(p, cs) == [] <==> forall c :: c in cs ==> c.uuid != RoleUuid(Camera)
    decreases |cs|
  {
    if cs != [] {
      var init, c := cs[..|cs| - 1], cs[|cs| - 1];
      CameraSubscriptionsExact(p, init);
      assert cs == init + [c];
      assert forall x :: x in cs <==> x in init || x == c;
    }
  }

  /** The camera-state characteristics of `cs`, in the order of `cs`. */
  function CameraCharacteristics(cs: seq<Characteristic>): (r: seq<Characteristic>)
    ensures |r| <= |cs|
    ensures forall c :: c in r ==> c in cs && c.uuid == RoleUuid(Camera)
    ensures forall c :: c in cs && c.uuid == RoleUuid(Camera) ==> c in r
    decreases |cs|
  {
    if cs == [] then []
    else
      var c := cs[|cs| - 1];
      assert forall x :: x in cs <==> x in cs[..|cs| - 1] || x == c;
      CameraCharacteristics(cs[..|cs| - 1]) + (if c.uuid == RoleUuid(Camera) then [c] else [])
  }

  /**
    The loop issues exactly two requests per camera-state characteristic, in
    the order of `cs`: first its update stream, then notify-on.
   */
  lemma {:induction false} CameraSubscriptionsPaired(p: PeripheralId, cs: seq<Characteristic>)
    ensures |CameraSubscriptions(p, cs)| == 2 * |CameraCharacteristics(cs)|
    ensures forall k :: 0 <= k < |CameraCharacteristics(cs)| ==>
      CameraSubscriptions(p, cs)[2 * k] == ListenForUpdates(p, CameraCharacteristics(cs)[k]) &&
      CameraSubscriptions(p, cs)[2 * k + 1] == SetNotifyValue(p, CameraCharacteristics(cs)[k], true)
    decreases |cs|
  {
    if cs != [] {
      var init, c := cs[..|cs| - 1], cs[|cs| - 1];
      CameraSubscriptionsPaired(p, init);
      var s0, r0 := CameraSubscriptions(p, init), CameraCharacteristics(init);
      var s, r := CameraSubscriptions(p, cs), CameraCharacteristics(cs);
      if c.uuid == RoleUuid(Camera) {
        assert s == s0 + [ListenForUpdates(p, c), SetNotifyValue(p, c, true)];
        assert r == r0 + [c];
        forall k | 0 <= k < |r|
          ensures s[2 * k] == ListenForUpdates(p, r[k]) && s[2 * k + 1] == SetNotifyValue(p, r[k], true)
        {
          if k < |r0| {
            assert s[2 * k] == s0[2 * k] && s[2 * k + 1] == s0[2 * k + 1];
          }
        }
      } else {
        assert s == s0 + [];
        assert r == r0 + [];
      }
    }
  }

  // ---------------------------------------------------------------------
  // The view-model
  // ---------------------------------------------------------------------

  class ScanListViewModel {
    var peripherals: seq<Discovery>
    var connectedPeripheral: Option<PeripheralId>
    var scanning: bool
    var characteristics: seq<Characteristic>
    /** The live `.scan` pipeline held by `scanTask`, with its accumulator; `None` when `scanTask` is nil. */
    var scanTask: Option<seq<Discovery>>
    /** Every request made of the central manager or a peripheral, oldest first. */
    var requests: seq<Request>

    /**
      The published list never repeats an id; without a scan task it is
      empty, and with one it is the scan task's last emission, or the scan task has
      not emitted yet.
     */
    ghost predicate Valid()
      reads this
    {
      DistinctIds(peripherals) &&
      (scanTask.None? ==> peripherals == []) &&
      (scanTask.Some? ==> DistinctIds(scanTask.value) &&
                          (peripherals == scanTask.value || scanTask.value == []))
    }

    /** `init`: empty session; the disconnect subscription is implicit in `OnDidDisconnect`. */
    constructor ()
      ensures Valid()
      ensures peripherals == [] && connectedPeripheral == None && !scanning
      ensures characteristics == [] && scanTask == None && requests == []
    {
      peripherals := [];
      connectedPeripheral := None;
      scanning := false;
      characteristics := [];
      scanTask := None;
      requests := [];
    }

    /** `startScan`: scan for the controller service with a fresh, empty accumulator. */
    method StartScan(centralScanning: bool)
      requires Valid()
      modifies this
      ensures Valid()
      ensures requests == old(requests) + [ScanForPeripherals(Some([ServiceUuid(Controller)]))]
      ensures scanTask == Some([]) && scanning == centralScanning
      ensures peripherals == old(peripherals) && connectedPeripheral == old(connectedPeripheral)
      ensures characteristics == old(characteristics)
    {
      requests := requests + [ScanForPeripherals(Some([ServiceUuid(Controller)]))];
      scanTask := Some([]);
      scanning := centralScanning;
    }

    /**
      One discovery delivered by the scan pipeline: folded into the scan task's
      accumulator and published. Without a scan task nothing is delivered.
     */
    method OnScanDiscovery(d: Discovery)
      requires Valid()
      modifies this
      ensures Valid()
      ensures old(scanTask).None? ==> scanTask == None && peripherals == old(peripherals)
      ensures old(scanTask).Some? ==>
        scanTask == Some(Accumulate(old(scanTask).value, d)) && peripherals == scanTask.value
      ensures old(peripherals) == [] ==> peripherals == [] || peripherals == [d]
      ensures connectedPeripheral == old(connectedPeripheral) && scanning == old(scanning)
      ensures characteristics == old(characteristics) && requests == old(requests)
    {
      if scanTask.Some? {
        AccumulatePreservesDistinct(scanTask.value, d);
        AccumulateOnlyAppends(scanTask.value, d);
        var list := Accumulate(scanTask.value, d);
        scanTask := Some(list);
        peripherals := list;
      }
    }

    /** `stopScan`: the scan task is dropped and the list emptied. */
    method StopScan(centralScanning: bool)
      requires Valid()
      modifies this
      ensures Valid()
      ensures scanTask == None && peripherals == [] && scanning == centralScanning
      ensures connectedPeripheral == old(connectedPeripheral)
      ensures characteristics == old(characteristics) && requests == old(requests)
    {
      scanTask := None;
      peripherals := [];
      scanning := centralScanning;
    }

    /** `reset`: `stopScan`, then no connected peripheral. The characteristics are kept. */
    method Reset(centralScanning: bool)
      requires Valid()
      modifies this
      ensures Valid()
      ensures scanTask == None && peripherals == [] && scanning == centralScanning
      ensures connectedPeripheral == None
      ensures characteristics == old(characteristics) && requests == old(requests)
    {
      StopScan(centralScanning);
      connectedPeripheral := None;
    }

    /** The `didDisconnectPeripheral` sink: with or without an error, the session is reset. */
    method OnDidDisconnect(p: PeripheralId, error: Option<string>, centralScanning: bool)
      requires Valid()
      modifies this
      ensures Valid()
      ensures scanTask == None && peripherals == [] && scanning == centralScanning
      ensures connectedPeripheral == None
      ensures characteristics == old(characteristics) && requests == old(requests)
    {
      if error.Some? {
        Reset(centralScanning);
      } else {
        Reset(centralScanning);
      }
    }

    /** `disconnect(peripheral:)`: only asks the central manager to cancel the connection. */
    method Disconnect(p: PeripheralId)
      requires Valid()
      modifies this
      ensures Valid()
      ensures requests == old(requests) + [CancelConnection(p)]
      ensures peripherals == old(peripherals) && connectedPeripheral == old(connectedPeripheral)
      ensures scanning == old(scanning) && characteristics == old(characteristics)
      ensures scanTask == old(scanTask)
    {
      requests := requests + [CancelConnection(p)];
    }

    /** `connect(_:)`: asks for a connection; the outcome arrives as `OnConnectResult`. */
    method Connect(d: Discovery)
      requires Valid()
      modifies this
      ensures Valid()
      ensures requests == old(requests) + [Transport.Connect(d.id)]
      ensures peripherals == old(peripherals) && connectedPeripheral == old(connectedPeripheral)
      ensures scanning == old(scanning) && characteristics == old(characteristics)
      ensures scanTask == old(scanTask)
    {
      requests := requests + [Transport.Connect(d.id)];
    }

    /**
      The connect-result sink: on success the peripheral becomes the connected
      one and service discovery is requested; on failure the session is reset
      and nothing is requested.
     */
    method OnConnectResult(result: Result<PeripheralId, string>, centralScanning: bool)
      requires Valid()
      modifies this
      ensures Valid()
      ensures characteristics == old(characteristics)
      ensures result.Success? ==>
        connectedPeripheral == Some(result.value) &&
        requests == old(requests) + [DiscoverServices(result.value, [ServiceUuid(Controller)])] &&
        peripherals == old(peripherals) && scanTask == old(scanTask) && scanning == old(scanning)
      ensures result.Failure? ==>
        connectedPeripheral == None && requests == old(requests) &&
        peripherals == [] && scanTask == None && scanning == centralScanning
    {
      match result
      case Success(p) =>
        connectedPeripheral := Some(p);
        ReadServices(p);
      case Failure(_) =>
        Reset(centralScanning);
    }

    /** `readServices(peripheral:)`: discover the controller service only. */
    method ReadServices(p: PeripheralId)
      requires Valid()
      modifies this
      ensures Valid()
      ensures requests == old(requests) + [DiscoverServices(p, [ServiceUuid(Controller)])]
      ensures peripherals == old(peripherals) && connectedPeripheral == old(connectedPeripheral)
      ensures scanning == old(scanning) && characteristics == old(characteristics)
      ensures scanTask == old(scanTask)
    {
      requests := requests + [DiscoverServices(p, [ServiceUuid(Controller)])];
    }

    /**
      The service-discovery sink: only the first returned service is used,
      for characteristic discovery; with no service nothing happens. A failed
      discovery completes without a value and is not delivered here.
     */
    method OnServicesDiscovered(p: PeripheralId, services: seq<Service>)
      requires Valid()
      modifies this
      ensures Valid()
      ensures services == [] ==> requests == old(requests)
      ensures services != [] ==>
        requests == old(requests) + [DiscoverCharacteristics(p, DiscoveryFilter(), services[0])]
      ensures peripherals == old(peripherals) && connectedPeripheral == old(connectedPeripheral)
      ensures scanning == old(scanning) && characteristics == old(characteristics)
      ensures scanTask == old(scanTask)
    {
      if services != [] {
        ReadCharacteristics(p, services[0]);
      }
    }

    /** `readCharacteristics(peripheral:service:)`: discover all six catalog characteristics. */
    method ReadCharacteristics(p: PeripheralId, service: Service)
      requires Valid()
      modifies this
      ensures Valid()
      ensures requests == old(requests) + [DiscoverCharacteristics(p, DiscoveryFilter(), service)]
      ensures peripherals == old(peripherals) && connectedPeripheral == old(connectedPeripheral)
      ensures scanning == old(scanning) && characteristics == old(characteristics)
      ensures scanTask == old(scanTask)
    {
      requests := requests + [DiscoverCharacteristics(p, DiscoveryFilter(), service)];
    }

    /**
      The characteristic-discovery sink: the characteristics are stored, the
      camera state is read (guarded by the stored list and the connected
      peripheral), and every camera-state characteristic is subscribed to on
      the peripheral the chain started from.
     */
    method OnCharacteristicsDiscovered(p: PeripheralId, cs: seq<Characteristic>)
      requires Valid()
      modifies this
      ensures Valid()
      ensures characteristics == cs
      ensures requests == old(requests) + CameraStateReads(cs, connectedPeripheral) + CameraSubscriptions(p, cs)
      ensures peripherals == old(peripherals) && connectedPeripheral == old(connectedPeripheral)
      ensures scanning == old(scanning) && scanTask == old(scanTask)
    {
      characteristics := cs;
      ReadCameraState();
      ghost var before := requests;
      var i := 0;
      while i < |cs|
        invariant 0 <= i <= |cs|
        invariant Valid() && characteristics == cs
        invariant requests == before + CameraSubscriptions(p, cs[..i])
        invariant peripherals == old(peripherals) && connectedPeripheral == old(connectedPeripheral)
        invariant scanning == old(scanning) && scanTask == old(scanTask)
      {
        var c := cs[i];
        if c.uuid == RoleUuid(Camera) {
          requests := requests + [ListenForUpdates(p, c)];
          requests := requests + [SetNotifyValue(p, c, true)];
        }
        assert cs[..i + 1][..i] == cs[..i];
        i := i + 1;
      }
      assert cs[..i] == cs;
    }

    /** `readCameraState`: one read, and only with a camera-state characteristic and a connected peripheral. */
    method ReadCameraState()
      requires Valid()
      modifies this
      ensures Valid()
      ensures requests == old(requests) + CameraStateReads(characteristics, connectedPeripheral)
      ensures peripherals == old(peripherals) && connectedPeripheral == old(connectedPeripheral)
      ensures scanning == old(scanning) && characteristics == old(characteristics)
      ensures scanTask == old(scanTask)
    {
      match Target(characteristics, connectedPeripheral, Camera)
      case None =>
      case Some((p, c)) =>
        requests := requests + [ReadValue(p, c)];
    }

    /** `setCamera(on:)`: power on writes the byte 1, power off the byte 2. */
    method SetCamera(on: bool)
      requires Valid()
      modifies this
      ensures Valid()
      ensures requests == old(requests) + CommandWrites(characteristics, connectedPeripheral, if on then 1 else 2)
      ensures peripherals == old(peripherals) && connectedPeripheral == old(connectedPeripheral)
      ensures scanning == old(scanning) && characteristics == old(characteristics)
      ensures scanTask == old(scanTask)
    {
      match Target(characteristics, connectedPeripheral, Command)
      case None =>
      case Some((p, c)) =>
        if on {
          requests := requests + [WriteValue(p, c, [1], WithResponse)];
        } else {
          requests := requests + [WriteValue(p, c, [2], WithResponse)];
        }
    }

    /** `takePhoto`: writes the byte 3. */
    method TakePhoto()
      requires Valid()
      modifies this
      ensures Valid()
      ensures requests == old(requests) + CommandWrites(characteristics, connectedPeripheral, 3)
      ensures peripherals == old(peripherals) && connectedPeripheral == old(connectedPeripheral)
      ensures scanning == old(scanning) && characteristics == old(characteristics)
      ensures scanTask == old(scanTask)
    {
      match Target(characteristics, connectedPeripheral, Command)
      case None =>
      case Some((p, c)) =>
        requests := requests + [WriteValue(p, c, [3], WithResponse)];
    }
  }

  /** A view-model taken through scan, connect and the negotiation chain for `d`. */
  method Negotiated(d: Discovery, service: Service, cs: seq<Characteristic>) returns (vm: ScanListViewModel)
    ensures fresh(vm) && vm.Valid()
    ensures vm.peripherals == [d] && vm.connectedPeripheral == Some(d.id) && vm.characteristics == cs
  {
    vm := new ScanListViewModel();
    vm.StartScan(true);
    vm.OnScanDiscovery(d);
    assert Ids([]) == {};
    vm.Connect(d);
    vm.OnConnectResult(Success(d.id), true);
    vm.OnServicesDiscovered(d.id, [service]);
    vm.OnCharacteristicsDiscovered(d.id, cs);
  }

  /** Power on, capture and power off on a view-model whose command guard passes. */
  method IssueCommands(vm: ScanListViewModel) returns (c: Characteristic)
    requires vm.Valid() && Target(vm.characteristics, vm.connectedPeripheral, Command).Some?
    modifies vm
    ensures vm.Valid() && vm.connectedPeripheral.Some?
    ensures Target(vm.characteristics, vm.connectedPeripheral, Command) == Some((vm.connectedPeripheral.value, c))
    ensures vm.requests == old(vm.requests) +
      [WriteValue(vm.connectedPeripheral.value, c, [1], WithResponse),
       WriteValue(vm.connectedPeripheral.value, c, [3], WithResponse),
       WriteValue(vm.connectedPeripheral.value, c, [2], WithResponse)]
    ensures vm.peripherals == old(vm.peripherals) && vm.connectedPeripheral == old(vm.connectedPeripheral)
    ensures vm.characteristics == old(vm.characteristics)
    ensures vm.scanning == old(vm.scanning) && vm.scanTask == old(vm.scanTask)
  {
    c := Target(vm.characteristics, vm.connectedPeripheral, Command).value.1;
    vm.SetCamera(true);
    vm.TakePhoto();
    vm.SetCamera(false);
  }

  /**
    A reconnect keeps the previous session's characteristics: after a
    disconnect and a successful connect to `d2`, before anything new is
    discovered, `takePhoto` writes the byte 3 to the old command
    characteristic through `d2`.
   */
  method StaleCommandAfterReconnect(d: Discovery, service: Service, cs: seq<Characteristic>, d2: Discovery)
    returns (photo: seq<Request>)
    requires exists c :: c in cs && c.uuid == RoleUuid(Command)
    ensures FirstWithUuid(cs, RoleUuid(Command)).Some?
    ensures photo == [WriteValue(d2.id, FirstWithUuid(cs, RoleUuid(Command)).value, [3], WithResponse)]
  {
    var vm := Negotiated(d, service, cs);
    vm.OnDidDisconnect(d.id, None, false);
    vm.Connect(d2);
    vm.OnConnectResult(Success(d2.id), false);
    var n := |vm.requests|;
    vm.TakePhoto();
    photo := vm.requests[n..];
  }

  /**
    One whole session driven through the view-model: after negotiation,
    power on, capture and power off each write their byte, with response, to
    the first command characteristic; after a disconnect a capture issues no
    write.
   */
  method CommandSession(d: Discovery, service: Service, cs: seq<Characteristic>)
    returns (listed: seq<Discovery>, commands: seq<Request>, afterDisconnect: seq<Request>)
    requires exists c :: c in cs && c.uuid == RoleUuid(Command)
    ensures listed == [d]
    ensures |commands| == 3
    ensures forall q :: q in commands ==>
      q.WriteValue? && q.peripheral == d.id && q.writeType == WithResponse &&
      FirstWithUuid(cs, RoleUuid(Command)) == Some(q.characteristic)
    ensures commands[0].value == [1] && commands[1].value == [3] && commands[2].value == [2]
    ensures afterDisconnect == []
  {
    var vm := Negotiated(d, service, cs);
    listed := vm.peripherals;
    var n := |vm.requests|;
    var c := IssueCommands(vm);
    commands := vm.requests[n..];
    vm.OnDidDisconnect(d.id, None, false);
    var m := |vm.requests|;
    vm.TakePhoto();
    afterDisconnect := vm.requests[m..];
  }
}
