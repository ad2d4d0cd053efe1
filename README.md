# BLE camera controller: scan list and discovery list

A Dafny model of the two sequential cores of an iOS app that controls a
camera over Bluetooth Low Energy:

- **`ScanListViewModel`** (module `ScanList`, class `ScanListViewModel`):
  the duplicate-free scan accumulator, the session fields `peripherals`,
  `connectedPeripheral`, `scanning` and `characteristics`, the handlers of
  the incoming events (scan discovery, connect success or failure,
  disconnect, services and characteristics discovered), the negotiation
  chain (first service, then all catalog characteristics, then a read of
  the camera-state characteristic and a subscription to it) and the command
  writes (`setCamera(on:)` writes the byte 1 or 2, `takePhoto` the byte 3,
  always with response, and only when a command characteristic has been
  discovered and a peripheral is connected).
- **`CameraPeripheral`** (module `Catalog`): the controller service UUID
  and the six characteristic roles with their UUIDs.
- **`BleScanManager`** (module `BleScan`, class `BleScanManager`): the
  replace-and-append update of `scanResults` on every discovery.

The BLE stack is not modelled. Every call the code makes into the central
manager or a peripheral (scan, connect, cancel connection, discover
services or characteristics, read, write, listen for updates, set notify)
is appended as a `Transport.Request` to a `requests` log field, so that
"no write is issued" and "the written value is the single byte 1, with
response" are statements about that log. The Combine sinks become methods
called one at a time, in any order; in `ScanListViewModel`,
`receive(on: DispatchQueue.main)` serialises them in the app as well.
`BleScanManager` gets its delegate calls on a concurrent global queue, so
for it this is an assumption: the model takes `didDiscover` calls not to
overlap.

The value of `centralManager.isScanning` that `startScan` and `stopScan`
copy into `scanning` is foreign state; it is a parameter
(`centralScanning`) of every method that assigns `scanning`.

The running `.scan` pipeline kept in `scanTask` is modelled by the field
`scanTask: Option<seq<Discovery>>`: `None` when `scanTask` is nil, and
otherwise the accumulator of `.scan([])`. `startScan` starts a new pipeline
with an empty accumulator and leaves `peripherals` as it is until the new
pipeline emits. The class invariant `Valid()` states that `peripherals`
never repeats an id, is empty without a scan task, and otherwise equals the
task's last emission unless the scan task has not emitted yet.

## What the code does not do

- There is no session-phase machine (idle, scanning, connecting,
  negotiating, connected, error). The code has only the fields listed above.
- Nothing connects automatically, not even to the first peripheral seen.
  `connect(_:)` connects to whatever discovery its caller passes, and no
  caller in the code connects at all.
- `reset` clears `peripherals` and `connectedPeripheral` but not
  `characteristics`. After a disconnect the command guard refuses writes
  until the next successful connect. From then on, until new
  characteristics are discovered, `setCamera` and `takePhoto` write to the
  previous session's command characteristic through the new peripheral
  (`ScanList.StaleCommandAfterReconnect`).
- A missing command characteristic is not an error. `setCamera` and
  `takePhoto` simply issue nothing.
- The camera-state payload is not decoded. The code only prints it.
- A second `connect` or `startScan` is not rejected.

## Model

| member | source | states |
|---|---|---|
| Catalog.ServiceUuid | CameraController/CameraController/Features/ScanList/Presentation/ScanListViewModel.swift:153-158 | no contract of its own: the controller service UUID; `Catalog.RoleUuidInjective` states that it differs from every characteristic UUID |
| Catalog.RoleUuid | CameraController/CameraController/Features/ScanList/Presentation/ScanListViewModel.swift:164-179 | no contract of its own: the UUID of each characteristic role; `Catalog.RoleUuidInjective` and `Catalog.DiscoveryFilterIsAllRoles` state that the six UUIDs are pairwise distinct |
| Catalog.DiscoveryFilter | CameraController/CameraController/Features/ScanList/Presentation/ScanListViewModel.swift:86 | the characteristic discovery filter has six entries and contains the UUID of every role; `Catalog.DiscoveryFilterIsAllRoles` adds that the entries are distinct and that nothing else is in it |
| Catalog.AllRolesEnumerates | CameraController/CameraController/Features/ScanList/Presentation/ScanListViewModel.swift:161-162 | the list of all cases holds every role once and has six entries |
| Catalog.RoleUuidInjective | CameraController/CameraController/Features/ScanList/Presentation/ScanListViewModel.swift:153-179 | two roles with the same UUID are the same role, and no role UUID equals the controller service UUID |
| Catalog.DiscoveryFilterIsAllRoles | CameraController/CameraController/Features/ScanList/Presentation/ScanListViewModel.swift:86 | the characteristic discovery filter has six pairwise distinct UUIDs, and a UUID is in it exactly when it belongs to some role |
| ScanList.Accumulate | CameraController/CameraController/Features/ScanList/Presentation/ScanListViewModel.swift:32-35 | the old list is a prefix of the new one, the list grows by at most one, and its ids gain exactly the discovery's id; `ScanList.AccumulateOnlyAppends` and `ScanList.AccumulatePreservesDistinct` state the rest |
| ScanList.ScanFold | CameraController/CameraController/Features/ScanList/Presentation/ScanListViewModel.swift:31-35 | no contract of its own: the accumulator folded over a sequence of discoveries; `ScanList.ScanFoldIsFirstSeen` and `ScanList.ScanSession` state what it yields |
| ScanList.AccumulateOnlyAppends | CameraController/CameraController/Features/ScanList/Presentation/ScanListViewModel.swift:32-35 | the accumulator only appends: the old list is a prefix of the new one, an already listed id leaves the list unchanged, a new id becomes the last element, and the set of ids grows by exactly the discovery's id |
| ScanList.AccumulatePreservesDistinct | CameraController/CameraController/Features/ScanList/Presentation/ScanListViewModel.swift:32-35 | if the list had pairwise distinct ids, the list after folding one more discovery still has |
| ScanList.ScanFoldIsFirstSeen | CameraController/CameraController/Features/ScanList/Presentation/ScanListViewModel.swift:31-35 | the list the scan emits after a sequence of discoveries is the starting list followed by the first sighting of every new id, in order of first sighting |
| ScanList.FirstSeenIds | CameraController/CameraController/Features/ScanList/Presentation/ScanListViewModel.swift:32-35 | the first sightings cover exactly the ids not seen before, each once |
| ScanList.ScanSession | CameraController/CameraController/Features/ScanList/Presentation/ScanListViewModel.swift:31-39 | over a whole scan from the empty list, the emitted list holds every discovered id exactly once, in first-seen order, with the first discovery of each id kept |
| ScanList.FirstWithUuid | CameraController/CameraController/Features/ScanList/Presentation/ScanListViewModel.swift:110 | the lookup `first(where:)` yields nothing exactly when no characteristic has the UUID, and otherwise the earliest one that has it |
| ScanList.Target | CameraController/CameraController/Features/ScanList/Presentation/ScanListViewModel.swift:121 | the guard passes exactly when a characteristic with the role's UUID was discovered and a peripheral is connected, and yields that peripheral and the first such characteristic |
| ScanList.CommandWrites | CameraController/CameraController/Features/ScanList/Presentation/ScanListViewModel.swift:120-146 | a command issues at most one request; it issues one exactly when a command characteristic was discovered and a peripheral is connected; that request writes exactly the one given byte, with response, to the first command characteristic of the connected peripheral |
| ScanList.CameraStateReads | CameraController/CameraController/Features/ScanList/Presentation/ScanListViewModel.swift:109-112 | the state read issues at most one request, exactly when a camera-state characteristic was discovered and a peripheral is connected, and it reads the first such characteristic of the connected peripheral |
| ScanList.CameraSubscriptions | CameraController/CameraController/Features/ScanList/Presentation/ScanListViewModel.swift:92-105 | no contract of its own: the requests of the subscription loop; `ScanList.CameraSubscriptionsExact` states which requests occur and `ScanList.CameraSubscriptionsPaired` how many and in what order |
| ScanList.CameraSubscriptionsExact | CameraController/CameraController/Features/ScanList/Presentation/ScanListViewModel.swift:92-105 | the subscription loop asks only the peripheral the chain started from, only for camera-state characteristics it was given, only for an update stream or notify-on; each camera-state characteristic gets both; nothing is asked exactly when none was discovered |
| ScanList.CameraCharacteristics | CameraController/CameraController/Features/ScanList/Presentation/ScanListViewModel.swift:92-93 | the camera-state characteristics the loop acts on: no more than `cs` holds, each of them from `cs` with the camera-state UUID, and every camera-state characteristic of `cs` among them; the definition keeps the order of `cs` |
| ScanList.CameraSubscriptionsPaired | CameraController/CameraController/Features/ScanList/Presentation/ScanListViewModel.swift:92-105 | the loop issues exactly two requests per camera-state characteristic, in the order of `cs`: at position 2k the update stream of the k-th one, at 2k+1 its notify-on |
| ScanList.ScanListViewModel.constructor | CameraController/CameraController/Features/ScanList/Presentation/ScanListViewModel.swift:5-28 | the session starts with no peripherals, no connection, no characteristics, no scan task and no requests |
| ScanList.ScanListViewModel.StartScan | CameraController/CameraController/Features/ScanList/Presentation/ScanListViewModel.swift:30-41 | one scan request filtered to the controller service; a fresh empty accumulator; `scanning` taken from the central manager; `peripherals`, `connectedPeripheral` and `characteristics` unchanged |
| ScanList.ScanListViewModel.OnScanDiscovery | CameraController/CameraController/Features/ScanList/Presentation/ScanListViewModel.swift:31-39 | with a scan task the discovery is folded into the accumulator and published as `peripherals`; without one nothing changes; no request is made and the ids stay distinct |
| ScanList.ScanListViewModel.StopScan | CameraController/CameraController/Features/ScanList/Presentation/ScanListViewModel.swift:43-47 | the scan task is dropped and `peripherals` is empty; connection and characteristics unchanged |
| ScanList.ScanListViewModel.Reset | CameraController/CameraController/Features/ScanList/Presentation/ScanListViewModel.swift:49-52 | as `StopScan`, and moreover no connected peripheral |
| ScanList.ScanListViewModel.OnDidDisconnect | CameraController/CameraController/Features/ScanList/Presentation/ScanListViewModel.swift:18-27 | every disconnect, with or without an error, leaves no scan task, no peripherals and no connected peripheral, and makes no request |
| ScanList.ScanListViewModel.Disconnect | CameraController/CameraController/Features/ScanList/Presentation/ScanListViewModel.swift:54-56 | one cancel-connection request and no change to the session fields |
| ScanList.ScanListViewModel.Connect | CameraController/CameraController/Features/ScanList/Presentation/ScanListViewModel.swift:58-62 | one connect request for the discovery's peripheral and no change to the session fields |
| ScanList.ScanListViewModel.OnConnectResult | CameraController/CameraController/Features/ScanList/Presentation/ScanListViewModel.swift:63-71 | on success the peripheral becomes the connected one and exactly one service discovery for the controller service is requested; on failure the session is reset and nothing is requested |
| ScanList.ScanListViewModel.ReadServices | CameraController/CameraController/Features/ScanList/Presentation/ScanListViewModel.swift:76-77 | one service discovery filtered to the controller service |
| ScanList.ScanListViewModel.OnServicesDiscovered | CameraController/CameraController/Features/ScanList/Presentation/ScanListViewModel.swift:78-83 | with no service nothing is requested; otherwise one characteristic discovery, for the first service only, with the six catalog UUIDs |
| ScanList.ScanListViewModel.ReadCharacteristics | CameraController/CameraController/Features/ScanList/Presentation/ScanListViewModel.swift:85-86 | one characteristic discovery for the given service with the filter of all six catalog UUIDs |
| ScanList.ScanListViewModel.OnCharacteristicsDiscovered | CameraController/CameraController/Features/ScanList/Presentation/ScanListViewModel.swift:86-106 | the characteristics are stored; then the guarded state read and then the subscriptions of every camera-state characteristic are requested, in that order, and nothing else |
| ScanList.ScanListViewModel.ReadCameraState | CameraController/CameraController/Features/ScanList/Presentation/ScanListViewModel.swift:109-118 | exactly the guarded state read is requested; the session fields are unchanged |
| ScanList.ScanListViewModel.SetCamera | CameraController/CameraController/Features/ScanList/Presentation/ScanListViewModel.swift:120-136 | exactly the guarded command write of the byte 1 (on) or 2 (off) is requested; the session fields are unchanged |
| ScanList.ScanListViewModel.TakePhoto | CameraController/CameraController/Features/ScanList/Presentation/ScanListViewModel.swift:138-146 | exactly the guarded command write of the byte 3 is requested; the session fields are unchanged |
| ScanList.IssueCommands | CameraController/CameraController/Features/ScanList/Presentation/ScanListViewModel.swift:120-146 | with the command guard passing, power on, capture and power off append exactly three writes of the bytes 1, 3 and 2, with response, to the guarded characteristic of the connected peripheral; `peripherals`, `connectedPeripheral`, `scanning`, `characteristics` and the scan task are unchanged |
| ScanList.Negotiated | CameraController/CameraController/Features/ScanList/Presentation/ScanListViewModel.swift:58-107 | scanning, connecting and negotiating with one peripheral leaves it listed alone, connected, with the discovered characteristics stored |
| ScanList.StaleCommandAfterReconnect | CameraController/CameraController/Features/ScanList/Presentation/ScanListViewModel.swift:138-146 | after a negotiated session, a disconnect (which keeps `characteristics`, lines 49-52) and a successful connect to another peripheral (line 66), `takePhoto` writes the byte 3, with response, to the old session's first command characteristic through the new peripheral |
| ScanList.CommandSession | CameraController/CameraController/Features/ScanList/Presentation/ScanListViewModel.swift:120-146 | in a negotiated session power on, capture and power off write the bytes 1, 3 and 2, with response, to the first command characteristic of the connected peripheral; after a disconnect a capture writes nothing |
| BleScan.WithoutId | CameraController/CameraController/Core/Data/Remote/BLE/BleScanMananger.swift:29 | the filtered list is no longer than the old one and holds only entries of the old list with other identifiers; `BleScan.WithoutIdCounts` and `BleScan.WithoutIdKeepsOthers` state that all of those are kept, in order |
| BleScan.Discovered | CameraController/CameraController/Core/Data/Remote/BLE/BleScanMananger.swift:29-30 | the new peripheral is the last element, and every earlier element is an entry of the old list with another identifier; `BleScan.DiscoveredOneEntryLast`, `BleScan.DiscoveredKeepsOthers` and `BleScan.DiscoveredDistinctAndLength` state the rest |
| BleScan.WithoutIdCounts | CameraController/CameraController/Core/Data/Remote/BLE/BleScanMananger.swift:29 | the filter removes every entry with the identifier, keeps the number of entries of every other identifier, and shortens the list by the number removed |
| BleScan.WithoutIdKeepsOthers | CameraController/CameraController/Core/Data/Remote/BLE/BleScanMananger.swift:29 | the filter keeps every entry of other identifiers in its relative order |
| BleScan.DistinctByCount | CameraController/CameraController/Core/Data/Remote/BLE/BleScanMananger.swift:29-32 | a list repeats no identifier exactly when every identifier occurs at most once |
| BleScan.DiscoveredOneEntryLast | CameraController/CameraController/Core/Data/Remote/BLE/BleScanMananger.swift:29-30 | after discovering a peripheral exactly one entry carries its identifier, and the new peripheral is the last element, so a rediscovered one moves to the end |
| BleScan.DiscoveredKeepsOthers | CameraController/CameraController/Core/Data/Remote/BLE/BleScanMananger.swift:29-30 | entries with other identifiers are kept and their relative order is unchanged |
| BleScan.DiscoveredDistinctAndLength | CameraController/CameraController/Core/Data/Remote/BLE/BleScanMananger.swift:29-32 | distinct identifiers stay distinct; the list grows by one for a new identifier and keeps its length for a listed one |
| BleScan.BleScanManager.constructor | CameraController/CameraController/Core/Data/Remote/BLE/BleScanMananger.swift:10-14 | the list and the request log start empty |
| BleScan.BleScanManager.StartScan | CameraController/CameraController/Core/Data/Remote/BLE/BleScanMananger.swift:16-18 | one unfiltered scan request; `scanResults` unchanged |
| BleScan.BleScanManager.StopScan | CameraController/CameraController/Core/Data/Remote/BLE/BleScanMananger.swift:20-22 | one stop-scan request; `scanResults` unchanged |
| BleScan.BleScanManager.DidDiscover | CameraController/CameraController/Core/Data/Remote/BLE/BleScanMananger.swift:28-33 | `scanResults` becomes the old list without the peripheral's identifier, followed by the peripheral; distinct identifiers are kept; no request |

## Left out

- `BleService.swift` is not part of this model. It holds no state. Its four delegate callbacks start an unfiltered scan on power-on (lines 19-23), read the RSSI on connect (37-39), and on discovery or RSSI read call the helper `didReadPeripheral` (25-31), whose body is an empty TODO (33-35).
- The SwiftUI files (`ContentView.swift`, `ScanListScreen.swift`, `CameraControllerApp.swift`) are presentation only.
- The CoreBluetooth calls themselves: each is one request in the log; what the stack answers comes back as the arguments of the event methods.
- Combine threading and lifetimes: `receive(on:)`, the dispatch queues and the `cancellables` bag are not modelled. `BleScanManager`'s delegate queue (`DispatchQueue.global(qos: .userInitiated)`, BleScanMananger.swift:11) is concurrent; the model assumes that two `didDiscover` updates of `scanResults` never overlap; events are sequential method calls in any order, and the model does not check that an event answers an earlier request.
- `scanning`: its value comes from the central manager and is a parameter.
- Pipeline cancellation: releasing the running pipeline when `stopScan` or `reset` set `scanTask` to nil, or when `startScan` replaces it, and the stack's reaction (stopping the scan), are not modelled and not logged as requests.
- The completion handlers of reads, writes, notify-on and the update stream: they only print, and change no state.
- The error completions of service and characteristic discovery: they are ignored by the code, so no event method is called for them.
- The `services` field: it is declared but never assigned.
- `centralManagerDidUpdateState` of `BleScanManager`: its body is empty.
- UUIDs are compared as their canonical lower-case strings; the case folding that `CBUUID` applies to other spellings is not modelled.
- All `print` logging.
