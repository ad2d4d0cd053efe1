/**
  What the core asks of the BLE stack. The stack itself is not modelled: each
  call into the central manager or a peripheral handle becomes one `Request`
  appended to a log, so that properties such as "no write is issued" or "the
  written value is the single byte 1" can be stated about the log.
 */
module Transport {
  import opened Wrappers
  import opened Catalog

  newtype byte = x: int | 0 <= x < 256

  /** The identifier of a remote peripheral (`CBPeripheral.identifier`). */
  type PeripheralId = string

  /** A discovered GATT service; `handle` tells apart two services with one UUID. */
  datatype Service = Service(uuid: Uuid, handle: nat)

  /** A discovered characteristic (`CBCharacteristic`). */
  datatype Characteristic = Characteristic(uuid: Uuid, handle: nat)

  /** `CBCharacteristicWriteType`. */
  datatype WriteType = WithResponse | WithoutResponse

  datatype Request =
    | ScanForPeripherals(services: Option<seq<Uuid>>)
    | StopScan
    | Connect(peripheral: PeripheralId)
    | CancelConnection(peripheral: PeripheralId)
    | DiscoverServices(peripheral: PeripheralId, filter: seq<Uuid>)
    | DiscoverCharacteristics(peripheral: PeripheralId, filter: seq<Uuid>, service: Service)
    | ReadValue(peripheral: PeripheralId, characteristic: Characteristic)
    | WriteValue(peripheral: PeripheralId, characteristic: Characteristic, value: seq<byte>, writeType: WriteType)
    | ListenForUpdates(peripheral: PeripheralId, characteristic: Characteristic)
    | SetNotifyValue(peripheral: PeripheralId, characteristic: Characteristic, enabled: bool)
}
