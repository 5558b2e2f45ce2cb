/**
 * The GATT vocabulary shared by the service and the fragment: device addresses,
 * attribute UUIDs, response status codes and the platform calls the model records.
 */
module Gatt {
  import opened Wrappers
  import opened Bytes

  /** A remote device, identified by its Bluetooth address string. */
  type Address = string
  type Uuid = string

  const ServiceUuid: Uuid := "e2a2b8e0-0b6c-4b6d-8868-c2b53f6c8d7b"
  const DataCharUuid: Uuid := "c3b3c9f0-1c7d-4e7e-8a8b-9e0f1d0a2b3c"
  const CccdUuid: Uuid := "00002902-0000-1000-8000-00805f9b34fb"

  /** The `BluetoothGatt` status codes the code answers with. */
  datatype GattStatus = Success | ReadNotPermitted | WriteNotPermitted | Failure

  /** What `notifyCharacteristicChanged` did: returned true, returned false, or threw `SecurityException`. */
  datatype NotifyResult = Delivered | Refused | SecurityError

  /**
   * One advertising record, as an `AdvertiseData` builder assembles it: manufacturer
   * data filed under a company identifier, if any, and the service UUIDs listed.
   */
  datatype AdvertiseData = AdvertiseData(manufacturer: Option<(int, Bytes)>, serviceUuids: seq<Uuid>)

  /** What `startAdvertising` is handed: whether centrals may connect, the primary record and the scan response. */
  datatype AdvertiseRequest = AdvertiseRequest(connectable: bool, primary: AdvertiseData, scanResponse: AdvertiseData)

  /** One call into the Bluetooth stack, in the order the code makes them. */
  datatype PlatformCall =
    | Notify(device: Address, frame: Bytes, result: NotifyResult)
    | SendResponse(to: Option<Address>, requestId: int, status: GattStatus, offset: int, value: Option<Bytes>)
    | StartAdvertisingCall(request: AdvertiseRequest)
    | StopAdvertisingCall
    | OpenGattServerCall
    | AddServiceCall
    | CloseGattServerCall
}
