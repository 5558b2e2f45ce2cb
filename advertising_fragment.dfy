/**
 * The GATT server kept by the advertising screen: it serves the scanned QR text
 * from one read-only characteristic, rejects every other request, and tracks
 * whether advertising runs, whether a server is open and which device is
 * connected. Calls into the Bluetooth stack are appended to `calls`; permissions
 * and what the stack answers arrive as parameters.
 */
module AdvertisingFragment {
  import opened Wrappers
  import opened Bytes
  import opened Gatt

  /** `BluetoothProfile` connection states. */
  const StateDisconnected: int := 0
  const StateConnected: int := 2

  /** `AdvertiseCallback` failure codes. */
  const FailedDataTooLarge: int := 1
  const FailedTooManyAdvertisers: int := 2
  const FailedAlreadyStarted: int := 3
  const FailedInternalError: int := 4
  const FailedFeatureUnsupported: int := 5

  const UnknownError: string := "Unknown error"

  /**
   * The bytes answered for a read at `offset`: none past the end, else the value
   * from `offset` on. A negative offset makes the array copy throw, so no answer
   * is produced at all.
   */
  function ReadSlice(value: Bytes, offset: int): (r: Option<Bytes>)
    ensures r.None? <==> offset < 0
    ensures r.Some? ==> |r.value| == if offset >= |value| then 0 else |value| - offset
  {
    if offset > |value| then Some([])
    else if offset < 0 then None
    else Some(value[offset..])
  }

  /**
   * Byte i of a read's answer is byte `offset + i` of the value, and what was
   * skipped followed by the answer is the whole value.
   */
  lemma ReadSliceContents(value: Bytes, offset: int)
    ensures offset >= 0 ==>
      var r := ReadSlice(value, offset).value;
      && (forall i :: 0 <= i < |r| ==> r[i] == value[offset + i])
      && (offset <= |value| ==> value[..offset] + r == value)
  {
    if 0 <= offset <= |value| {
      assert value[..offset] + value[offset..] == value;
    }
  }

  /** The reason shown when advertising fails to start with `errorCode`. */
  function FailureReason(errorCode: int): (reason: string)
    ensures reason == UnknownError <==> !(1 <= errorCode <= 5)
  {
    if errorCode == FailedDataTooLarge then "Data too large"
    else if errorCode == FailedTooManyAdvertisers then "Too many advertisers"
    else if errorCode == FailedAlreadyStarted then "Already started"
    else if errorCode == FailedInternalError then "Internal error"
    else if errorCode == FailedFeatureUnsupported then "Feature unsupported"
    else UnknownError
  }

  /** The five documented codes have five distinct reasons, so a known reason names its code. */
  lemma FailureReasonNamesCode(c: int, d: int)
    ensures 1 <= c <= 5 && FailureReason(c) == FailureReason(d) ==> c == d
  {
  }

  /** What `openGattServer` got from the platform. */
  datatype OpenOutcome = Opened | ReturnedNull | Threw

  class BleAdvertisingFragment {
    /** Set by the advertise callback, cleared by a failure or a stop. */
    var isAdvertising: bool
    /** Whether a `BluetoothLeAdvertiser` handle is held. */
    var advertiser: bool
    /** Whether a `BluetoothGattServer` handle is held. */
    var gattServer: bool
    /** The device last reported connected, if any. */
    var connectedDevice: Option<Address>
    /** The QR text served from the data characteristic. */
    var qrDataForGatt: Option<string>
    /** Calls made into the Bluetooth stack, oldest first. */
    var calls: seq<PlatformCall>

    /** A fragment holding the QR text it was opened with, before Bluetooth is set up. */
    constructor (qrData: Option<string>, advertiser: bool)
      ensures !isAdvertising && !gattServer && connectedDevice == None
      ensures this.advertiser == advertiser && qrDataForGatt == qrData && calls == []
    {
      isAdvertising, gattServer := false, false;
      this.advertiser := advertiser;
      connectedDevice := None;
      qrDataForGatt := qrData;
      calls := [];
    }

    method OnStartSuccess()
      modifies this`isAdvertising
      ensures isAdvertising
    {
      isAdvertising := true;
    }

    /** Advertising did not start: the flag drops and the reason for `errorCode` is reported. */
    method OnStartFailure(errorCode: int) returns (reason: string)
      modifies this`isAdvertising
      ensures !isAdvertising
      ensures reason == FailureReason(errorCode)
    {
      isAdvertising := false;
      reason := FailureReason(errorCode);
    }

    /** A connect records the device, a disconnect forgets it; other states and a null device change nothing. */
    method OnConnectionStateChange(device: Option<Address>, newState: int)
      modifies this`connectedDevice
      ensures device.Some? && newState == StateConnected ==> connectedDevice == device
      ensures device.Some? && newState == StateDisconnected ==> connectedDevice == None
      ensures device.None? || newState !in {StateConnected, StateDisconnected} ==> connectedDevice == old(connectedDevice)
    {
      if device.None? {
        return;
      }
      if newState == StateConnected {
        connectedDevice := device;
      } else if newState == StateDisconnected {
        connectedDevice := None;
      }
    }

    /**
     * Reads: a null device or characteristic gets GATT_FAILURE; the data
     * characteristic gets the UTF-8 of the QR text (empty when there is none) from
     * `offset` on; any other characteristic gets READ_NOT_PERMITTED. Nothing is
     * sent without the connect permission or an open server, nor when the offset
     * is negative.
     */
    method OnCharacteristicReadRequest(device: Option<Address>, requestId: int, offset: int,
                                       characteristic: Option<Uuid>, connectPerm: bool)
      modifies this`calls
      ensures var canSend := connectPerm && gattServer;
        var text := if qrDataForGatt.Some? then qrDataForGatt.value else "";
        var slice := ReadSlice(Utf8(text), offset);
        calls == old(calls) +
          if !canSend then []
          else if device.None? || characteristic.None? then [SendResponse(device, requestId, Failure, offset, None)]
          else if characteristic.value != DataCharUuid then [SendResponse(device, requestId, ReadNotPermitted, offset, None)]
          else if slice.None? then []
          else [SendResponse(device, requestId, Success, offset, slice)]
    {
      if device.None? || characteristic.None? {
        if connectPerm && gattServer {
          calls := calls + [SendResponse(device, requestId, Failure, offset, None)];
        }
        return;
      }
      if characteristic.value == DataCharUuid {
        var text := if qrDataForGatt.Some? then qrDataForGatt.value else "";
        var slice := ReadSlice(Utf8(text), offset);
        if slice.None? {
          return;
        }
        if connectPerm && gattServer {
          calls := calls + [SendResponse(device, requestId, Success, offset, slice)];
        }
      } else {
        if connectPerm && gattServer {
          calls := calls + [SendResponse(device, requestId, ReadNotPermitted, offset, None)];
        }
      }
    }

    /** Characteristic writes are refused, with a reply only when one is asked for. */
    method OnCharacteristicWriteRequest(device: Option<Address>, requestId: int, responseNeeded: bool, offset: int, connectPerm: bool)
      modifies this`calls
      ensures calls == old(calls) +
        if responseNeeded && connectPerm && gattServer then [SendResponse(device, requestId, WriteNotPermitted, offset, None)] else []
    {
      if responseNeeded && connectPerm && gattServer {
        calls := calls + [SendResponse(device, requestId, WriteNotPermitted, offset, None)];
      }
    }

    /** Descriptor reads are always refused. */
    method OnDescriptorReadRequest(device: Option<Address>, requestId: int, offset: int, connectPerm: bool)
      modifies this`calls
      ensures calls == old(calls) +
        if connectPerm && gattServer then [SendResponse(device, requestId, ReadNotPermitted, offset, None)] else []
    {
      if connectPerm && gattServer {
        calls := calls + [SendResponse(device, requestId, ReadNotPermitted, offset, None)];
      }
    }

    /** Descriptor writes are refused, with a reply only when one is asked for. */
    method OnDescriptorWriteRequest(device: Option<Address>, requestId: int, responseNeeded: bool, offset: int, connectPerm: bool)
      modifies this`calls
      ensures calls == old(calls) +
        if responseNeeded && connectPerm && gattServer then [SendResponse(device, requestId, WriteNotPermitted, offset, None)] else []
    {
      if responseNeeded && connectPerm && gattServer {
        calls := calls + [SendResponse(device, requestId, WriteNotPermitted, offset, None)];
      }
    }

    /**
     * Opens a server and adds the service to it. With a server already open, or
     * without the connect permission, nothing happens; a null handle or a throw
     * leaves no server.
     */
    method OpenGattServer(connectPerm: bool, outcome: OpenOutcome)
      modifies this`gattServer, this`calls
      ensures old(gattServer) || !connectPerm ==> gattServer == old(gattServer) && calls == old(calls)
      ensures !old(gattServer) && connectPerm ==>
        && gattServer == (outcome == Opened)
        && calls == old(calls) + [OpenGattServerCall] + (if outcome == Opened then [AddServiceCall] else [])
    {
      if gattServer {
        return;
      }
      if !connectPerm {
        return;
      }
      calls := calls + [OpenGattServerCall];
      if outcome == Threw {
        return;
      }
      gattServer := outcome == Opened;
      if !gattServer {
        return;
      }
      calls := calls + [AddServiceCall];
    }

    /**
     * Drops the server handle on every path. With the permission the server is
     * closed and the connected device forgotten; without it only the handle goes.
     */
    method CloseGattServer(connectPerm: bool)
      modifies this`gattServer, this`connectedDevice, this`calls
      ensures !gattServer
      ensures old(gattServer) && connectPerm ==> connectedDevice == None && calls == old(calls) + [CloseGattServerCall]
      ensures !(old(gattServer) && connectPerm) ==> connectedDevice == old(connectedDevice) && calls == old(calls)
    {
      if !gattServer {
        return;
      }
      if !connectPerm {
        gattServer := false;
        return;
      }
      connectedDevice := None;
      calls := calls + [CloseGattServerCall];
      gattServer := false;
    }

    /** Stops advertising through the handle, if one is held; the flag is cleared whatever happens. */
    method StopBleAdvertising()
      modifies this`isAdvertising, this`calls
      ensures !isAdvertising
      ensures calls == old(calls) + if advertiser then [StopAdvertisingCall] else []
    {
      if advertiser {
        calls := calls + [StopAdvertisingCall];
      }
      isAdvertising := false;
    }

    /**
     * Leaving the screen: stops advertising when it runs and the permission allows
     * it, then closes the server. The advertising flag itself is left as it was.
     */
    method OnDestroyView(advertisePerm: bool, connectPerm: bool)
      modifies this`gattServer, this`connectedDevice, this`calls
      ensures !gattServer && isAdvertising == old(isAdvertising)
      ensures var stop := if old(isAdvertising) && advertiser && advertisePerm then [StopAdvertisingCall] else [];
        var close := if old(gattServer) && connectPerm then [CloseGattServerCall] else [];
        calls == old(calls) + stop + close
      ensures connectedDevice == if old(gattServer) && connectPerm then None else old(connectedDevice)
    {
      if isAdvertising && advertiser && advertisePerm {
        calls := calls + [StopAdvertisingCall];
      }
      CloseGattServer(connectPerm);
    }
  }
}
