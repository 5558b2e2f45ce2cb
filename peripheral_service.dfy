/**
 * The foreground service that advertises the peripheral, serves the data
 * characteristic and streams the current payload as framed notifications.
 * Calls into the Bluetooth stack are appended to `calls`; what the stack answers
 * (permissions, whether a handle could be obtained, what a notification did)
 * arrives as parameters.
 */
module PeripheralService {
  import opened Wrappers
  import opened Bytes
  import opened Gatt
  import opened FrameCodec
  import Advertisement

  const ActionStart: string := "START"
  const ActionStop: string := "STOP"
  const ActionUpdatePayload: string := "UPDATE_PAYLOAD"
  /** MTU assumed for a device that never reported one. */
  const DefaultMtu: int := 185

  /** The one extra stored under "payload": a ByteArray, a String, anything else, or nothing. */
  datatype Extra = NoExtra | ByteArrayExtra(bytes: Bytes) | StringExtra(text: string) | OtherExtra
  datatype Intent = Intent(action: Option<string>, payload: Extra)

  /** The payload an intent carries: a byte array as is, a string as its UTF-8 bytes, else nothing. */
  function ExtraPayload(e: Extra): (p: Bytes)
    ensures p == [] <==> match e
      case ByteArrayExtra(b) => b == []
      case StringExtra(s) => s == ""
      case _ => true
  {
    match e
    case ByteArrayExtra(b) => b
    case StringExtra(s) => Utf8(s)
    case _ => []
  }

  /** What the platform hands `startBle`: an advertiser or none, a GATT server or none, the clock. */
  datatype Radio = Radio(advertiserAvailable: bool, gattServerOpens: bool, unixSeconds: int)

  /** The MTU last recorded for a device, or the default when it never reported one. */
  function MtuFor(table: map<Address, int>, device: Address): (mtu: int)
    ensures (forall a :: a in table ==> table[a] >= 4) ==> mtu >= 4
  {
    if device in table then table[device] else DefaultMtu
  }

  /** The MTU used for a device is the last one recorded for it; other devices keep theirs. */
  lemma MtuForRecorded(table: map<Address, int>, device: Address, mtu: int, other: Address)
    ensures MtuFor(table[device := mtu], device) == mtu
    ensures other != device ==> MtuFor(table[device := mtu], other) == MtuFor(table, other)
    ensures other !in table ==> MtuFor(table, other) == DefaultMtu
  {
  }

  /** The standard CCCD values: notifications on, indications on, both off. */
  const EnableNotificationValue: Bytes := [0x01, 0x00]
  const EnableIndicationValue: Bytes := [0x02, 0x00]
  const DisableNotificationValue: Bytes := [0x00, 0x00]

  /**
   * A descriptor write that starts a pass: the CCCD, at least two bytes, first byte
   * 0x01. Writing the standard "notifications on" value to the CCCD starts one;
   * "indications on" or "off" never does, nor does a write to another descriptor.
   */
  predicate EnablesNotifications(descriptor: Uuid, value: Bytes)
    ensures descriptor == CccdUuid && value == EnableNotificationValue ==> EnablesNotifications(descriptor, value)
    ensures EnablesNotifications(descriptor, value) ==>
      descriptor == CccdUuid && |value| >= 2 && value[..2] != EnableIndicationValue && value[..2] != DisableNotificationValue
  {
    descriptor == CccdUuid && |value| >= 2 && value[0] == 0x01
  }

  /** The first notification among `from .. n-1` that throws, or `n` when none does. */
  function FirstThrow(outcome: nat -> NotifyResult, from: nat, n: nat): (k: nat)
    requires from <= n
    ensures from <= k <= n
    ensures k < n ==> outcome(k) == SecurityError
    decreases n - from
  {
    if from == n then n
    else if outcome(from) == SecurityError then from
    else FirstThrow(outcome, from + 1, n)
  }

  /** No notification before the first throw throws. */
  lemma {:induction false} FirstThrowIsFirst(outcome: nat -> NotifyResult, from: nat, n: nat)
    requires from <= n
    ensures forall i :: from <= i < FirstThrow(outcome, from, n) ==> outcome(i) != SecurityError
    decreases n - from
  {
    if from < n && outcome(from) != SecurityError {
      FirstThrowIsFirst(outcome, from + 1, n);
    }
  }

  /**
   * How many of the `n` frames of a pass the loop reaches: all of them, unless a
   * notification throws, which ends the pass after that frame. With no GATT server
   * no notification is attempted and nothing can throw.
   */
  function FramesReached(n: nat, serverOpen: bool, outcome: nat -> NotifyResult): nat
  {
    if !serverOpen then n
    else
      var k := FirstThrow(outcome, 0, n);
      if k < n then k + 1 else n
  }

  /** The frames one pass puts into the characteristic, in order. */
  function PassFrames(p: Bytes, mtu: int, serverOpen: bool, outcome: nat -> NotifyResult): seq<Bytes>
    requires mtu >= 4
  {
    var all := Encode(p, ChunkSize(mtu));
    all[..FramesReached(|all|, serverOpen, outcome)]
  }

  /**
   * A pass is a prefix of the full encoding. It reaches every frame exactly when
   * no notification before the last one throws; a `false` result never shortens
   * it. When it is cut short, the last frame reached is the one that threw.
   */
  lemma PassCoverage(p: Bytes, mtu: int, serverOpen: bool, outcome: nat -> NotifyResult)
    requires mtu >= 4
    ensures var all, sent := Encode(p, ChunkSize(mtu)), PassFrames(p, mtu, serverOpen, outcome);
      && sent == all[..|sent|]
      && (|sent| == |all| <==> (!serverOpen || forall i :: 0 <= i < |all| - 1 ==> outcome(i) != SecurityError))
      && (|sent| < |all| ==> serverOpen && |sent| > 0 && outcome(|sent| - 1) == SecurityError)
      && (serverOpen ==> forall i :: 0 <= i < |sent| - 1 ==> outcome(i) != SecurityError)
  {
    var all := Encode(p, ChunkSize(mtu));
    var n := |all|;
    var sent := PassFrames(p, mtu, serverOpen, outcome);
    if serverOpen {
      var k := FirstThrow(outcome, 0, n);
      FirstThrowIsFirst(outcome, 0, n);
      if k < n {
        assert |sent| == k + 1;
        assert forall i :: 0 <= i < |sent| - 1 ==> outcome(i) != SecurityError;
        if k < n - 1 {
          assert outcome(k) == SecurityError && 0 <= k < n - 1;
        }
      } else {
        assert |sent| == n;
      }
    }
  }

  /**
   * The frames a pass writes into the characteristic (notified or not, whatever
   * the stack answered), read back in order by the receiver: the payload, when no
   * notification before the last throws and the frame count fits the 16-bit
   * field; a rejection, when a throw cut the pass short.
   */
  lemma PassWritesPayload(p: Bytes, mtu: int, serverOpen: bool, outcome: nat -> NotifyResult)
    requires mtu >= 4 && FrameCount(|p|, ChunkSize(mtu)) < FieldRange
    ensures var all, sent := Encode(p, ChunkSize(mtu)), PassFrames(p, mtu, serverOpen, outcome);
      && ((!serverOpen || forall i :: 0 <= i < |all| - 1 ==> outcome(i) != SecurityError) ==> Reassemble(sent) == Some(p))
      && (|sent| < |all| ==> Reassemble(sent).None?)
  {
    var chunk := ChunkSize(mtu);
    var all, sent := Encode(p, chunk), PassFrames(p, mtu, serverOpen, outcome);
    PassCoverage(p, mtu, serverOpen, outcome);
    RoundTrip(p, chunk);
    if |sent| < |all| {
      TruncatedPassRejected(p, chunk, |sent|);
    } else {
      assert sent == all;
    }
  }

  /** One notification call per frame reached, with what the stack answered. */
  function NotifyCalls(device: Address, frames: seq<Bytes>, outcome: nat -> NotifyResult): seq<PlatformCall>
  {
    seq(|frames|, i requires 0 <= i < |frames| => Notify(device, frames[i], outcome(i)))
  }

  /** The calls one pass adds to the log: a notification per frame reached, with a server open. */
  function PassCalls(device: Address, p: Bytes, mtu: int, open: bool, outcome: nat -> NotifyResult): seq<PlatformCall>
    requires mtu >= 4
  {
    if open then NotifyCalls(device, PassFrames(p, mtu, open, outcome), outcome) else []
  }

  /** The characteristic value after `sent` was written into it, starting from `before`. */
  function LastFrame(before: Option<Bytes>, sent: seq<Bytes>): Option<Bytes>
  {
    if sent == [] then before else Some(sent[|sent| - 1])
  }

  /** The fields of the service, as one value. */
  datatype ServiceState = ServiceState(
    payload: Bytes,
    advertiser: bool,
    gattServer: bool,
    dataChar: bool,
    charValue: Option<Bytes>,
    currentMtu: map<Address, int>,
    foreground: bool,
    stopped: bool,
    calls: seq<PlatformCall>)

  class BlePeripheralService {
    /** The payload store; replaced whole by START and UPDATE_PAYLOAD. */
    var payload: Bytes
    /** Whether a `BluetoothLeAdvertiser` handle is held. */
    var advertiser: bool
    /** Whether a `BluetoothGattServer` handle is held. */
    var gattServer: bool
    /** Whether the data characteristic has been created. */
    var dataChar: bool
    /** The data characteristic's value (`ch.value`); none until a frame is written. */
    var charValue: Option<Bytes>
    /** Last MTU reported per device address. */
    var currentMtu: map<Address, int>
    /** Running as a foreground service. */
    var foreground: bool
    /** `stopSelf()` was called. */
    var stopped: bool
    /** Calls made into the Bluetooth stack, oldest first. */
    var calls: seq<PlatformCall>

    /** Every recorded MTU leaves room for at least one data byte per notification. */
    ghost predicate Valid()
      reads this
    {
      forall a :: a in currentMtu ==> currentMtu[a] >= 4
    }

    ghost function State(): ServiceState
      reads this
    {
      ServiceState(payload, advertiser, gattServer, dataChar, charValue, currentMtu, foreground, stopped, calls)
    }

    constructor ()
      ensures Valid()
      ensures State() == ServiceState([], false, false, false, None, map[], false, false, [])
    {
      payload := [];
      advertiser, gattServer, dataChar := false, false, false;
      charValue := None;
      currentMtu := map[];
      foreground, stopped := false, false;
      calls := [];
    }

    /** START stores the payload and brings BLE up; UPDATE_PAYLOAD only stores it; STOP tears down. */
    method OnStartCommand(intent: Option<Intent>, connectPerm: bool, advertisePerm: bool, radio: Radio)
      requires Valid()
      modifies this
      ensures Valid()
      ensures var action := if intent.Some? then intent.value.action else None;
        && (action == Some(ActionStart) ==>
              && payload == ExtraPayload(intent.value.payload)
              && foreground && stopped == old(stopped)
              && advertiser == radio.advertiserAvailable
              && gattServer == (old(gattServer) || (connectPerm && radio.gattServerOpens))
              && dataChar == (old(dataChar) || (connectPerm && radio.gattServerOpens))
              && charValue == (if connectPerm && radio.gattServerOpens then None else old(charValue))
              && currentMtu == old(currentMtu)
              && calls == old(calls) + OpenCalls(connectPerm, radio.gattServerOpens)
                            + AdvertiseCalls(advertisePerm, radio.advertiserAvailable, radio.unixSeconds))
        && (action == Some(ActionUpdatePayload) ==>
              State() == old(State()).(payload := ExtraPayload(intent.value.payload)))
        && (action == Some(ActionStop) ==>
              State() == old(State()).(advertiser := false, gattServer := false, foreground := false, stopped := true,
                                       calls := old(calls) + StopCalls(connectPerm, advertisePerm, old(advertiser), old(gattServer))))
        && (action !in {Some(ActionStart), Some(ActionUpdatePayload), Some(ActionStop)} ==> State() == old(State()))
    {
      if intent.None? || intent.value.action.None? {
        return;
      }
      var action := intent.value.action.value;
      if action == ActionStart {
        payload := ExtraPayload(intent.value.payload);
        foreground := true;
        StartBle(connectPerm, advertisePerm, radio);
      } else if action == ActionUpdatePayload {
        payload := ExtraPayload(intent.value.payload);
      } else if action == ActionStop {
        StopSelfSafely(connectPerm, advertisePerm);
      }
    }

    method OnDestroy(connectPerm: bool, advertisePerm: bool)
      modifies this
      ensures State() == old(State()).(advertiser := false, gattServer := false,
                                       calls := old(calls) + StopCalls(connectPerm, advertisePerm, old(advertiser), old(gattServer)))
    {
      StopBle(connectPerm, advertisePerm);
    }

    method StartBle(connectPerm: bool, advertisePerm: bool, radio: Radio)
      modifies this
      ensures State() == old(State()).(
        advertiser := radio.advertiserAvailable,
        gattServer := old(gattServer) || (connectPerm && radio.gattServerOpens),
        dataChar := old(dataChar) || (connectPerm && radio.gattServerOpens),
        charValue := if connectPerm && radio.gattServerOpens then None else old(charValue),
        calls := old(calls) + OpenCalls(connectPerm, radio.gattServerOpens)
                 + AdvertiseCalls(advertisePerm, radio.advertiserAvailable, radio.unixSeconds))
    {
      advertiser := radio.advertiserAvailable;
      OpenGattServer(connectPerm, radio.gattServerOpens);
      StartAdvertising(advertisePerm, radio.unixSeconds);
    }

    /**
     * Teardown: stop advertising and close the server when the permission allows
     * the call, then drop both handles whatever happened.
     */
    method StopBle(connectPerm: bool, advertisePerm: bool)
      modifies this
      ensures !advertiser && !gattServer
      ensures State() == old(State()).(advertiser := false, gattServer := false,
                                       calls := old(calls) + StopCalls(connectPerm, advertisePerm, old(advertiser), old(gattServer)))
    {
      if advertisePerm && advertiser {
        calls := calls + [StopAdvertisingCall];
      }
      if connectPerm && gattServer {
        calls := calls + [CloseGattServerCall];
      }
      advertiser, gattServer := false, false;
    }

    method StopSelfSafely(connectPerm: bool, advertisePerm: bool)
      modifies this
      ensures State() == old(State()).(advertiser := false, gattServer := false, foreground := false, stopped := true,
                                       calls := old(calls) + StopCalls(connectPerm, advertisePerm, old(advertiser), old(gattServer)))
    {
      StopBle(connectPerm, advertisePerm);
      foreground := false;
      stopped := true;
    }

    /** Opens a server and registers the service with its data characteristic and CCCD. */
    method OpenGattServer(connectPerm: bool, serverOpens: bool)
      modifies this
      ensures State() == old(State()).(
        gattServer := old(gattServer) || (connectPerm && serverOpens),
        dataChar := old(dataChar) || (connectPerm && serverOpens),
        charValue := if connectPerm && serverOpens then None else old(charValue),
        calls := old(calls) + OpenCalls(connectPerm, serverOpens))
    {
      if !connectPerm {
        return;
      }
      calls := calls + [OpenGattServerCall];
      if !serverOpens {
        return;
      }
      calls := calls + [AddServiceCall];
      gattServer := true;
      dataChar := true;
      charValue := None;
    }

    method StartAdvertising(advertisePerm: bool, unixSeconds: int)
      modifies this`calls
      ensures calls == old(calls) + AdvertiseCalls(advertisePerm, advertiser, unixSeconds)
    {
      if !advertisePerm {
        return;
      }
      if advertiser {
        calls := calls + [StartAdvertisingCall(Advertisement.StartRequest(unixSeconds))];
      }
    }

    method OnMtuChanged(device: Address, mtu: int)
      requires Valid()
      requires mtu >= 4
      modifies this`currentMtu
      ensures Valid()
      ensures currentMtu == old(currentMtu)[device := mtu]
      ensures MtuFor(currentMtu, device) == mtu
    {
      currentMtu := currentMtu[device := mtu];
    }

    /**
     * A read of the data characteristic is answered with the whole payload (the
     * stack applies the offset); any other characteristic gets READ_NOT_PERMITTED.
     */
    method OnCharacteristicReadRequest(device: Address, requestId: int, offset: int, characteristic: Uuid, connectPerm: bool)
      modifies this`calls
      ensures calls == old(calls) +
        if !connectPerm || !gattServer then []
        else if characteristic == DataCharUuid then [SendResponse(Some(device), requestId, Success, offset, Some(payload))]
        else [SendResponse(Some(device), requestId, ReadNotPermitted, offset, None)]
    {
      if !connectPerm {
        return;
      }
      if characteristic == DataCharUuid {
        if gattServer {
          calls := calls + [SendResponse(Some(device), requestId, Success, offset, Some(payload))];
        }
      } else {
        if gattServer {
          calls := calls + [SendResponse(Some(device), requestId, ReadNotPermitted, offset, None)];
        }
      }
    }

    /**
     * Answers the write when asked to; an "enable notifications" write to the CCCD
     * then runs one pass at the device's MTU.
     */
    method OnDescriptorWriteRequest(device: Address, requestId: int, descriptor: Uuid, responseNeeded: bool,
                                    value: Bytes, connectPerm: bool, outcome: nat -> NotifyResult)
      requires Valid()
      modifies this`charValue, this`calls
      ensures !connectPerm ==> calls == old(calls) && charValue == old(charValue)
      ensures connectPerm ==>
        var reply := if responseNeeded && gattServer then [SendResponse(Some(device), requestId, Success, 0, None)] else [];
        var streams := EnablesNotifications(descriptor, value) && dataChar;
        var mtu := MtuFor(currentMtu, device);
        && calls == old(calls) + reply + (if streams then PassCalls(device, payload, mtu, gattServer, outcome) else [])
        && charValue == if streams then LastFrame(old(charValue), PassFrames(payload, mtu, gattServer, outcome)) else old(charValue)
    {
      if !connectPerm {
        return;
      }
      if responseNeeded && gattServer {
        calls := calls + [SendResponse(Some(device), requestId, Success, 0, None)];
      }
      if EnablesNotifications(descriptor, value) {
        var mtu := MtuFor(currentMtu, device);
        StreamNotifications(device, mtu, connectPerm, outcome);
      }
    }

    /**
     * One pass over the payload at `mtu`: frames of `ChunkSize(mtu)` data bytes,
     * each written to the characteristic and, with a server open, notified. A
     * `false` from the stack is only logged; a SecurityException ends the pass.
     * Without the connect permission or the characteristic nothing happens.
     */
    method StreamNotifications(device: Address, mtu: int, connectPerm: bool, outcome: nat -> NotifyResult)
      requires mtu >= 4
      modifies this`charValue, this`calls
      ensures calls == old(calls) + if connectPerm && dataChar then PassCalls(device, payload, mtu, gattServer, outcome) else []
      ensures charValue == if connectPerm && dataChar then LastFrame(old(charValue), PassFrames(payload, mtu, gattServer, outcome)) else old(charValue)
    {
      if !connectPerm {
        return;
      }
      if !dataChar {
        return;
      }
      ghost var log, before := calls, charValue;
      var value, notified := SendFrames(device, payload, ChunkSize(mtu), gattServer, outcome, charValue, calls);
      charValue, calls := value, notified;
      PassDone(device, payload, mtu, gattServer, outcome, log, before, calls, charValue);
    }
  }

  /**
   * The sending loop of a pass over `data` in slices of `safeChunk` bytes, run on
   * the characteristic value and the call log as values: `value` and `notified`
   * are what they hold when the loop ends, starting from `before` and `log`.
   */
  method SendFrames(device: Address, data: Bytes, safeChunk: nat, open: bool, outcome: nat -> NotifyResult,
                    before: Option<Bytes>, log: seq<PlatformCall>) returns (value: Option<Bytes>, notified: seq<PlatformCall>)
    requires safeChunk >= 1
    ensures var all := Encode(data, safeChunk);
      var k := FramesReached(|all|, open, outcome);
      && k <= |all|
      && value == (if k == 0 then before else Some(all[k - 1]))
      && notified == log + (if open then NotifyCalls(device, all[..k], outcome) else [])
  {
    var total := FrameCount(|data|, safeChunk);
    var seqNo, pos := 0, 0;
    ghost var all := Encode(data, safeChunk);
    value, notified := before, log;
    while pos < |data|
      invariant seqNo <= |all| && pos == Min(Start(seqNo, safeChunk), |data|)
      invariant seqNo == 0 ==> value == before
      invariant seqNo > 0 ==> value == Some(all[seqNo - 1])
      invariant open ==> seqNo <= FirstThrow(outcome, 0, |all|)
      invariant open ==> notified == log + NotifyCalls(device, all[..seqNo], outcome)
      invariant !open ==> notified == log
      decreases |data| - pos
    {
      var len := Min(safeChunk, |data| - pos);
      var frame := Header(seqNo, total, len) + data[pos..pos + len];
      CursorStep(data, safeChunk, seqNo, pos);
      value := Some(frame);
      if open {
        ThrowStep(outcome, |all|, seqNo);
        NotifiedStep(device, all, seqNo, outcome, log, notified, frame);
        var result := outcome(seqNo);
        notified := notified + [Notify(device, frame, result)];
        if result == SecurityError {
          return;
        }
      }
      pos, seqNo := pos + len, seqNo + 1;
    }
    CursorExit(data, safeChunk, seqNo);
  }

  /** Notifying frame k of the pass extends the log by its call. */
  lemma NotifiedStep(device: Address, all: seq<Bytes>, k: nat, outcome: nat -> NotifyResult,
                     log: seq<PlatformCall>, notified: seq<PlatformCall>, frame: Bytes)
    requires k < |all| && frame == all[k]
    requires notified == log + NotifyCalls(device, all[..k], outcome)
    ensures notified + [Notify(device, frame, outcome(k))] == log + NotifyCalls(device, all[..k + 1], outcome)
  {
    NotifyCallsSnoc(device, all, k, outcome);
  }

  lemma NotifyCallsSnoc(device: Address, frames: seq<Bytes>, k: nat, outcome: nat -> NotifyResult)
    requires k < |frames|
    ensures NotifyCalls(device, frames[..k + 1], outcome) == NotifyCalls(device, frames[..k], outcome) + [Notify(device, frames[k], outcome(k))]
  {
  }

  /**
   * A step of the sending loop with no throw before frame `s`: frame `s` either
   * throws, and the pass reaches exactly `s + 1` frames, or it does not.
   */
  lemma ThrowStep(outcome: nat -> NotifyResult, n: nat, s: nat)
    requires s < n && s <= FirstThrow(outcome, 0, n)
    ensures outcome(s) == SecurityError ==> FramesReached(n, true, outcome) == s + 1
    ensures outcome(s) != SecurityError ==> s + 1 <= FirstThrow(outcome, 0, n)
  {
    FirstThrowIsFirst(outcome, 0, n);
  }

  /** What the sending loop leaves behind is what one pass specifies. */
  lemma PassDone(device: Address, p: Bytes, mtu: int, open: bool, outcome: nat -> NotifyResult,
                 log: seq<PlatformCall>, before: Option<Bytes>, calls: seq<PlatformCall>, value: Option<Bytes>)
    requires mtu >= 4
    requires var all := Encode(p, ChunkSize(mtu));
      var k := FramesReached(|all|, open, outcome);
      && k <= |all|
      && value == (if k == 0 then before else Some(all[k - 1]))
      && calls == log + (if open then NotifyCalls(device, all[..k], outcome) else [])
    ensures calls == log + PassCalls(device, p, mtu, open, outcome)
    ensures value == LastFrame(before, PassFrames(p, mtu, open, outcome))
  {
  }

  function OpenCalls(connectPerm: bool, serverOpens: bool): seq<PlatformCall>
  {
    if !connectPerm then [] else if serverOpens then [OpenGattServerCall, AddServiceCall] else [OpenGattServerCall]
  }

  function AdvertiseCalls(advertisePerm: bool, advertiser: bool, unixSeconds: int): seq<PlatformCall>
  {
    if advertisePerm && advertiser then [StartAdvertisingCall(Advertisement.StartRequest(unixSeconds))] else []
  }

  function StopCalls(connectPerm: bool, advertisePerm: bool, advertiser: bool, gattServer: bool): seq<PlatformCall>
  {
    (if advertisePerm && advertiser then [StopAdvertisingCall] else [])
    + (if connectPerm && gattServer then [CloseGattServerCall] else [])
  }
}
