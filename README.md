# palm-app BLE peripheral, modelled in Dafny

The palm-app phone acts as a Bluetooth Low Energy peripheral. It serves one payload
(the scanned palm/QR data) to a central in two ways:

- `BlePeripheralService` is a foreground service.
  - It advertises, connectably, a 9-byte manufacturer record under company id 0xFFFF, with the service UUID in the scan response. The record is version 0x01, the ASCII tag "PALMKI", and a 16-bit rolling counter of Unix seconds.
  - It opens a GATT server with a single data characteristic.
  - When a central writes "enable notifications" to the characteristic's CCCD, the service streams the payload as a pass of framed notifications. Each frame is a 6-byte little-endian header (`seq`, `total`, `len`) followed by a contiguous slice of at most `min(mtu - 3, 244)` bytes.
  - The start, update and stop commands replace the payload, bring the stack up, and tear it down.
- `BleAdvertisingFragment` is an older GATT server that lives inside the advertising screen.
  - It serves the QR text as a read-only characteristic, sliced at the requested offset.
  - It refuses every other request.
  - It tracks `isAdvertising`, the open server and the connected device.

The model works as follows:

- Calls into the Android Bluetooth stack are recorded in an append-only `calls` log. Each call is a `Gatt.PlatformCall`.
- Inputs are parameters:
  - permission checks;
  - whether the platform handed out an advertiser or a server;
  - the clock;
  - what each notification did (`outcome: nat -> NotifyResult`: delivered, returned `false`, or threw `SecurityException`).
- The framing is specified by the pure `FrameCodec.Encode`. Its partner is a receiver, `FrameCodec.Reassemble`. The round trip between the two is proved.
- The streaming loop is a `while` loop, proved against `Encode` and the point where a pass stops.

Modules:

- `Wrappers`: `Option`.
- `Bytes`: bytes, 16-bit little-endian fields, UTF-8.
- `Gatt`: UUIDs, status codes, the call log.
- `FrameCodec` and `FramingExamples`: the notification wire format.
- `Advertisement`: the manufacturer record and the advertising request.
- `PeripheralService`: class `BlePeripheralService`.
- `AdvertisingFragment`: class `BleAdvertisingFragment`.

## Model

| member | source | states |
|---|---|---|
| Bytes.U16LE | app/src/main/java/com/example/palm_app/ble/BlePeripheralService.kt:244-246 | A field is written as exactly two bytes. |
| Bytes.Utf8 | app/src/main/java/com/example/palm_app/ble/BlePeripheralService.kt:71 | A string's UTF-8 bytes number at least one and at most four per character. |
| Bytes.U16LERoundTrip | app/src/main/java/com/example/palm_app/ble/BlePeripheralService.kt:243-246 | The two bytes written for a field are its low 16 bits, low byte first: reading them back gives the value modulo 2^16. |
| Bytes.Utf8Ascii | app/src/main/java/com/example/palm_app/ble/BlePeripheralService.kt:266 | UTF-8 of ASCII text is one byte per character, each byte that character's code. |
| FrameCodec.ChunkSize | app/src/main/java/com/example/palm_app/ble/BlePeripheralService.kt:237 | For mtu >= 4 the chunk is between 1 and 244, never more than mtu - 3, and equal to one of those two bounds. |
| FrameCodec.FrameCount | app/src/main/java/com/example/palm_app/ble/BlePeripheralService.kt:238 | `total` is zero exactly when the payload is empty. |
| FrameCodec.FrameCountIsCeiling | app/src/main/java/com/example/palm_app/ble/BlePeripheralService.kt:238 | For a non-empty payload `total` is ceil(size / chunk): (total - 1) * chunk < size <= total * chunk. |
| FrameCodec.Chunks | app/src/main/java/com/example/palm_app/ble/BlePeripheralService.kt:241-242 | The loop walks over no slice at all exactly when the payload is empty. |
| FrameCodec.ChunksCount | app/src/main/java/com/example/palm_app/ble/BlePeripheralService.kt:238-242 | The loop's slices are exactly `total` in number. |
| FrameCodec.ChunksConcat | app/src/main/java/com/example/palm_app/ble/BlePeripheralService.kt:241-258 | The slices, joined in order, are the payload. |
| FrameCodec.ChunkAt | app/src/main/java/com/example/palm_app/ble/BlePeripheralService.kt:242-258 | Slice k starts at k * chunk and runs for min(chunk, size - k * chunk) bytes. It holds 1 to chunk bytes, and a full chunk for every slice but the last. |
| FrameCodec.Header | app/src/main/java/com/example/palm_app/ble/BlePeripheralService.kt:243-247 | The header is always 6 bytes. |
| FrameCodec.HeaderFields | app/src/main/java/com/example/palm_app/ble/BlePeripheralService.kt:243-246 | Each of the header's seq, total and len fields reads back, little-endian, as the value written modulo 2^16. |
| FrameCodec.EncodeFrame | app/src/main/java/com/example/palm_app/ble/BlePeripheralService.kt:248 | A frame is 6 + len bytes, and what follows the header is exactly the data. |
| FrameCodec.Encode | app/src/main/java/com/example/palm_app/ble/BlePeripheralService.kt:238-258 | An uninterrupted pass has exactly `total` frames, one per slice. |
| FrameCodec.DecodeFrame | app/src/main/java/com/example/palm_app/ble/BlePeripheralService.kt:243-248 | The receiving central's parser, which models no Kotlin line but reads the format written there: a frame it accepts is the 6-byte header followed by exactly its data bytes. |
| FrameCodec.Reassemble | app/src/main/java/com/example/palm_app/ble/BlePeripheralService.kt:243-248 | The receiving central's reassembly, which models no Kotlin line: it accepts a pass only when every frame i parses and announces seq i and the number of frames received. |
| FrameCodec.DecodeEncodeFrame | app/src/main/java/com/example/palm_app/ble/BlePeripheralService.kt:243-248 | The receiver's frame parser recovers seq and total modulo 2^16 and the data bytes of any frame written. |
| FrameCodec.FrameLayout | app/src/main/java/com/example/palm_app/ble/BlePeripheralService.kt:241-258 | Frame k parses and announces seq k and the common total (both modulo 2^16). Its data is slice k, with 1 <= len <= chunk and len == chunk on every frame but the last. |
| FrameCodec.CursorStep | app/src/main/java/com/example/palm_app/ble/BlePeripheralService.kt:241-258 | One loop step, with pos at the start of slice seqNo, builds exactly frame seqNo of the pass and advances pos to the start of the next slice. |
| FrameCodec.CursorExit | app/src/main/java/com/example/palm_app/ble/BlePeripheralService.kt:241 | When the loop condition fails, every frame of the pass has been built. |
| FrameCodec.RoundTrip | app/src/main/java/com/example/palm_app/ble/BlePeripheralService.kt:238-258 | The receiver rebuilds the payload from a complete pass exactly when total < 65536. Beyond that the masked total disagrees and it rejects the pass. |
| FrameCodec.EmptyPayload | app/src/main/java/com/example/palm_app/ble/BlePeripheralService.kt:241 | An empty payload gives no frames, and the receiver reads back an empty payload. |
| FrameCodec.TruncatedPassRejected | app/src/main/java/com/example/palm_app/ble/BlePeripheralService.kt:254-256 | A pass that stops after m of n frames (0 < m < n < 65536) is rejected by the receiver. |
| FramingExamples.ChunkSizeExamples | app/src/main/java/com/example/palm_app/ble/BlePeripheralService.kt:237 | MTU 23 gives 20, 100 gives 97, the default 185 gives 182, and 512 gives 244. |
| FramingExamples.SixHundredBytesAtDefaultMtu | app/src/main/java/com/example/palm_app/ble/BlePeripheralService.kt:224-242 | 600 bytes at MTU 185 go out as four frames of 182, 182, 182 and 54 bytes, and frame k parses as seq k of total 4 carrying slice k. |
| FramingExamples.SequenceNumbersWrap | app/src/main/java/com/example/palm_app/ble/BlePeripheralService.kt:244 | With more than 65536 frames, frame 65536 announces seq 0, as frame 0 does. |
| Advertisement.TagBytes | app/src/main/java/com/example/palm_app/ble/BlePeripheralService.kt:266 | The tag "PALMKI" is the six bytes 0x50 0x41 0x4C 0x4D 0x4B 0x49. |
| Advertisement.ManufacturerPayload | app/src/main/java/com/example/palm_app/ble/BlePeripheralService.kt:263-275 | Always 9 bytes: version 0x01, then "PALMKI", then a little-endian counter that reads back as the seconds modulo 2^16 (negative clocks included). |
| Advertisement.CounterBytes | app/src/main/java/com/example/palm_app/ble/BlePeripheralService.kt:268-274 | Narrowing the counter to a signed Short and widening it back does not change the two counter bytes. |
| Advertisement.StartRequest | app/src/main/java/com/example/palm_app/ble/BlePeripheralService.kt:141-162 | The request is connectable. The primary record carries the manufacturer payload under company id 0xFFFF and no service UUID; the scan response carries the service UUID. |
| Advertisement.StartRequestFits | app/src/main/java/com/example/palm_app/ble/BlePeripheralService.kt:147-159 | The primary record takes 16 bytes and the scan response 18, both within the 31-byte legacy limit. Adding the 128-bit service UUID to the primary record would take it to 34 bytes, over the limit. |
| PeripheralService.ExtraPayload | app/src/main/java/com/example/palm_app/ble/BlePeripheralService.kt:70-71 | The stored payload is empty exactly when the extra is an empty byte array, an empty string, or missing or of another type. |
| PeripheralService.MtuFor | app/src/main/java/com/example/palm_app/ble/BlePeripheralService.kt:224 | When every recorded MTU is at least 4, so is the MTU used for any device, the default 185 included. |
| PeripheralService.EnablesNotifications | app/src/main/java/com/example/palm_app/ble/BlePeripheralService.kt:220 | Writing the standard "notifications on" value 01 00 to the CCCD starts a pass. A write that starts one targets the CCCD with at least two bytes, and is neither "indications on" (02 00) nor "off" (00 00). |
| PeripheralService.MtuForRecorded | app/src/main/java/com/example/palm_app/ble/BlePeripheralService.kt:184-187 | After an MTU report, a device's MTU is the reported value, and other devices keep theirs. A device that never reported one uses 185. |
| PeripheralService.FirstThrow | app/src/main/java/com/example/palm_app/ble/BlePeripheralService.kt:250-256 | The index of the first notification that throws lies in range, and the notification there does throw. |
| PeripheralService.FirstThrowIsFirst | app/src/main/java/com/example/palm_app/ble/BlePeripheralService.kt:250-256 | No notification before that index throws. |
| PeripheralService.PassCoverage | app/src/main/java/com/example/palm_app/ble/BlePeripheralService.kt:250-256 | A pass is a prefix of the full encoding. It is complete if and only if there is no server or no notification before the last one throws, so a `false` result never shortens it. A short pass ends at the frame that threw. |
| PeripheralService.PassWritesPayload | app/src/main/java/com/example/palm_app/ble/BlePeripheralService.kt:234-260 | With fewer than 65536 frames, the frames a pass wrote into the characteristic, notified or not, reassemble to the payload when nothing threw early, and is rejected when a throw cut it short. |
| PeripheralService.SendFrames | app/src/main/java/com/example/palm_app/ble/BlePeripheralService.kt:237-260 | The loop ends with the characteristic holding the last frame reached. The log gains one notification per frame reached, each with its outcome. The frames reached are those of `Encode` up to the first throw. |
| PeripheralService.BlePeripheralService.constructor | app/src/main/java/com/example/palm_app/ble/BlePeripheralService.kt:56-63 | Starts with an empty payload, no handles, no recorded MTUs and no calls. |
| PeripheralService.BlePeripheralService.OnStartCommand | app/src/main/java/com/example/palm_app/ble/BlePeripheralService.kt:67-85 | START and UPDATE_PAYLOAD store the byte extra, else the UTF-8 of the string extra, else empty. START then goes foreground and brings BLE up. UPDATE_PAYLOAD changes nothing else. STOP tears down and stops the service. A missing or unknown action changes nothing. |
| PeripheralService.BlePeripheralService.OnDestroy | app/src/main/java/com/example/palm_app/ble/BlePeripheralService.kt:87-90 | Tears down as `StopBle` does. |
| PeripheralService.BlePeripheralService.StartBle | app/src/main/java/com/example/palm_app/ble/BlePeripheralService.kt:92-98 | Takes the advertiser the platform offers, opens the server, then starts advertising. |
| PeripheralService.BlePeripheralService.StopBle | app/src/main/java/com/example/palm_app/ble/BlePeripheralService.kt:101-109 | Stops advertising and closes the server only when the permission allows. Both handles end up cleared on every path, so repeating it is harmless. |
| PeripheralService.BlePeripheralService.StopSelfSafely | app/src/main/java/com/example/palm_app/ble/BlePeripheralService.kt:111-115 | Tears down, leaves the foreground and stops the service. |
| PeripheralService.BlePeripheralService.OpenGattServer | app/src/main/java/com/example/palm_app/ble/BlePeripheralService.kt:118-137 | Without the permission nothing happens. A null server leaves the handles as they were; the open call is logged. Otherwise the service is added and the server and a fresh data characteristic are held. |
| PeripheralService.BlePeripheralService.StartAdvertising | app/src/main/java/com/example/palm_app/ble/BlePeripheralService.kt:139-167 | With the permission and an advertiser, advertising starts with the request `Advertisement.StartRequest` builds for the current time. Otherwise nothing happens. |
| PeripheralService.BlePeripheralService.OnMtuChanged | app/src/main/java/com/example/palm_app/ble/BlePeripheralService.kt:184-187 | Records the device's MTU, replacing any earlier one, and keeps every recorded MTU at 4 or more. |
| PeripheralService.BlePeripheralService.OnCharacteristicReadRequest | app/src/main/java/com/example/palm_app/ble/BlePeripheralService.kt:189-210 | With the permission and a server: the data characteristic is answered with the full payload, and any other characteristic with READ_NOT_PERMITTED. Otherwise no reply. |
| PeripheralService.BlePeripheralService.OnDescriptorWriteRequest | app/src/main/java/com/example/palm_app/ble/BlePeripheralService.kt:212-231 | With the permission, replies SUCCESS when asked. Only a CCCD write of two or more bytes starting 0x01 then runs one pass, at the device's recorded MTU or 185. |
| PeripheralService.BlePeripheralService.StreamNotifications | app/src/main/java/com/example/palm_app/ble/BlePeripheralService.kt:234-261 | With the permission and the characteristic, the characteristic ends with the last frame of the pass. The log gains that pass's notifications, as PassCoverage and PassWritesPayload characterise them. Otherwise nothing changes. |
| AdvertisingFragment.ReadSlice | app/src/main/java/com/example/palm_app/ui/ble_advertising/BleAdvertisingFragment.kt:149 | A read fails exactly when the offset is negative. Otherwise it answers max(0, size - offset) bytes, so an offset at or past the end gives empty. |
| AdvertisingFragment.ReadSliceContents | app/src/main/java/com/example/palm_app/ui/ble_advertising/BleAdvertisingFragment.kt:149 | For a non-negative offset, byte i of the answer is value[offset + i], and up to the end of the value the skipped prefix plus the answer is the whole value. |
| AdvertisingFragment.FailureReason | app/src/main/java/com/example/palm_app/ui/ble_advertising/BleAdvertisingFragment.kt:76-83 | "Unknown error" is the reason exactly for codes outside 1..5. |
| AdvertisingFragment.FailureReasonNamesCode | app/src/main/java/com/example/palm_app/ui/ble_advertising/BleAdvertisingFragment.kt:76-83 | The five known codes have five distinct reasons, so a known code's reason names it. |
| AdvertisingFragment.BleAdvertisingFragment.constructor | app/src/main/java/com/example/palm_app/ui/ble_advertising/BleAdvertisingFragment.kt:52-60 | Starts not advertising, with no server, no connected device and no calls, holding the QR text. |
| AdvertisingFragment.BleAdvertisingFragment.OnStartSuccess | app/src/main/java/com/example/palm_app/ui/ble_advertising/BleAdvertisingFragment.kt:63-69 | `isAdvertising` is true afterwards. |
| AdvertisingFragment.BleAdvertisingFragment.OnStartFailure | app/src/main/java/com/example/palm_app/ui/ble_advertising/BleAdvertisingFragment.kt:71-85 | `isAdvertising` is false afterwards, and the reported reason is the code's reason. |
| AdvertisingFragment.BleAdvertisingFragment.OnConnectionStateChange | app/src/main/java/com/example/palm_app/ui/ble_advertising/BleAdvertisingFragment.kt:89-109 | A connect records the device and a disconnect clears it. A null device or any other state changes nothing. |
| AdvertisingFragment.BleAdvertisingFragment.OnCharacteristicReadRequest | app/src/main/java/com/example/palm_app/ui/ble_advertising/BleAdvertisingFragment.kt:120-182 | A null device or characteristic gets GATT_FAILURE. The data characteristic gets the UTF-8 of the QR text (empty without one), sliced at the offset. Any other characteristic gets READ_NOT_PERMITTED. Nothing is sent without the permission and a server, nor for a negative offset. |
| AdvertisingFragment.BleAdvertisingFragment.OnCharacteristicWriteRequest | app/src/main/java/com/example/palm_app/ui/ble_advertising/BleAdvertisingFragment.kt:186-194 | Answers WRITE_NOT_PERMITTED only when a response is needed, with the permission and a server. |
| AdvertisingFragment.BleAdvertisingFragment.OnDescriptorReadRequest | app/src/main/java/com/example/palm_app/ui/ble_advertising/BleAdvertisingFragment.kt:196-202 | Always READ_NOT_PERMITTED, given the permission and a server. |
| AdvertisingFragment.BleAdvertisingFragment.OnDescriptorWriteRequest | app/src/main/java/com/example/palm_app/ui/ble_advertising/BleAdvertisingFragment.kt:204-212 | Answers WRITE_NOT_PERMITTED only when a response is needed, with the permission and a server. |
| AdvertisingFragment.BleAdvertisingFragment.OpenGattServer | app/src/main/java/com/example/palm_app/ui/ble_advertising/BleAdvertisingFragment.kt:353-402 | With a server already open, or without the permission, nothing happens (idempotent). A null handle or a throw leaves no server. Success holds the server and adds the service. |
| AdvertisingFragment.BleAdvertisingFragment.CloseGattServer | app/src/main/java/com/example/palm_app/ui/ble_advertising/BleAdvertisingFragment.kt:483-501 | No server is held afterwards on every path. Only the permitted path closes it and forgets the connected device. |
| AdvertisingFragment.BleAdvertisingFragment.StopBleAdvertising | app/src/main/java/com/example/palm_app/ui/ble_advertising/BleAdvertisingFragment.kt:463-481 | `isAdvertising` is false afterwards whatever happens. The stop call goes out when an advertiser is held. |
| AdvertisingFragment.BleAdvertisingFragment.OnDestroyView | app/src/main/java/com/example/palm_app/ui/ble_advertising/BleAdvertisingFragment.kt:525-542 | Stops advertising when it runs and the permission allows, then closes the server. The `isAdvertising` flag is left as it was. |

## Left out

- Concurrency is not modelled. The payload field is volatile and re-read on every loop iteration, but the model is sequential, so an UPDATE_PAYLOAD that arrives during a pass is not modelled.
- The device name is left out of both advertising records: the primary record turns it off and the scan response keeps the builder's default, which is off. The model's `AdvertiseData` therefore has no device-name field.
- The advertise mode (low latency) and the TX power level (medium) are not modelled. They affect radio timing and range, not the data sent.
- The 3 ms pause between notifications is not modelled; it affects timing only.
- Behaviour that only logs or touches the UI is not modelled:
  - the service's connection-state and advertise callbacks;
  - Toasts, buttons and navigation;
  - the permission launcher;
  - the foreground notification.
- Permission checks, SDK-version branches, the platform's handles and the clock are parameters. The clock's millisecond reading is already divided down to seconds.
- The fragment's `checkAndRequestPermissions`, `setupBluetooth` and `startBleAdvertising` are not modelled. They are UI-driven setup around the modelled lifecycle.
- PeripheralService.BlePeripheralService.StreamNotifications runs its loop (`SendFrames`) on local copies of the characteristic value and the call log. It stores them in the fields when the pass ends. A concurrent observer could see the intermediate values; nothing in a sequential run can.
- PeripheralService.BlePeripheralService.StreamNotifications requires mtu >= 4. At mtu 3 the source divides by zero, and below 3 the chunk would be negative. The Bluetooth Core Specification's minimum ATT_MTU is 23, so the platform never reports less than 4.
- PeripheralService.BlePeripheralService.OnMtuChanged requires mtu >= 4, for the same reason.
- Integers are unbounded. Kotlin `Int` overflow in `size + chunk - 1` is not modelled; it would take a payload of nearly 2^31 bytes. The 16-bit masking of the header and the counter is modelled.
- Bytes.Utf8 encodes Unicode scalar values. A Kotlin string can hold unpaired UTF-16 surrogates, which the platform encodes as '?'. That case is not modelled.
- The stack's own handling of `sendResponse`, such as applying the offset to the value, is not modelled. The model records what the code passes.
- AdvertisingFragment.BleAdvertisingFragment.OpenGattServer uses one permission value for both of its checks. The second check, in `addPalmkiService`, cannot disagree in the model. A throw from `addService` is caught in the source and is recorded here as the call having been made.
- AdvertisingFragment.BleAdvertisingFragment.OnCharacteristicReadRequest: with a negative offset the array copy throws out of the callback. The model sends nothing. What the binder thread does with the exception is not modelled.
