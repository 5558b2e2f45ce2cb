/**
 * What the service advertises. The primary record carries only manufacturer
 * data filed under 0xFFFF:
 *
 *   offset 0:    version  = 0x01
 *   offset 1..6: tag      = ASCII "PALMKI"
 *   offset 7..8: counter  = (unix seconds and 0xFFFF), little-endian
 *
 * and the 128-bit service UUID travels in the scan response, keeping each
 * record inside the 31 bytes of legacy advertising data.
 */
module Advertisement {
  import opened Wrappers
  import opened Bytes
  import opened Gatt

  const Version: byte := 0x01
  const AdvertisingTag: string := "PALMKI"
  /** Manufacturer identifier the data is filed under (0xFFFF: no company assigned). */
  const ManufacturerId: int := 0xFFFF
  const PayloadSize: nat := 9

  /** The tag's bytes: 'P' 'A' 'L' 'M' 'K' 'I'. */
  lemma TagBytes()
    ensures Utf8(AdvertisingTag) == [0x50, 0x41, 0x4C, 0x4D, 0x4B, 0x49]
  {
    Utf8Ascii(AdvertisingTag);
  }

  /**
   * The counter is the seconds masked to 16 bits, narrowed to a signed 16-bit
   * Short and widened back (sign-extending) before each byte is taken by mask and
   * shift. Dafny's `%` and `/` by a positive constant are the two's complement
   * mask and the arithmetic shift, so the steps are written out as they happen.
   */
  function ManufacturerPayload(unixSeconds: int): (r: Bytes)
    ensures |r| == PayloadSize
    ensures r[0] == Version
    ensures r[1..7] == [0x50, 0x41, 0x4C, 0x4D, 0x4B, 0x49]
    ensures ReadU16LE(r, 7) == unixSeconds % 0x1_0000
  {
    TagBytes();
    var counter := unixSeconds % 0x1_0000;
    var asShort := if counter >= 0x8000 then counter - 0x1_0000 else counter;
    CounterBytes(counter, asShort);
    [Version] + Utf8(AdvertisingTag) + [asShort % 256, (asShort / 256) % 256]
  }

  /** Sign extension through the Short does not change the two bytes sent. */
  lemma CounterBytes(counter: int, asShort: int)
    requires 0 <= counter < 0x1_0000
    requires asShort == if counter >= 0x8000 then counter - 0x1_0000 else counter
    ensures asShort % 256 + 256 * ((asShort / 256) % 256) == counter
  {
    var lo, hi := counter % 256, counter / 256;
    assert counter == 256 * hi + lo;
    if counter >= 0x8000 {
      assert asShort == 256 * (hi - 256) + lo;
      assert asShort / 256 == hi - 256;
      assert asShort % 256 == lo;
      assert (hi - 256) % 256 == hi;
    }
  }

  /** Bytes of advertising data a legacy advertisement or scan response may carry. */
  const LegacyDataLimit: nat := 31
  /** The Flags structure the stack prepends to connectable advertising data. */
  const FlagsFieldBytes: nat := 3
  /** Length and type bytes at the head of every AD structure. */
  const FieldOverhead: nat := 2

  /**
   * The request made at start-up: connectable, the primary record holding only the
   * manufacturer data for `unixSeconds` under ManufacturerId, the scan response
   * holding only the service UUID.
   */
  function StartRequest(unixSeconds: int): (r: AdvertiseRequest)
    ensures r.connectable
    ensures r.primary.manufacturer == Some((ManufacturerId, ManufacturerPayload(unixSeconds)))
    ensures ServiceUuid !in r.primary.serviceUuids && ServiceUuid in r.scanResponse.serviceUuids
  {
    AdvertiseRequest(
      true,
      AdvertiseData(Some((ManufacturerId, ManufacturerPayload(unixSeconds))), []),
      AdvertiseData(None, [ServiceUuid]))
  }

  /**
   * Bytes a record takes on air: each AD structure is a length byte, a type byte
   * and its data (a 2-byte company identifier before manufacturer data, 16 bytes
   * per 128-bit UUID), plus the Flags structure when `withFlags`.
   */
  function DataSize(d: AdvertiseData, withFlags: bool): nat
  {
    (if withFlags then FlagsFieldBytes else 0)
    + (if d.manufacturer.Some? then FieldOverhead + 2 + |d.manufacturer.value.1| else 0)
    + (if d.serviceUuids != [] then FieldOverhead + 16 * |d.serviceUuids| else 0)
  }

  /**
   * Both records of the start request fit legacy advertising, the primary one with
   * the Flags the stack adds; putting the service UUID into the primary record as
   * well would overflow it.
   */
  lemma StartRequestFits(unixSeconds: int)
    ensures var r := StartRequest(unixSeconds);
      && DataSize(r.primary, r.connectable) == 16 <= LegacyDataLimit
      && DataSize(r.scanResponse, false) == 18 <= LegacyDataLimit
      && DataSize(r.primary.(serviceUuids := [ServiceUuid]), r.connectable) > LegacyDataLimit
  {
  }
}
