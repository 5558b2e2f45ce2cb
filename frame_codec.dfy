/**
 * The notification framing of the BLE data path. A payload is cut into contiguous
 * slices of `chunk` bytes (the last one possibly shorter); slice k travels as
 *
 *   offset 0: seq    uint16 LE   (k, masked to 16 bits)
 *   offset 2: total  uint16 LE   (ceil(size / chunk), masked to 16 bits)
 *   offset 4: len    uint16 LE   (bytes of data in this frame)
 *   offset 6: data[len]
 *
 * `Encode` is what one pass of the service's streaming loop pushes when nothing
 * interrupts it; `Reassemble` is the receiving central's inverse, used here to
 * state the round trip.
 */
module FrameCodec {
  import opened Wrappers
  import opened Bytes

  const HeaderSize: nat := 6
  /** Bytes of each ATT packet taken by the opcode and attribute handle. */
  const AttOverhead: int := 3
  /** Notification payload ceiling the code applies whatever the MTU. */
  const MaxNotifyChunk: nat := 244
  /** Header fields are 16 bits wide. */
  const FieldRange: nat := 0x1_0000

  function Min(a: int, b: int): int { if a < b then a else b }

  /**
   * Data bytes per notification: the MTU less the ATT overhead, capped at 244. A
   * meaningful chunk needs `mtu >= 4` (at 3 the code divides by zero).
   */
  function ChunkSize(mtu: int): (c: nat)
    requires mtu >= 4
    ensures 1 <= c <= MaxNotifyChunk
    ensures c <= mtu - AttOverhead
    ensures c == mtu - AttOverhead || c == MaxNotifyChunk
  {
    Min(mtu - AttOverhead, MaxNotifyChunk)
  }

  /** The `total` header field before masking: size over chunk, rounded up. */
  function FrameCount(size: nat, chunk: nat): (n: nat)
    requires chunk >= 1
    ensures n == 0 <==> size == 0
  {
    (size + chunk - 1) / chunk
  }

  lemma {:induction false} MulAtLeast(d: nat, c: nat)
    requires d >= 1
    ensures d * c >= c
    decreases d
  {
    if d > 1 {
      MulAtLeast(d - 1, c);
      assert d * c == (d - 1) * c + c;
    }
  }

  /** Euclidean division is determined by a quotient and a remainder below the divisor. */
  lemma DivUnique(x: nat, c: nat, q: nat, r: nat)
    requires c >= 1 && r < c && x == q * c + r
    ensures x / c == q && x % c == r
  {
    var q', r' := x / c, x % c;
    assert x == q' * c + r';
    if q' > q {
      var d := q' - q;
      MulAtLeast(d, c);
      assert false;
    } else if q' < q {
      var d := q - q';
      MulAtLeast(d, c);
      assert false;
    }
  }

  /** FrameCount is the ceiling of size / chunk: the fewest frames of `chunk` bytes that hold the payload. */
  lemma FrameCountIsCeiling(size: nat, chunk: nat)
    requires chunk >= 1
    ensures size > 0 ==> (FrameCount(size, chunk) - 1) * chunk < size <= FrameCount(size, chunk) * chunk
  {
    var n := FrameCount(size, chunk);
    var r := (size + chunk - 1) % chunk;
    assert size + chunk - 1 == n * chunk + r;
    if size > 0 {
      assert (n - 1) * chunk == n * chunk - chunk;
    }
  }

  /** The slices the loop walks over: each is `chunk` bytes or what remains, whichever is less. */
  function Chunks(p: Bytes, chunk: nat): (cs: seq<Bytes>)
    requires chunk >= 1
    ensures cs == [] <==> p == []
    decreases |p|
  {
    if |p| == 0 then []
    else
      var len := Min(chunk, |p|);
      [p[..len]] + Chunks(p[len..], chunk)
  }

  function Concat(cs: seq<Bytes>): Bytes
  {
    if cs == [] then [] else cs[0] + Concat(cs[1..])
  }

  lemma {:induction false} ConcatAppend(a: seq<Bytes>, b: seq<Bytes>)
    ensures Concat(a + b) == Concat(a) + Concat(b)
  {
    if a != [] {
      assert (a + b)[1..] == a[1..] + b;
      ConcatAppend(a[1..], b);
    } else {
      assert a + b == b;
    }
  }

  /** There are exactly `total` slices. */
  lemma {:induction false} ChunksCount(p: Bytes, chunk: nat)
    requires chunk >= 1
    ensures |Chunks(p, chunk)| == FrameCount(|p|, chunk)
    decreases |p|
  {
    if |p| > 0 {
      var len := Min(chunk, |p|);
      assert Chunks(p, chunk) == [p[..len]] + Chunks(p[len..], chunk);
      ChunksCount(p[len..], chunk);
      FrameCountStep(|p|, chunk);
    }
  }

  /** Taking one slice off a non-empty payload takes one off the frame count. */
  lemma FrameCountStep(size: nat, chunk: nat)
    requires chunk >= 1 && size > 0
    ensures FrameCount(size, chunk) == FrameCount(size - Min(chunk, size), chunk) + 1
  {
    if size <= chunk {
      DivUnique(size + chunk - 1, chunk, 1, size - 1);
    } else {
      var x := size - 1;
      DivUnique(x + chunk, chunk, x / chunk + 1, x % chunk);
    }
  }

  /** The slices, put back together, are the payload. */
  lemma {:induction false} ChunksConcat(p: Bytes, chunk: nat)
    requires chunk >= 1
    ensures Concat(Chunks(p, chunk)) == p
    decreases |p|
  {
    if |p| > 0 {
      var len := Min(chunk, |p|);
      ChunksConcat(p[len..], chunk);
      assert p == p[..len] + p[len..];
    }
  }

  /**
   * Slice k starts at byte k * chunk and is `min(chunk, size - k * chunk)` long:
   * at least one byte, at most `chunk`, and a full `chunk` for every slice but the last.
   */
  lemma ChunkAt(p: Bytes, chunk: nat, k: nat)
    requires chunk >= 1
    requires k < |Chunks(p, chunk)|
    ensures k * chunk < |p|
    ensures Chunks(p, chunk)[k] == p[k * chunk .. k * chunk + Min(chunk, |p| - k * chunk)]
    ensures 1 <= |Chunks(p, chunk)[k]| <= chunk
    ensures k < |Chunks(p, chunk)| - 1 ==> |Chunks(p, chunk)[k]| == chunk
  {
    ChunkFrom(p, chunk, k);
    StartIsProduct(k, chunk);
    ChunkLength(p, chunk, k);
  }

  /** Where slice k starts, counted the way the loop advances `pos`. */
  function Start(k: nat, chunk: nat): nat
  {
    if k == 0 then 0 else Start(k - 1, chunk) + chunk
  }

  lemma {:induction false} StartIsProduct(k: nat, chunk: nat)
    ensures Start(k, chunk) == k * chunk
  {
    if k > 0 {
      StartIsProduct(k - 1, chunk);
      assert k * chunk == (k - 1) * chunk + chunk;
    }
  }

  /** A slice of a suffix is a slice of the whole, shifted. */
  lemma SliceShift(p: Bytes, a: nat, i: nat, j: nat)
    requires a <= |p| && i <= j <= |p| - a
    ensures p[a..][i..j] == p[a + i .. a + j]
  {
  }

  lemma {:induction false} ChunkFrom(p: Bytes, chunk: nat, k: nat)
    requires chunk >= 1
    requires k < |Chunks(p, chunk)|
    ensures Start(k, chunk) < |p|
    ensures Chunks(p, chunk)[k] == p[Start(k, chunk) .. Start(k, chunk) + Min(chunk, |p| - Start(k, chunk))]
    decreases k
  {
    var len := Min(chunk, |p|);
    var rest := p[len..];
    assert Chunks(p, chunk) == [p[..len]] + Chunks(rest, chunk);
    if k > 0 {
      ChunkFrom(rest, chunk, k - 1);
      var s := Start(k - 1, chunk);
      assert len == chunk;
      assert Chunks(p, chunk)[k] == Chunks(rest, chunk)[k - 1];
      SliceShift(p, chunk, s, s + Min(chunk, |rest| - s));
    }
  }

  /** Every slice holds 1 to `chunk` bytes, and all but the last exactly `chunk`. */
  lemma ChunkLength(p: Bytes, chunk: nat, k: nat)
    requires chunk >= 1
    requires k < |Chunks(p, chunk)|
    ensures 1 <= |Chunks(p, chunk)[k]| <= chunk
    ensures k < |Chunks(p, chunk)| - 1 ==> |Chunks(p, chunk)[k]| == chunk
  {
    ChunkFrom(p, chunk, k);
    if k < |Chunks(p, chunk)| - 1 {
      ChunkFull(p, chunk, k);
    }
  }

  /** Every slice but the last is a full `chunk`. */
  lemma ChunkFull(p: Bytes, chunk: nat, k: nat)
    requires chunk >= 1
    requires k + 1 < |Chunks(p, chunk)|
    ensures |Chunks(p, chunk)[k]| == chunk
  {
    ChunkFrom(p, chunk, k);
    ChunkFrom(p, chunk, k + 1);
  }

  /** The 6-byte header: seq, total, len, each 16-bit little-endian. */
  function Header(seqNo: nat, total: nat, len: nat): (h: Bytes)
    ensures |h| == HeaderSize
  {
    U16LE(seqNo) + U16LE(total) + U16LE(len)
  }

  /** Each header field reads back as the value written, reduced to 16 bits. */
  lemma HeaderFields(seqNo: nat, total: nat, len: nat)
    ensures var h := Header(seqNo, total, len);
      && ReadU16LE(h, 0) == seqNo % FieldRange
      && ReadU16LE(h, 2) == total % FieldRange
      && ReadU16LE(h, 4) == len % FieldRange
  {
    var s, t, l := U16LE(seqNo), U16LE(total), U16LE(len);
    U16LERoundTrip(seqNo);
    U16LERoundTrip(total);
    U16LERoundTrip(len);
    assert Header(seqNo, total, len) == s + t + l;
  }

  /** The value one notification carries: the header, then the data. */
  function EncodeFrame(seqNo: nat, total: nat, data: Bytes): (f: Bytes)
    ensures |f| == HeaderSize + |data|
    ensures f[HeaderSize..] == data
  {
    Header(seqNo, total, |data|) + data
  }

  /** Every frame of one uninterrupted pass, in the order the loop sends them. */
  function Encode(p: Bytes, chunk: nat): (frames: seq<Bytes>)
    requires chunk >= 1
    ensures |frames| == FrameCount(|p|, chunk) == |Chunks(p, chunk)|
  {
    var cs := Chunks(p, chunk);
    var total := FrameCount(|p|, chunk);
    ChunksCount(p, chunk);
    EncodeFrom(cs, total, 0)
  }

  /** The frames for slices `cs`, numbered from `k`. */
  function EncodeFrom(cs: seq<Bytes>, total: nat, k: nat): (frames: seq<Bytes>)
    ensures |frames| == |cs|
  {
    if cs == [] then [] else [EncodeFrame(k, total, cs[0])] + EncodeFrom(cs[1..], total, k + 1)
  }

  /** Frame i of `EncodeFrom(cs, total, k)` carries slice i under number k + i. */
  lemma {:induction false} EncodeFromAt(cs: seq<Bytes>, total: nat, k: nat, i: nat)
    requires i < |cs|
    ensures EncodeFrom(cs, total, k)[i] == EncodeFrame(k + i, total, cs[i])
    decreases i
  {
    if i > 0 {
      EncodeFromAt(cs[1..], total, k + 1, i - 1);
    }
  }

  /** Frame k is its 6-byte header followed by slice k. */
  lemma FrameBytes(p: Bytes, chunk: nat, k: nat)
    requires chunk >= 1 && k < |Chunks(p, chunk)|
    ensures Encode(p, chunk)[k] == Header(k, FrameCount(|p|, chunk), |Chunks(p, chunk)[k]|) + Chunks(p, chunk)[k]
  {
    EncodeFromAt(Chunks(p, chunk), FrameCount(|p|, chunk), 0, k);
  }

  /** A slice starts wherever `Start` stays inside the payload. */
  lemma {:induction false} StartInside(p: Bytes, chunk: nat, k: nat)
    requires chunk >= 1 && Start(k, chunk) < |p|
    ensures k < |Chunks(p, chunk)|
    decreases k
  {
    var len := Min(chunk, |p|);
    assert Chunks(p, chunk) == [p[..len]] + Chunks(p[len..], chunk);
    if k > 0 {
      StartInside(p[len..], chunk, k - 1);
    }
  }

  /**
   * One step of the sending loop, with `pos` at `min(Start(seqNo), size)` and
   * inside the payload: the frame it builds is frame `seqNo` of the pass, and
   * `pos + len` is where the next one starts.
   */
  lemma CursorStep(p: Bytes, chunk: nat, seqNo: nat, pos: nat)
    requires chunk >= 1 && pos < |p| && pos == Min(Start(seqNo, chunk), |p|)
    ensures seqNo < |Encode(p, chunk)|
    ensures var len := Min(chunk, |p| - pos);
      && pos + len <= |p|
      && Encode(p, chunk)[seqNo] == Header(seqNo, FrameCount(|p|, chunk), len) + p[pos..pos + len]
      && pos + len == Min(Start(seqNo + 1, chunk), |p|)
  {
    StartInside(p, chunk, seqNo);
    ChunkFrom(p, chunk, seqNo);
    FrameBytes(p, chunk, seqNo);
  }

  /** Once `Start(seqNo)` passes the end, every frame of the pass has been built. */
  lemma CursorExit(p: Bytes, chunk: nat, seqNo: nat)
    requires chunk >= 1 && seqNo <= |Encode(p, chunk)| && |p| <= Start(seqNo, chunk)
    ensures seqNo == |Encode(p, chunk)|
  {
    if seqNo < |Chunks(p, chunk)| {
      ChunkFrom(p, chunk, seqNo);
    }
  }

  /** A frame as a receiver reads it. */
  datatype Frame = Frame(seqNo: nat, total: nat, data: Bytes)

  /** Parses a header and checks that exactly `len` data bytes follow it. */
  function DecodeFrame(f: Bytes): (r: Option<Frame>)
    ensures r.Some? ==> |f| == HeaderSize + |r.value.data| && r.value.data == f[HeaderSize..]
  {
    if |f| < HeaderSize then None
    else if |f| != HeaderSize + ReadU16LE(f, 4) then None
    else Some(Frame(ReadU16LE(f, 0), ReadU16LE(f, 2), f[HeaderSize..]))
  }

  /** A frame reads back as written, with seq and total reduced to 16 bits. */
  lemma DecodeEncodeFrame(seqNo: nat, total: nat, data: Bytes)
    requires |data| < FieldRange
    ensures DecodeFrame(EncodeFrame(seqNo, total, data)) == Some(Frame(seqNo % FieldRange, total % FieldRange, data))
  {
    var f := EncodeFrame(seqNo, total, data);
    var h := Header(seqNo, total, |data|);
    HeaderFields(seqNo, total, |data|);
    assert f[..HeaderSize] == h;
    assert ReadU16LE(f, 0) == ReadU16LE(h, 0);
    assert ReadU16LE(f, 2) == ReadU16LE(h, 2);
    assert ReadU16LE(f, 4) == ReadU16LE(h, 4);
  }

  /**
   * What frame k of a pass says about itself: seq k and the common total (both
   * modulo 2^16), and `len` data bytes that are the k-th slice of the payload
   * (where that slice lies is ChunkAt), with 1 <= len <= chunk and len == chunk
   * on every frame but the last.
   */
  lemma FrameLayout(p: Bytes, chunk: nat, k: nat)
    requires 1 <= chunk <= MaxNotifyChunk
    requires k < |Encode(p, chunk)|
    ensures var f := DecodeFrame(Encode(p, chunk)[k]);
      && f.Some?
      && f.value.seqNo == k % FieldRange
      && f.value.total == FrameCount(|p|, chunk) % FieldRange
      && f.value.data == Chunks(p, chunk)[k]
      && 1 <= |f.value.data| <= chunk
      && (k < |Encode(p, chunk)| - 1 ==> |f.value.data| == chunk)
  {
    var cs := Chunks(p, chunk);
    EncodeFromAt(cs, FrameCount(|p|, chunk), 0, k);
    ChunkLength(p, chunk, k);
    DecodeEncodeFrame(k, FrameCount(|p|, chunk), cs[k]);
  }

  /**
   * The receiver: accepts frames in arrival order when frame i announces seq i
   * and the same total as the number of frames received, and joins their data.
   */
  function Reassemble(frames: seq<Bytes>): (r: Option<Bytes>)
    ensures r.Some? ==> forall i :: 0 <= i < |frames| ==> Accepted(frames[i], i, |frames|)
  {
    ReassembleUpTo(frames, |frames|, |frames|)
  }

  /** Frame `f` parses, announces seq `i` and announces `total` frames. */
  predicate Accepted(f: Bytes, i: nat, total: nat)
  {
    var d := DecodeFrame(f);
    d.Some? && d.value.seqNo == i && d.value.total == total
  }

  function ReassembleUpTo(frames: seq<Bytes>, total: nat, n: nat): (r: Option<Bytes>)
    requires n <= |frames|
    ensures r.Some? ==> forall i :: 0 <= i < n ==> Accepted(frames[i], i, total)
  {
    if n == 0 then Some([])
    else
      match (ReassembleUpTo(frames, total, n - 1), DecodeFrame(frames[n - 1]))
      case (Some(prefix), Some(f)) =>
        if f.seqNo == n - 1 && f.total == total then Some(prefix + f.data) else None
      case _ => None
  }

  /** Below 2^16 frames the header fields are exact. */
  lemma FrameExact(p: Bytes, chunk: nat, k: nat)
    requires 1 <= chunk <= MaxNotifyChunk
    requires k < FrameCount(|p|, chunk) < FieldRange
    ensures k < |Chunks(p, chunk)|
    ensures DecodeFrame(Encode(p, chunk)[k]) == Some(Frame(k, FrameCount(|p|, chunk), Chunks(p, chunk)[k]))
  {
    var n := FrameCount(|p|, chunk);
    FrameLayout(p, chunk, k);
    DivUnique(k, FieldRange, 0, k);
    DivUnique(n, FieldRange, 0, n);
  }

  lemma ReassembleStep(frames: seq<Bytes>, total: nat, m: nat, prefix: Bytes, f: Frame)
    requires 0 < m <= |frames|
    requires ReassembleUpTo(frames, total, m - 1) == Some(prefix)
    requires DecodeFrame(frames[m - 1]) == Some(f) && f.seqNo == m - 1 && f.total == total
    ensures ReassembleUpTo(frames, total, m) == Some(prefix + f.data)
  {
  }

  lemma {:induction false} ReassembleUpToEncode(p: Bytes, chunk: nat, m: nat)
    requires 1 <= chunk <= MaxNotifyChunk
    requires FrameCount(|p|, chunk) < FieldRange
    requires m <= FrameCount(|p|, chunk)
    ensures m <= |Chunks(p, chunk)|
    ensures ReassembleUpTo(Encode(p, chunk), FrameCount(|p|, chunk), m) == Some(Concat(Chunks(p, chunk)[..m]))
  {
    var frames, n, cs := Encode(p, chunk), FrameCount(|p|, chunk), Chunks(p, chunk);
    if m > 0 {
      ReassembleUpToEncode(p, chunk, m - 1);
      FrameExact(p, chunk, m - 1);
      ReassembleStep(frames, n, m, Concat(cs[..m - 1]), Frame(m - 1, n, cs[m - 1]));
      ConcatSnoc(cs, m);
    } else {
      assert cs[..0] == [];
    }
  }

  lemma ConcatSnoc(cs: seq<Bytes>, m: nat)
    requires 0 < m <= |cs|
    ensures Concat(cs[..m]) == Concat(cs[..m - 1]) + cs[m - 1]
  {
    assert cs[..m] == cs[..m - 1] + [cs[m - 1]];
    ConcatAppend(cs[..m - 1], [cs[m - 1]]);
    assert Concat([cs[m - 1]]) == cs[m - 1];
  }

  lemma {:induction false} ReassembleFailurePersists(frames: seq<Bytes>, total: nat, m: nat, n: nat)
    requires m <= n <= |frames|
    requires ReassembleUpTo(frames, total, m).None?
    ensures ReassembleUpTo(frames, total, n).None?
    decreases n - m
  {
    if m < n {
      ReassembleFailurePersists(frames, total, m, n - 1);
    }
  }

  /**
   * Round trip: the receiver rebuilds the payload from one complete pass exactly
   * when the pass has at most 65535 frames; beyond that the masked `total` field
   * no longer matches and the transfer cannot be reassembled.
   */
  lemma RoundTrip(p: Bytes, chunk: nat)
    requires 1 <= chunk <= MaxNotifyChunk
    ensures FrameCount(|p|, chunk) < FieldRange ==> Reassemble(Encode(p, chunk)) == Some(p)
    ensures FrameCount(|p|, chunk) >= FieldRange ==> Reassemble(Encode(p, chunk)).None?
  {
    var n := FrameCount(|p|, chunk);
    ChunksCount(p, chunk);
    if n < FieldRange {
      ReassembleUpToEncode(p, chunk, n);
      assert Chunks(p, chunk)[..n] == Chunks(p, chunk);
      ChunksConcat(p, chunk);
    } else {
      FrameLayout(p, chunk, 0);
      assert ReassembleUpTo(Encode(p, chunk), n, 1).None?;
      ReassembleFailurePersists(Encode(p, chunk), n, 1, n);
    }
  }

  /** An empty payload gives an empty pass, and the receiver reads back nothing. */
  lemma EmptyPayload(chunk: nat)
    requires chunk >= 1
    ensures Encode([], chunk) == []
    ensures Reassemble([]) == Some([])
  {
  }

  /**
   * A pass cut short (the loop left after frame m - 1 of n, n < 2^16) is rejected
   * by the receiver: every header announces n frames.
   */
  lemma TruncatedPassRejected(p: Bytes, chunk: nat, m: nat)
    requires 1 <= chunk <= MaxNotifyChunk
    requires 0 < m < FrameCount(|p|, chunk) < FieldRange
    ensures Reassemble(Encode(p, chunk)[..m]).None?
  {
    var cut := Encode(p, chunk)[..m];
    FrameLayout(p, chunk, 0);
    assert cut[0] == Encode(p, chunk)[0];
    assert ReassembleUpTo(cut, m, 1).None?;
    ReassembleFailurePersists(cut, m, 1, m);
  }
}

/** Worked examples of the framing rules. */
module FramingExamples {
  import opened Bytes
  import opened FrameCodec
  import opened Wrappers

  /** Chunk sizes for common MTUs: 23 -> 20, 100 -> 97, 185 -> 182, 512 -> 244. */
  lemma ChunkSizeExamples()
    ensures ChunkSize(23) == 20 && ChunkSize(100) == 97
    ensures ChunkSize(185) == 182 && ChunkSize(512) == 244
  {
  }

  /**
   * 600 bytes at the default MTU of 185: four frames of 182, 182, 182 and 54 bytes,
   * announcing seq 0 to 3 and total 4.
   */
  lemma SixHundredBytesAtDefaultMtu(p: Bytes)
    requires |p| == 600
    ensures |Encode(p, ChunkSize(185))| == 4
    ensures forall k :: 0 <= k < 3 ==> |Chunks(p, 182)[k]| == 182
    ensures |Chunks(p, 182)[3]| == 54
    ensures forall k :: 0 <= k < 4 ==> DecodeFrame(Encode(p, 182)[k]) == Some(Frame(k, 4, Chunks(p, 182)[k]))
  {
    DivUnique(600 + 182 - 1, 182, 4, 53);
    ChunksCount(p, 182);
    forall k | 0 <= k < 3 ensures |Chunks(p, 182)[k]| == 182 {
      ChunkAt(p, 182, k);
    }
    ChunkAt(p, 182, 3);
    forall k | 0 <= k < 4 ensures DecodeFrame(Encode(p, 182)[k]) == Some(Frame(k, 4, Chunks(p, 182)[k])) {
      FrameExact(p, 182, k);
    }
  }

  /**
   * Past 65536 frames the sequence numbers repeat: frame 65536 announces seq 0,
   * like frame 0.
   */
  lemma SequenceNumbersWrap(p: Bytes, chunk: nat)
    requires 1 <= chunk <= MaxNotifyChunk
    requires FrameCount(|p|, chunk) > FieldRange
    ensures var f0, fw := DecodeFrame(Encode(p, chunk)[0]), DecodeFrame(Encode(p, chunk)[FieldRange]);
      f0.Some? && fw.Some? && f0.value.seqNo == fw.value.seqNo == 0
  {
    FrameLayout(p, chunk, FieldRange);
    FrameLayout(p, chunk, 0);
    DivUnique(FieldRange, FieldRange, 1, 0);
  }
}
