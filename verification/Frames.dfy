/** The on-disk record format of the write-ahead log and the scan that finds
    the complete records of a segment: a 4-byte little-endian payload length,
    the 4-byte checksum, the payload. */
module Frames {
  import opened ByteStrings
  import Crc32

  const HEADER_BYTES: nat := 8

  datatype Frame = Frame(payload: bytes, crc: nat) {
    /** The two header fields fit their width. */
    predicate Fits() {
      |payload| < U32_LIMIT && crc < U32_LIMIT
    }

    predicate Intact() {
      Crc32.Checksum(payload) == crc
    }
  }

  /** The record that `append` writes for a payload. */
  function Sealed(payload: bytes): (f: Frame)
    requires |payload| < U32_LIMIT
    ensures f.Fits() && f.Intact() && f.payload == payload
  {
    Crc32.ChecksumBound(payload);
    Frame(payload, Crc32.Checksum(payload))
  }

  function Encode(f: Frame): (b: bytes)
    ensures |b| == HEADER_BYTES + |f.payload|
  {
    LE(|f.payload|, 4) + LE(f.crc, 4) + f.payload
  }

  /** Where each header byte is: the length from byte 0, the checksum from byte
      4, both lowest byte first, and the payload from byte 8. */
  lemma EncodeLayout(f: Frame)
    ensures |Encode(f)| == 8 + |f.payload| && Encode(f)[8..] == f.payload
    ensures forall i :: 0 <= i < 4 ==> Encode(f)[i] == Digit(|f.payload|, i) && Encode(f)[4 + i] == Digit(f.crc, i)
  {
    hide LE, Digit;
    forall i | 0 <= i < 4 ensures Encode(f)[i] == Digit(|f.payload|, i) && Encode(f)[4 + i] == Digit(f.crc, i) {
      Digits(|f.payload|, 4, i);
      Digits(f.crc, 4, i);
    }
  }

  /** A whole record as the agent writes it: the one byte 255. */
  lemma KnownRecord()
    ensures Encode(Sealed([255])) == [1, 0, 0, 0, 0, 0, 0, 255, 255]
  {
    Crc32.KnownChecksums();
    hide Crc32.Checksum;
    assert LE(1, 4) == [1, 0, 0, 0] && LE(0xff00_0000, 4) == [0, 0, 0, 255];
  }

  /** A record found in segment `segment` at byte `offset`. */
  datatype Entry = Entry(segment: nat, offset: nat, frame: Frame)

  function LengthAt(b: bytes, off: nat): nat
    requires off + HEADER_BYTES <= |b|
  {
    FromLE(b[off..off + 4])
  }

  /** Header and payload of a record are completely present at `off`. */
  predicate HasFrame(b: bytes, off: nat) {
    off + HEADER_BYTES <= |b| && off + HEADER_BYTES + LengthAt(b, off) <= |b|
  }

  function FrameEnd(b: bytes, off: nat): (end: nat)
    requires HasFrame(b, off)
    ensures off < end <= |b|
  {
    off + HEADER_BYTES + LengthAt(b, off)
  }

  function FrameAt(b: bytes, off: nat): Frame
    requires HasFrame(b, off)
  {
    Frame(b[off + HEADER_BYTES..FrameEnd(b, off)], FromLE(b[off + 4..off + HEADER_BYTES]))
  }

  /** All complete records of `b` from `off` on. */
  function Entries(id: nat, b: bytes, off: nat): seq<Entry>
    decreases |b| - off
  {
    if !HasFrame(b, off) then []
    else [Entry(id, off, FrameAt(b, off))] + Entries(id, b, FrameEnd(b, off))
  }

  /** Where the complete records end. */
  function ScanEnd(b: bytes, off: nat): (end: nat)
    ensures off <= end
    ensures off <= |b| ==> end <= |b|
    decreases |b| - off
  {
    if !HasFrame(b, off) then off else ScanEnd(b, FrameEnd(b, off))
  }

  /** No torn bytes after the last complete record. */
  predicate Whole(b: bytes) {
    ScanEnd(b, 0) == |b|
  }

  /** Each entry lies inside the bytes and can be read back at its offset. */
  lemma {:induction false} EntriesReadable(id: nat, b: bytes, off: nat)
    ensures forall e :: e in Entries(id, b, off) ==>
      e.segment == id && off <= e.offset && HasFrame(b, e.offset) && e.frame == FrameAt(b, e.offset)
    decreases |b| - off
  {
    if HasFrame(b, off) {
      EntriesReadable(id, b, FrameEnd(b, off));
    }
  }

  lemma {:induction false} EntriesAscend(id: nat, b: bytes, off: nat)
    ensures forall i, j :: 0 <= i < j < |Entries(id, b, off)| ==>
      Entries(id, b, off)[i].offset < Entries(id, b, off)[j].offset
    decreases |b| - off
  {
    if HasFrame(b, off) {
      EntriesAscend(id, b, FrameEnd(b, off));
      EntriesReadable(id, b, FrameEnd(b, off));
    }
  }

  lemma SliceOfPrefix(b: bytes, n: nat, i: nat, j: nat)
    requires i <= j <= n <= |b|
    ensures b[..n][i..j] == b[i..j]
  {
  }

  lemma SliceOfSum(b: bytes, x: bytes, i: nat, j: nat)
    requires i <= j
    ensures j <= |b| ==> (b + x)[i..j] == b[i..j]
    ensures j <= |x| ==> (b + x)[|b| + i..|b| + j] == x[i..j]
  {
  }

  lemma FrameStable(b: bytes, x: bytes, off: nat)
    requires HasFrame(b, off)
    ensures HasFrame(b + x, off) && FrameAt(b + x, off) == FrameAt(b, off)
    ensures FrameEnd(b + x, off) == FrameEnd(b, off)
  {
    SliceOfSum(b, x, off, off + 4);
    SliceOfSum(b, x, off + 4, off + HEADER_BYTES);
    SliceOfSum(b, x, off + HEADER_BYTES, FrameEnd(b, off));
  }

  /** Bytes added behind a whole segment are scanned on their own. */
  lemma {:induction false} ScanSplit(id: nat, b: bytes, x: bytes, off: nat)
    requires off <= |b| && ScanEnd(b, off) == |b|
    ensures Entries(id, b + x, off) == Entries(id, b, off) + Entries(id, b + x, |b|)
    ensures ScanEnd(b + x, off) == ScanEnd(b + x, |b|)
    decreases |b| - off
  {
    if HasFrame(b, off) {
      var end := FrameEnd(b, off);
      FrameStable(b, x, off);
      ScanSplit(id, b, x, end);
      var first := [Entry(id, off, FrameAt(b, off))];
      assert first + (Entries(id, b, end) + Entries(id, b + x, |b|))
          == (first + Entries(id, b, end)) + Entries(id, b + x, |b|);
      assert Entries(id, b + x, off) == first + Entries(id, b + x, end);
    }
  }

  /** Cutting the torn tail keeps exactly the complete records. */
  lemma {:induction false} TruncateKeepsEntries(id: nat, b: bytes, off: nat)
    requires off <= |b|
    ensures ScanEnd(b[..ScanEnd(b, off)], off) == ScanEnd(b, off)
    ensures Entries(id, b[..ScanEnd(b, off)], off) == Entries(id, b, off)
    decreases |b| - off
  {
    var cut := b[..ScanEnd(b, off)];
    if HasFrame(b, off) {
      var end := FrameEnd(b, off);
      TruncateKeepsEntries(id, b, end);
      assert end <= |cut|;
      SliceOfPrefix(b, |cut|, off, off + 4);
      SliceOfPrefix(b, |cut|, off + 4, off + HEADER_BYTES);
      SliceOfPrefix(b, |cut|, off + HEADER_BYTES, end);
    }
  }

  // ---- Encoded records ----

  lemma EncodeParts(f: Frame)
    ensures Encode(f)[0..4] == LE(|f.payload|, 4)
    ensures Encode(f)[4..8] == LE(f.crc, 4)
    ensures Encode(f)[8..] == f.payload
  {
  }

  lemma EncodedFrame(b: bytes, f: Frame)
    requires f.Fits()
    ensures HasFrame(b + Encode(f), |b|) && FrameAt(b + Encode(f), |b|) == f
    ensures FrameEnd(b + Encode(f), |b|) == |b + Encode(f)|
  {
    hide LE, FromLE, Pow256;
    Widths();
    LERoundTrip(|f.payload|, 4);
    LERoundTrip(f.crc, 4);
    EncodeParts(f);
    SliceOfSum(b, Encode(f), 0, 4);
    SliceOfSum(b, Encode(f), 4, HEADER_BYTES);
    SliceOfSum(b, Encode(f), HEADER_BYTES, |Encode(f)|);
  }

  lemma TornFrame(b: bytes, f: Frame, k: nat)
    requires f.Fits() && k < |Encode(f)|
    ensures !HasFrame(b + Encode(f)[..k], |b|)
  {
    if HEADER_BYTES <= k {
      Widths();
      LERoundTrip(|f.payload|, 4);
      EncodeParts(f);
      SliceOfSum(b, Encode(f)[..k], 0, 4);
      SliceOfPrefix(Encode(f), k, 0, 4);
    }
  }

  /** Appending a record to a whole segment adds exactly that record. */
  lemma AppendWhole(id: nat, b: bytes, f: Frame)
    requires Whole(b) && f.Fits()
    ensures Whole(b + Encode(f))
    ensures Entries(id, b + Encode(f), 0) == Entries(id, b, 0) + [Entry(id, |b|, f)]
  {
    EncodedFrame(b, f);
    ScanSplit(id, b, Encode(f), 0);
    var c := b + Encode(f);
    assert !HasFrame(c, |c|);
    assert Entries(id, c, |c|) == [];
  }

  /** A torn append leaves the complete records, and only those, in sight. */
  lemma AppendTorn(id: nat, b: bytes, f: Frame, k: nat)
    requires Whole(b) && f.Fits() && k < |Encode(f)|
    ensures Entries(id, b + Encode(f)[..k], 0) == Entries(id, b, 0)
    ensures ScanEnd(b + Encode(f)[..k], 0) == |b|
  {
    TornFrame(b, f, k);
    ScanSplit(id, b, Encode(f)[..k], 0);
  }

  // ---- Round trip with a torn tail ----

  function EncodeAll(fs: seq<Frame>): bytes {
    if fs == [] then [] else EncodeAll(fs[..|fs| - 1]) + Encode(fs[|fs| - 1])
  }

  function FramesOf(es: seq<Entry>): seq<Frame> {
    seq(|es|, i requires 0 <= i < |es| => es[i].frame)
  }

  lemma {:induction false} ScanEncoded(id: nat, fs: seq<Frame>)
    requires forall f :: f in fs ==> f.Fits()
    ensures Whole(EncodeAll(fs)) && FramesOf(Entries(id, EncodeAll(fs), 0)) == fs
  {
    if fs != [] {
      var init, last := fs[..|fs| - 1], fs[|fs| - 1];
      ScanEncoded(id, init);
      AppendWhole(id, EncodeAll(init), last);
      var es := Entries(id, EncodeAll(init), 0);
      assert FramesOf(es + [Entry(id, |EncodeAll(init)|, last)]) == FramesOf(es) + [last];
      assert fs == init + [last];
    }
  }

  /** Scanning any records followed by any strict prefix of one more recovers
      exactly the complete records and repairs to their end; the record appended
      after the repair is recovered behind them. */
  lemma TornTailRoundTrip(id: nat, fs: seq<Frame>, torn: Frame, k: nat, later: Frame)
    requires forall f :: f in fs ==> f.Fits()
    requires torn.Fits() && k < |Encode(torn)| && later.Fits()
    ensures var b := EncodeAll(fs) + Encode(torn)[..k];
      && FramesOf(Entries(id, b, 0)) == fs
      && b[..ScanEnd(b, 0)] == EncodeAll(fs)
      && FramesOf(Entries(id, b[..ScanEnd(b, 0)] + Encode(later), 0)) == fs + [later]
  {
    ScanEncoded(id, fs);
    AppendTorn(id, EncodeAll(fs), torn, k);
    AppendWhole(id, EncodeAll(fs), later);
  }

  /** A torn header makes the scan step over the bytes written behind it. */
  lemma TornSwallows(b: bytes, torn: Frame, k: nat, y: bytes)
    requires torn.Fits() && 0 < k < |Encode(torn)|
    requires HasFrame(b + (Encode(torn)[..k] + y), |b|)
    ensures FrameEnd(b + (Encode(torn)[..k] + y), |b|) > |b| + k
  {
    if k >= 4 {
      Widths();
      LERoundTrip(|torn.payload|, 4);
      EncodeParts(torn);
      SliceOfSum(b, Encode(torn)[..k] + y, 0, 4);
      SliceOfSum(Encode(torn)[..k], y, 0, 4);
      SliceOfPrefix(Encode(torn), k, 0, 4);
    }
  }

  /** Without the repair, a record written behind torn bytes is found by the
      next scan exactly when there were no torn bytes. */
  lemma UnrepairedTail(id: nat, b: bytes, torn: Frame, k: nat, later: Frame)
    requires Whole(b) && torn.Fits() && later.Fits() && k < |Encode(torn)|
    ensures Entry(id, |b| + k, later) in Entries(id, b + (Encode(torn)[..k] + Encode(later)), 0) <==> k == 0
  {
    var x := Encode(torn)[..k] + Encode(later);
    var c := b + x;
    ScanSplit(id, b, x, 0);
    if k == 0 {
      assert x == Encode(later);
      EncodedFrame(b, later);
      assert Entries(id, c, |b|)[0] == Entry(id, |b|, later);
    } else {
      EntriesReadable(id, b, 0);
      if HasFrame(c, |b|) {
        TornSwallows(b, torn, k, Encode(later));
        EntriesReadable(id, c, FrameEnd(c, |b|));
      }
    }
  }
}
