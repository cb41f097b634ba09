/** Damage on disk: records whose payload changed inside at most four
    consecutive bytes, or whose stored checksum changed, are passed over, and
    nothing else is. */
module WalDamage {
  import opened ByteStrings
  import opened Frames
  import opened WalModel
  import opened WalProofs
  import opened WalReplay
  import Crc32

  /** `g` is `f` with one window of the payload overwritten. */
  predicate WindowChanged(f: Frame, g: Frame) {
    && g.crc == f.crc
    && exists i, n :: 0 <= i <= i + n <= |f.payload| == |g.payload| && n <= 4
         && SameOutside(f.payload, g.payload, i, n) && f.payload[i..i + n] != g.payload[i..i + n]
  }

  predicate SameOutside(a: bytes, b: bytes, i: nat, n: nat)
    requires i + n <= |a| == |b|
  {
    a[..i] == b[..i] && a[i + n..] == b[i + n..]
  }

  /** An intact record and what a bounded corruption made of it. */
  predicate Damaged(f: Frame, g: Frame) {
    f.Intact() && (WindowChanged(f, g) || (g.payload == f.payload && g.crc != f.crc))
  }

  lemma WindowDetected(a: bytes, b: bytes, i: nat, n: nat)
    requires i + n <= |a| == |b| && n <= 4 && SameOutside(a, b, i, n) && a[i..i + n] != b[i..i + n]
    ensures Crc32.Checksum(a) != Crc32.Checksum(b)
  {
    hide Crc32.Checksum;
    var before, after := a[..i], a[i + n..];
    Crc32.WindowDetection(before, a[i..i + n], b[i..i + n], after);
    assert a == before + a[i..i + n] + after;
    assert b == before + b[i..i + n] + after;
  }

  /** Every such damage is detected. */
  lemma DamageDetected(f: Frame, g: Frame)
    requires Damaged(f, g)
    ensures !g.Intact()
  {
    hide Crc32.Checksum, SameOutside;
    if g.payload != f.payload {
      var i, n :| 0 <= i <= i + n <= |f.payload| == |g.payload| && n <= 4
         && SameOutside(f.payload, g.payload, i, n) && f.payload[i..i + n] != g.payload[i..i + n];
      WindowDetected(f.payload, g.payload, i, n);
    }
  }

  /** The bytes of a segment after damage to some of its records: every record
      is where it was and either unchanged or damaged. */
  predicate SegmentDamaged(b: bytes, b': bytes, off: nat)
    decreases |b| - off
  {
    && |b| == |b'|
    && (HasFrame(b, off) <==> HasFrame(b', off))
    && (HasFrame(b, off) ==>
          && FrameEnd(b, off) == FrameEnd(b', off)
          && (FrameAt(b, off) == FrameAt(b', off) || Damaged(FrameAt(b, off), FrameAt(b', off)))
          && SegmentDamaged(b, b', FrameEnd(b, off)))
  }

  /** The same records in the same places, each unchanged or damaged. */
  predicate EntriesDamaged(es: seq<Entry>, es': seq<Entry>) {
    |es| == |es'| && forall i :: 0 <= i < |es| ==>
      && es'[i].segment == es[i].segment && es'[i].offset == es[i].offset
      && (es'[i].frame == es[i].frame || Damaged(es[i].frame, es'[i].frame))
  }

  predicate DiskDamaged(segs: seq<Segment>, segs': seq<Segment>) {
    |segs| == |segs'| && forall i :: 0 <= i < |segs| ==>
      segs'[i].id == segs[i].id && SegmentDamaged(segs[i].data, segs'[i].data, 0)
  }

  lemma {:induction false} SegmentDamagedScan(id: nat, b: bytes, b': bytes, off: nat)
    requires SegmentDamaged(b, b', off)
    ensures ScanEnd(b, off) == ScanEnd(b', off)
    ensures EntriesDamaged(Entries(id, b, off), Entries(id, b', off))
    decreases |b| - off
  {
    hide Damaged;
    if HasFrame(b, off) {
      SegmentDamagedScan(id, b, b', FrameEnd(b, off));
    }
  }

  lemma EntriesDamagedConcat(a: seq<Entry>, a': seq<Entry>, b: seq<Entry>, b': seq<Entry>)
    requires EntriesDamaged(a, a') && EntriesDamaged(b, b')
    ensures EntriesDamaged(a + b, a' + b')
  {
    hide Damaged;
  }

  lemma {:induction false} AllDamaged(segs: seq<Segment>, segs': seq<Segment>)
    requires DiskDamaged(segs, segs')
    ensures EntriesDamaged(All(segs), All(segs'))
  {
    hide Damaged, SegmentDamaged;
    if segs == [] {
      assert All(segs) == All(segs') == [];
    } else {
      SegmentDamagedScan(segs[0].id, segs[0].data, segs'[0].data, 0);
      AllDamaged(segs[1..], segs'[1..]);
      EntriesDamagedConcat(Entries(segs[0].id, segs[0].data, 0), Entries(segs[0].id, segs'[0].data, 0),
                           All(segs[1..]), All(segs'[1..]));
    }
  }

  lemma {:induction false} FilterDamaged(es: seq<Entry>, es': seq<Entry>, c: Cursor)
    requires EntriesDamaged(es, es')
    ensures EntriesDamaged(Filter(es, c), Filter(es', c))
  {
    hide Damaged;
    if es != [] {
      FilterDamaged(es[1..], es'[1..], c);
    }
  }

  /** The payloads of the records that came through unchanged. */
  function Survivors(es: seq<Entry>, es': seq<Entry>): seq<bytes>
    requires |es| == |es'|
  {
    if es == [] then []
    else (if es[0] == es'[0] then Delivered(es[0].frame) else []) + Survivors(es[1..], es'[1..])
  }

  lemma {:induction false} LiveDamaged(es: seq<Entry>, es': seq<Entry>)
    requires EntriesDamaged(es, es')
    ensures Live(es') == Survivors(es, es')
  {
    hide Damaged, Frame.Intact;
    if es != [] {
      LiveDamaged(es[1..], es'[1..]);
      if es[0].frame != es'[0].frame {
        DamageDetected(es[0].frame, es'[0].frame);
        NotDelivered(es'[0].frame);
      }
    }
  }

  lemma NotDelivered(f: Frame)
    requires !f.Intact()
    ensures Delivered(f) == []
  {
  }

  /** The state over the damaged disk: the index in memory still points at the
      same places. */
  function Over(s: State, segs': seq<Segment>): State
    requires Inv(s) && DiskDamaged(s.disk.segments, segs')
    requires |Filter(All(segs'), s.cursor)| >= |s.records|
  {
    var es := Filter(All(segs'), s.cursor);
    s.(disk := s.disk.(segments := segs'), records := es[|es| - |s.records|..])
  }

  lemma DamagedDiskOk(d: Disk, segs': seq<Segment>)
    requires DiskOk(d) && DiskDamaged(d.segments, segs')
    ensures DiskOk(d.(segments := segs')) && DiskCursor(d.(segments := segs')) == DiskCursor(d)
    ensures AllWhole(d.segments) ==> AllWhole(segs')
  {
    hide Damaged, HasFrame, FrameEnd, FrameAt, ScanEnd, DecodeCursor;
    var segs := d.segments;
    forall i | 0 <= i < |segs|
      ensures |segs'[i].data| == |segs[i].data| && ScanEnd(segs'[i].data, 0) == ScanEnd(segs[i].data, 0)
    {
      SegmentDamagedScan(0, segs[i].data, segs'[i].data, 0);
    }
    hide SegmentDamaged;
    assert forall i :: 0 <= i < |segs| ==> segs'[i].id == segs[i].id;
  }

  /** A rescan finds the same places. */
  lemma DamagedRecover(d: Disk, segs': seq<Segment>)
    requires DiskOk(d) && DiskDamaged(d.segments, segs')
    ensures DiskOk(d.(segments := segs')) && EntriesDamaged(Recover(d), Recover(d.(segments := segs')))
  {
    hide Damaged, DiskDamaged, Ascending, Representable, CursorBehind;
    DamagedDiskOk(d, segs');
    AllDamaged(d.segments, segs');
    FilterDamaged(All(d.segments), All(segs'), DiskCursor(d));
  }

  lemma OverInv(s: State, segs': seq<Segment>)
    requires Inv(s) && DiskDamaged(s.disk.segments, segs')
    ensures |Filter(All(segs'), s.cursor)| >= |s.records|
    ensures Inv(Over(s, segs')) && EntriesDamaged(s.records, Over(s, segs').records)
  {
    hide Damaged, SegmentDamaged, AllWhole, Ascending, Representable, CursorBehind, Frame.Intact;
    DamagedDiskOk(s.disk, segs');
    DamagedRecover(s.disk, segs');
    var es, es' := Recover(s.disk), Filter(All(segs'), s.cursor);
    var k := |es| - |s.records|;
    forall i | 0 <= i < k ensures !es'[i].frame.Intact() {
      if es'[i].frame != es[i].frame {
        DamageDetected(es[i].frame, es'[i].frame);
      }
    }
  }

  /** Corruption isolation: whatever set of records is damaged, draining yields
      exactly the others, in order, and so does reopening at any point, since
      passing over a record leaves the disk alone. */
  lemma DamageIsolated(s: State, segs': seq<Segment>)
    requires Inv(s) && DiskDamaged(s.disk.segments, segs')
    ensures |Filter(All(segs'), s.cursor)| >= |s.records| && Inv(Over(s, segs'))
    ensures |Over(s, segs').records| == |s.records|
    ensures Drained(Over(s, segs')) == Survivors(s.records, Over(s, segs').records)
    ensures Queue(Over(s, segs').disk) == Survivors(s.records, Over(s, segs').records)
    ensures SkipDamaged(Over(s, segs')).disk == Over(s, segs').disk
  {
    hide DiskDamaged, Inv, Damaged;
    OverInv(s, segs');
    DrainDelivers(Over(s, segs'));
    PendingIsQueue(Over(s, segs'));
    LiveDamaged(s.records, Over(s, segs').records);
    SkipKeeps(Over(s, segs'));
  }

  // ---- Overwriting bytes of records is such damage ----

  function Overwrite(b: bytes, at: nat, w: bytes): (r: bytes)
    requires at + |w| <= |b|
    ensures |r| == |b|
  {
    b[..at] + w + b[at + |w|..]
  }

  predicate IsRecord(b: bytes, off: nat, at: nat)
    decreases |b| - off
  {
    HasFrame(b, off) && (off == at || IsRecord(b, FrameEnd(b, off), at))
  }

  lemma {:induction false} RecordsForward(b: bytes, off: nat, at: nat)
    requires IsRecord(b, off, at)
    ensures off <= at && HasFrame(b, at) && (off != at ==> FrameEnd(b, off) <= at)
    decreases |b| - off
  {
    if off != at {
      RecordsForward(b, FrameEnd(b, off), at);
    }
  }

  /** Bytes equal from `off` on are scanned alike. */
  lemma {:induction false} SameTail(b: bytes, b': bytes, off: nat)
    requires |b| == |b'| && off <= |b| && b[off..] == b'[off..]
    ensures SegmentDamaged(b, b', off)
    decreases |b| - off
  {
    hide Damaged;
    SameTailAt(b, b', off);
    if HasFrame(b, off) {
      var end := FrameEnd(b, off);
      assert b[end..] == b[off..][end - off..] == b'[off..][end - off..] == b'[end..];
      SameTail(b, b', end);
    }
  }

  lemma SameTailAt(b: bytes, b': bytes, off: nat)
    requires |b| == |b'| && off <= |b| && b[off..] == b'[off..]
    ensures HasFrame(b, off) <==> HasFrame(b', off)
    ensures HasFrame(b, off) ==> FrameEnd(b, off) == FrameEnd(b', off) && FrameAt(b, off) == FrameAt(b', off)
  {
    forall i, j | off <= i <= j <= |b| ensures b[i..j] == b'[i..j] {
      SliceOfTail(b, off, i, j);
      SliceOfTail(b', off, i, j);
    }
  }

  lemma SliceOfTail(b: bytes, off: nat, i: nat, j: nat)
    requires off <= i <= j <= |b|
    ensures b[off..][i - off..j - off] == b[i..j]
  {
  }

  /** A change behind a record leaves that record as it is. */
  lemma SameRecord(b: bytes, b': bytes, off: nat)
    requires |b| == |b'| && HasFrame(b, off) && b[..FrameEnd(b, off)] == b'[..FrameEnd(b, off)]
    ensures HasFrame(b', off) && FrameEnd(b', off) == FrameEnd(b, off) && FrameAt(b', off) == FrameAt(b, off)
  {
    var end := FrameEnd(b, off);
    SliceOfPrefix(b, end, off, off + 4);
    SliceOfPrefix(b', end, off, off + 4);
    SliceOfPrefix(b, end, off + 4, off + HEADER_BYTES);
    SliceOfPrefix(b', end, off + 4, off + HEADER_BYTES);
    SliceOfPrefix(b, end, off + HEADER_BYTES, end);
    SliceOfPrefix(b', end, off + HEADER_BYTES, end);
  }

  /** One to four payload bytes of an intact record are overwritten. */
  lemma PayloadHit(b: bytes, at: nat, i: nat, w: bytes)
    requires HasFrame(b, at) && FrameAt(b, at).Intact()
    requires |w| <= 4 && i + |w| <= LengthAt(b, at)
    ensures var b' := Overwrite(b, at + HEADER_BYTES + i, w);
      && HasFrame(b', at) && FrameEnd(b', at) == FrameEnd(b, at)
      && (FrameAt(b', at) == FrameAt(b, at) || Damaged(FrameAt(b, at), FrameAt(b', at)))
  {
    hide Frame.Intact;
    var from := at + HEADER_BYTES;
    var b' := Overwrite(b, from + i, w);
    assert b'[..from] == b[..from];
    SliceOfPrefix(b, from, at, at + 4);
    SliceOfPrefix(b', from, at, at + 4);
    SliceOfPrefix(b, from, at + 4, from);
    SliceOfPrefix(b', from, at + 4, from);
    var f, g := FrameAt(b, at), FrameAt(b', at);
    assert g.payload == Overwrite(f.payload, i, w);
    if f.payload[i..i + |w|] == g.payload[i..i + |w|] {
      assert f.payload == f.payload[..i] + f.payload[i..i + |w|] + f.payload[i + |w|..];
      assert g.payload == f.payload;
    } else {
      assert SameOutside(f.payload, g.payload, i, |w|);
      assert WindowChanged(f, g);
    }
  }

  /** Bytes of the stored checksum are overwritten. */
  lemma ChecksumHit(b: bytes, at: nat, i: nat, w: bytes)
    requires HasFrame(b, at) && FrameAt(b, at).Intact() && i + |w| <= 4
    ensures var b' := Overwrite(b, at + 4 + i, w);
      && HasFrame(b', at) && FrameEnd(b', at) == FrameEnd(b, at)
      && (FrameAt(b', at) == FrameAt(b, at) || Damaged(FrameAt(b, at), FrameAt(b', at)))
  {
    hide Frame.Intact, WindowChanged;
    var from, end := at + HEADER_BYTES, FrameEnd(b, at);
    var b' := Overwrite(b, at + 4 + i, w);
    assert b'[at..at + 4] == b[at..at + 4];
    assert b'[from..end] == b[from..end];
  }

  /** Up to four bytes are overwritten in the record at `at`: from payload byte
      `i` on, or from byte `i` of its stored checksum on. */
  datatype Hit = PayloadBytes(at: nat, i: nat, w: bytes) | ChecksumBytes(at: nat, i: nat, w: bytes) {
    function Position(): nat {
      at + i + if PayloadBytes? then HEADER_BYTES else 4
    }

    predicate Falls(b: bytes) {
      && IsRecord(b, 0, at) && HasFrame(b, at) && FrameAt(b, at).Intact() && |w| <= 4
      && i + |w| <= if PayloadBytes? then LengthAt(b, at) else 4
    }
  }

  function Strike(b: bytes, h: Hit): (r: bytes)
    requires h.Position() + |h.w| <= |b|
    ensures |r| == |b|
  {
    Overwrite(b, h.Position(), h.w)
  }

  function StrikeAll(b: bytes, hs: seq<Hit>): (r: bytes)
    requires forall h :: h in hs ==> h.Position() + |h.w| <= |b|
    ensures |r| == |b|
    decreases |hs|
  {
    if hs == [] then b else StrikeAll(Strike(b, hs[0]), hs[1..])
  }

  /** At most one hit per record. */
  predicate Apart(hs: seq<Hit>) {
    forall i, j :: 0 <= i < j < |hs| ==> hs[i].at != hs[j].at
  }

  /** The record at `at` is the same in both. */
  predicate SameFrame(b: bytes, b': bytes, at: nat) {
    && HasFrame(b, at) && HasFrame(b', at)
    && FrameEnd(b, at) == FrameEnd(b', at) && FrameAt(b, at) == FrameAt(b', at)
  }

  lemma HitFrame(b: bytes, b': bytes, h: Hit)
    requires h.Falls(b) && SameFrame(b, b', h.at)
    ensures h.at <= h.Position() && h.Position() + |h.w| <= FrameEnd(b, h.at) <= |b'|
    ensures var c := Strike(b', h);
      && HasFrame(c, h.at) && FrameEnd(c, h.at) == FrameEnd(b, h.at)
      && (FrameAt(c, h.at) == FrameAt(b, h.at) || Damaged(FrameAt(b, h.at), FrameAt(c, h.at)))
  {
    hide Frame.Intact, Damaged, Overwrite, IsRecord;
    if h.PayloadBytes? {
      PayloadHit(b', h.at, h.i, h.w);
    } else {
      ChecksumHit(b', h.at, h.i, h.w);
    }
  }

  lemma {:induction false} RecordsDisjoint(b: bytes, off: nat, x: nat, y: nat)
    requires IsRecord(b, off, x) && IsRecord(b, off, y) && x < y
    ensures HasFrame(b, x) && FrameEnd(b, x) <= y
    decreases |b| - off
  {
    RecordsForward(b, off, x);
    if off == x {
      RecordsForward(b, FrameEnd(b, off), y);
    } else {
      RecordsForward(b, off, y);
      RecordsDisjoint(b, FrameEnd(b, off), x, y);
    }
  }

  /** Bytes overwritten outside a record leave it as it is. */
  lemma Elsewhere(b: bytes, at: nat, pos: nat, w: bytes)
    requires HasFrame(b, at) && pos + |w| <= |b|
    requires pos + |w| <= at || FrameEnd(b, at) <= pos
    ensures SameFrame(b, Overwrite(b, pos, w), at)
  {
    var b' := Overwrite(b, pos, w);
    if pos + |w| <= at {
      assert b'[at..] == b[at..];
      SameTailAt(b, b', at);
    } else {
      assert b'[..FrameEnd(b, at)] == b[..FrameEnd(b, at)];
      SameRecord(b, b', at);
    }
  }

  lemma {:induction false} DamagedSameTail(b: bytes, b': bytes, c: bytes, off: nat)
    requires SegmentDamaged(b, b', off) && |c| == |b'| && off <= |b'| && c[off..] == b'[off..]
    ensures SegmentDamaged(b, c, off)
    decreases |b| - off
  {
    hide Damaged;
    SameTailAt(b', c, off);
    if HasFrame(b, off) {
      var end := FrameEnd(b, off);
      assert c[end..] == c[off..][end - off..] == b'[off..][end - off..] == b'[end..];
      DamagedSameTail(b, b', c, end);
    }
  }

  lemma SlicesSame(b: bytes, pos: nat, w: bytes, cut: nat)
    requires pos + |w| <= |b| && cut <= |b|
    ensures pos + |w| <= cut ==> Overwrite(b, pos, w)[cut..] == b[cut..]
    ensures cut <= pos ==> Overwrite(b, pos, w)[..cut] == b[..cut]
  {
  }

  /** One more hit, on a record that is still unchanged. */
  lemma {:induction false} StrikeDamages(b: bytes, b': bytes, h: Hit, off: nat)
    requires SegmentDamaged(b, b', off) && IsRecord(b, off, h.at) && h.Falls(b) && SameFrame(b, b', h.at)
    ensures h.Position() + |h.w| <= |b'| && SegmentDamaged(b, Strike(b', h), off)
    decreases |b| - off
  {
    hide Damaged, Frame.Intact, Overwrite, FrameAt;
    HitFrame(b, b', h);
    RecordsForward(b, off, h.at);
    var c, end := Strike(b', h), FrameEnd(b, off);
    if off == h.at {
      SlicesSame(b', h.Position(), h.w, end);
      DamagedSameTail(b, b', c, end);
    } else {
      SlicesSame(b', h.Position(), h.w, end);
      SameRecord(b', c, off);
      StrikeDamages(b, b', h, end);
    }
  }

  /** The other records stay unchanged. */
  lemma StrikeSpares(b: bytes, b': bytes, h: Hit, g: Hit)
    requires h.Falls(b) && g.Falls(b) && h.at != g.at
    requires SameFrame(b, b', h.at) && SameFrame(b, b', g.at)
    ensures h.Position() + |h.w| <= |b'| && SameFrame(b, Strike(b', h), g.at)
  {
    hide Damaged, Frame.Intact, Overwrite;
    HitFrame(b, b', h);
    if h.at < g.at {
      RecordsDisjoint(b, 0, h.at, g.at);
    } else {
      RecordsDisjoint(b, 0, g.at, h.at);
    }
    Elsewhere(b', g.at, h.Position(), h.w);
  }

  lemma {:induction false} StrikeAllDamages(b: bytes, b': bytes, hs: seq<Hit>)
    requires SegmentDamaged(b, b', 0) && Apart(hs)
    requires forall h :: h in hs ==> h.Falls(b) && SameFrame(b, b', h.at)
    ensures forall h :: h in hs ==> h.Position() + |h.w| <= |b'|
    ensures SegmentDamaged(b, StrikeAll(b', hs), 0)
    decreases |hs|
  {
    hide Damaged, Frame.Intact, SegmentDamaged, Hit.Falls, SameFrame, Hit.Position;
    forall h | h in hs ensures h.Position() + |h.w| <= |b'| {
      HitInside(b, b', h);
    }
    if hs != [] {
      var h, rest := hs[0], hs[1..];
      assert h in hs;
      FallsOnRecord(b, h);
      StrikeDamages(b, b', h, 0);
      forall g | g in rest ensures g.Falls(b) && SameFrame(b, Strike(b', h), g.at) {
        var j :| 0 <= j < |rest| && rest[j] == g;
        assert hs[0].at != hs[j + 1].at;
        StrikeSpares(b, b', h, g);
      }
      StrikeAllDamages(b, Strike(b', h), rest);
    }
  }

  lemma HitInside(b: bytes, b': bytes, h: Hit)
    requires h.Falls(b) && SameFrame(b, b', h.at)
    ensures h.Position() + |h.w| <= |b'|
  {
    HitFrame(b, b', h);
  }

  lemma FallsOnRecord(b: bytes, h: Hit)
    requires h.Falls(b)
    ensures IsRecord(b, 0, h.at)
  {
  }

  /** Any set of intact records of a directory, each overwritten in at most four
      consecutive payload bytes or in its stored checksum, is such damage. */
  lemma HitsAreDamage(segs: seq<Segment>, hits: seq<seq<Hit>>)
    requires |hits| == |segs|
    requires forall i :: 0 <= i < |segs| ==> Apart(hits[i]) && forall h :: h in hits[i] ==> h.Falls(segs[i].data)
    ensures forall i :: 0 <= i < |segs| ==> forall h :: h in hits[i] ==> h.Position() + |h.w| <= |segs[i].data|
    ensures DiskDamaged(segs, seq(|segs|, i requires 0 <= i < |segs| =>
              Segment(segs[i].id, StrikeAll(segs[i].data, hits[i]))))
  {
    hide Damaged, Frame.Intact, SegmentDamaged, Hit.Falls, StrikeAll, Hit.Position;
    forall i | 0 <= i < |segs|
      ensures forall h :: h in hits[i] ==> h.Position() + |h.w| <= |segs[i].data|
      ensures SegmentDamaged(segs[i].data, StrikeAll(segs[i].data, hits[i]), 0)
    {
      var b := segs[i].data;
      SegmentUndamaged(b);
      forall h | h in hits[i] ensures SameFrame(b, b, h.at) {
        FallsInFrame(b, h);
      }
      StrikeAllDamages(b, b, hits[i]);
    }
  }

  lemma SegmentUndamaged(b: bytes)
    ensures SegmentDamaged(b, b, 0)
  {
    SameTail(b, b, 0);
  }

  lemma FallsInFrame(b: bytes, h: Hit)
    requires h.Falls(b)
    ensures SameFrame(b, b, h.at)
  {
  }
}
