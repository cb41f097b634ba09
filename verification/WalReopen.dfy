/** Opening a log directory: tail repair, rescan and cap, and what a crash
    inside them leaves. */
module WalReopen {
  import opened ByteStrings
  import opened Wrappers
  import opened Frames
  import opened WalModel
  import opened WalProofs
  import opened WalEviction
  import opened WalReplay
  import opened WalOperations

  /** Cutting the torn tail of one segment is invisible to a rescan. */
  lemma RepairSegment(done: seq<Segment>, g: Segment, tail: seq<Segment>, file: Option<bytes>)
    requires DiskOk(Disk(done + [g] + tail, file))
    ensures DiskOk(Disk(done + [Repaired(g)] + tail, file))
    ensures Recover(Disk(done + [Repaired(g)] + tail, file)) == Recover(Disk(done + [g] + tail, file))
  {
    RepairListing(done, g, tail);
    RepairScan(done, g, tail);
    TruncateKeepsEntries(g.id, g.data, 0);
    RepairCursor(done, g, tail, file);
  }

  lemma RepairCursor(done: seq<Segment>, g: Segment, tail: seq<Segment>, file: Option<bytes>)
    requires CursorReadable(Disk([], file)) && CursorBehind(Disk(done + [g] + tail, file))
    requires ScanEnd(Repaired(g).data, 0) == ScanEnd(g.data, 0)
    ensures var d, r := Disk(done + [g] + tail, file), Disk(done + [Repaired(g)] + tail, file);
      DiskCursor(r) == DiskCursor(d) && CursorBehind(r)
  {
    hide ScanEnd, DecodeCursor;
    var l, r := done + [g] + tail, done + [Repaired(g)] + tail;
    var n := |l| - 1;
    assert l[0].id == r[0].id;
    assert if tail == [] then l[n] == g && r[n] == Repaired(g) else l[n] == tail[|tail| - 1] == r[n];
  }

  lemma RepairListing(done: seq<Segment>, g: Segment, tail: seq<Segment>)
    requires Ascending(done + [g] + tail) && Representable(done + [g] + tail)
    ensures Ascending(done + [Repaired(g)] + tail) && Representable(done + [Repaired(g)] + tail)
  {
    hide ScanEnd;
    var l, r := done + [g] + tail, done + [Repaired(g)] + tail;
    assert forall i :: 0 <= i < |r| ==> r[i] == if i == |done| then Repaired(g) else l[i];
    assert l[|done|] == g;
    assert forall i :: 0 <= i < |r| ==> r[i].id == l[i].id;
  }

  lemma RepairScan(done: seq<Segment>, g: Segment, tail: seq<Segment>)
    ensures All(done + [Repaired(g)] + tail) == All(done + [g] + tail)
  {
    TruncateKeepsEntries(g.id, g.data, 0);
    AllAround(done, g, tail);
    AllAround(done, Repaired(g), tail);
  }

  lemma {:induction false} RepairTraceKeeps(done: seq<Segment>, rest: seq<Segment>, file: Option<bytes>, es: seq<Entry>)
    requires Recovers(Disk(done + rest, file), es)
    ensures forall i :: 0 <= i < |RepairTrace(done, rest, file)| ==> Recovers(RepairTrace(done, rest, file)[i], es)
    ensures Recovers(Disk(done + RepairAll(rest), file), es)
    decreases |rest|
  {
    hide DiskOk, Recover, Repaired;
    if rest == [] {
      assert RepairAll(rest) == [];
    } else {
      var g, tail := rest[0], rest[1..];
      assert done + rest == done + [g] + tail;
      RepairSegment(done, g, tail, file);
      assert done + [Repaired(g)] + tail == (done + [Repaired(g)]) + tail;
      RepairTraceKeeps(done + [Repaired(g)], tail, file, es);
      assert done + RepairAll(rest) == (done + [Repaired(g)]) + RepairAll(tail);
    }
  }

  lemma WithSegmentRecovers(d: Disk)
    requires DiskOk(d)
    ensures Recovers(WithSegment(d), Recover(d))
  {
    if d.segments == [] {
      var g := Segment(0, []);
      assert [g][1..] == [];
      assert All([g]) == [];
    }
  }

  /** Every torn tail is gone after the scan. */
  lemma RepairedWhole(segs: seq<Segment>)
    ensures AllWhole(RepairAll(segs))
  {
    forall i | 0 <= i < |segs| ensures Whole(RepairAll(segs)[i].data) {
      TruncateKeepsEntries(segs[i].id, segs[i].data, 0);
    }
  }

  lemma ScannedKeeps(d: Disk, maxBytes: nat)
    requires DiskOk(d) && d.segments != []
    ensures Inv(Scanned(d, maxBytes)) && Recover(Scanned(d, maxBytes).disk) == Recover(d)
  {
    hide AllWhole, Ascending, Representable, CursorBehind, Recover, Repaired, DecodeCursor, LessDamaged, RepairTrace;
    assert [] + d.segments == d.segments;
    RepairTraceKeeps([], d.segments, d.cursorFile, Recover(d));
    assert [] + RepairAll(d.segments) == RepairAll(d.segments);
    RepairedWhole(d.segments);
    InvFromExact(Scanned(d, maxBytes));
  }

  lemma OpenStepsRecover(d: Disk)
    requires DiskOk(d)
    ensures forall i :: 0 <= i < |OpenSteps(d)| ==> Recovers(OpenSteps(d)[i], Recover(d))
  {
    hide Ascending, Representable, CursorBehind, Recover;
    WithSegmentRecovers(d);
    assert [] + WithSegment(d).segments == WithSegment(d).segments;
    RepairTraceKeeps([], WithSegment(d).segments, d.cursorFile, Recover(d));
  }

  lemma OpenStepsLeave(d: Disk)
    requires DiskOk(d)
    ensures AllLeave(OpenSteps(d), Recover(d), WithSegment(d).segments[0].id)
  {
    hide Ascending, Representable, CursorBehind, Recover, Kept, LessDamaged, OpenSteps;
    OpenStepsRecover(d);
    OpenStepsFirst(d);
    LessSelf(Recover(d));
    forall i | 0 <= i < |OpenSteps(d)| ensures Leaves(OpenSteps(d)[i], Recover(d), WithSegment(d).segments[0].id) {
      assert Recovers(OpenSteps(d)[i], Recover(d));
      KeptAll(OpenSteps(d)[i]);
    }
  }

  lemma OpenStepsFirst(d: Disk)
    requires CursorReadable(d)
    ensures forall i :: 0 <= i < |OpenSteps(d)| ==>
      OpenSteps(d)[i].segments != [] && OpenSteps(d)[i].segments[0].id == WithSegment(d).segments[0].id
  {
    hide Repaired;
    var segs := WithSegment(d).segments;
    RepairTraceFirst([], segs, d.cursorFile, segs[0].id);
  }

  lemma {:induction false} RepairTraceFirst(done: seq<Segment>, rest: seq<Segment>, file: Option<bytes>, first: nat)
    requires (if done != [] then done[0].id else if rest != [] then rest[0].id else first) == first
    ensures forall i :: 0 <= i < |RepairTrace(done, rest, file)| ==>
      var segs := RepairTrace(done, rest, file)[i].segments; segs != [] && segs[0].id == first
    decreases |rest|
  {
    if rest != [] {
      var g := Repaired(rest[0]);
      assert (done + [g] + rest[1..])[0].id == first;
      RepairTraceFirst(done + [g], rest[1..], file, first);
    }
  }

  /** Reopening any disk a run can leave: the index is what the disk holds, and
      exactly the records of files the cap removed are missing; a crash while
      reopening costs no more. */
  lemma OpenKeeps(d: Disk, maxBytes: nat)
    requires DiskOk(d)
    ensures var o := Open(d, maxBytes); var first := WithSegment(d).segments[0].id;
      && Inv(o.state)
      && o.state.records == Recover(o.state.disk) == Kept(Recover(d), o.state.disk.segments)
      && Leaves(o.state.disk, Recover(d), first)
      && AllLeave(o.trace, Recover(d), first)
      && (Total(Scanned(WithSegment(d), maxBytes).disk.segments) <= maxBytes ==> o.ok && o.state.records == Recover(d))
  {
    hide AllWhole, Ascending, Representable, CursorBehind, Filter, All, LessDamaged;
    WithSegmentRecovers(d);
    var w := WithSegment(d);
    ScannedKeeps(w, maxBytes);
    var s := Scanned(w, maxBytes);
    EnforceCapKeeps(s);
    OpenStepsLeave(d);
    var first := w.segments[0].id;
    LessSelf(Recover(d));
    KeptAll(s.disk);
    AllLeaveConcat(OpenSteps(d), EnforceCap(s).trace, Recover(d), first, Recover(d), first);
    LessSelf(Recover(EnforceCap(s).state.disk));
  }

  /** Opening fails for one reason only, on any directory with a readable
      cursor: the newest segment, less its torn tail, alone exceeds the cap and
      there is no number left for a new one. What stays is the longest suffix of
      the repaired listing that fits, or a fresh segment when not even the newest
      does; a failed opening has removed every older one. */
  lemma OpenSucceeds(d: Disk, maxBytes: nat)
    requires Ascending(d.segments) && CursorReadable(d)
    ensures var segs := WithSegment(d).segments; var last := Repaired(segs[|segs| - 1]);
      var o := Open(d, maxBytes);
      && (o.ok <==> |last.data| <= maxBytes || last.id + 1 < U64_LIMIT)
      && (if o.ok then StopsAt(RepairAll(segs), maxBytes, last.id, o.state.disk.segments)
          else o.state.disk.segments == [last])
  {
    hide Repaired, EnforceCap, StopsAt, Recover, OpenSteps;
    var s := Scanned(WithSegment(d), maxBytes);
    ScannedShape(WithSegment(d), maxBytes);
    hide Ascending, Scanned, WithSegment;
    EnforceCapSucceeds(s);
    EnforceCapStops(s);
    EnforceCapFails(s);
  }

  lemma ScannedShape(d: Disk, maxBytes: nat)
    requires Ascending(d.segments) && d.segments != [] && CursorReadable(d)
    ensures var s := Scanned(d, maxBytes);
      && Shape(s) && s.maxBytes == maxBytes && s.disk.segments == RepairAll(d.segments)
      && s.active == d.segments[|d.segments| - 1].id
      && ActiveLen(s) == |Repaired(d.segments[|d.segments| - 1]).data|
  {
    hide Repaired, Recover;
  }

  /** The first start: one empty segment, no cursor file, nothing to deliver. */
  lemma OpenEmpty(maxBytes: nat)
    ensures var o := Open(Disk([], None), maxBytes);
      o.ok && o.state == State(maxBytes, Disk([Segment(0, [])], None), 0, Cursor(0, 0), [])
  {
    var g := Segment(0, []);
    assert [g][1..] == [];
    assert Entries(0, [], 0) == [] && All([g]) == [];
    assert RepairAll([g]) == [g];
  }

  // ---- A budget smaller than a segment ----

  /** A log of 20 bytes, freshly opened. */
  function SmallLog(): (s: State)
    ensures Shape(s)
  {
    State(20, Disk([Segment(0, [])], None), 0, Cursor(0, 0), [])
  }

  lemma SmallLogInv()
    ensures Inv(SmallLog())
  {
    var g := Segment(0, []);
    assert [g][1..] == [];
    assert Entries(0, [], 0) == [] && Whole([]);
    assert All([g]) == [];
  }

  /** The size check in `append` does not keep a successful append from losing
      its own record: any two 12-byte records exceed 20 bytes inside one
      segment, and the whole segment goes. `AppendRetention` says exactly when. */
  lemma AppendCanLoseItsRecord(p: bytes, q: bytes)
    requires |p| == |q| == 4
    ensures var o := Append(SmallLog(), p);
      && o.ok && Inv(o.state) && |o.state.records| == 1
      && Append(o.state, q).ok && Append(o.state, q).state.records == []
  {
    hide Indexed, AllWhole, Ascending, Representable, CursorBehind, EnforceCap, Append;
    SmallLogInv();
    AppendWithinCap(SmallLog(), p);
    var s := Append(SmallLog(), p).state;
    AppendWithinCapKeeps(SmallLog(), p);
    SmallWritten(p);
    SmallEviction(s, q);
    AppendRetention(s, q);
  }

  lemma AppendWithinCapKeeps(s: State, payload: bytes)
    requires Inv(s) && !Rejected(s, payload)
    ensures Inv(Append(s, payload).state)
  {
    AppendKeeps(s, payload);
  }

  lemma SmallWritten(p: bytes)
    requires |p| == 4
    ensures var w := Written(SmallLog(), p);
      w.maxBytes == 20 && w.active == 0 && |w.disk.segments| == 1 && ActiveLen(w) == 12
  {
  }

  lemma SmallEviction(s: State, p: bytes)
    requires Inv(s) && s.maxBytes == 20 && s.active == 0 && |s.disk.segments| == 1 && ActiveLen(s) == 12 && |p| == 4
    ensures !Rejected(s, p) && Append(s, p).ok
  {
    hide Indexed, AllWhole, Representable, CursorBehind, Encode;
    var w := Written(s, p);
    EvictSegments(w);
    assert Total(EvictOldest(w).disk.segments) == 0 by {
      assert [Segment(1, [])][1..] == [];
    }
    assert EnforceCap(EvictOldest(w)).ok;
    if Total(w.disk.segments) > 20 {
      EvictDecreases(w);
    }
  }
}
