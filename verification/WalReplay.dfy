/** Reading the log back: `next` with its skipping of damaged records, `ack`
    with its deletion of finished segments, and the drain they make up. */
module WalReplay {
  import opened ByteStrings
  import opened Wrappers
  import opened Frames
  import opened WalModel
  import opened WalProofs
  import opened WalEviction

  // ---- next ----

  lemma {:induction false} FindExact(segs: seq<Segment>, i: nat)
    requires Ascending(segs) && i < |segs|
    ensures Find(segs, segs[i].id) == i
  {
    if i > 0 {
      FindExact(segs[1..], i - 1);
    }
  }

  /** An index entry reads back as the record it stands for. */
  lemma ReadEntryExact(segs: seq<Segment>, e: Entry)
    requires Ascending(segs) && e in All(segs)
    ensures ReadEntry(segs, e) == Some(e.frame)
  {
    var i := EntryPlace(segs, e);
    FindExact(segs, i);
  }

  /** The index agrees with the disk: in file order, every entry in a segment
      that exists and reading back as its record; damaged ones `next` passed
      over aside, it is exactly what a rescan would build. */
  lemma IndexAgreement(s: State)
    requires Inv(s)
    ensures WalProofs.Sorted(s.records)
    ensures forall e :: e in s.records ==> ReadEntry(s.disk.segments, e) == Some(e.frame)
    ensures (forall e :: e in Recover(s.disk) ==> e.frame.Intact()) ==> s.records == Recover(s.disk)
  {
    hide Frame.Intact, Representable, CursorBehind, AllWhole;
    PendingSuffix(s);
    AllSorted(s.disk.segments);
    forall e | e in s.records ensures ReadEntry(s.disk.segments, e) == Some(e.frame) {
      assert e in All(s.disk.segments);
      ReadEntryExact(s.disk.segments, e);
    }
    var es := Recover(s.disk);
    if |s.records| < |es| {
      assert es[0] in es && !es[0].frame.Intact();
    }
  }

  lemma HeadReadable(s: State)
    requires Inv(s) && s.records != []
    ensures ReadEntry(s.disk.segments, s.records[0]) == Some(s.records[0].frame)
  {
    PendingSuffix(s);
    assert s.records[0] in All(s.disk.segments);
    ReadEntryExact(s.disk.segments, s.records[0]);
  }

  lemma SkipOne(s: State)
    requires Inv(s) && s.records != [] && !s.records[0].frame.Intact()
    ensures Inv(s.(records := s.records[1..]))
    ensures Live(s.records) == Live(s.records[1..])
  {
    hide AllWhole, Ascending, Representable, CursorBehind, Filter, All, Frame.Intact;
    var es := Recover(s.disk);
    var k := |es| - |s.records|;
    assert es[k..][0] == es[k];
    assert es[k + 1..] == s.records[1..];
  }

  /** Skipping changes the index only: what is left starts at an intact record
      and still is the queue on disk. */
  lemma {:induction false} SkipKeeps(s: State)
    requires Inv(s)
    ensures var r := SkipDamaged(s);
      && Inv(r) && r.disk == s.disk && IsSuffix(r.records, s.records)
      && Live(r.records) == Live(s.records)
      && (r.records != [] ==> r.records[0].frame.Intact())
    decreases |s.records|
  {
    if s.records != [] {
      HeadReadable(s);
      if !s.records[0].frame.Intact() {
        SkipOne(s);
        SkipKeeps(s.(records := s.records[1..]));
        SuffixTransitive(SkipDamaged(s).records, s.records[1..], s.records);
      }
    }
  }

  /** `next` returns the front of the queue, or nothing when it is empty. */
  lemma NextDelivers(s: State)
    requires Inv(s)
    ensures var r := SkipDamaged(s); var q := Queue(s.disk);
      if q == [] then r.records == [] && HeadOf(r) == Nothing
      else r.records != [] && HeadOf(r) == Head(r.records[0].segment, r.records[0].offset, q[0])
           && q == [q[0]] + Live(r.records[1..])
  {
    hide AllWhole, Ascending, Representable, CursorBehind, Recover, Frame.Intact;
    var r := SkipDamaged(s);
    SkipKeeps(s);
    PendingIsQueue(s);
    if r.records != [] {
      HeadReadable(r);
      assert Live(r.records) == Delivered(r.records[0].frame) + Live(r.records[1..]);
      assert Delivered(r.records[0].frame) == [r.records[0].frame.payload];
    }
  }

  // ---- ack ----

  /** Deleting a segment wholly before the cursor is invisible to a rescan. */
  lemma DropSegment(kept: seq<Segment>, g: Segment, tail: seq<Segment>, file: Option<bytes>)
    requires file.Some? && tail != [] && DiskOk(Disk(kept + [g] + tail, file))
    requires g.id < DiskCursor(Disk(kept + [g] + tail, file)).segment
    ensures DiskOk(Disk(kept + tail, file))
    ensures Recover(Disk(kept + tail, file)) == Recover(Disk(kept + [g] + tail, file))
  {
    DropListing(kept, g, tail);
    assert (kept + [g] + tail)[|kept| + |tail|] == tail[|tail| - 1] == (kept + tail)[|kept| + |tail| - 1];
    DropFiltered(kept, g, tail, DecodeCursor(file.value));
  }

  lemma DropListing(kept: seq<Segment>, g: Segment, tail: seq<Segment>)
    requires Ascending(kept + [g] + tail) && Representable(kept + [g] + tail)
    ensures Ascending(kept + tail) && Representable(kept + tail)
  {
    var l, r := kept + [g] + tail, kept + tail;
    assert forall i :: 0 <= i < |r| ==> r[i] == l[if i < |kept| then i else i + 1];
  }

  lemma {:induction false} DropFiltered(kept: seq<Segment>, g: Segment, tail: seq<Segment>, c: Cursor)
    requires g.id < c.segment
    ensures Filter(All(kept + tail), c) == Filter(All(kept + [g] + tail), c)
  {
    var gone := Entries(g.id, g.data, 0);
    EntriesReadable(g.id, g.data, 0);
    AllConcat(kept, tail);
    AllAround(kept, g, tail);
    FilterConcat(All(kept), All(tail), c);
    FilterConcat(All(kept) + gone, All(tail), c);
    FilterConcat(All(kept), gone, c);
    FilterNone(gone, c);
  }

  lemma AllAround(a: seq<Segment>, g: Segment, b: seq<Segment>)
    ensures All(a + [g] + b) == All(a) + Entries(g.id, g.data, 0) + All(b)
  {
    hide Entries;
    AllConcat(a + [g], b);
    AllConcat(a, [g]);
    assert [g][1..] == [];
    assert All([g]) == Entries(g.id, g.data, 0);
  }

  predicate Recovers(d: Disk, es: seq<Entry>) {
    DiskOk(d) && Recover(d) == es
  }

  lemma {:induction false} DropTraceKeeps(kept: seq<Segment>, rest: seq<Segment>, file: Option<bytes>, active: nat,
          es: seq<Entry>)
    requires file.Some? && Recovers(Disk(kept + rest, file), es)
    requires rest != [] ==> rest[|rest| - 1].id == active
    ensures var below := DiskCursor(Disk(kept + rest, file)).segment;
      && (forall i :: 0 <= i < |DropTrace(kept, rest, below, active, file)| ==>
            Recovers(DropTrace(kept, rest, below, active, file)[i], es))
      && Recovers(Disk(kept + DropAcked(rest, below, active), file), es)
    decreases |rest|
  {
    hide Ascending, Representable, CursorBehind, Recover;
    var below := DecodeCursor(file.value).segment;
    if rest != [] {
      var g, tail := rest[0], rest[1..];
      if g.id < below && g.id != active {
        assert kept + rest == kept + [g] + tail;
        DropSegment(kept, g, tail, file);
        DropTraceKeeps(kept, tail, file, active, es);
        assert DropAcked(rest, below, active) == DropAcked(tail, below, active);
      } else {
        assert kept + rest == (kept + [g]) + tail;
        DropTraceKeeps(kept + [g], tail, file, active, es);
        assert kept + DropAcked(rest, below, active) == (kept + [g]) + DropAcked(tail, below, active);
      }
    }
  }

  lemma {:induction false} DropAckedShape(segs: seq<Segment>, below: nat, active: nat)
    requires segs != [] && Ascending(segs) && segs[|segs| - 1].id == active
    ensures var r := DropAcked(segs, below, active);
      && r != [] && Ascending(r) && r[0].id >= segs[0].id && r[|r| - 1].id == active
      && (AllWhole(segs) ==> AllWhole(r))
  {
    hide Whole;
    var rest := segs[1..];
    if rest != [] {
      DropAckedShape(rest, below, active);
    } else {
      assert DropAcked(rest, below, active) == [];
    }
  }

  lemma AckSaved(s: State)
    requires Inv(s) && s.records != []
    ensures var r := SaveCursor(s.(records := s.records[1..]));
      Inv(r) && Recover(r.disk) == s.records[1..]
  {
    PendingSuffix(s);
    SuffixTransitive(s.records[1..], s.records, All(s.disk.segments));
    SaveCursorExact(s.(records := s.records[1..]));
  }

  /** The deletions that follow a saved cursor. */
  lemma DeletionsKeep(s: State, es: seq<Entry>)
    requires Inv(s) && s.disk.cursorFile.Some? && Recover(s.disk) == es == s.records
    ensures var segs := s.disk.segments; var left := DropAcked(segs, s.cursor.segment, s.active);
      && (forall i :: 0 <= i < |DropTrace([], segs, s.cursor.segment, s.active, s.disk.cursorFile)| ==>
            Recovers(DropTrace([], segs, s.cursor.segment, s.active, s.disk.cursorFile)[i], es))
      && Inv(s.(disk := s.disk.(segments := left))) && Recover(s.disk.(segments := left)) == es
  {
    hide Ascending, Representable, CursorBehind, Recover, AllWhole, DecodeCursor;
    var segs := s.disk.segments;
    var left := DropAcked(segs, s.cursor.segment, s.active);
    assert [] + segs == segs && [] + left == left;
    DropTraceKeeps([], segs, s.disk.cursorFile, s.active, es);
    DropAckedShape(segs, s.cursor.segment, s.active);
    InvFromExact(s.(disk := s.disk.(segments := left)));
  }

  /** Acknowledging takes exactly the head off, on disk and in memory. From
      the cursor's rename on, every disk state already says so; segments that
      go hold nothing pending. */
  lemma AckKeeps(s: State, segment: nat, offset: nat)
    requires Inv(s) && IsHead(s, segment, offset)
    ensures var o := Ack(s, segment, offset);
      && o.ok && Inv(o.state)
      && o.state.records == s.records[1..] == Recover(o.state.disk)
      && o.trace != []
      && forall i :: 0 <= i < |o.trace| ==> Recovers(o.trace[i], s.records[1..])
  {
    hide Ascending, Representable, CursorBehind, Indexed, AllWhole, DropAcked, DropTrace, Recover;
    AckSaved(s);
    DeletionsKeep(SaveCursor(s.(records := s.records[1..])), s.records[1..]);
  }

  /** An acknowledgement counts for the head and for nothing else: anything
      stale, repeated or out of order is refused and changes nothing. */
  lemma AckExact(s: State, segment: nat, offset: nat)
    requires Shape(s)
    ensures var o := Ack(s, segment, offset);
      var head := s.records != [] && s.records[0].segment == segment && s.records[0].offset == offset;
      && (o.ok <==> head)
      && (head ==> o.state.records == s.records[1..] && o.state.active == s.active && o.state.maxBytes == s.maxBytes)
      && (!head ==> o.state == s && o.trace == [])
  {
    hide DropAcked, DropTrace;
  }

  lemma AckMismatch(s: State, segment: nat, offset: nat)
    requires Shape(s) && !IsHead(s, segment, offset)
    ensures Ack(s, segment, offset) == Outcome(s, [], false)
  {
  }

  // ---- Draining ----

  /** The payloads delivered by `next` and `ack` until nothing is left. */
  function Drained(s: State): seq<bytes>
    requires Inv(s)
    decreases |s.records|
  {
    SkipKeeps(s);
    var r := SkipDamaged(s);
    if r.records == [] then []
    else
      NextDelivers(s);
      AckKeeps(r, r.records[0].segment, r.records[0].offset);
      [HeadOf(r).payload] + Drained(Ack(r, r.records[0].segment, r.records[0].offset).state)
  }

  /** Draining delivers the queue on disk, in order. */
  lemma {:induction false} DrainDelivers(s: State)
    requires Inv(s)
    ensures Drained(s) == Queue(s.disk)
    decreases |s.records|
  {
    hide DiskOk, AllWhole, Recover;
    var r := SkipDamaged(s);
    SkipKeeps(s);
    NextDelivers(s);
    if r.records != [] {
      var o := Ack(r, r.records[0].segment, r.records[0].offset);
      AckKeeps(r, r.records[0].segment, r.records[0].offset);
      DrainDelivers(o.state);
    }
  }
}
