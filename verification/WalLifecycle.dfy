/** Segments and cursor over the life of a log: segment numbers stay one
    contiguous range, segments stay bounded, and the durable cursor sits on a
    record boundary and only moves forward. */
module WalLifecycle {
  import opened ByteStrings
  import opened Wrappers
  import opened Frames
  import opened WalModel
  import opened WalProofs
  import opened WalEviction
  import opened WalOperations
  import opened WalReplay
  import opened WalReopen
  import opened WalRuns

  predicate Contiguous(segs: seq<Segment>) {
    forall i :: 0 <= i < |segs| - 1 ==> segs[i + 1].id == segs[i].id + 1
  }

  /** `off` is where a record starts, or where the records end. */
  predicate OnEdge(b: bytes, from: nat, off: nat)
    decreases |b| - from
  {
    off == from || (HasFrame(b, from) && OnEdge(b, FrameEnd(b, from), off))
  }

  predicate CursorOnEdge(segs: seq<Segment>, c: Cursor) {
    forall i :: 0 <= i < |segs| && segs[i].id == c.segment ==> OnEdge(segs[i].data, 0, c.offset)
  }

  /** A segment outgrows the bound only to hold a single record. */
  predicate Bounded(data: bytes) {
    |data| <= SEGMENT_MAX_BYTES || |Entries(0, data, 0)| <= 1
  }

  predicate AllBounded(segs: seq<Segment>) {
    forall i :: 0 <= i < |segs| ==> Bounded(segs[i].data)
  }

  predicate Tidy(d: Disk)
    requires CursorReadable(d)
  {
    Contiguous(d.segments) && AllBounded(d.segments) && CursorOnEdge(d.segments, DiskCursor(d))
  }

  predicate CursorLe(a: Cursor, b: Cursor) {
    a.segment < b.segment || (a.segment == b.segment && a.offset <= b.offset)
  }

  /** From `d` the disk came to `r`: still tidy, cursor not behind. */
  predicate Advances(d: Disk, r: Disk)
    requires CursorReadable(d)
  {
    CursorReadable(r) && Tidy(r) && CursorLe(DiskCursor(d), DiskCursor(r))
  }

  predicate AllAdvance(d: Disk, trace: seq<Disk>)
    requires CursorReadable(d)
  {
    forall i :: 0 <= i < |trace| ==> Advances(d, trace[i])
  }

  lemma AllAdvanceConcat(d: Disk, mid: Disk, a: seq<Disk>, b: seq<Disk>)
    requires CursorReadable(d) && CursorReadable(mid)
    requires AllAdvance(d, a) && AllAdvance(mid, b) && CursorLe(DiskCursor(d), DiskCursor(mid))
    ensures AllAdvance(d, a + b)
  {
    hide Tidy, DiskCursor;
  }

  // ---- Edges ----

  lemma {:induction false} EntryOnEdge(id: nat, b: bytes, from: nat, e: Entry)
    requires e in Entries(id, b, from)
    ensures OnEdge(b, from, e.offset)
    decreases |b| - from
  {
    if e != Entries(id, b, from)[0] {
      EntryOnEdge(id, b, FrameEnd(b, from), e);
    }
  }

  lemma {:induction false} EndOnEdge(b: bytes, from: nat)
    ensures OnEdge(b, from, ScanEnd(b, from))
    decreases |b| - from
  {
    if HasFrame(b, from) {
      EndOnEdge(b, FrameEnd(b, from));
    }
  }

  lemma {:induction false} EdgeStays(b: bytes, x: bytes, from: nat, off: nat)
    requires OnEdge(b, from, off)
    ensures OnEdge(b + x, from, off)
    decreases |b| - from
  {
    if off != from {
      FrameStable(b, x, from);
      EdgeStays(b, x, FrameEnd(b, from), off);
    }
  }

  lemma {:induction false} EdgeRepaired(b: bytes, from: nat, off: nat)
    requires from <= |b| && OnEdge(b, from, off)
    ensures OnEdge(b[..ScanEnd(b, from)], from, off)
    decreases |b| - from
  {
    if off != from {
      var cut, end := b[..ScanEnd(b, from)], FrameEnd(b, from);
      assert end <= |cut|;
      SliceOfPrefix(b, |cut|, from, from + 4);
      EdgeRepaired(b, end, off);
    }
  }

  // ---- Effects ----

  lemma RollAdvances(s: State)
    requires Inv(s) && Tidy(s.disk)
    ensures Advances(s.disk, Roll(s).disk) && DiskCursor(Roll(s).disk) == DiskCursor(s.disk)
  {
    hide Indexed, AllWhole, Representable, CursorBehind, OnEdge, Ascending;
    var segs, r := s.disk.segments, Roll(s).disk.segments;
    assert r[0] == segs[0];
    assert s.cursor.segment <= s.active by { CursorNotBeyond(s); }
    assert Entries(0, [], 0) == [];
    assert forall i :: 0 <= i < |segs| ==> r[i] == segs[i];
  }

  lemma CursorNotBeyond(s: State)
    requires Inv(s)
    ensures s.cursor.segment < s.active || (s.cursor.segment == s.active && s.cursor.offset <= ActiveLen(s))
  {
    hide Indexed, AllWhole, Ascending, Representable, DiskCursor, ScanEnd;
  }

  lemma RemoveOldestAdvances(s: State)
    requires Inv(s) && |s.disk.segments| > 1 && Tidy(s.disk)
    ensures Advances(s.disk, RemoveOldest(s).disk)
  {
    hide Indexed, AllWhole, Representable, CursorBehind, OnEdge, Bounded, DecodeCursor;
    var segs := s.disk.segments;
    assert forall i :: 0 <= i < |segs| - 1 ==> segs[1..][i] == segs[i + 1];
    assert OnEdge(segs[1].data, 0, 0) by { EdgeAtStart(segs[1].data); }
    assert segs[0].id < segs[1].id;
  }

  lemma EdgeAtStart(b: bytes)
    ensures OnEdge(b, 0, 0)
  {
  }

  /** The saved cursor is a record's start or the end of the active segment. */
  lemma SaveCursorOnEdge(s: State)
    requires Solid(s) && IsSuffix(s.records, All(s.disk.segments))
    ensures CursorOnEdge(s.disk.segments, CursorFor(s))
  {
    hide Representable, CursorBehind, OnEdge;
    var segs, c := s.disk.segments, CursorFor(s);
    forall i | 0 <= i < |segs| && segs[i].id == c.segment ensures OnEdge(segs[i].data, 0, c.offset) {
      if s.records == [] {
        assert i == |segs| - 1;
        EndOnEdge(segs[i].data, 0);
      } else {
        assert s.records[0] in All(segs);
        EntryInSegment(segs, s.records[0], i);
        EntryOnEdge(segs[i].id, segs[i].data, 0, s.records[0]);
      }
    }
  }

  lemma {:induction false} EntryInSegment(segs: seq<Segment>, e: Entry, i: nat)
    requires Ascending(segs) && e in All(segs) && i < |segs| && segs[i].id == e.segment
    ensures e in Entries(segs[i].id, segs[i].data, 0)
  {
    if e in Entries(segs[0].id, segs[0].data, 0) {
      EntriesReadable(segs[0].id, segs[0].data, 0);
      assert i == 0;
    } else {
      EntriesFrom(segs[1..], segs[0].id + 1);
      EntryInSegment(segs[1..], e, i - 1);
    }
  }

  lemma SaveCursorAdvances(s: State, was: Cursor)
    requires Solid(s) && IsSuffix(s.records, All(s.disk.segments))
    requires Contiguous(s.disk.segments) && AllBounded(s.disk.segments)
    requires DiskOk(SaveCursor(s).disk) && CursorLe(was, CursorFor(s))
    ensures CursorReadable(SaveCursor(s).disk) && Tidy(SaveCursor(s).disk)
    ensures CursorLe(was, DiskCursor(SaveCursor(s).disk))
  {
    hide Representable, CursorBehind, OnEdge, Bounded, AllWhole;
    SaveCursorOnEdge(s);
    CursorForBound(s);
    CursorRoundTrip(CursorFor(s));
  }

  /** The next head, or the end, is never before the cursor. */
  lemma CursorForForward(s: State, r: State)
    requires Inv(s) && Solid(r) && IsSuffix(r.records, All(r.disk.segments))
    requires IsSuffix(r.records, s.records) && s.active <= r.active
        && (s.active == r.active ==> ActiveLen(s) <= ActiveLen(r))
    ensures CursorLe(s.cursor, CursorFor(r))
  {
    hide Representable, AllWhole, Ascending, Frame.Intact;
    CursorNotBeyond(s);
    if r.records != [] {
      assert r.records[0] in s.records;
      assert r.records[0] in Recover(s.disk);
      AllSortedOf(s);
      FilterSuffix(All(s.disk.segments), s.cursor);
    }
  }

  lemma AllSortedOf(s: State)
    requires Inv(s)
    ensures WalProofs.Sorted(All(s.disk.segments))
  {
    AllSorted(s.disk.segments);
  }

  lemma EvictAdvances(s: State)
    requires Inv(s) && |s.disk.segments| > 1 && Tidy(s.disk)
    ensures Advances(s.disk, RemoveOldest(s).disk) && Advances(s.disk, SaveCursor(RemoveOldest(s)).disk)
  {
    hide Representable, CursorBehind, OnEdge, Bounded, Indexed, AllWhole, Ascending;
    var r := RemoveOldest(s);
    RemoveOldestAdvances(s);
    RemoveOldestKeeps(s);
    RemoveOldestSolid(s);
    EvictFromLonger(s);
    CursorForForward(s, r);
    SaveCursorAdvances(r, s.cursor);
  }

  lemma EvictTraceAdvances(s: State)
    requires Inv(s) && CanEvict(s) && Tidy(s.disk)
    ensures AllAdvance(s.disk, EvictTrace(s)) && Advances(s.disk, EvictOldest(s).disk)
  {
    hide Indexed, AllWhole, DiskOk, Tidy, DiskCursor;
    if s.disk.segments[0].id == s.active {
      RollKeeps(s);
      RollAdvances(s);
      InvReadable(s);
      InvReadable(Roll(s));
      EvictAdvances(Roll(s));
    } else {
      InvReadable(s);
      EvictAdvances(s);
    }
  }

  lemma InvReadable(s: State)
    requires Inv(s)
    ensures CursorReadable(s.disk)
  {
  }

  lemma {:induction false} EnforceCapAdvances(s: State)
    requires Inv(s) && Tidy(s.disk)
    ensures AllAdvance(s.disk, EnforceCap(s).trace) && Advances(s.disk, EnforceCap(s).state.disk)
    decreases Total(s.disk.segments), |s.disk.segments|
  {
    hide Indexed, AllWhole, DiskOk, Tidy, DiskCursor, EvictOldest, EvictTrace;
    if Total(s.disk.segments) > s.maxBytes && CanEvict(s) {
      EvictDecreases(s);
      EvictKeeps(s);
      EvictTraceAdvances(s);
      var r := EvictOldest(s);
      EnforceCapAdvances(r);
      InvReadable(s);
      InvReadable(r);
      AllAdvanceConcat(s.disk, r.disk, EvictTrace(s), EnforceCap(r).trace);
    } else {
      InvReadable(s);
      AdvancesSelf(s.disk);
    }
  }

  // ---- Append ----

  /** Bytes added to the newest segment leave every edge in place. */
  lemma WithBytesAdvances(s: State, x: bytes)
    requires Inv(s) && Tidy(s.disk)
    requires Bounded(s.disk.segments[|s.disk.segments| - 1].data + x)
    ensures Advances(s.disk, WithBytes(s.disk, x)) && DiskCursor(WithBytes(s.disk, x)) == DiskCursor(s.disk)
  {
    hide Indexed, AllWhole, Representable, CursorBehind, Ascending, Bounded, OnEdge, DecodeCursor;
    var segs, r := s.disk.segments, AppendLast(s.disk.segments, x);
    var n := |segs| - 1;
    assert r[0].id == segs[0].id;
    assert forall i :: 0 <= i <= n ==> r[i].id == segs[i].id;
    var c := DiskCursor(s.disk);
    forall i | 0 <= i < |r| && r[i].id == c.segment ensures OnEdge(r[i].data, 0, c.offset) {
      if i == n {
        EdgeStays(segs[n].data, x, 0, c.offset);
      }
    }
  }

  lemma GrownBounded(s: State, f: Frame, k: nat)
    requires Inv(s) && f.Fits() && k <= |Encode(f)|
    requires ActiveLen(s) == 0 || ActiveLen(s) + |Encode(f)| <= SEGMENT_MAX_BYTES
    ensures Bounded(s.disk.segments[|s.disk.segments| - 1].data + Encode(f)[..k])
  {
    hide Indexed, Representable, CursorBehind, Ascending;
    var data := s.disk.segments[|s.disk.segments| - 1].data;
    if ActiveLen(s) == 0 {
      assert data == [];
      assert Whole(data);
      assert Entries(0, data, 0) == [];
      if k < |Encode(f)| {
        AppendTorn(0, data, f, k);
      } else {
        assert Encode(f)[..k] == Encode(f);
        AppendWhole(0, data, f);
      }
    }
  }

  lemma WriteTraceAdvances(s: State, f: Frame)
    requires Inv(s) && Tidy(s.disk) && f.Fits()
    requires ActiveLen(s) == 0 || ActiveLen(s) + |Encode(f)| <= SEGMENT_MAX_BYTES
    ensures AllAdvance(s.disk, WriteTrace(s.disk, Encode(f))) && Advances(s.disk, WithBytes(s.disk, Encode(f)))
  {
    hide Indexed, AllWhole, DiskOk, Tidy, DiskCursor, Encode, Frame.Fits;
    InvReadable(s);
    forall k | 0 <= k <= |Encode(f)| ensures Advances(s.disk, WithBytes(s.disk, Encode(f)[..k])) {
      GrownBounded(s, f, k);
      WithBytesAdvances(s, Encode(f)[..k]);
    }
    assert Encode(f)[..|Encode(f)|] == Encode(f);
  }

  lemma AppendAdvances(s: State, payload: bytes)
    requires Inv(s) && Tidy(s.disk)
    ensures AllAdvance(s.disk, WalModel.Append(s, payload).trace)
        && Advances(s.disk, WalModel.Append(s, payload).state.disk)
  {
    hide Indexed, AllWhole, DiskOk, Tidy, DiskCursor, WriteTrace, EnforceCap;
    InvReadable(s);
    if !Rejected(s, payload) {
      WriteTarget(s, payload);
      var s1 := if MustRoll(s, HEADER_BYTES + |payload|) then Roll(s) else s;
      if MustRoll(s, HEADER_BYTES + |payload|) {
        RollAdvances(s);
      }
      WriteTraceAdvances(s1, Sealed(payload));
      WrittenKeeps(s, payload);
      var w := Written(s, payload);
      EnforceCapAdvances(w);
      InvReadable(s1);
      InvReadable(w);
      AllAdvanceConcat(s.disk, w.disk, WriteSteps(s, payload), EnforceCap(w).trace);
    }
  }

  // ---- Ack ----

  /** Where a segment stays, every later one stays. */
  lemma {:induction false} DropNone(segs: seq<Segment>, below: nat, active: nat, kept: seq<Segment>,
          file: Option<bytes>)
    requires Ascending(segs)
    requires segs != [] ==> segs[0].id >= below || (segs[0].id == active && |segs| == 1)
    ensures DropAcked(segs, below, active) == segs && DropTrace(kept, segs, below, active, file) == []
    decreases |segs|
  {
    if segs != [] {
      assert |segs| > 1 ==> segs[1].id > segs[0].id;
      DropNone(segs[1..], below, active, kept + [segs[0]], file);
    }
  }

  /** Acknowledged segments go from the front only, and all of them go. */
  lemma {:induction false} DropAckedExact(segs: seq<Segment>, below: nat, active: nat)
    requires Ascending(segs) && segs != [] && segs[|segs| - 1].id == active
    ensures var left := DropAcked(segs, below, active);
      && IsSuffix(left, segs)
      && (forall i :: 0 <= i < |left| ==> left[i].id >= below || left[i].id == active)
      && (forall i :: 0 <= i < |segs| - |left| ==> segs[i].id < below)
    decreases |segs|
  {
    hide Ascending, DropAcked;
    ActiveIsLast(segs, active);
    if segs[0].id < below && segs[0].id != active {
      DropFirst(segs, below, active, None);
      DropAckedExact(segs[1..], below, active);
      var left := DropAcked(segs, below, active);
      forall i | 0 <= i < |segs| - |left| ensures segs[i].id < below {
        assert i > 0 ==> segs[i] == segs[1..][i - 1];
      }
    } else {
      DropNone(segs, below, active, [], None);
      assert segs[0..] == segs;
      LaterAbove(segs);
    }
  }

  lemma LaterAbove(segs: seq<Segment>)
    requires Ascending(segs) && segs != []
    ensures forall i :: 0 <= i < |segs| ==> segs[i].id >= segs[0].id
  {
  }

  lemma {:induction false} DropFirst(segs: seq<Segment>, below: nat, active: nat, file: Option<bytes>)
    requires Ascending(segs) && segs != [] && segs[|segs| - 1].id == active
    requires segs[0].id < below && segs[0].id != active
    ensures var rest := segs[1..];
      && rest != [] && Ascending(rest) && rest[|rest| - 1].id == active
      && DropAcked(segs, below, active) == DropAcked(rest, below, active)
      && DropTrace([], segs, below, active, file) == [Disk(rest, file)] + DropTrace([], rest, below, active, file)
  {
    hide Ascending, DropAcked, DropTrace;
    ActiveIsLast(segs, active);
    TailAscending(segs);
    DropUnfolds(segs, below, active, file);
  }

  lemma DropUnfolds(segs: seq<Segment>, below: nat, active: nat, file: Option<bytes>)
    requires segs != [] && segs[0].id < below && segs[0].id != active
    ensures DropAcked(segs, below, active) == DropAcked(segs[1..], below, active)
    ensures DropTrace([], segs, below, active, file)
         == [Disk(segs[1..], file)] + DropTrace([], segs[1..], below, active, file)
  {
    assert [] + segs[1..] == segs[1..];
  }

  lemma ActiveIsLast(segs: seq<Segment>, active: nat)
    requires Ascending(segs) && segs != [] && segs[|segs| - 1].id == active
    ensures segs[0].id == active <==> |segs| == 1
  {
  }

  lemma TailAscending(segs: seq<Segment>)
    requires Ascending(segs) && segs != []
    ensures Ascending(segs[1..])
  {
  }

  lemma SuffixSelf<T>(a: seq<T>)
    ensures IsSuffix(a, a)
  {
  }

  lemma TailSuffix<T>(a: seq<T>, b: seq<T>)
    requires b != [] && IsSuffix(a, b[1..])
    ensures IsSuffix(a, b)
  {
  }

  lemma {:induction false} DropTraceSuffix(segs: seq<Segment>, below: nat, active: nat, file: Option<bytes>, i: nat)
    requires Ascending(segs) && segs != [] && segs[|segs| - 1].id == active
    requires i < |DropTrace([], segs, below, active, file)|
    ensures var d := DropTrace([], segs, below, active, file)[i]; d.cursorFile == file && IsSuffix(d.segments, segs)
    decreases |segs|
  {
    hide Ascending, DropTrace, DropAcked, IsSuffix;
    ActiveIsLast(segs, active);
    if segs[0].id < below && segs[0].id != active {
      DropFirst(segs, below, active, file);
      var rest := segs[1..];
      if i > 0 {
        DropTraceSuffix(rest, below, active, file, i - 1);
        TailSuffix(DropTrace([], rest, below, active, file)[i - 1].segments, segs);
      } else {
        SuffixSelf(rest);
        TailSuffix(rest, segs);
      }
    } else {
      DropNone(segs, below, active, [], file);
    }
  }

  /** A suffix of a tidy listing under the same cursor file is tidy. */
  lemma SuffixTidy(d: Disk, segs: seq<Segment>)
    requires CursorReadable(d) && d.cursorFile.Some? && Tidy(d) && IsSuffix(segs, d.segments)
    ensures Advances(d, Disk(segs, d.cursorFile))
  {
    hide OnEdge, Bounded, DecodeCursor;
    var k := |d.segments| - |segs|;
    assert forall i :: 0 <= i < |segs| ==> segs[i] == d.segments[k + i];
  }

  lemma AckSavedAdvances(s: State)
    requires Inv(s) && Tidy(s.disk) && s.records != []
    ensures Advances(s.disk, SaveCursor(s.(records := s.records[1..])).disk)
  {
    hide Indexed, AllWhole, Representable, CursorBehind, OnEdge, Bounded, DecodeCursor, Ascending, Frame.Intact;
    var r := s.(records := s.records[1..]);
    AckSaved(s);
    PendingSuffix(s);
    SuffixTransitive(r.records, s.records, All(s.disk.segments));
    CursorForForward(s, r);
    SaveCursorAdvances(r, s.cursor);
  }

  lemma AckAdvances(s: State, segment: nat, offset: nat)
    requires Inv(s) && Tidy(s.disk)
    ensures AllAdvance(s.disk, WalModel.Ack(s, segment, offset).trace)
    ensures Advances(s.disk, WalModel.Ack(s, segment, offset).state.disk)
  {
    hide Indexed, AllWhole, DiskOk, Tidy, DiskCursor, DropAcked, DropTrace;
    InvReadable(s);
    AdvancesSelf(s.disk);
    if IsHead(s, segment, offset) {
      var s1 := SaveCursor(s.(records := s.records[1..]));
      AckSavedAdvances(s);
      AckTraceAdvances(s1);
      AllAdvanceConcat(s.disk, s1.disk, [s1.disk],
                       DropTrace([], s1.disk.segments, s1.cursor.segment, s1.active, s1.disk.cursorFile));
    }
  }

  lemma AckTraceAdvances(s1: State)
    requires Shape(s1) && CursorReadable(s1.disk) && s1.disk.cursorFile.Some? && Tidy(s1.disk)
    ensures AllAdvance(s1.disk, DropTrace([], s1.disk.segments, s1.cursor.segment, s1.active, s1.disk.cursorFile))
    ensures Advances(s1.disk, s1.disk.(segments := DropAcked(s1.disk.segments, s1.cursor.segment, s1.active)))
  {
    hide Tidy, DiskCursor;
    DropAckedExact(s1.disk.segments, s1.cursor.segment, s1.active);
    var t := DropTrace([], s1.disk.segments, s1.cursor.segment, s1.active, s1.disk.cursorFile);
    forall i | 0 <= i < |t| ensures Advances(s1.disk, t[i]) {
      DropTraceSuffix(s1.disk.segments, s1.cursor.segment, s1.active, s1.disk.cursorFile, i);
      SuffixTidy(s1.disk, t[i].segments);
    }
    SuffixTidy(s1.disk, DropAcked(s1.disk.segments, s1.cursor.segment, s1.active));
  }

  // ---- Open ----

  /** Some torn tails of `segs` have been cut. */
  predicate Patched(segs: seq<Segment>, r: seq<Segment>) {
    |r| == |segs| && forall i :: 0 <= i < |segs| ==> r[i] == segs[i] || r[i] == Repaired(segs[i])
  }

  lemma PatchedAdvances(d: Disk, r: seq<Segment>)
    requires CursorReadable(d) && Tidy(d) && Patched(d.segments, r)
    ensures Advances(d, Disk(r, d.cursorFile)) && DiskCursor(Disk(r, d.cursorFile)) == DiskCursor(d)
  {
    hide OnEdge, Bounded, DecodeCursor, ScanEnd;
    var segs := d.segments;
    var c := DiskCursor(d);
    assert forall i :: 0 <= i < |r| ==> r[i].id == segs[i].id;
    forall i | 0 <= i < |r| ensures Bounded(r[i].data) && (r[i].id == c.segment ==> OnEdge(r[i].data, 0, c.offset)) {
      RepairedTidy(segs[i]);
      if r[i].id == c.segment && r[i] != segs[i] {
        EdgeRepaired(segs[i].data, 0, c.offset);
      }
    }
  }

  lemma RepairedTidy(g: Segment)
    ensures Bounded(g.data) ==> Bounded(Repaired(g).data)
  {
    TruncateKeepsEntries(0, g.data, 0);
  }

  lemma PatchedMore(done: seq<Segment>, rest: seq<Segment>, segs: seq<Segment>)
    requires Patched(segs, done + rest) && |done| <= |segs| && rest == segs[|done|..] && rest != []
    ensures var next := done + [Repaired(rest[0])] + rest[1..];
      && Patched(segs, next) && Patched(segs, (done + [Repaired(rest[0])]) + rest[1..])
      && rest[1..] == segs[|done| + 1..]
  {
    hide Repaired;
    var next := done + [Repaired(rest[0])] + rest[1..];
    assert rest[0] == segs[|done|];
    assert forall j :: 0 <= j < |segs| ==> next[j] == if j == |done| then Repaired(rest[0]) else (done + rest)[j];
  }

  lemma {:induction false} RepairTracePatched(done: seq<Segment>, rest: seq<Segment>, file: Option<bytes>,
          segs: seq<Segment>, i: nat)
    requires Patched(segs, done + rest) && |done| <= |segs| && rest == segs[|done|..]
    requires i < |RepairTrace(done, rest, file)|
    ensures RepairTrace(done, rest, file)[i].cursorFile == file
        && Patched(segs, RepairTrace(done, rest, file)[i].segments)
    decreases |rest|
  {
    hide Repaired;
    var g, tail := rest[0], rest[1..];
    var next := done + [Repaired(g)] + tail;
    PatchedMore(done, rest, segs);
    hide Patched;
    var first := if Repaired(g) == g then [] else [Disk(next, file)];
    if i >= |first| {
      RepairTracePatched(done + [Repaired(g)], tail, file, segs, i - |first|);
    }
  }

  lemma RepairAdvances(d: Disk)
    requires CursorReadable(d) && Tidy(d)
    ensures AllAdvance(d, RepairTrace([], d.segments, d.cursorFile))
    ensures Advances(d, Disk(RepairAll(d.segments), d.cursorFile))
    ensures DiskCursor(Disk(RepairAll(d.segments), d.cursorFile)) == DiskCursor(d)
  {
    hide Tidy, DiskCursor, Repaired;
    var t := RepairTrace([], d.segments, d.cursorFile);
    assert [] + d.segments == d.segments;
    forall i | 0 <= i < |t| ensures Advances(d, t[i]) {
      RepairTracePatched([], d.segments, d.cursorFile, d.segments, i);
      PatchedAdvances(d, t[i].segments);
    }
    PatchedAdvances(d, RepairAll(d.segments));
  }

  lemma WithSegmentAdvances(d: Disk)
    requires DiskOk(d) && Tidy(d)
    ensures Advances(d, WithSegment(d)) && DiskCursor(WithSegment(d)) == DiskCursor(d)
  {
    if d.segments == [] {
      assert Entries(0, [], 0) == [];
    }
  }

  lemma OpenAdvances(d: Disk, maxBytes: nat)
    requires DiskOk(d) && Tidy(d)
    ensures AllAdvance(d, Open(d, maxBytes).trace) && Advances(d, Open(d, maxBytes).state.disk)
  {
    hide Tidy, DiskCursor, RepairTrace, EnforceCap, Ascending, Representable, CursorBehind, Indexed, AllWhole, Scanned,
      Recover;
    var w := WithSegment(d);
    WithSegmentAdvances(d);
    WithSegmentRecovers(d);
    ScannedAdvances(w, maxBytes);
    var s := Scanned(w, maxBytes);
    ScannedKeeps(w, maxBytes);
    EnforceCapAdvances(s);
    OpenStepsAdvance(d);
    AllAdvanceConcat(d, s.disk, OpenSteps(d), EnforceCap(s).trace);
  }

  lemma ScannedAdvances(w: Disk, maxBytes: nat)
    requires w.segments != [] && CursorReadable(w) && Tidy(w)
    ensures Advances(w, Scanned(w, maxBytes).disk)
  {
    hide Tidy, DiskCursor, Recover;
    RepairAdvances(w);
  }

  lemma OpenStepsAdvance(d: Disk)
    requires DiskOk(d) && Tidy(d)
    ensures AllAdvance(d, OpenSteps(d))
  {
    hide Tidy, DiskCursor, RepairTrace, Ascending, Representable, CursorBehind;
    WithSegmentAdvances(d);
    RepairAdvances(WithSegment(d));
  }

  // ---- Runs ----

  lemma AdvancesAt(d: Disk, trace: seq<Disk>, k: nat)
    requires CursorReadable(d) && Tidy(d) && AllAdvance(d, trace)
    ensures Advances(d, DiskAfter(d, trace, k))
  {
    hide Tidy, DiskCursor;
  }

  lemma StepAdvances(m: Machine, e: Event)
    requires Ok(m) && Tidy(m.Disk())
    ensures Advances(m.Disk(), Step(m, e).Disk())
  {
    hide Tidy, DiskCursor, AllAdvance, Indexed, AllWhole, Ascending, Representable, CursorBehind, WalModel.Append,
      WalModel.Ack, Open;
    var d := m.Disk();
    DiskOkOf(m);
    var k := if e.crash.Some? then e.crash.value else 0;
    AdvancesSelf(d);
    match e.op
    case Reopen(maxBytes) =>
      OpenAdvances(d, maxBytes);
      AdvancesAt(d, Open(d, maxBytes).trace, k);
    case Append(payload) =>
      if m.Up? {
        AppendAdvances(m.state, payload);
        AdvancesAt(d, WalModel.Append(m.state, payload).trace, k);
      }
    case Next =>
      if m.Up? {
        SkipKeeps(m.state);
      }
    case Ack(segment, offset) =>
      if m.Up? {
        AckAdvances(m.state, segment, offset);
        AdvancesAt(d, WalModel.Ack(m.state, segment, offset).trace, k);
      }
  }

  lemma AdvancesSelf(d: Disk)
    requires CursorReadable(d) && Tidy(d)
    ensures Advances(d, d)
  {
  }

  /** Over any run with crashes and reopenings the segment numbers stay one
      contiguous range, every segment stays bounded, and the durable cursor
      moves forward from record boundary to record boundary. */
  lemma {:induction false} RunAdvances(m: Machine, es: seq<Event>)
    requires Ok(m) && Tidy(m.Disk())
    ensures CursorReadable(m.Disk()) && Advances(m.Disk(), Run(m, es).Disk())
    decreases |es|
  {
    hide Tidy, DiskCursor, Step, DiskOk, Inv;
    MachineReadable(m);
    if es == [] {
      AdvancesSelf(m.Disk());
    } else {
      StepRefines(m, es[0]);
      MachineReadable(Step(m, es[0]));
      StepAdvances(m, es[0]);
      RunAdvances(Step(m, es[0]), es[1..]);
    }
  }

  lemma MachineReadable(m: Machine)
    requires Ok(m)
    ensures CursorReadable(m.Disk())
  {
  }

  lemma EmptyTidy()
    ensures Tidy(Disk([], None))
  {
  }

  /** From an empty directory all this holds of every run. */
  lemma RunFromNothingAdvances(es: seq<Event>)
    ensures var m := Down(Disk([], None));
      && Ok(m) && Tidy(m.Disk()) && CursorReadable(Run(m, es).Disk()) && Tidy(Run(m, es).Disk())
  {
    EmptyDirectory();
    EmptyTidy();
    hide Tidy, Run, Ok;
    RunAdvances(Down(Disk([], None)), es);
  }
}
