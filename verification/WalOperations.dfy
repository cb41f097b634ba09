/** `open`, `append`, `next` and `ack`: what each makes of the queue when it
    completes, and what a crash at any durable effect inside it leaves. */
module WalOperations {
  import opened ByteStrings
  import opened Frames
  import opened WalModel
  import opened WalProofs
  import opened WalEviction

  // ---- Append ----

  /** The record an accepted append adds, with its place. */
  function NewEntry(s: State, payload: bytes): Entry
    requires Shape(s) && |payload| < U32_LIMIT
  {
    var s1 := if MustRoll(s, HEADER_BYTES + |payload|) then Roll(s) else s;
    Entry(s1.active, ActiveLen(s1), Sealed(payload))
  }

  /** Appending bytes to the last segment touches that segment's entries only. */
  lemma AllAppendLast(segs: seq<Segment>, x: bytes)
    requires segs != []
    ensures var last := segs[|segs| - 1];
      && All(segs) == All(segs[..|segs| - 1]) + Entries(last.id, last.data, 0)
      && All(AppendLast(segs, x)) == All(segs[..|segs| - 1]) + Entries(last.id, last.data + x, 0)
  {
    var init, last := segs[..|segs| - 1], segs[|segs| - 1];
    AllSingle(last);
    AllSingle(Segment(last.id, last.data + x));
    assert segs == init + [last];
    AllConcat(init, [last]);
    AllConcat(init, [Segment(last.id, last.data + x)]);
  }

  lemma AllSingle(g: Segment)
    ensures All([g]) == Entries(g.id, g.data, 0)
  {
    assert [g][1..] == [];
  }

  /** The directory, seen from a state whose last segment got the bytes `x`. */
  function WithBytes(d: Disk, x: bytes): Disk
    requires d.segments != []
  {
    d.(segments := AppendLast(d.segments, x))
  }

  lemma AppendLastListing(segs: seq<Segment>, x: bytes)
    requires segs != [] && Ascending(segs)
    requires Representable(segs)
    requires |segs[|segs| - 1].data| + |x| < U64_LIMIT
    ensures var r := AppendLast(segs, x);
      Ascending(r) && Representable(r) && r[0].id == segs[0].id
  {
  }

  lemma CursorStaysBehind(d: Disk, x: bytes, end: nat)
    requires d.segments != [] && CursorReadable(d) && CursorBehind(d)
    requires var data := d.segments[|d.segments| - 1].data; ScanEnd(data, 0) <= end == ScanEnd(data + x, 0)
    ensures CursorBehind(WithBytes(d, x)) && DiskCursor(WithBytes(d, x)) == DiskCursor(d)
  {
    hide ScanEnd;
    assert AppendLast(d.segments, x)[0].id == d.segments[0].id;
  }

  lemma WithBytesOk(s: State, x: bytes)
    requires Inv(s) && ActiveLen(s) + |x| < U64_LIMIT
    requires CursorBehind(WithBytes(s.disk, x))
    ensures DiskOk(WithBytes(s.disk, x))
  {
    hide Indexed, CursorBehind, AllWhole;
    AppendLastListing(s.disk.segments, x);
  }

  /** A torn write is invisible to the next scan. */
  lemma TornWrite(s: State, f: Frame, k: nat)
    requires Inv(s) && f.Fits() && k < |Encode(f)| && ActiveLen(s) + |Encode(f)| < U64_LIMIT
    ensures var d := WithBytes(s.disk, Encode(f)[..k]);
      DiskOk(d) && Recover(d) == Recover(s.disk)
  {
    var last := s.disk.segments[|s.disk.segments| - 1];
    AppendTorn(last.id, last.data, f, k);
    AllAppendLast(s.disk.segments, Encode(f)[..k]);
    CursorStaysBehind(s.disk, Encode(f)[..k], |last.data|);
    WithBytesOk(s, Encode(f)[..k]);
  }

  /** A complete write adds exactly its record at the back. */
  lemma FullWrite(s: State, f: Frame)
    requires Inv(s) && f.Fits() && ActiveLen(s) + |Encode(f)| < U64_LIMIT
    ensures var d := WithBytes(s.disk, Encode(f)); var e := Entry(s.active, ActiveLen(s), f);
      DiskOk(d) && Recover(d) == Recover(s.disk) + [e]
  {
    var segs := s.disk.segments;
    var last := segs[|segs| - 1];
    var e := Entry(s.active, ActiveLen(s), f);
    AppendWhole(last.id, last.data, f);
    AllAppendLast(segs, Encode(f));
    CursorStaysBehind(s.disk, Encode(f), |last.data| + |Encode(f)|);
    WithBytesOk(s, Encode(f));
    assert All(AppendLast(segs, Encode(f))) == All(segs) + [e];
    FilterConcat(All(segs), [e], s.cursor);
    FilterAll([e], s.cursor);
    assert Recover(WithBytes(s.disk, Encode(f))) == Recover(s.disk) + [e];
  }

  lemma FullWriteInv(s: State, f: Frame)
    requires Inv(s) && f.Fits() && ActiveLen(s) + |Encode(f)| < U64_LIMIT
    ensures Inv(s.(disk := WithBytes(s.disk, Encode(f)), records := s.records + [Entry(s.active, ActiveLen(s), f)]))
  {
    FullWrite(s, f);
    var last := s.disk.segments[|s.disk.segments| - 1];
    AppendWhole(last.id, last.data, f);
    CursorStaysBehind(s.disk, Encode(f), |last.data| + |Encode(f)|);
    var es := Recover(s.disk);
    assert forall i :: 0 <= i < |es| ==> (es + [Entry(s.active, ActiveLen(s), f)])[i] == es[i];
  }

  /** The active segment an append writes to, possibly a fresh one. */
  lemma WriteTarget(s: State, payload: bytes)
    requires Inv(s) && !Rejected(s, payload)
    ensures var s1 := if MustRoll(s, HEADER_BYTES + |payload|) then Roll(s) else s;
      && Inv(s1) && Recover(s1.disk) == Recover(s.disk) && s1.records == s.records
      && (ActiveLen(s1) == 0 || ActiveLen(s1) + HEADER_BYTES + |payload| <= SEGMENT_MAX_BYTES)
  {
    if MustRoll(s, HEADER_BYTES + |payload|) {
      RollKeeps(s);
    }
  }

  lemma WrittenKeeps(s: State, payload: bytes)
    requires Inv(s) && !Rejected(s, payload)
    ensures var w := Written(s, payload); var e := NewEntry(s, payload);
      Inv(w) && Recover(w.disk) == Recover(s.disk) + [e] && w.records == s.records + [e]
  {
    WriteTarget(s, payload);
    var s1 := if MustRoll(s, HEADER_BYTES + |payload|) then Roll(s) else s;
    FullWrite(s1, Sealed(payload));
    FullWriteInv(s1, Sealed(payload));
  }

  lemma WriteTraceRecover(s: State, f: Frame, i: nat)
    requires Inv(s) && f.Fits() && i < |Encode(f)| && ActiveLen(s) + |Encode(f)| < U64_LIMIT
    ensures var d := WriteTrace(s.disk, Encode(f))[i];
      && DiskOk(d)
      && Recover(d) == if i < |Encode(f)| - 1 then Recover(s.disk)
                       else Recover(s.disk) + [Entry(s.active, ActiveLen(s), f)]
  {
    if i < |Encode(f)| - 1 {
      TornWrite(s, f, i + 1);
    } else {
      assert Encode(f)[..i + 1] == Encode(f);
      FullWrite(s, f);
    }
  }

  /** Until the last byte has landed, a crash leaves the old queue; after it,
      the new one. */
  lemma WriteStepsRecover(s: State, payload: bytes, i: nat)
    requires Inv(s) && !Rejected(s, payload) && i < |WriteSteps(s, payload)|
    ensures var d := WriteSteps(s, payload)[i];
      && DiskOk(d)
      && Recover(d) == if i < |WriteSteps(s, payload)| - 1 then Recover(s.disk)
                       else Recover(s.disk) + [NewEntry(s, payload)]
  {
    hide Indexed, CursorBehind, AllWhole, Representable, Ascending, Recover, Encode, WriteTrace, Frame.Intact;
    WriteTarget(s, payload);
    if MustRoll(s, HEADER_BYTES + |payload|) {
      if i > 0 {
        WriteTraceRecover(Roll(s), Sealed(payload), i - 1);
      }
    } else {
      WriteTraceRecover(s, Sealed(payload), i);
    }
  }

  lemma WriteStepsEnd(s: State, payload: bytes)
    requires Shape(s) && |payload| < U32_LIMIT
    ensures WriteSteps(s, payload)[|WriteSteps(s, payload)| - 1] == Written(s, payload).disk
  {
    var f := Sealed(payload);
    assert Encode(f)[..|Encode(f)|] == Encode(f);
  }

  /** A completed append: the queue gains the record at the back and loses at
      most the records of evicted segments at the front. */
  lemma AppendKeeps(s: State, payload: bytes)
    requires Inv(s) && !Rejected(s, payload)
    ensures var o := Append(s, payload);
      && Inv(o.state)
      && o.state.records == Filter(s.records + [NewEntry(s, payload)], Cursor(o.state.disk.segments[0].id, 0))
      && IsSuffix(o.state.records, s.records + [NewEntry(s, payload)])
  {
    WrittenKeeps(s, payload);
    EnforceCapKeeps(Written(s, payload));
  }

  lemma TotalWritten(s: State, payload: bytes)
    requires Shape(s) && |payload| < U32_LIMIT
    ensures Total(Written(s, payload).disk.segments) == Total(s.disk.segments) + HEADER_BYTES + |payload|
  {
    var x := Encode(Sealed(payload));
    if MustRoll(s, HEADER_BYTES + |payload|) {
      TotalConcat(s.disk.segments, [Segment(s.active + 1, [])]);
      TotalAppendLast(Roll(s).disk.segments, x);
    } else {
      TotalAppendLast(s.disk.segments, x);
    }
  }

  lemma TotalAppendLast(segs: seq<Segment>, x: bytes)
    requires segs != []
    ensures Total(AppendLast(segs, x)) == Total(segs) + |x|
  {
    var init, last := segs[..|segs| - 1], segs[|segs| - 1];
    assert segs == init + [last];
    TotalConcat(init, [last]);
    TotalConcat(init, [Segment(last.id, last.data + x)]);
  }

  /** Nothing goes while the directory, with the new record, fits. */
  lemma AppendWithinCap(s: State, payload: bytes)
    requires Inv(s) && !Rejected(s, payload)
    requires Total(s.disk.segments) + HEADER_BYTES + |payload| <= s.maxBytes
    ensures var o := Append(s, payload);
      && o.ok && o.state == Written(s, payload)
      && o.state.records == s.records + [NewEntry(s, payload)]
      && Recover(o.state.disk) == Recover(s.disk) + [NewEntry(s, payload)]
  {
    WrittenKeeps(s, payload);
    WithinCapIdle(s, payload);
  }

  lemma WithinCapIdle(s: State, payload: bytes)
    requires Shape(s) && !Rejected(s, payload)
    requires Total(s.disk.segments) + HEADER_BYTES + |payload| <= s.maxBytes
    ensures Append(s, payload) == Outcome(Written(s, payload), WriteSteps(s, payload), true)
  {
    TotalWritten(s, payload);
    assert EnforceCap(Written(s, payload)) == Outcome(Written(s, payload), [], true);
  }

  lemma WrittenFirst(s: State, payload: bytes)
    requires Shape(s) && |payload| < U32_LIMIT
    ensures Written(s, payload).disk.segments[0].id == s.disk.segments[0].id
  {
    hide Encode, Ascending;
    var segs := (if MustRoll(s, HEADER_BYTES + |payload|) then Roll(s) else s).disk.segments;
    assert segs[0].id == s.disk.segments[0].id;
    assert AppendLast(segs, Encode(Sealed(payload)))[0].id == segs[0].id;
  }

  /** The disk that holds the new record, before the cap. */
  lemma WrittenLeaves(s: State, payload: bytes)
    requires Inv(s) && !Rejected(s, payload)
    ensures Leaves(Written(s, payload).disk, Recover(s.disk) + [NewEntry(s, payload)], s.disk.segments[0].id)
  {
    hide Recover, NewEntry, Written, LessDamaged, Kept, Indexed, AllWhole;
    WrittenKeeps(s, payload);
    WrittenFirst(s, payload);
    KeptAll(Written(s, payload).disk);
    LessSelf(Recover(s.disk) + [NewEntry(s, payload)]);
  }

  lemma AppendCrashLate(s: State, payload: bytes, i: nat)
    requires Inv(s) && !Rejected(s, payload) && i < |EnforceCap(Written(s, payload)).trace|
    ensures Leaves(EnforceCap(Written(s, payload)).trace[i], Recover(s.disk) + [NewEntry(s, payload)],
                   s.disk.segments[0].id)
  {
    hide Recover, NewEntry, Written, Leaves, Indexed, AllWhole;
    WrittenKeeps(s, payload);
    WrittenFirst(s, payload);
    EnforceCapKeeps(Written(s, payload));
  }

  /** A crash inside an append, at any of its durable effects: the old queue
      until the last byte has landed; from then on the new record is behind it,
      and exactly the records in files that are gone are missing. */
  lemma AppendCrash(s: State, payload: bytes, i: nat)
    requires Inv(s) && i < |Append(s, payload).trace|
    ensures var d := Append(s, payload).trace[i];
      && !Rejected(s, payload)
      && DiskOk(d)
      && if i < |WriteSteps(s, payload)| - 1 then Recover(d) == Recover(s.disk)
         else Leaves(d, Recover(s.disk) + [NewEntry(s, payload)], s.disk.segments[0].id)
  {
    hide Recover, NewEntry, Written, WriteSteps, EnforceCap, Ascending, Representable, CursorBehind, Kept, Indexed,
      AllWhole, LessDamaged;
    var n := |WriteSteps(s, payload)|;
    if i < n - 1 {
      WriteStepsRecover(s, payload, i);
    } else if i == n - 1 {
      WriteStepsEnd(s, payload);
      WrittenLeaves(s, payload);
    } else {
      AppendCrashLate(s, payload, i - n);
    }
  }

  /** A completed append has left the disk in the last of those states. */
  lemma AppendEndsTrace(s: State, payload: bytes)
    requires Inv(s) && !Rejected(s, payload)
    ensures var o := Append(s, payload); o.trace != [] && o.state.disk == o.trace[|o.trace| - 1]
  {
    hide Recover, NewEntry, Written, WriteSteps, EnforceCap, DiskOk, Indexed, AllWhole;
    WriteStepsEnd(s, payload);
    WrittenKeeps(s, payload);
    EnforceCapKeeps(Written(s, payload));
  }

  /** A successful append loses its record to the cap it triggers: the active
      segment it was added to has outgrown the whole budget. */
  predicate LostToCap(s: State, payload: bytes)
    requires Shape(s)
  {
    && ActiveLen(s) > 0
    && !MustRoll(s, HEADER_BYTES + |payload|)
    && ActiveLen(s) + HEADER_BYTES + |payload| > s.maxBytes
  }

  /** What decides whether an append succeeds, all of it known before. */
  predicate Takes(s: State, payload: bytes)
    requires Shape(s)
  {
    !Rejected(s, payload) && (LostToCap(s, payload) ==> s.active + 1 < U64_LIMIT)
  }

  lemma AppendTakes(s: State, payload: bytes)
    requires Shape(s)
    ensures var o := Append(s, payload);
      && (o.ok <==> Takes(s, payload))
      && o.state.maxBytes == s.maxBytes && o.state.active <= s.active + 2
  {
    hide EnforceCap;
    if !Rejected(s, payload) {
      WrittenActive(s, payload);
      EnforceCapSucceeds(Written(s, payload));
    }
  }

  /** The same without the model's own names: a payload is refused beyond u32 or
      when its record exceeds the cap, and when the next segment number it needs
      does not exist, be it because the active segment would outgrow 4 MiB or
      because it alone outgrows the cap. A refusal before the write changes
      nothing. */
  lemma AppendSucceeds(s: State, payload: bytes)
    requires Shape(s)
    ensures var segs := s.disk.segments; var tail, len := |segs[|segs| - 1].data|, 8 + |payload|;
      var opens := tail > 0 && tail + len > 4 * 1024 * 1024;
      var fits := |payload| < 0x1_0000_0000 && len <= s.maxBytes;
      var numbered := s.active + 1 < 0x1_0000_0000_0000_0000;
      && (Append(s, payload).ok <==>
            fits && (opens || (tail > 0 && tail + len > s.maxBytes) ==> numbered))
      && (!fits || (opens && !numbered) ==> Append(s, payload) == Outcome(s, [], false))
  {
    hide EnforceCap;
    AppendTakes(s, payload);
  }

  /** Where a successful append puts its record: behind the newest segment, or
      in a new one exactly when that one would outgrow 4 MiB. Of the resulting
      listing the longest suffix stays that fits the cap, and all of it if it
      fits. */
  lemma AppendPlaces(s: State, payload: bytes)
    requires Shape(s) && !Rejected(s, payload) && Append(s, payload).ok
    ensures var segs, record := s.disk.segments, Encode(Sealed(payload)); var last := segs[|segs| - 1];
      var opens := last.data != [] && |last.data| + |record| > 4 * 1024 * 1024;
      var written := if opens then segs + [Segment(last.id + 1, record)]
                     else segs[..|segs| - 1] + [Segment(last.id, last.data + record)];
      var final := Append(s, payload).state.disk.segments;
      && StopsAt(written, s.maxBytes, written[|written| - 1].id, final)
      && (Total(segs) + |record| <= s.maxBytes ==> final == written)
  {
    var w := Written(s, payload);
    WrittenListing(s, payload);
    hide EnforceCap, Total, Encode, Sealed, Ascending, StopsAt, Written, WriteSteps;
    EnforceCapStops(w);
    if Total(s.disk.segments) + HEADER_BYTES + |payload| <= s.maxBytes {
      WithinCapIdle(s, payload);
    }
  }

  lemma WrittenListing(s: State, payload: bytes)
    requires Shape(s) && |payload| < U32_LIMIT
    ensures var segs, record := s.disk.segments, Encode(Sealed(payload)); var last := segs[|segs| - 1];
      var w := Written(s, payload);
      && w.disk.segments ==
           (if last.data != [] && |last.data| + |record| > 4 * 1024 * 1024
            then segs + [Segment(last.id + 1, record)]
            else segs[..|segs| - 1] + [Segment(last.id, last.data + record)])
      && w.active == w.disk.segments[|w.disk.segments| - 1].id
  {
    hide Encode, Sealed, Ascending;
    RollThenWrite(s, Encode(Sealed(payload)));
  }

  lemma RollThenWrite(s: State, x: bytes)
    requires Shape(s)
    ensures AppendLast(Roll(s).disk.segments, x) == s.disk.segments + [Segment(s.active + 1, x)]
  {
    assert [] + x == x;
  }

  lemma WrittenActive(s: State, payload: bytes)
    requires Shape(s) && !Rejected(s, payload)
    ensures var w := Written(s, payload); var grown := ActiveLen(s) + HEADER_BYTES + |payload|;
      if MustRoll(s, HEADER_BYTES + |payload|)
      then w.active == s.active + 1 && ActiveLen(w) == HEADER_BYTES + |payload|
      else w.active == s.active && ActiveLen(w) == grown
  {
  }

  lemma RecordsUpTo(s: State, id: nat)
    requires Inv(s) && s.active <= id
    ensures forall x :: x in s.records ==> x.segment <= id
  {
    PendingSuffix(s);
    forall x | x in s.records ensures x.segment <= id {
      var i := EntryPlace(s.disk.segments, x);
    }
  }

  lemma CapKeepsLast(s: State, gone: seq<Entry>, e: Entry)
    requires Inv(s) && s.records == gone + [e] && e.segment == s.active && EnforceCap(s).ok
    ensures var r := EnforceCap(s).state.records;
      if ActiveLen(s) <= s.maxBytes then r != [] && r[|r| - 1] == e else r == []
  {
    hide Indexed, CursorBehind, AllWhole, Representable, EnforceCap;
    EnforceCapKeeps(s);
    EnforceCapStops(s);
    var segs, final := s.disk.segments, EnforceCap(s).state.disk.segments;
    var c := Cursor(final[0].id, 0);
    FilterConcat(gone, [e], c);
    if ActiveLen(s) <= s.maxBytes {
      assert final[0] == segs[|segs| - |final|];
      FilterAll([e], c);
    } else {
      RecordsUpTo(s, s.active);
      FilterNone(s.records, c);
    }
  }

  /** Retention, exactly: a successful append keeps its record at the back
      unless `LostToCap`, and then the log is empty. A budget of at least one
      segment never does that. */
  lemma AppendRetention(s: State, payload: bytes)
    requires Inv(s) && Append(s, payload).ok
    ensures var r := Append(s, payload).state.records;
      && (LostToCap(s, payload) <==> r == [])
      && (!LostToCap(s, payload) <==> r != [] && r[|r| - 1] == NewEntry(s, payload))
    ensures s.maxBytes >= SEGMENT_MAX_BYTES ==> !LostToCap(s, payload)
  {
    hide Indexed, CursorBehind, AllWhole, Representable, Ascending, Recover, EnforceCap, Encode;
    WrittenKeeps(s, payload);
    WrittenActive(s, payload);
    CapKeepsLast(Written(s, payload), s.records, NewEntry(s, payload));
  }
}
