/** Facts about scanning and filtering the log directory, then the two
    statements every operation needs: the state it ends in keeps `Inv` and
    holds the right queue, and every disk state on the way recovers to a queue
    a crash is allowed to leave. */
module WalProofs {
  import opened ByteStrings
  import opened Frames
  import opened WalModel

  // ---- Entries of a directory ----

  predicate Before(a: Entry, b: Entry) {
    a.segment < b.segment || (a.segment == b.segment && a.offset < b.offset)
  }

  predicate Sorted(es: seq<Entry>) {
    forall i, j :: 0 <= i < j < |es| ==> Before(es[i], es[j])
  }

  predicate InSegments(es: seq<Entry>, segs: seq<Segment>) {
    forall e :: e in es ==>
      exists g :: g in segs && e.segment == g.id && HasFrame(g.data, e.offset) && e.frame == FrameAt(g.data, e.offset)
  }

  lemma {:induction false} AllConcat(a: seq<Segment>, b: seq<Segment>)
    ensures All(a + b) == All(a) + All(b)
  {
    if a == [] {
      assert a + b == b;
    } else {
      assert (a + b)[1..] == a[1..] + b;
      AllConcat(a[1..], b);
    }
  }

  lemma {:induction false} AllReadable(segs: seq<Segment>)
    ensures InSegments(All(segs), segs)
  {
    if segs != [] {
      EntriesReadable(segs[0].id, segs[0].data, 0);
      AllReadable(segs[1..]);
    }
  }

  lemma {:induction false} AllSorted(segs: seq<Segment>)
    requires Ascending(segs)
    ensures Sorted(All(segs))
  {
    if segs != [] {
      EntriesReadable(segs[0].id, segs[0].data, 0);
      EntriesAscend(segs[0].id, segs[0].data, 0);
      AllReadable(segs[1..]);
      AllSorted(segs[1..]);
    }
  }

  // ---- Filtering by the cursor ----

  lemma {:induction false} FilterConcat(a: seq<Entry>, b: seq<Entry>, c: Cursor)
    ensures Filter(a + b, c) == Filter(a, c) + Filter(b, c)
  {
    if a == [] {
      assert a + b == b;
    } else {
      assert (a + b)[1..] == a[1..] + b;
      FilterConcat(a[1..], b, c);
    }
  }

  lemma {:induction false} FilterAll(es: seq<Entry>, c: Cursor)
    requires forall e :: e in es ==> AtOrAfter(e, c)
    ensures Filter(es, c) == es
  {
    if es != [] {
      FilterAll(es[1..], c);
    }
  }

  lemma {:induction false} FilterNone(es: seq<Entry>, c: Cursor)
    requires forall e :: e in es ==> !AtOrAfter(e, c)
    ensures Filter(es, c) == []
  {
    if es != [] {
      FilterNone(es[1..], c);
    }
  }

  /** On sorted entries the filter drops a prefix. */
  lemma {:induction false} FilterSuffix(es: seq<Entry>, c: Cursor)
    requires Sorted(es)
    ensures IsSuffix(Filter(es, c), es)
    ensures forall e :: e in Filter(es, c) ==> AtOrAfter(e, c)
  {
    if es != [] {
      if AtOrAfter(es[0], c) {
        FilterAll(es, c);
      } else {
        FilterSuffix(es[1..], c);
      }
    }
  }

  /** A cursor at an entry keeps exactly that entry and the later ones. */
  lemma FilterFrom(es: seq<Entry>, k: nat)
    requires Sorted(es) && k < |es|
    ensures Filter(es, Cursor(es[k].segment, es[k].offset)) == es[k..]
  {
    var c := Cursor(es[k].segment, es[k].offset);
    assert es == es[..k] + es[k..];
    FilterConcat(es[..k], es[k..], c);
    FilterNone(es[..k], c);
    FilterAll(es[k..], c);
  }

  // ---- Live payloads ----

  lemma {:induction false} LiveConcat(a: seq<Entry>, b: seq<Entry>)
    ensures Live(a + b) == Live(a) + Live(b)
  {
    if a == [] {
      assert a + b == b;
    } else {
      assert (a + b)[1..] == a[1..] + b;
      LiveConcat(a[1..], b);
      assert Delivered(a[0].frame) + (Live(a[1..]) + Live(b)) == (Delivered(a[0].frame) + Live(a[1..])) + Live(b);
    }
  }

  lemma {:induction false} LiveNone(es: seq<Entry>)
    requires forall i :: 0 <= i < |es| ==> !es[i].frame.Intact()
    ensures Live(es) == []
  {
    if es != [] {
      LiveNone(es[1..]);
    }
  }

  // ---- Damaged records at the front ----

  lemma LessSelf(es: seq<Entry>)
    ensures LessDamaged(es, es)
  {
    assert es[0..] == es;
  }

  lemma LessTransitive(a: seq<Entry>, b: seq<Entry>, c: seq<Entry>)
    requires LessDamaged(a, b) && LessDamaged(b, c)
    ensures LessDamaged(a, c)
  {
    hide Frame.Intact;
    SuffixTransitive(a, b, c);
    var k := |c| - |b|;
    forall i | 0 <= i < |c| - |a| ensures !c[i].frame.Intact() {
      assert i >= k ==> c[i] == b[i - k];
    }
  }

  lemma {:induction false} FilterSubset(es: seq<Entry>, c: Cursor)
    ensures forall e :: e in Filter(es, c) ==> e in es && AtOrAfter(e, c)
  {
    if es != [] {
      FilterSubset(es[1..], c);
    }
  }

  lemma FilterLess(a: seq<Entry>, b: seq<Entry>, c: Cursor)
    requires LessDamaged(a, b)
    ensures LessDamaged(Filter(a, c), Filter(b, c))
  {
    hide Frame.Intact, AtOrAfter;
    var front := b[..|b| - |a|];
    assert b == front + a;
    FilterConcat(front, a, c);
    FilterSubset(front, c);
    hide Filter;
    forall i | 0 <= i < |Filter(front, c)| ensures !Filter(b, c)[i].frame.Intact() {
      assert Filter(front, c)[i] in front;
    }
  }

  /** They are not delivered. */
  lemma LessLive(a: seq<Entry>, b: seq<Entry>)
    requires LessDamaged(a, b)
    ensures Live(a) == Live(b)
  {
    hide Frame.Intact;
    var front := b[..|b| - |a|];
    assert b == front + a;
    LiveConcat(front, a);
    LiveNone(front);
  }

  /** What the index holds is the disk's queue. */
  lemma PendingIsQueue(s: State)
    requires Inv(s)
    ensures Live(s.records) == Queue(s.disk)
  {
    LessLive(s.records, Recover(s.disk));
  }

  // ---- Cursor file ----

  lemma CursorRoundTrip(c: Cursor)
    requires c.segment < U64_LIMIT && c.offset < U64_LIMIT
    ensures DecodeCursor(EncodeCursor(c)) == c
  {
    Widths();
    LERoundTrip(c.segment, 8);
    LERoundTrip(c.offset, 8);
    assert EncodeCursor(c)[..8] == LE(c.segment, 8);
    assert EncodeCursor(c)[8..] == LE(c.offset, 8);
  }

  /** Sixteen bytes: the segment number from byte 0, the offset from byte 8,
      both lowest byte first. */
  lemma CursorLayout(c: Cursor)
    ensures |EncodeCursor(c)| == 16
    ensures forall i :: 0 <= i < 8 ==>
      EncodeCursor(c)[i] == Digit(c.segment, i) && EncodeCursor(c)[8 + i] == Digit(c.offset, i)
  {
    hide LE, Digit;
    forall i | 0 <= i < 8
      ensures EncodeCursor(c)[i] == Digit(c.segment, i) && EncodeCursor(c)[8 + i] == Digit(c.offset, i)
    {
      Digits(c.segment, 8, i);
      Digits(c.offset, 8, i);
    }
  }

  /** Everything but the agreement of cursor file, cursor and index. */
  predicate Solid(s: State) {
    && Shape(s)
    && DiskOk(s.disk)
    && AllWhole(s.disk.segments)
  }

  lemma InvFromExact(s: State)
    requires Solid(s) && DiskCursor(s.disk) == s.cursor && s.records == Recover(s.disk)
    ensures Inv(s)
  {
    hide AllWhole, Ascending, Representable, CursorBehind, Recover, DiskCursor;
    assert s.records[0..] == s.records;
  }

  lemma EntryPlace(segs: seq<Segment>, e: Entry) returns (i: nat)
    requires e in All(segs)
    ensures i < |segs| && segs[i].id == e.segment && HasFrame(segs[i].data, e.offset)
    ensures e.frame == FrameAt(segs[i].data, e.offset)
  {
    AllReadable(segs);
    var g :| g in segs && e.segment == g.id && HasFrame(g.data, e.offset) && e.frame == FrameAt(g.data, e.offset);
    i :| 0 <= i < |segs| && segs[i] == g;
  }

  /** The cursor computed from an index that is a suffix of the directory
      filters the directory down to that suffix. */
  lemma CursorForFilters(s: State)
    requires Shape(s) && IsSuffix(s.records, All(s.disk.segments))
    ensures Filter(All(s.disk.segments), CursorFor(s)) == s.records
  {
    var segs := s.disk.segments;
    var all := All(segs);
    AllSorted(segs);
    if s.records == [] {
      forall e | e in all ensures !AtOrAfter(e, CursorFor(s)) {
        var i := EntryPlace(segs, e);
      }
      FilterNone(all, CursorFor(s));
    } else {
      FilterFrom(all, |all| - |s.records|);
    }
  }

  lemma CursorForBound(s: State)
    requires Shape(s) && DiskOk(s.disk) && IsSuffix(s.records, All(s.disk.segments))
    ensures CursorFor(s).segment < U64_LIMIT && CursorFor(s).offset < U64_LIMIT
    ensures CursorFor(s).segment < s.active || (CursorFor(s).segment == s.active && CursorFor(s).offset <= ActiveLen(s))
  {
    if s.records != [] {
      assert s.records[0] in All(s.disk.segments);
      var i := EntryPlace(s.disk.segments, s.records[0]);
    }
  }

  /** Saving that cursor makes the index, no more and no less, what a
      reopening recovers. */
  lemma SaveCursorExact(s: State)
    requires Solid(s) && IsSuffix(s.records, All(s.disk.segments))
    ensures Inv(SaveCursor(s)) && Recover(SaveCursor(s).disk) == s.records
  {
    hide LessDamaged, Filter, All;
    CursorForFilters(s);
    CursorForBound(s);
    CursorRoundTrip(CursorFor(s));
    LessSelf(s.records);
  }
}
