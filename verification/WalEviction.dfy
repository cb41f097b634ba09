/** The byte cap: what eviction keeps, what a crash inside it leaves, and
    where it stops. */
module WalEviction {
  import opened ByteStrings
  import opened Frames
  import opened WalModel
  import opened WalProofs

  /** The records of `es` whose segment file is still there: whole files go,
      oldest first. */
  function Kept(es: seq<Entry>, segs: seq<Segment>): seq<Entry>
    requires segs != []
  {
    Filter(es, Cursor(segs[0].id, 0))
  }

  /** A rescan of `d` finds exactly the records of `es` whose segment file is
      still there, less damaged ones `next` had passed over. No file was added
      in front of number `first`. */
  predicate Leaves(d: Disk, es: seq<Entry>, first: nat) {
    && DiskOk(d) && d.segments != [] && first <= d.segments[0].id
    && LessDamaged(Recover(d), Kept(es, d.segments))
  }

  predicate AllLeave(trace: seq<Disk>, es: seq<Entry>, first: nat) {
    forall i :: 0 <= i < |trace| ==> Leaves(trace[i], es, first)
  }

  /** What is left of what was left. */
  lemma LeavesLater(d: Disk, small: seq<Entry>, mid: nat, es: seq<Entry>, first: nat)
    requires Leaves(d, small, mid) && first <= mid
    requires LessDamaged(small, Filter(es, Cursor(mid, 0)))
    ensures Leaves(d, es, first)
  {
    hide Ascending, Representable, CursorBehind, Recover, LessDamaged, Filter;
    var c := Cursor(d.segments[0].id, 0);
    FilterLess(small, Filter(es, Cursor(mid, 0)), c);
    FilterFilter(es, Cursor(mid, 0), c);
    LessTransitive(Recover(d), Filter(small, c), Filter(es, c));
  }

  lemma AllLeaveConcat(a: seq<Disk>, b: seq<Disk>, small: seq<Entry>, mid: nat, es: seq<Entry>, first: nat)
    requires AllLeave(a, es, first) && AllLeave(b, small, mid) && first <= mid
    requires LessDamaged(small, Filter(es, Cursor(mid, 0)))
    ensures AllLeave(a + b, es, first)
  {
    hide Leaves, LessDamaged, Filter;
    forall i | 0 <= i < |a + b| ensures Leaves((a + b)[i], es, first) {
      if i >= |a| {
        LeavesLater(b[i - |a|], small, mid, es, first);
      }
    }
  }

  /** All records of a directory are in its files. */
  lemma KeptAll(d: Disk)
    requires DiskOk(d) && d.segments != []
    ensures Kept(Recover(d), d.segments) == Recover(d)
  {
    EntriesFrom(d.segments, d.segments[0].id);
    FilterSubset(All(d.segments), DiskCursor(d));
    FilterAll(Recover(d), Cursor(d.segments[0].id, 0));
  }

  lemma PendingSuffix(s: State)
    requires Inv(s)
    ensures IsSuffix(s.records, Recover(s.disk)) && IsSuffix(s.records, All(s.disk.segments))
  {
    AllSorted(s.disk.segments);
    FilterSuffix(All(s.disk.segments), DiskCursor(s.disk));
  }

  lemma AddEmpty(segs: seq<Segment>, id: nat)
    requires Ascending(segs) && segs != [] && segs[|segs| - 1].id < id
    ensures Ascending(segs + [Segment(id, [])])
    ensures All(segs + [Segment(id, [])]) == All(segs)
  {
    var added := Segment(id, []);
    EmptyFile(id);
    hide All;
    AllConcat(segs, [added]);
    assert All(segs) + [] == All(segs);
  }

  lemma EmptyFile(id: nat)
    ensures All([Segment(id, [])]) == []
  {
    assert [Segment(id, [])][1..] == [];
  }

  lemma RollKeeps(s: State)
    requires Inv(s) && s.active + 1 < U64_LIMIT
    ensures Inv(Roll(s)) && Recover(Roll(s).disk) == Recover(s.disk)
    ensures All(Roll(s).disk.segments) == All(s.disk.segments)
  {
    AddEmpty(s.disk.segments, s.active + 1);
    var r := Roll(s);
    assert r.disk.segments[0] == s.disk.segments[0];
    assert DiskCursor(r.disk) == DiskCursor(s.disk);
    assert Recover(r.disk) == Recover(s.disk);
  }

  lemma {:induction false} RetainSplits(gone: seq<Entry>, kept: seq<Entry>, id: nat)
    requires forall e :: e in gone ==> e.segment == id
    requires forall e :: e in kept ==> e.segment != id
    ensures Retain(gone + kept, id) == kept
    decreases |gone| + |kept|
  {
    var es := gone + kept;
    if gone != [] {
      assert es[1..] == gone[1..] + kept;
      RetainSplits(gone[1..], kept, id);
    } else if kept != [] {
      assert es == kept && [] + kept[1..] == kept[1..];
      RetainSplits([], kept[1..], id);
    }
  }

  lemma EntriesFrom(segs: seq<Segment>, id: nat)
    requires forall g :: g in segs ==> g.id >= id
    ensures forall e :: e in All(segs) ==> e.segment >= id
  {
    forall e | e in All(segs) ensures e.segment >= id {
      var i := EntryPlace(segs, e);
    }
  }

  lemma SplitSuffix(first: seq<Entry>, rest: seq<Entry>, pending: seq<Entry>) returns (cut: nat)
    requires IsSuffix(pending, first + rest)
    ensures cut <= |pending| && IsSuffix(pending[cut..], rest)
    ensures forall e :: e in pending[..cut] ==> e in first
  {
    var t := |first| + |rest| - |pending|;
    cut := if t <= |first| then |first| - t else 0;
    assert forall i :: 0 <= i < cut ==> pending[i] == first[t + i];
    assert pending[cut..] == rest[|rest| - (|pending| - cut)..];
  }

  /** A suffix of a directory splits at its oldest segment. */
  lemma SplitAtOldest(first: seq<Entry>, rest: seq<Entry>, pending: seq<Entry>, id: nat, next: nat)
    requires IsSuffix(pending, first + rest) && id < next
    requires forall e :: e in first ==> e.segment == id
    requires forall e :: e in rest ==> e.segment >= next
    ensures var kept := Filter(pending, Cursor(next, 0));
      && Retain(pending, id) == kept && IsSuffix(kept, rest) && IsSuffix(kept, pending)
  {
    var cut := SplitSuffix(first, rest, pending);
    var gone, kept := pending[..cut], pending[cut..];
    assert pending == gone + kept;
    RetainSplits(gone, kept, id);
    FilterConcat(gone, kept, Cursor(next, 0));
    FilterNone(gone, Cursor(next, 0));
    FilterAll(kept, Cursor(next, 0));
  }

  /** Removing the oldest file drops its records from index and rescan alike. */
  lemma RemoveOldestKeeps(s: State)
    requires Inv(s) && |s.disk.segments| > 1
    ensures var r := RemoveOldest(s);
      && r.records == Filter(s.records, Cursor(r.disk.segments[0].id, 0))
      && IsSuffix(r.records, All(r.disk.segments)) && IsSuffix(r.records, s.records)
  {
    var segs := s.disk.segments;
    EntriesReadable(segs[0].id, segs[0].data, 0);
    EntriesFrom(segs[1..], segs[1].id);
    PendingSuffix(s);
    SplitAtOldest(Entries(segs[0].id, segs[0].data, 0), All(segs[1..]), s.records, segs[0].id, segs[1].id);
  }

  lemma RemoveOldestSolid(s: State)
    requires Solid(s) && |s.disk.segments| > 1
    ensures Solid(RemoveOldest(s))
  {
  }

  /** The file is gone but the cursor file is still the old one: a rescan
      misses exactly the records of the file. */
  lemma RemovedRecovers(s: State)
    requires Inv(s) && |s.disk.segments| > 1
    ensures var d := RemoveOldest(s).disk;
      DiskOk(d) && Recover(d) == Kept(Recover(s.disk), d.segments)
  {
    var segs := s.disk.segments;
    var first, rest := Entries(segs[0].id, segs[0].data, 0), All(segs[1..]);
    var c, next := DiskCursor(s.disk), Cursor(segs[1].id, 0);
    EntriesReadable(segs[0].id, segs[0].data, 0);
    EntriesFrom(segs[1..], segs[1].id);
    if s.disk.cursorFile.None? {
      EntriesFrom(segs, segs[0].id);
      FilterAll(All(segs), c);
      FilterConcat(first, rest, next);
      FilterNone(first, next);
    } else {
      RemovedFilters(first, rest, c, next);
    }
  }

  lemma RemovedFilters(first: seq<Entry>, rest: seq<Entry>, c: Cursor, next: Cursor)
    requires forall e :: e in first ==> !AtOrAfter(e, next)
    requires forall e :: e in rest ==> AtOrAfter(e, next)
    ensures Filter(Filter(first + rest, c), next) == Filter(rest, c)
  {
    FilterConcat(first, rest, c);
    FilterSubset(first, c);
    FilterSubset(rest, c);
    FilterConcat(Filter(first, c), Filter(rest, c), next);
    FilterNone(Filter(first, c), next);
    FilterAll(Filter(rest, c), next);
  }

  /** What one eviction promises, once there are two segments. */
  predicate EvictFacts(s: State, r: State)
    requires Shape(s) && Shape(r)
  {
    && Inv(r) && r.records == Recover(r.disk)
    && r.records == Filter(s.records, Cursor(r.disk.segments[0].id, 0))
    && s.disk.segments[0].id < r.disk.segments[0].id
    && IsSuffix(r.records, s.records)
  }

  lemma EvictFromLonger(s: State)
    requires Inv(s) && |s.disk.segments| > 1
    ensures EvictFacts(s, SaveCursor(RemoveOldest(s)))
  {
    RemoveOldestKeeps(s);
    RemoveOldestSolid(s);
    SaveCursorExact(RemoveOldest(s));
  }

  /** What an eviction leaves on disk, in terms of what was there. */
  lemma EvictedLess(s: State, r: State)
    requires Inv(s) && Shape(r) && EvictFacts(s, r)
    ensures LessDamaged(Recover(r.disk), Kept(Recover(s.disk), r.disk.segments))
  {
    hide Ascending, Representable, CursorBehind, AllWhole, Recover, LessDamaged, Filter;
    FilterLess(s.records, Recover(s.disk), Cursor(r.disk.segments[0].id, 0));
  }

  lemma EvictLeaves(s: State)
    requires Inv(s) && |s.disk.segments| > 1
    ensures Leaves(RemoveOldest(s).disk, Recover(s.disk), s.disk.segments[0].id)
    ensures Leaves(SaveCursor(RemoveOldest(s)).disk, Recover(s.disk), s.disk.segments[0].id)
  {
    hide AllWhole, Recover, LessDamaged, Kept, Indexed;
    RemovedRecovers(s);
    LessSelf(Recover(RemoveOldest(s).disk));
    EvictFromLonger(s);
    EvictedLess(s, SaveCursor(RemoveOldest(s)));
  }

  /** One eviction: the index loses exactly the records of the oldest segment. */
  lemma EvictKeeps(s: State)
    requires Inv(s) && CanEvict(s)
    ensures EvictFacts(s, EvictOldest(s))
  {
    if s.disk.segments[0].id == s.active {
      RollKeeps(s);
      EvictFromLonger(Roll(s));
    } else {
      EvictFromLonger(s);
    }
  }

  /** At every step of it a rescan finds exactly the records whose segment
      file is still there. */
  lemma EvictTraceLeaves(s: State)
    requires Inv(s) && CanEvict(s)
    ensures AllLeave(EvictTrace(s), Recover(s.disk), s.disk.segments[0].id)
  {
    hide Recover, LessDamaged, Kept, Indexed, AllWhole;
    if s.disk.segments[0].id == s.active {
      RollKeeps(s);
      assert Roll(s).disk.segments[0] == s.disk.segments[0];
      KeptAll(Roll(s).disk);
      LessSelf(Recover(s.disk));
      EvictLeaves(Roll(s));
    } else {
      EvictLeaves(s);
    }
  }

  lemma EvictTraceEnds(s: State)
    requires Shape(s)
    ensures EvictTrace(s) != [] && EvictTrace(s)[|EvictTrace(s)| - 1] == EvictOldest(s).disk
  {
  }

  lemma {:induction false} FilterFilter(es: seq<Entry>, c1: Cursor, c2: Cursor)
    requires c1.segment < c2.segment || (c1.segment == c2.segment && c1.offset <= c2.offset)
    ensures Filter(Filter(es, c1), c2) == Filter(es, c2)
  {
    if es != [] {
      FilterFilter(es[1..], c1, c2);
      FilterConcat(if AtOrAfter(es[0], c1) then [es[0]] else [], Filter(es[1..], c1), c2);
      assert Filter([es[0]], c2) == if AtOrAfter(es[0], c2) then [es[0]] else [] by {
        assert [es[0]][1..] == [];
      }
    }
  }

  lemma FilterFirst(s: State)
    requires Inv(s)
    ensures Filter(s.records, Cursor(s.disk.segments[0].id, 0)) == s.records
  {
    PendingSuffix(s);
    EntriesFrom(s.disk.segments, s.disk.segments[0].id);
    FilterAll(s.records, Cursor(s.disk.segments[0].id, 0));
  }

  /** What `enforce_cap` promises about the queue. */
  predicate CapKeeps(s: State, o: Outcome)
    requires Inv(s)
  {
    && Inv(o.state)
    && s.disk.segments[0].id <= o.state.disk.segments[0].id
    && o.state.records == Filter(s.records, Cursor(o.state.disk.segments[0].id, 0))
    && IsSuffix(o.state.records, s.records)
    && AllLeave(o.trace, Recover(s.disk), s.disk.segments[0].id)
    && (if o.trace == [] then o.state == s
        else o.trace[|o.trace| - 1] == o.state.disk && o.state.records == Recover(o.state.disk))
  }

  lemma CapKeepsStep(s: State, o: Outcome)
    requires Inv(s) && CanEvict(s) && Inv(EvictOldest(s)) && CapKeeps(EvictOldest(s), o)
    ensures CapKeeps(s, Outcome(o.state, EvictTrace(s) + o.trace, o.ok))
  {
    var r := EvictOldest(s);
    EvictKeeps(s);
    EvictTraceLeaves(s);
    EvictTraceEnds(s);
    FilterFilter(s.records, Cursor(r.disk.segments[0].id, 0), Cursor(o.state.disk.segments[0].id, 0));
    SuffixTransitive(o.state.records, r.records, s.records);
    EvictedLess(s, r);
    AllLeaveConcat(EvictTrace(s), o.trace, Recover(r.disk), r.disk.segments[0].id,
                   Recover(s.disk), s.disk.segments[0].id);
  }

  /** The whole loop: the index keeps exactly the records whose segment is
      still there, and so does a rescan after a crash anywhere inside. */
  lemma {:induction false} EnforceCapKeeps(s: State)
    requires Inv(s)
    ensures CapKeeps(s, EnforceCap(s))
    decreases Total(s.disk.segments), |s.disk.segments|
  {
    hide Indexed, CursorBehind, AllWhole, Representable, Ascending, EvictOldest;
    if Total(s.disk.segments) > s.maxBytes && CanEvict(s) {
      EvictDecreases(s);
      EvictKeeps(s);
      EnforceCapKeeps(EvictOldest(s));
      CapKeepsStep(s, EnforceCap(EvictOldest(s)));
    } else {
      FilterFirst(s);
    }
  }

  lemma EvictSegments(s: State)
    requires Shape(s)
    ensures var segs := s.disk.segments; var r := EvictOldest(s);
      && r.maxBytes == s.maxBytes
      && if |segs| == 1 then r.active == s.active + 1 && r.disk.segments == [Segment(s.active + 1, [])]
         else r.active == s.active && r.disk.segments == segs[1..]
  {
  }

  /** Where the loop may stop: at the first suffix of the directory that fits,
      or, when not even the active segment fits, at a fresh empty one. */
  predicate StopsAt(segs: seq<Segment>, maxBytes: nat, active: nat, final: seq<Segment>)
    requires segs != []
  {
    var n := |segs|;
    && Total(final) <= maxBytes
    && if |segs[n - 1].data| <= maxBytes
       then |final| <= n && final == segs[n - |final|..]
            && forall j :: 0 <= j < n - |final| ==> Total(segs[j..]) > maxBytes
       else final == [Segment(active + 1, [])]
  }

  lemma StopsHere(segs: seq<Segment>, maxBytes: nat, active: nat)
    requires segs != [] && Total(segs) <= maxBytes
    ensures StopsAt(segs, maxBytes, active, segs)
  {
    TotalLast(segs);
  }

  lemma StopsLater(segs: seq<Segment>, maxBytes: nat, active: nat, final: seq<Segment>)
    requires |segs| > 1 && Total(segs) > maxBytes && StopsAt(segs[1..], maxBytes, active, final)
    ensures StopsAt(segs, maxBytes, active, final)
  {
    var rest := segs[1..];
    var n := |segs|;
    if |segs[n - 1].data| <= maxBytes {
      forall j | 0 <= j < n - |final| ensures Total(segs[j..]) > maxBytes {
        if j > 0 {
          assert segs[j..] == rest[j - 1..];
        } else {
          assert segs[0..] == segs;
        }
      }
    }
  }

  lemma {:induction false} EnforceCapStops(s: State)
    requires Shape(s)
    ensures EnforceCap(s).ok ==> StopsAt(s.disk.segments, s.maxBytes, s.active, EnforceCap(s).state.disk.segments)
    decreases Total(s.disk.segments), |s.disk.segments|
  {
    hide EvictOldest, Ascending;
    var segs := s.disk.segments;
    TotalLast(segs);
    if Total(segs) <= s.maxBytes {
      StopsHere(segs, s.maxBytes, s.active);
    } else if CanEvict(s) {
      EvictDecreases(s);
      EvictSegments(s);
      var r := EvictOldest(s);
      EnforceCapStops(r);
      if |segs| == 1 {
        TotalLast(r.disk.segments);
        assert EnforceCap(s).state == EnforceCap(r).state == r;
      } else if EnforceCap(s).ok {
        hide Total, StopsAt;
        StopsLater(segs, s.maxBytes, s.active, EnforceCap(r).state.disk.segments);
      }
    }
  }

  /** When it fails, every older segment is gone and the active one is not. */
  lemma {:induction false} EnforceCapFails(s: State)
    requires Shape(s)
    ensures !EnforceCap(s).ok ==> EnforceCap(s).state.disk.segments == s.disk.segments[|s.disk.segments| - 1..]
    decreases Total(s.disk.segments), |s.disk.segments|
  {
    hide EvictOldest;
    var segs := s.disk.segments;
    OneSegment(s);
    hide Ascending;
    if Total(segs) > s.maxBytes && CanEvict(s) {
      EvictDecreases(s);
      EvictSegments(s);
      EnforceCapSucceeds(s);
      TotalLast(segs);
      hide Total, CanEvict;
      var r := EvictOldest(s);
      if |segs| > 1 {
        EnforceCapFails(r);
        assert segs[1..][|segs| - 2..] == segs[|segs| - 1..];
      }
    }
  }

  /** The loop fails for one reason only: the active segment alone exceeds the
      cap and there is no number left for a new one. */
  lemma {:induction false} EnforceCapSucceeds(s: State)
    requires Shape(s)
    ensures var o := EnforceCap(s);
      && (o.ok <==> ActiveLen(s) <= s.maxBytes || s.active + 1 < U64_LIMIT)
      && o.state.maxBytes == s.maxBytes && o.state.active <= s.active + 1
    decreases Total(s.disk.segments), |s.disk.segments|
  {
    hide EvictOldest;
    var segs := s.disk.segments;
    TotalLast(segs);
    OneSegment(s);
    hide Ascending;
    if Total(segs) > s.maxBytes && CanEvict(s) {
      EvictDecreases(s);
      EvictSegments(s);
      hide Total, CanEvict;
      var r := EvictOldest(s);
      TotalLast(r.disk.segments);
      if |segs| > 1 {
        EnforceCapSucceeds(r);
      }
    }
  }

  lemma OneSegment(s: State)
    requires Shape(s)
    ensures s.disk.segments[0].id == s.active <==> |s.disk.segments| == 1
  {
  }

  lemma TotalLast(segs: seq<Segment>)
    requires segs != []
    ensures var last := |segs[|segs| - 1].data|; Total(segs) >= last && (|segs| == 1 ==> Total(segs) == last)
  {
    var init, last := segs[..|segs| - 1], segs[|segs| - 1];
    assert segs == init + [last];
    TotalConcat(init, [last]);
    assert [last][1..] == [];
    assert Total([last]) == |last.data|;
  }

  // ---- What went, counted ----

  predicate HasFile(segs: seq<Segment>, id: nat) {
    exists g :: g in segs && g.id == id
  }

  /** The records of `es` whose segment file is gone. */
  function Removed(es: seq<Entry>, segs: seq<Segment>): seq<Entry> {
    if es == [] then []
    else (if HasFile(segs, es[0].segment) then [] else [es[0]]) + Removed(es[1..], segs)
  }

  /** How many deliverable ones among them. */
  function Lost(es: seq<Entry>, segs: seq<Segment>): nat {
    |Live(Removed(es, segs))|
  }

  lemma RecoverSorted(d: Disk)
    requires DiskOk(d)
    ensures WalProofs.Sorted(Recover(d))
  {
    AllSorted(d.segments);
    FilterSuffix(All(d.segments), DiskCursor(d));
  }

  /** Sorted records split into those in older files and the kept ones. */
  lemma {:induction false} RemovedSplits(es: seq<Entry>, segs: seq<Segment>)
    requires WalProofs.Sorted(es) && segs != [] && Ascending(segs)
    requires forall e :: e in es && e.segment >= segs[0].id && e.frame.Intact() ==> HasFile(segs, e.segment)
    ensures Live(es) == Live(Removed(es, segs)) + Live(Kept(es, segs))
  {
    hide Frame.Intact, HasFile;
    if es != [] {
      RemovedSplits(es[1..], segs);
      var head := Delivered(es[0].frame);
      if es[0].segment < segs[0].id {
        OlderGone(segs, es[0].segment);
        LiveOne(es[0], Removed(es[1..], segs));
        assert Kept(es, segs) == [] + Kept(es[1..], segs) == Kept(es[1..], segs);
        Associative(head, Live(Removed(es[1..], segs)), Live(Kept(es[1..], segs)));
      } else {
        FilterAll(es, Cursor(segs[0].id, 0));
        NoneRemoved(es, segs);
      }
    }
  }

  lemma OlderGone(segs: seq<Segment>, id: nat)
    requires Ascending(segs) && segs != [] && id < segs[0].id
    ensures !HasFile(segs, id)
  {
  }

  lemma {:induction false} NoneRemoved(es: seq<Entry>, segs: seq<Segment>)
    requires forall e :: e in es && e.frame.Intact() ==> HasFile(segs, e.segment)
    ensures Live(Removed(es, segs)) == []
  {
    hide Frame.Intact, HasFile;
    if es != [] {
      NoneRemoved(es[1..], segs);
      if HasFile(segs, es[0].segment) {
        assert Removed(es, segs) == [] + Removed(es[1..], segs) == Removed(es[1..], segs);
      } else {
        LiveOne(es[0], Removed(es[1..], segs));
        assert es[0] in es;
        assert Delivered(es[0].frame) == [];
      }
    }
  }

  lemma LiveOne(e: Entry, rest: seq<Entry>)
    ensures Live([e] + rest) == Delivered(e.frame) + Live(rest)
  {
    assert ([e] + rest)[1..] == rest;
  }

  /** The queue on such a disk is the queue without the removed records. */
  lemma LeavesQueue(d: Disk, es: seq<Entry>, first: nat)
    requires Leaves(d, es, first) && WalProofs.Sorted(es)
    ensures Lost(es, d.segments) <= |Live(es)|
    ensures Queue(d) == Live(es)[Lost(es, d.segments)..]
  {
    hide Frame.Intact, HasFile, Representable, CursorBehind, Before;
    var kept := Kept(es, d.segments);
    forall e | e in es && e.segment >= d.segments[0].id && e.frame.Intact() ensures HasFile(d.segments, e.segment) {
      FilterMember(es, Cursor(d.segments[0].id, 0), e);
      IntactStays(Recover(d), kept, e);
      FileOf(d, e);
    }
    RemovedSplits(es, d.segments);
    LessLive(Recover(d), kept);
  }

  lemma {:induction false} FilterMember(es: seq<Entry>, c: Cursor, e: Entry)
    requires e in es && AtOrAfter(e, c)
    ensures e in Filter(es, c)
  {
    if e != es[0] {
      FilterMember(es[1..], c, e);
    }
  }

  lemma IntactStays(a: seq<Entry>, b: seq<Entry>, e: Entry)
    requires LessDamaged(a, b) && e in b && e.frame.Intact()
    ensures e in a
  {
    var i :| 0 <= i < |b| && b[i] == e;
    assert a[i - (|b| - |a|)] == e;
  }

  lemma FileOf(d: Disk, e: Entry)
    requires CursorReadable(d) && e in Recover(d)
    ensures HasFile(d.segments, e.segment)
  {
    FilterSubset(All(d.segments), DiskCursor(d));
    var i := EntryPlace(d.segments, e);
  }

  /** What a rescan finds has its files. */
  lemma NothingLost(d: Disk)
    requires CursorReadable(d)
    ensures Lost(Recover(d), d.segments) == 0
  {
    hide Frame.Intact, HasFile;
    var es := Recover(d);
    forall e | e in es && e.frame.Intact() ensures HasFile(d.segments, e.segment) {
      FileOf(d, e);
    }
    NoneRemoved(es, d.segments);
  }
}
