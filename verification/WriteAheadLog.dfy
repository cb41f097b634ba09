/** The write-ahead log as the agent runs it: an object over a directory whose
    methods are proved against the operations of `WalModel`, disk state by disk
    state. */
module WriteAheadLog {
  import opened ByteStrings
  import opened Wrappers
  import opened Frames
  import opened WalModel
  import opened LogDirectory
  import Crc32
  import WalProofs
  import WalOperations
  import WalReplay
  import WalReopen

  datatype RecordMeta = RecordMeta(segment: nat, offset: nat, payloadLen: nat)

  datatype WalEntry = WalEntry(segment: nat, offset: nat, payload: bytes)

  function Meta(e: Entry): RecordMeta {
    RecordMeta(e.segment, e.offset, |e.frame.payload|)
  }

  function Metas(es: seq<Entry>): (ms: seq<RecordMeta>)
    ensures |ms| == |es|
    ensures forall i :: 0 <= i < |es| ==> ms[i] == Meta(es[i])
  {
    if es == [] then [] else [Meta(es[0])] + Metas(es[1..])
  }

  function RetainMetas(records: seq<RecordMeta>, evicted: nat): seq<RecordMeta> {
    if records == [] then []
    else (if records[0].segment != evicted then [records[0]] else []) + RetainMetas(records[1..], evicted)
  }

  lemma {:induction false} RetainAgrees(es: seq<Entry>, evicted: nat)
    ensures RetainMetas(Metas(es), evicted) == Metas(Retain(es, evicted))
  {
    if es != [] {
      RetainAgrees(es[1..], evicted);
      assert Metas(es)[1..] == Metas(es[1..]);
      var kept := if es[0].segment != evicted then [es[0]] else [];
      assert Metas(kept + Retain(es[1..], evicted)) == Metas(kept) + Metas(Retain(es[1..], evicted));
    }
  }

  class Wal {
    const maxBytes: nat
    const dir: Directory
    var active: nat
    var cursor: Cursor
    var records: seq<RecordMeta>
    /** The records the index points at. */
    ghost var entries: seq<Entry>

    ghost function View(): State
      reads this, dir
    {
      State(maxBytes, dir.Contents(), active, cursor, entries)
    }

    /** The file handle is the newest segment and the index is in step. */
    ghost predicate Wired()
      reads this, dir
    {
      Shape(View()) && records == Metas(entries)
    }

    ghost predicate Valid()
      reads this, dir
    {
      Inv(View()) && records == Metas(entries)
    }

    constructor (dir: Directory, maxBytes: nat, active: nat, cursor: Cursor, records: seq<RecordMeta>,
            ghost entries: seq<Entry>)
      ensures this.dir == dir && this.maxBytes == maxBytes
      ensures View() == State(maxBytes, dir.Contents(), active, cursor, entries)
      ensures this.records == records
    {
      this.dir, this.maxBytes, this.active, this.cursor, this.records := dir, maxBytes, active, cursor, records;
      this.entries := entries;
    }

    lemma ActivePlace()
      requires Shape(View())
      ensures Find(dir.segments, active) == |dir.segments| - 1
    {
      WalReplay.FindExact(dir.segments, |dir.segments| - 1);
    }

    method ActiveLength() returns (n: nat)
      requires Shape(View())
      ensures n == ActiveLen(View())
    {
      ActivePlace();
      n := dir.Length(active);
    }

    /** `checked_add`: the segment number is a u64. */
    method RollSegment() returns (ok: bool)
      requires Wired()
      modifies this`active, dir
      ensures ok == (old(active) + 1 < U64_LIMIT)
      ensures View() == (if ok then Roll(old(View())) else old(View())) && Wired()
      ensures dir.history == old(dir.history) + if ok then [dir.Contents()] else []
    {
      ok := active + 1 < U64_LIMIT;
      if ok {
        active := active + 1;
        dir.OpenSegment(active);
      }
    }

    method PersistCursor()
      requires Wired()
      modifies this`cursor, dir
      ensures View() == SaveCursor(old(View())) && Wired()
      ensures dir.history == old(dir.history) + [dir.Contents()]
    {
      if records != [] {
        cursor := Cursor(records[0].segment, records[0].offset);
      } else {
        var n := ActiveLength();
        cursor := Cursor(active, n);
      }
      dir.ReplaceCursor(EncodeCursor(cursor));
    }

    method TotalBytes() returns (total: nat)
      requires Ascending(dir.segments)
      ensures total == Total(dir.segments)
    {
      var ids := dir.List();
      total := 0;
      for i := 0 to |ids|
        invariant total == Total(dir.segments[..i])
      {
        WalReplay.FindExact(dir.segments, i);
        var n := dir.Length(ids[i]);
        total := total + n;
        assert dir.segments[..i + 1] == dir.segments[..i] + [dir.segments[i]];
        TotalConcat(dir.segments[..i], [dir.segments[i]]);
        assert [dir.segments[i]][1..] == [];
      }
      assert dir.segments[..|ids|] == dir.segments;
    }

    /** Removes the oldest file; its records leave the index. */
    method RemoveOldestSegment()
      requires Wired() && |dir.segments| > 1
      modifies this, dir
      ensures View() == RemoveOldest(old(View())) && Wired()
      ensures dir.history == old(dir.history) + [dir.Contents()]
    {
      var oldest := dir.segments[0].id;
      dir.Remove(oldest);
      RetainAgrees(entries, oldest);
      records := RetainMetas(records, oldest);
      entries := Retain(entries, oldest);
    }

    /** One turn of the eviction loop. */
    method Evict() returns (ok: bool)
      requires Wired()
      modifies this, dir
      ensures ok == old(CanEvict(View()))
      ensures View() == (if ok then EvictOldest(old(View())) else old(View())) && Wired()
      ensures dir.history == old(dir.history) + if ok then EvictTrace(old(View())) else []
    {
      if dir.segments[0].id == active {
        ok := RollSegment();
        if !ok {
          return;
        }
      }
      ok := true;
      assert View() == BeforeEvict(old(View()));
      RemoveOldestSegment();
      PersistCursor();
    }

    method EnforceCap() returns (ok: bool)
      requires Wired()
      modifies this, dir
      ensures var o := WalModel.EnforceCap(old(View()));
        ok == o.ok && View() == o.state && dir.history == old(dir.history) + o.trace
      ensures Wired()
    {
      hide Ascending, EvictOldest, EvictTrace, Total, Metas;
      ghost var before := View();
      ghost var done: seq<WalModel.Disk> := [];
      var total := TotalBytes();
      while total > maxBytes
        invariant Wired() && total == Total(dir.segments)
        invariant dir.history == old(dir.history) + done
        invariant WalModel.EnforceCap(before) == After(done, WalModel.EnforceCap(View()))
        decreases Total(dir.segments), |dir.segments|
      {
        ghost var s := View();
        EvictDecreases(s);
        ok := Evict();
        if !ok {
          assert done + [] == done;
          return;
        }
        assert WalModel.EnforceCap(s) == After(EvictTrace(s), WalModel.EnforceCap(View()));
        AfterAfter(done, EvictTrace(s), WalModel.EnforceCap(View()));
        done := done + EvictTrace(s);
        total := TotalBytes();
      }
      ok := true;
      assert done + [] == done;
    }

    /** Writes one record behind the newest one: length, checksum, payload. */
    method WriteRecord(payload: bytes) returns (offset: nat)
      requires Shape(View()) && |payload| < U32_LIMIT
      modifies dir
      ensures offset == old(ActiveLen(View()))
      ensures View() == old(View()).(disk := WalOperations.WithBytes(old(dir.Contents()), Encode(Sealed(payload))))
      ensures dir.history == old(dir.history) + WriteTrace(old(dir.Contents()), Encode(Sealed(payload)))
    {
      hide WriteTrace, AppendLast, LE, Crc32.Checksum;
      offset := ActiveLength();
      ghost var d0, h := dir.Contents(), dir.history;
      var crc := Crc32.Crc32(payload);
      var length, sum := LE(|payload|, 4), LE(crc, 4);
      WriteTraceConcat(d0, length, sum);
      WriteTraceConcat(d0, length + sum, payload);
      dir.Extend(length);
      ghost var d1 := dir.Contents();
      dir.Extend(sum);
      ghost var d2 := dir.Contents();
      Associative(h, WriteTrace(d0, length), WriteTrace(d1, sum));
      dir.Extend(payload);
      Associative(h, WriteTrace(d0, length + sum), WriteTrace(d2, payload));
    }

    /** Puts the record on disk and into the index. */
    method Store(payload: bytes)
      requires Wired() && !Rejected(View(), payload)
      modifies this, dir
      ensures View() == Written(old(View()), payload) && Wired()
      ensures dir.history == old(dir.history) + WriteSteps(old(View()), payload)
    {
      hide Ascending, AppendLast, WriteTrace, Encode, Crc32.Checksum, Frame.Intact;
      var activeLen := ActiveLength();
      if activeLen > 0 && activeLen + HEADER_BYTES + |payload| > SEGMENT_MAX_BYTES {
        var rolled := RollSegment();
      }
      var offset := WriteRecord(payload);
      MetasConcat(entries, [Entry(active, offset, Sealed(payload))]);
      records := records + [RecordMeta(active, offset, |payload|)];
      entries := entries + [Entry(active, offset, Sealed(payload))];
    }

    /** The checks made before anything is written. */
    method Refuses(payload: bytes) returns (refused: bool)
      requires Shape(View())
      ensures refused == Rejected(View(), payload)
    {
      if |payload| >= U32_LIMIT {
        return true;
      }
      var recordLen := HEADER_BYTES + |payload|;
      if recordLen > maxBytes {
        return true;
      }
      var activeLen := ActiveLength();
      refused := activeLen > 0 && activeLen + recordLen > SEGMENT_MAX_BYTES && active + 1 >= U64_LIMIT;
    }

    /** Appends one payload. Refused payloads leave everything as it was. */
    method Append(payload: bytes) returns (ok: bool)
      requires Valid()
      modifies this, dir
      ensures var o := WalModel.Append(old(View()), payload);
        ok == o.ok && View() == o.state && dir.history == old(dir.history) + o.trace
      ensures Valid()
    {
      hide Ascending, DiskOk, Indexed, AllWhole, Metas, Written, WriteSteps, Rejected, WalModel.EnforceCap,
        WalModel.Append;
      ghost var before := View();
      AppendUnfold(before, payload);
      var refused := Refuses(payload);
      if refused {
        return false;
      }
      Store(payload);
      ok := EnforceCap();
    }

    /** Drops the front of the index. */
    method PopFront()
      requires records != [] && records == Metas(entries)
      modifies this`records, this`entries
      ensures View() == old(View()).(records := old(entries)[1..]) && records == Metas(entries)
    {
      MetasTail(entries);
      records := records[1..];
      entries := entries[1..];
    }

    /** Reads the front record from its file: payload and stored checksum. */
    method ReadFront() returns (payload: bytes, stored: nat)
      requires Valid() && records != []
      ensures Frame(payload, stored) == entries[0].frame
    {
      hide Representable, CursorBehind, Indexed, AllWhole, Recover;
      var record := records[0];
      WalReplay.HeadReadable(View());
      var header := dir.Read(record.segment, record.offset, record.offset + HEADER_BYTES);
      payload := dir.Read(record.segment, record.offset + HEADER_BYTES,
          record.offset + HEADER_BYTES + record.payloadLen);
      HeaderChecksum(dir.segments[Find(dir.segments, record.segment)].data, record.offset);
      stored := FromLE(header[4..]);
    }

    /** The oldest record that reads back intact; damaged ones before it leave
        the index for good. */
    method Next() returns (entry: Option<WalEntry>)
      requires Valid()
      modifies this`records, this`entries
      ensures View() == SkipDamaged(old(View())) && Valid()
      ensures match HeadOf(View())
        case Nothing => entry == None
        case Head(segment, offset, payload) => entry == Some(WalEntry(segment, offset, payload))
        case Unreadable => false
    {
      hide Ascending, Representable, CursorBehind, Indexed, AllWhole, CursorReadable, ReadEntry, Shape, Metas;
      while records != []
        invariant Valid() && SkipDamaged(old(View())) == SkipDamaged(View())
        decreases |records|
      {
        WalReplay.HeadReadable(View());
        var payload, stored := ReadFront();
        var crc := Crc32.Crc32(payload);
        if crc == stored {
          return Some(WalEntry(records[0].segment, records[0].offset, payload));
        }
        WalReplay.SkipOne(View());
        PopFront();
      }
      entry := None;
    }

    /** Acknowledges the head: the cursor moves on and finished segments go. */
    method Ack(entry: WalEntry) returns (ok: bool)
      requires Valid()
      modifies this, dir
      ensures var o := WalModel.Ack(old(View()), entry.segment, entry.offset);
        ok == o.ok && View() == o.state && dir.history == old(dir.history) + o.trace
      ensures Valid()
    {
      hide Ascending, Representable, CursorBehind, Indexed, AllWhole, Recover, Metas, DropAcked, DropTrace;
      ghost var before := View();
      if records == [] || records[0].segment != entry.segment || records[0].offset != entry.offset {
        return false;
      }
      PopFront();
      PersistCursor();
      DeleteFullyAcked();
      WalReplay.AckKeeps(before, entry.segment, entry.offset);
      ok := true;
    }

    method DeleteFullyAcked()
      requires Wired()
      modifies dir
      ensures dir.segments == DropAcked(old(dir.segments), cursor.segment, active)
      ensures dir.cursorFile == old(dir.cursorFile)
      ensures dir.history == old(dir.history) + DropTrace([], old(dir.segments), cursor.segment, active, dir.cursorFile)
    {
      hide Metas, DropAcked, DropTrace, Ascending, Find, Ids;
      ghost var below := cursor.segment;
      ghost var file := dir.cursorFile;
      ghost var kept: seq<Segment> := [];
      ghost var rest := dir.segments;
      ghost var done: seq<WalModel.Disk> := [];
      var ids := dir.List();
      assert kept + rest == rest;
      for i := 0 to |ids|
        invariant dir.cursorFile == file && dir.segments == kept + rest && Ascending(kept + rest)
        invariant Ids(rest) == ids[i..]
        invariant DropAcked(old(dir.segments), below, active) == kept + DropAcked(rest, below, active)
        invariant dir.history == old(dir.history) + done
        invariant DropTrace([], old(dir.segments), below, active, file)
            == done + DropTrace(kept, rest, below, active, file)
      {
        var id := ids[i];
        DropAdvance(kept, rest);
        DropUnfold(kept, rest, done, below, active, file);
        if id < cursor.segment && id != active {
          dir.Remove(id);
          Associative(old(dir.history), done, [dir.Contents()]);
          done := done + [dir.Contents()];
        } else {
          kept := kept + [rest[0]];
        }
        rest := rest[1..];
      }
      DropNothing(kept, rest, below, active, file);
    }

    /** The number of unacknowledged records. */
    method PendingCount() returns (n: nat)
      requires Valid()
      ensures n == |View().records|
    {
      n := |records|;
    }
  }

  /** One turn of the deletion loop, on the listing. */
  lemma DropAdvance(kept: seq<Segment>, rest: seq<Segment>)
    requires rest != [] && Ascending(kept + rest)
    ensures Ids(rest)[0] == rest[0].id && Ids(rest)[1..] == Ids(rest[1..])
    ensures Find(kept + rest, rest[0].id) == |kept|
    ensures (kept + rest)[..|kept|] == kept && (kept + rest)[|kept| + 1..] == rest[1..]
    ensures (kept + [rest[0]]) + rest[1..] == kept + rest && Ascending(kept + rest[1..])
  {
    hide Ascending, Find;
    TakeFirstOfRest(kept, rest);
    WalReplay.FindExact(kept + rest, |kept|);
    AscendingWithout(kept, rest);
  }

  lemma TakeFirstOfRest<T>(kept: seq<T>, rest: seq<T>)
    requires rest != []
    ensures (kept + rest)[..|kept|] == kept && (kept + rest)[|kept| + 1..] == rest[1..]
    ensures (kept + rest)[|kept|] == rest[0] && (kept + [rest[0]]) + rest[1..] == kept + rest
  {
  }

  lemma AscendingWithout(kept: seq<Segment>, rest: seq<Segment>)
    requires rest != [] && Ascending(kept + rest)
    ensures Ascending(kept + rest[1..])
  {
    var l, r := kept + rest, kept + rest[1..];
    forall i, j | 0 <= i < j < |r| ensures r[i].id < r[j].id {
      var a, b := if i < |kept| then i else i + 1, if j < |kept| then j else j + 1;
      assert l[a].id < l[b].id;
    }
  }

  /** One turn of the deletion loop, on what is kept and on the trace. */
  lemma DropUnfold(kept: seq<Segment>, rest: seq<Segment>, done: seq<WalModel.Disk>, below: nat, active: nat,
          file: Option<bytes>)
    requires rest != []
    ensures if rest[0].id < below && rest[0].id != active
      then DropAcked(rest, below, active) == DropAcked(rest[1..], below, active)
           && done + DropTrace(kept, rest, below, active, file)
              == (done + [Disk(kept + rest[1..], file)]) + DropTrace(kept, rest[1..], below, active, file)
      else kept + DropAcked(rest, below, active) == (kept + [rest[0]]) + DropAcked(rest[1..], below, active)
           && DropTrace(kept, rest, below, active, file) == DropTrace(kept + [rest[0]], rest[1..], below, active, file)
  {
    if rest[0].id < below && rest[0].id != active {
      var t := DropTrace(kept, rest[1..], below, active, file);
      assert done + ([Disk(kept + rest[1..], file)] + t) == (done + [Disk(kept + rest[1..], file)]) + t;
    } else {
      var d := DropAcked(rest[1..], below, active);
      assert kept + ([rest[0]] + d) == (kept + [rest[0]]) + d;
    }
  }

  lemma DropNothing(kept: seq<Segment>, rest: seq<Segment>, below: nat, active: nat, file: Option<bytes>)
    requires rest == []
    ensures kept + DropAcked(rest, below, active) == kept + rest == kept
    ensures DropTrace(kept, rest, below, active, file) == []
  {
  }

  lemma AppendUnfold(s: State, payload: bytes)
    requires Inv(s)
    ensures Rejected(s, payload) ==> WalModel.Append(s, payload) == Outcome(s, [], false)
    ensures !Rejected(s, payload) ==>
      && WalModel.Append(s, payload) == After(WriteSteps(s, payload), WalModel.EnforceCap(Written(s, payload)))
      && Inv(WalModel.Append(s, payload).state)
  {
    if !Rejected(s, payload) {
      WalOperations.AppendKeeps(s, payload);
    }
  }

  lemma MetasConcat(a: seq<Entry>, b: seq<Entry>)
    ensures Metas(a + b) == Metas(a) + Metas(b)
  {
  }

  lemma MetasTail(es: seq<Entry>)
    requires es != []
    ensures Metas(es)[1..] == Metas(es[1..])
  {
  }

  lemma HeaderChecksum(data: bytes, off: nat)
    requires off + HEADER_BYTES <= |data|
    ensures data[off..off + HEADER_BYTES][4..] == data[off + 4..off + HEADER_BYTES]
  {
  }

  /** The complete records of one segment, and where they end. */
  method ScanRecords(dir: Directory, id: nat, cursor: Cursor, ghost data: bytes)
          returns (records: seq<RecordMeta>, end: nat)
    requires Find(dir.segments, id) < |dir.segments| && dir.segments[Find(dir.segments, id)].data == data
    ensures records == Metas(Filter(Entries(id, data, 0), cursor))
    ensures end == ScanEnd(data, 0)
  {
    hide Metas, Filter, Find, FromLE, AtOrAfter, Frame.Intact;
    var fileLen := dir.Length(id);
    var offset := 0;
    ghost var scanned: seq<Entry> := [];
    NothingScanned(cursor);
    records := [];
    while offset + HEADER_BYTES <= fileLen
      invariant offset <= fileLen && ScanEnd(data, 0) == ScanEnd(data, offset)
      invariant Entries(id, data, 0) == scanned + Entries(id, data, offset)
      invariant records == Metas(Filter(scanned, cursor))
      decreases fileLen - offset
    {
      var header := dir.Read(id, offset, offset + HEADER_BYTES);
      SliceOfSlice(data, offset);
      var payloadLen := FromLE(header[..4]);
      var recordLen := HEADER_BYTES + payloadLen;
      if offset + recordLen > fileLen {
        break;
      }
      ghost var e := Entry(id, offset, FrameAt(data, offset));
      ScanKeeps(e, cursor);
      if id > cursor.segment || (id == cursor.segment && offset >= cursor.offset) {
        records := records + [RecordMeta(id, offset, payloadLen)];
      }
      ScanAdvance(scanned, e, Entries(id, data, offset + recordLen), cursor);
      scanned := scanned + [e];
      offset := offset + recordLen;
    }
    assert scanned + [] == scanned;
    end := offset;
  }

  lemma ScanKeeps(e: Entry, c: Cursor)
    ensures AtOrAfter(e, c) <==> e.segment > c.segment || (e.segment == c.segment && e.offset >= c.offset)
  {
  }

  lemma RepairAllAscending(segs: seq<Segment>)
    requires Ascending(segs)
    ensures Ascending(RepairAll(segs))
  {
    hide Repaired;
  }

  lemma NothingScanned(c: Cursor)
    ensures Metas(Filter([], c)) == [] && All([]) == []
  {
  }

  /** Rebuilds the index of one segment and cuts its torn tail. The listing is
      `done + [g] + tail`. */
  method ScanSegment(dir: Directory, id: nat, cursor: Cursor, ghost done: seq<Segment>, ghost g: Segment,
          ghost tail: seq<Segment>)
    returns (records: seq<RecordMeta>)
    requires dir.segments == done + [g] + tail && g.id == id && Find(dir.segments, id) == |done|
    modifies dir
    ensures records == Metas(Filter(Entries(id, g.data, 0), cursor))
    ensures dir.cursorFile == old(dir.cursorFile) && dir.segments == done + [Repaired(g)] + tail
    ensures dir.history == old(dir.history) + if Repaired(g) == g then [] else [dir.Contents()]
  {
    hide Metas, Filter, Find, Entries;
    var end: nat;
    assert dir.segments[|done|] == g;
    var fileLen := dir.Length(id);
    records, end := ScanRecords(dir, id, cursor, g.data);
    if end < fileLen {
      dir.Truncate(id, end);
    } else {
      assert g.data[..end] == g.data;
    }
  }

  lemma SliceOfSlice(data: bytes, off: nat)
    requires off + HEADER_BYTES <= |data|
    ensures data[off..off + HEADER_BYTES][..4] == data[off..off + 4]
  {
  }

  lemma ScanAdvance(scanned: seq<Entry>, e: Entry, later: seq<Entry>, c: Cursor)
    ensures scanned + ([e] + later) == (scanned + [e]) + later
    ensures Metas(Filter(scanned + [e], c)) == Metas(Filter(scanned, c)) + if AtOrAfter(e, c) then [Meta(e)] else []
  {
    WalProofs.FilterConcat(scanned, [e], c);
    assert [e][1..] == [];
    MetasConcat(Filter(scanned, c), Filter([e], c));
  }

  /** Opens the log of a directory, or fails on an unreadable cursor file or
      when the cap cannot be enforced. */
  method Open(dir: Directory, maxBytes: nat) returns (wal: Option<Wal>)
    requires Ascending(dir.segments)
    modifies dir
    ensures wal.Some? ==> fresh(wal.value) && wal.value.dir == dir && wal.value.maxBytes == maxBytes
    ensures if !old(CursorReadable(dir.Contents()))
      then wal == None && dir.Contents() == WithSegment(old(dir.Contents()))
      else var o := WalModel.Open(old(dir.Contents()), maxBytes);
        && (wal.Some? <==> o.ok)
        && (wal.Some? ==> wal.value.View() == o.state && (old(DiskOk(dir.Contents())) ==> wal.value.Valid()))
        && dir.Contents() == o.state.disk
        && dir.history == old(dir.history) + o.trace
  {
    hide Ascending, DiskOk, Indexed, AllWhole, Metas, Filter, All, RepairTrace, OpenSteps, WalModel.EnforceCap;
    ghost var d0 := dir.Contents();
    var active := OpenNewest(dir);
    ghost var d := dir.Contents();
    var read := ReadCursor(dir);
    if read.None? {
      return None;
    }
    var records := ScanAll(dir, read.value);
    OpenStepsAre(old(dir.history), d0);
    assert dir.history == old(dir.history) + OpenSteps(d0);
    RepairAllAscending(d.segments);
    var w := new Wal(dir, maxBytes, active, read.value, records, Recover(d));
    assert w.View() == Scanned(d, maxBytes);
    ghost var h, t := old(dir.history), WalModel.EnforceCap(w.View()).trace;
    var ok := w.EnforceCap();
    Associative(h, OpenSteps(d0), t);
    if ok {
      wal := Some(w);
      if DiskOk(d0) {
        WalReopen.OpenKeeps(d0, maxBytes);
      }
    } else {
      wal := None;
    }
  }

  lemma OpenStepsAre(h: seq<WalModel.Disk>, d: WalModel.Disk)
    ensures var first := if d.segments == [] then [WithSegment(d)] else [];
      h + OpenSteps(d) == h + first + RepairTrace([], WithSegment(d).segments, d.cursorFile)
  {
  }

  /** The newest segment file, created when the directory has none. */
  method OpenNewest(dir: Directory) returns (active: nat)
    requires Ascending(dir.segments)
    modifies dir
    ensures dir.Contents() == WithSegment(old(dir.Contents())) && Ascending(dir.segments)
    ensures active == dir.segments[|dir.segments| - 1].id
    ensures dir.history == old(dir.history) + if old(dir.segments) == [] then [dir.Contents()] else []
  {
    var ids := dir.List();
    if ids == [] {
      ids := [0];
    }
    active := ids[|ids| - 1];
    dir.OpenSegment(active);
  }

  /** The persisted cursor, the start of the oldest segment when there is none,
      and nothing when the file is not 16 bytes. */
  method ReadCursor(dir: Directory) returns (cursor: Option<Cursor>)
    requires dir.segments != []
    ensures cursor == if CursorReadable(dir.Contents()) then Some(DiskCursor(dir.Contents())) else None
  {
    match dir.cursorFile {
      case None =>
        var ids := dir.List();
        cursor := Some(Cursor(ids[0], 0));
      case Some(b) =>
        if |b| != 16 {
          return None;
        }
        cursor := Some(DecodeCursor(b));
    }
  }

  method ScanAll(dir: Directory, cursor: Cursor) returns (records: seq<RecordMeta>)
    requires Ascending(dir.segments)
    modifies dir
    ensures records == Metas(Filter(All(old(dir.segments)), cursor))
    ensures dir.cursorFile == old(dir.cursorFile) && dir.segments == RepairAll(old(dir.segments))
    ensures dir.history == old(dir.history) + RepairTrace([], old(dir.segments), dir.cursorFile)
  {
    hide Metas, Filter, Find, Entries, RepairTrace, Repaired, Ascending, All, RepairAll;
    ghost var file := dir.cursorFile;
    ghost var scanned: seq<Segment> := [];
    ghost var done: seq<Segment> := [];
    ghost var rest := dir.segments;
    ghost var trace: seq<WalModel.Disk> := [];
    records := [];
    NothingScanned(cursor);
    assert done + rest == rest;
    var ids := dir.List();
    for i := 0 to |ids|
      invariant dir.cursorFile == file && dir.segments == done + rest && Ascending(done + rest)
      invariant Ids(rest) == ids[i..] && scanned + rest == old(dir.segments)
      invariant done == RepairAll(scanned)
      invariant records == Metas(Filter(All(scanned), cursor))
      invariant dir.history == old(dir.history) + trace
      invariant RepairTrace([], old(dir.segments), file) == trace + RepairTrace(done, rest, file)
    {
      ghost var g, tail := rest[0], rest[1..];
      DropAdvance(done, rest);
      RepairAdvance(scanned, done, rest, trace, file, cursor);
      var found := ScanSegment(dir, ids[i], cursor, done, g, tail);
      Associative(old(dir.history), trace, if Repaired(g) == g then [] else [dir.Contents()]);
      records := records + found;
      trace := trace + if Repaired(g) == g then [] else [dir.Contents()];
      scanned, done, rest := scanned + [g], done + [Repaired(g)], tail;
    }
    assert rest == [];
    assert RepairTrace(done, [], file) == [] by { EmptyRepair(done, file); }
    AndNothing(done);
    AndNothing(scanned);
    AndNothing(trace);
  }

  lemma AndNothing<T>(a: seq<T>)
    ensures a + [] == a
  {
  }

  lemma EmptyRepair(done: seq<Segment>, file: Option<bytes>)
    ensures RepairTrace(done, [], file) == []
  {
  }

  /** One turn of the scan, on the listing, the index and the trace. */
  lemma RepairAdvance(scanned: seq<Segment>, done: seq<Segment>, rest: seq<Segment>, trace: seq<WalModel.Disk>,
          file: Option<bytes>, c: Cursor)
    requires rest != [] && Ascending(done + rest) && done == RepairAll(scanned)
    ensures var g, tail := rest[0], rest[1..];
      && done + rest == done + [g] + tail
      && (scanned + [g]) + tail == scanned + rest
      && done + [Repaired(g)] == RepairAll(scanned + [g])
      && Ascending((done + [Repaired(g)]) + tail)
      && Metas(Filter(All(scanned + [g]), c))
         == Metas(Filter(All(scanned), c)) + Metas(Filter(Entries(g.id, g.data, 0), c))
      && trace + RepairTrace(done, rest, file)
         == (trace + if Repaired(g) == g then [] else [Disk(done + [Repaired(g)] + tail, file)])
            + RepairTrace(done + [Repaired(g)], tail, file)
  {
    hide Ascending, Find, Entries, Repaired, Metas, Filter;
    var g, tail := rest[0], rest[1..];
    assert done + rest == done + [g] + tail;
    RepairIds(done, g, tail);
    WalProofs.AllConcat(scanned, [g]);
    WalOperations.AllSingle(g);
    WalProofs.FilterConcat(All(scanned), Entries(g.id, g.data, 0), c);
    MetasConcat(Filter(All(scanned), c), Filter(Entries(g.id, g.data, 0), c));
    var step := if Repaired(g) == g then [] else [Disk(done + [Repaired(g)] + tail, file)];
    assert trace + (step + RepairTrace(done + [Repaired(g)], tail, file))
        == (trace + step) + RepairTrace(done + [Repaired(g)], tail, file);
  }

  lemma RepairIds(done: seq<Segment>, g: Segment, tail: seq<Segment>)
    requires Ascending(done + [g] + tail)
    ensures Ascending((done + [Repaired(g)]) + tail)
  {
    hide ScanEnd;
    var l, r := done + [g] + tail, (done + [Repaired(g)]) + tail;
    assert l[|done|] == g && r[|done|] == Repaired(g);
    forall i, j | 0 <= i < j < |r| ensures r[i].id < r[j].id {
      assert l[i].id < l[j].id;
      assert i != |done| ==> r[i] == l[i];
      assert j != |done| ==> r[j] == l[j];
    }
  }

  function After(earlier: seq<WalModel.Disk>, o: Outcome): Outcome {
    o.(trace := earlier + o.trace)
  }

  lemma AfterAfter(a: seq<WalModel.Disk>, b: seq<WalModel.Disk>, o: Outcome)
    ensures After(a, After(b, o)) == After(a + b, o)
  {
    assert a + (b + o.trace) == a + b + o.trace;
  }
}
