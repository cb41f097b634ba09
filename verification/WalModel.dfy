/** The write-ahead log as values: what is on disk, what is in memory, and what
    each operation makes of them. `Outcome.trace` lists every state the disk
    passes through, one per durable effect, so a crash during the operation
    leaves one of these states or the one the operation started from. */
module WalModel {
  import opened ByteStrings
  import opened Wrappers
  import opened Frames

  const SEGMENT_MAX_BYTES: nat := 4 * 1024 * 1024

  datatype Segment = Segment(id: nat, data: bytes)

  datatype Cursor = Cursor(segment: nat, offset: nat)

  /** The log directory: segment files in the order of their numbers, and the
      contents of the cursor file if there is one. */
  datatype Disk = Disk(segments: seq<Segment>, cursorFile: Option<bytes>)

  /** `records` is the in-memory index. Each element carries the record it
      points at; the implementation keeps only position and length. */
  datatype State = State(maxBytes: nat, disk: Disk, active: nat, cursor: Cursor, records: seq<Entry>)

  datatype Outcome = Outcome(state: State, trace: seq<Disk>, ok: bool)

  datatype Head = Nothing | Head(segment: nat, offset: nat, payload: bytes) | Unreadable

  // ---- Cursor file ----

  function EncodeCursor(c: Cursor): (b: bytes)
    ensures |b| == 16
  {
    LE(c.segment, 8) + LE(c.offset, 8)
  }

  function DecodeCursor(b: bytes): Cursor
    requires |b| == 16
  {
    Cursor(FromLE(b[..8]), FromLE(b[8..]))
  }

  predicate CursorReadable(d: Disk) {
    d.cursorFile.Some? ==> |d.cursorFile.value| == 16
  }

  /** The cursor a reopening starts from. */
  function DiskCursor(d: Disk): Cursor
    requires CursorReadable(d)
  {
    match d.cursorFile
    case Some(b) => DecodeCursor(b)
    case None => Cursor(if d.segments == [] then 0 else d.segments[0].id, 0)
  }

  // ---- Index ----

  function All(segs: seq<Segment>): seq<Entry> {
    if segs == [] then [] else Entries(segs[0].id, segs[0].data, 0) + All(segs[1..])
  }

  predicate AtOrAfter(e: Entry, c: Cursor) {
    e.segment > c.segment || (e.segment == c.segment && e.offset >= c.offset)
  }

  function Filter(es: seq<Entry>, c: Cursor): seq<Entry> {
    if es == [] then []
    else (if AtOrAfter(es[0], c) then [es[0]] else []) + Filter(es[1..], c)
  }

  /** The records a reopening indexes. */
  function Recover(d: Disk): seq<Entry>
    requires CursorReadable(d)
  {
    Filter(All(d.segments), DiskCursor(d))
  }

  function Delivered(f: Frame): seq<bytes> {
    if f.Intact() then [f.payload] else []
  }

  /** The payloads that draining delivers: damaged records are passed over. */
  function Live(es: seq<Entry>): seq<bytes> {
    if es == [] then [] else Delivered(es[0].frame) + Live(es[1..])
  }

  /** The abstract queue held by a disk. */
  function Queue(d: Disk): seq<bytes>
    requires CursorReadable(d)
  {
    Live(Recover(d))
  }

  // ---- Well-formed disks and states ----

  predicate Ascending(segs: seq<Segment>) {
    forall i, j :: 0 <= i < j < |segs| ==> segs[i].id < segs[j].id
  }

  /** Segment numbers and file offsets are u64. */
  predicate Representable(segs: seq<Segment>) {
    forall i :: 0 <= i < |segs| ==> segs[i].id < U64_LIMIT && |segs[i].data| < U64_LIMIT
  }

  predicate AllWhole(segs: seq<Segment>) {
    forall i :: 0 <= i < |segs| ==> Whole(segs[i].data)
  }

  /** The cursor is not beyond the last complete record. */
  predicate CursorBehind(d: Disk)
    requires CursorReadable(d)
  {
    var c := DiskCursor(d);
    if d.segments == [] then c == Cursor(0, 0)
    else
      var last := d.segments[|d.segments| - 1];
      c.segment < last.id || (c.segment == last.id && c.offset <= ScanEnd(last.data, 0))
  }

  predicate DiskOk(d: Disk) {
    && Ascending(d.segments)
    && Representable(d.segments)
    && CursorReadable(d)
    && CursorBehind(d)
  }

  /** The file handle of the log is the last segment. */
  predicate Shape(s: State) {
    && s.disk.segments != []
    && Ascending(s.disk.segments)
    && s.active == s.disk.segments[|s.disk.segments| - 1].id
  }

  /** `a` is `b` less damaged records at its front. */
  predicate LessDamaged(a: seq<Entry>, b: seq<Entry>) {
    IsSuffix(a, b) && forall i :: 0 <= i < |b| - |a| ==> !b[i].frame.Intact()
  }

  /** `records` is what a rescan would index, less damaged records at the front
      that `next` has already passed over. */
  predicate Indexed(s: State)
    requires CursorReadable(s.disk)
  {
    LessDamaged(s.records, Recover(s.disk))
  }

  predicate Inv(s: State) {
    && Shape(s)
    && DiskOk(s.disk)
    && AllWhole(s.disk.segments)
    && DiskCursor(s.disk) == s.cursor
    && Indexed(s)
  }

  // ---- Operations ----

  function ActiveLen(s: State): nat
    requires Shape(s)
  {
    |s.disk.segments[|s.disk.segments| - 1].data|
  }

  function Total(segs: seq<Segment>): nat {
    if segs == [] then 0 else |segs[0].data| + Total(segs[1..])
  }

  /** Opens the next segment file. */
  function Roll(s: State): (r: State)
    requires Shape(s)
    ensures Shape(r)
  {
    s.(active := s.active + 1,
       disk := s.disk.(segments := s.disk.segments + [Segment(s.active + 1, [])]))
  }

  function AppendLast(segs: seq<Segment>, x: bytes): (r: seq<Segment>)
    requires segs != []
    ensures |r| == |segs| && r[|r| - 1] == Segment(segs[|r| - 1].id, segs[|r| - 1].data + x)
    ensures forall i :: 0 <= i < |r| - 1 ==> r[i] == segs[i]
  {
    var n := |segs| - 1;
    segs[..n] + [Segment(segs[n].id, segs[n].data + x)]
  }

  /** Writing is byte by byte: any prefix may be what a crash leaves. */
  function WriteTrace(d: Disk, x: bytes): (t: seq<Disk>)
    requires d.segments != []
    ensures |t| == |x|
  {
    seq(|x|, i requires 0 <= i < |x| => d.(segments := AppendLast(d.segments, x[..i + 1])))
  }

  /** The position of the first record, or the end of the active segment. */
  function CursorFor(s: State): Cursor
    requires Shape(s)
  {
    if s.records == [] then Cursor(s.active, ActiveLen(s))
    else Cursor(s.records[0].segment, s.records[0].offset)
  }

  function SaveCursor(s: State): (r: State)
    requires Shape(s)
    ensures Shape(r)
  {
    var c := CursorFor(s);
    s.(cursor := c, disk := s.disk.(cursorFile := Some(EncodeCursor(c))))
  }

  function Retain(records: seq<Entry>, evicted: nat): seq<Entry> {
    if records == [] then []
    else (if records[0].segment != evicted then [records[0]] else []) + Retain(records[1..], evicted)
  }

  /** An eviction of the active segment first opens a new one. */
  function BeforeEvict(s: State): (r: State)
    requires Shape(s)
    ensures Shape(r) && |r.disk.segments| > 1 && r.disk.segments[0] == s.disk.segments[0]
  {
    if s.disk.segments[0].id == s.active then Roll(s) else s
  }

  function RemoveOldest(s: State): (r: State)
    requires Shape(s) && |s.disk.segments| > 1
    ensures Shape(r)
  {
    s.(disk := s.disk.(segments := s.disk.segments[1..]),
       records := Retain(s.records, s.disk.segments[0].id))
  }

  function EvictOldest(s: State): (r: State)
    requires Shape(s)
    ensures Shape(r)
  {
    SaveCursor(RemoveOldest(BeforeEvict(s)))
  }

  function EvictTrace(s: State): seq<Disk>
    requires Shape(s)
  {
    var b := BeforeEvict(s);
    var r := RemoveOldest(b);
    (if b == s then [] else [b.disk]) + [r.disk, SaveCursor(r).disk]
  }

  /** The segment counter is a u64: opening one more can fail. */
  predicate CanEvict(s: State)
    requires Shape(s)
  {
    s.disk.segments[0].id == s.active ==> s.active + 1 < U64_LIMIT
  }

  /** Whole segments go, oldest first, until the rest fits. */
  function EnforceCap(s: State): (o: Outcome)
    requires Shape(s)
    ensures Shape(o.state)
    decreases Total(s.disk.segments), |s.disk.segments|
  {
    if Total(s.disk.segments) <= s.maxBytes then Outcome(s, [], true)
    else if !CanEvict(s) then Outcome(s, [], false)
    else
      EvictDecreases(s);
      var o := EnforceCap(EvictOldest(s));
      Outcome(o.state, EvictTrace(s) + o.trace, o.ok)
  }

  lemma {:induction false} TotalConcat(a: seq<Segment>, b: seq<Segment>)
    ensures Total(a + b) == Total(a) + Total(b)
  {
    if a == [] {
      assert a + b == b;
    } else {
      assert (a + b)[1..] == a[1..] + b;
      TotalConcat(a[1..], b);
    }
  }

  lemma EvictDecreases(s: State)
    requires Shape(s) && Total(s.disk.segments) > 0
    ensures var r := EvictOldest(s).disk.segments;
      Total(r) < Total(s.disk.segments) || (Total(r) == Total(s.disk.segments) && |r| < |s.disk.segments|)
  {
    var segs := s.disk.segments;
    if segs[0].id == s.active {
      assert |segs| == 1;
      TotalConcat(segs, [Segment(s.active + 1, [])]);
      assert EvictOldest(s).disk.segments == [Segment(s.active + 1, [])];
      assert segs[1..] == [];
    }
  }

  predicate MustRoll(s: State, recordLen: nat)
    requires Shape(s)
  {
    ActiveLen(s) > 0 && ActiveLen(s) + recordLen > SEGMENT_MAX_BYTES
  }

  /** The state once the record is on disk and indexed, before the cap. */
  function Written(s: State, payload: bytes): (r: State)
    requires Shape(s) && |payload| < U32_LIMIT
    ensures Shape(r) && r.maxBytes == s.maxBytes
  {
    var s1 := if MustRoll(s, HEADER_BYTES + |payload|) then Roll(s) else s;
    s1.(disk := s1.disk.(segments := AppendLast(s1.disk.segments, Encode(Sealed(payload)))),
        records := s1.records + [Entry(s1.active, ActiveLen(s1), Sealed(payload))])
  }

  function WriteSteps(s: State, payload: bytes): (t: seq<Disk>)
    requires Shape(s) && |payload| < U32_LIMIT
    ensures |t| > 0
  {
    if MustRoll(s, HEADER_BYTES + |payload|)
    then [Roll(s).disk] + WriteTrace(Roll(s).disk, Encode(Sealed(payload)))
    else WriteTrace(s.disk, Encode(Sealed(payload)))
  }

  /** What `append` refuses before touching the disk. */
  predicate Rejected(s: State, payload: bytes)
    requires Shape(s)
  {
    || |payload| >= U32_LIMIT
    || HEADER_BYTES + |payload| > s.maxBytes
    || (MustRoll(s, HEADER_BYTES + |payload|) && s.active + 1 >= U64_LIMIT)
  }

  function Append(s: State, payload: bytes): (o: Outcome)
    requires Shape(s)
    ensures Shape(o.state)
  {
    if Rejected(s, payload) then Outcome(s, [], false)
    else
      var o := EnforceCap(Written(s, payload));
      Outcome(o.state, WriteSteps(s, payload) + o.trace, o.ok)
  }

  /** The position of segment `id` in the listing, or past its end. */
  function Find(segs: seq<Segment>, id: nat): (i: nat)
    ensures i <= |segs|
    ensures i < |segs| ==> segs[i].id == id
  {
    if segs == [] then 0 else if segs[0].id == id then 0 else 1 + Find(segs[1..], id)
  }

  /** Header and payload read back from a position, or an I/O error. */
  function ReadBack(segs: seq<Segment>, segment: nat, offset: nat, payloadLen: nat): Option<Frame> {
    var i := Find(segs, segment);
    if i == |segs| then None
    else
      var b := segs[i].data;
      if offset + HEADER_BYTES + payloadLen > |b| then None
      else Some(Frame(b[offset + HEADER_BYTES..offset + HEADER_BYTES + payloadLen],
                      FromLE(b[offset + 4..offset + HEADER_BYTES])))
  }

  /** What the index entry `e` reads back as. */
  function ReadEntry(segs: seq<Segment>, e: Entry): Option<Frame> {
    ReadBack(segs, e.segment, e.offset, |e.frame.payload|)
  }

  /** Drops damaged records from the front of the index. */
  function SkipDamaged(s: State): State
    decreases |s.records|
  {
    if s.records == [] then s
    else
      var f := ReadEntry(s.disk.segments, s.records[0]);
      if f.Some? && !f.value.Intact() then SkipDamaged(s.(records := s.records[1..])) else s
  }

  function HeadOf(s: State): Head {
    if s.records == [] then Nothing
    else
      match ReadEntry(s.disk.segments, s.records[0])
      case None => Unreadable
      case Some(f) => Head(s.records[0].segment, s.records[0].offset, f.payload)
  }

  /** Fully acknowledged segments, deleted one by one. */
  function DropAcked(segs: seq<Segment>, below: nat, active: nat): seq<Segment> {
    if segs == [] then []
    else (if segs[0].id < below && segs[0].id != active then [] else [segs[0]]) + DropAcked(segs[1..], below, active)
  }

  /** `kept` precedes the segments still to be looked at. */
  function DropTrace(kept: seq<Segment>, rest: seq<Segment>, below: nat, active: nat, file: Option<bytes>): seq<Disk>
    decreases |rest|
  {
    if rest == [] then []
    else if rest[0].id < below && rest[0].id != active
    then [Disk(kept + rest[1..], file)] + DropTrace(kept, rest[1..], below, active, file)
    else DropTrace(kept + [rest[0]], rest[1..], below, active, file)
  }

  predicate IsHead(s: State, segment: nat, offset: nat) {
    s.records != [] && s.records[0].segment == segment && s.records[0].offset == offset
  }

  function Ack(s: State, segment: nat, offset: nat): (o: Outcome)
    requires Shape(s)
  {
    if !IsHead(s, segment, offset) then Outcome(s, [], false)
    else
      var s1 := SaveCursor(s.(records := s.records[1..]));
      var segs := s1.disk.segments;
      Outcome(s1.(disk := s1.disk.(segments := DropAcked(segs, s1.cursor.segment, s1.active))),
              [s1.disk] + DropTrace([], segs, s1.cursor.segment, s1.active, s1.disk.cursorFile), true)
  }

  function Repaired(g: Segment): Segment {
    Segment(g.id, g.data[..ScanEnd(g.data, 0)])
  }

  function RepairAll(segs: seq<Segment>): (r: seq<Segment>)
    ensures |r| == |segs|
    ensures forall i :: 0 <= i < |segs| ==> r[i] == Repaired(segs[i]) && r[i].id == segs[i].id
  {
    seq(|segs|, i requires 0 <= i < |segs| => Repaired(segs[i]))
  }

  function RepairTrace(done: seq<Segment>, rest: seq<Segment>, file: Option<bytes>): seq<Disk>
    decreases |rest|
  {
    if rest == [] then []
    else
      var g := Repaired(rest[0]);
      (if g == rest[0] then [] else [Disk(done + [g] + rest[1..], file)]) + RepairTrace(done + [g], rest[1..], file)
  }

  /** An empty directory gets segment 0. */
  function WithSegment(d: Disk): (r: Disk)
    ensures r.segments != []
  {
    if d.segments == [] then d.(segments := [Segment(0, [])]) else d
  }

  /** The state after the scan, before the cap. */
  function Scanned(d: Disk, maxBytes: nat): State
    requires d.segments != [] && CursorReadable(d)
  {
    State(maxBytes, d.(segments := RepairAll(d.segments)), d.segments[|d.segments| - 1].id,
          DiskCursor(d), Recover(d))
  }

  function OpenSteps(d: Disk): seq<Disk> {
    (if d.segments == [] then [WithSegment(d)] else [])
    + RepairTrace([], WithSegment(d).segments, d.cursorFile)
  }

  function Open(d: Disk, maxBytes: nat): (o: Outcome)
    requires Ascending(d.segments) && CursorReadable(d)
    ensures Shape(o.state)
  {
    var o := EnforceCap(Scanned(WithSegment(d), maxBytes));
    Outcome(o.state, OpenSteps(d) + o.trace, o.ok)
  }
}
