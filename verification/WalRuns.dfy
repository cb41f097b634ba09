/** Whole runs of the log: any sequence of opening, appending, reading and
    acknowledging, each of which may be cut short by a crash after any number
    of its durable effects. */
module WalRuns {
  import opened ByteStrings
  import opened Wrappers
  import opened Frames
  import opened WalModel
  import opened WalProofs
  import opened WalEviction
  import opened WalOperations
  import opened WalReplay
  import opened WalReopen

  datatype Op = Reopen(maxBytes: nat) | Append(payload: bytes) | Next | Ack(segment: nat, offset: nat)

  /** `crash == Some(k)`: the process dies once `k` effects have reached disk. */
  datatype Event = Event(op: Op, crash: Option<nat>)

  datatype Machine = Down(disk: Disk) | Up(state: State) {
    function Disk(): Disk {
      if Down? then disk else state.disk
    }
  }

  predicate Ok(m: Machine) {
    match m
    case Down(d) => DiskOk(d)
    case Up(s) => Inv(s)
  }

  /** The disk once the first `k` states of a trace have been passed. */
  function DiskAfter(d: Disk, trace: seq<Disk>, k: nat): Disk {
    if k == 0 || trace == [] then d
    else if k <= |trace| then trace[k - 1] else trace[|trace| - 1]
  }

  function Settle(d: Disk, o: Outcome, crash: Option<nat>): Machine {
    match crash
    case None => Up(o.state)
    case Some(k) => Down(DiskAfter(d, o.trace, k))
  }

  /** One event. Only a running log can append, read or acknowledge; an opening
      that fails leaves no log. */
  function Step(m: Machine, e: Event): Machine
    requires Ok(m)
  {
    match e.op
    case Reopen(maxBytes) =>
      var d := m.Disk();
      var o := Open(d, maxBytes);
      if e.crash.None? && !o.ok then Down(o.state.disk) else Settle(d, o, e.crash)
    case Append(payload) =>
      if m.Down? then m else Settle(m.state.disk, WalModel.Append(m.state, payload), e.crash)
    case Next =>
      if m.Down? then m else Settle(m.state.disk, Outcome(SkipDamaged(m.state), [], true), e.crash)
    case Ack(segment, offset) =>
      if m.Down? then m else Settle(m.state.disk, WalModel.Ack(m.state, segment, offset), e.crash)
  }

  // ---- The abstract queue ----

  /** All bytes of the appended record reached the disk. */
  predicate Landed(m: Machine, e: Event)
    requires Ok(m)
  {
    && m.Up? && e.op.Append? && !Rejected(m.state, e.op.payload)
    && (e.crash.Some? ==> e.crash.value >= |WriteSteps(m.state, e.op.payload)|)
  }

  /** The cursor of an acknowledgement of a deliverable head was renamed. */
  predicate Acked(m: Machine, e: Event)
    requires Ok(m)
  {
    && m.Up? && e.op.Ack? && IsHead(m.state, e.op.segment, e.op.offset)
    && m.state.records[0].frame.Intact()
    && (e.crash.Some? ==> e.crash.value >= 1)
  }

  /** What the event adds to the back of the queue. */
  function NewPayload(m: Machine, e: Event): seq<bytes>
    requires Ok(m)
  {
    if Landed(m, e) then [e.op.payload] else []
  }

  /** What a reopening at this point would deliver. */
  function QueueOf(m: Machine): seq<bytes>
    requires Ok(m)
  {
    Queue(m.Disk())
  }

  /** The cap has no reason to evict. */
  predicate WithinCap(m: Machine, e: Event)
    requires Ok(m)
  {
    match e.op
    case Reopen(maxBytes) => Total(Scanned(WithSegment(m.Disk()), maxBytes).disk.segments) <= maxBytes
    case Append(payload) =>
      m.Up? ==> Total(m.state.disk.segments) + HEADER_BYTES + |payload| <= m.state.maxBytes
    case _ => true
  }

  /** What a FIFO queue would hold after the event. */
  function Expected(m: Machine, e: Event): seq<bytes>
    requires Ok(m)
  {
    var q := QueueOf(m);
    if Acked(m, e) && q != [] then q[1..] else q + NewPayload(m, e)
  }

  /** The records the event could deliver later: what was there, and the one it
      appended. */
  function Pending(m: Machine, e: Event): seq<Entry>
    requires Ok(m)
  {
    Recover(m.Disk()) + if Landed(m, e) then [NewEntry(m.state, e.op.payload)] else []
  }

  /** How many of them were in segment files the event removed to meet the
      cap. Only opening and appending enforce it. */
  function Evicted(m: Machine, e: Event): nat
    requires Ok(m)
  {
    if e.op.Reopen? || e.op.Append? then Lost(Pending(m, e), Step(m, e).Disk().segments) else 0
  }

  /** The event is one of a FIFO queue that loses exactly the records in the
      files the cap removed, and these are the oldest. */
  predicate Refines(m: Machine, e: Event)
    requires Ok(m)
  {
    var m' := Step(m, e);
    && Ok(m')
    && Evicted(m, e) <= |Expected(m, e)|
    && QueueOf(m') == Expected(m, e)[Evicted(m, e)..]
    && (WithinCap(m, e) ==> Evicted(m, e) == 0)
  }

  lemma LiveAppend(es: seq<Entry>, e: Entry)
    requires e.frame.Intact()
    ensures Live(es + [e]) == Live(es) + [e.frame.payload]
  {
    LiveConcat(es, [e]);
    assert [e][1..] == [];
    assert Live([e]) == Delivered(e.frame) + Live([]);
  }

  // ---- One event ----

  /** A disk reached by an opening, seen as a queue. */
  lemma OpenedQueue(d: Disk, maxBytes: nat, r: Disk)
    requires DiskOk(d) && (r in Open(d, maxBytes).trace || r == Open(d, maxBytes).state.disk)
    ensures var k := Lost(Recover(d), r.segments);
      && DiskOk(r) && k <= |Queue(d)| && Queue(r) == Queue(d)[k..]
      && (Total(Scanned(WithSegment(d), maxBytes).disk.segments) <= maxBytes ==> k == 0)
  {
    hide Ascending, Representable, CursorBehind, AllWhole, Recover, Open, Scanned, LessDamaged, Kept, Lost, OpenSteps;
    OpenKeeps(d, maxBytes);
    RecoverSorted(d);
    assert Leaves(r, Recover(d), WithSegment(d).segments[0].id);
    LeavesQueue(r, Recover(d), WithSegment(d).segments[0].id);
    if Total(Scanned(WithSegment(d), maxBytes).disk.segments) <= maxBytes {
      OpenWithinCap(d, maxBytes);
      OpenStepsRecover(d);
      assert r in OpenSteps(d) ==> Recovers(r, Recover(d));
      NothingLost(r);
    }
  }

  lemma OpenWithinCap(d: Disk, maxBytes: nat)
    requires DiskOk(d) && Total(Scanned(WithSegment(d), maxBytes).disk.segments) <= maxBytes
    ensures Open(d, maxBytes).trace == OpenSteps(d)
  {
  }

  lemma ReopenRefines(m: Machine, e: Event)
    requires Ok(m) && e.op.Reopen?
    ensures Refines(m, e)
  {
    hide Ascending, Representable, CursorBehind, Inv, Open, Scanned, Recover, Live, Lost;
    DiskOkOf(m);
    var d, o := m.Disk(), Open(m.Disk(), e.op.maxBytes);
    var r := Step(m, e).Disk();
    assert Pending(m, e) == Recover(d) && Expected(m, e) == Queue(d);
    if e.crash.None? || (e.crash.value > 0 && o.trace != []) {
      OpenedQueue(d, e.op.maxBytes, r);
      OpenedInv(d, e.op.maxBytes);
    } else {
      NothingLost(d);
    }
  }

  lemma OpenedInv(d: Disk, maxBytes: nat)
    requires DiskOk(d)
    ensures Inv(Open(d, maxBytes).state)
  {
    hide Open, DiskOk, Inv;
    OpenKeeps(d, maxBytes);
  }

  lemma DiskOkOf(m: Machine)
    requires Ok(m)
    ensures DiskOk(m.Disk())
  {
  }

  /** The `i`-th disk state of an append, seen as a queue. */
  lemma AppendedQueue(s: State, payload: bytes, i: nat)
    requires Inv(s) && !Rejected(s, payload) && i < |WalModel.Append(s, payload).trace|
    ensures var r := WalModel.Append(s, payload).trace[i];
      && DiskOk(r)
      && if i < |WriteSteps(s, payload)| - 1
         then Queue(r) == Queue(s.disk) && Lost(Recover(s.disk), r.segments) == 0
         else var k := Lost(Recover(s.disk) + [NewEntry(s, payload)], r.segments);
              && k <= |Queue(s.disk)| + 1 && Queue(r) == (Queue(s.disk) + [payload])[k..]
              && (Total(s.disk.segments) + HEADER_BYTES + |payload| <= s.maxBytes ==> k == 0)
  {
    hide Ascending, Representable, CursorBehind, Indexed, AllWhole, Recover, NewEntry, WalModel.Append, WriteSteps,
      Kept, LessDamaged, Lost;
    AppendCrash(s, payload, i);
    var r := WalModel.Append(s, payload).trace[i];
    if i < |WriteSteps(s, payload)| - 1 {
      NothingLost(r);
    } else {
      var es := Recover(s.disk) + [NewEntry(s, payload)];
      NewEntrySorted(s, payload);
      LeavesQueue(r, es, s.disk.segments[0].id);
      NewEntryIntact(s, payload);
      LiveAppend(Recover(s.disk), NewEntry(s, payload));
      if Total(s.disk.segments) + HEADER_BYTES + |payload| <= s.maxBytes {
        WithinCapIdle(s, payload);
        WriteStepsRecover(s, payload, i);
        NothingLost(r);
      }
    }
  }

  lemma NewEntrySorted(s: State, payload: bytes)
    requires Inv(s) && !Rejected(s, payload)
    ensures WalProofs.Sorted(Recover(s.disk) + [NewEntry(s, payload)])
  {
    hide Indexed, AllWhole, Recover, Written, NewEntry;
    WrittenKeeps(s, payload);
    RecoverSorted(Written(s, payload).disk);
  }

  lemma AppendedInv(s: State, payload: bytes)
    requires Inv(s) && !Rejected(s, payload)
    ensures Inv(WalModel.Append(s, payload).state)
  {
    hide Inv, WalModel.Append;
    AppendKeeps(s, payload);
  }

  lemma AppendRefines(m: Machine, e: Event)
    requires Ok(m) && m.Up? && e.op.Append?
    ensures Refines(m, e)
  {
    hide Ascending, Representable, CursorBehind, AllWhole, Indexed, Live, Recover, WalModel.Append, WriteSteps, Lost,
      NewEntry;
    var s, p := m.state, e.op.payload;
    var t := WalModel.Append(s, p).trace;
    assert QueueOf(m) + [] == QueueOf(m);
    assert Recover(s.disk) + [] == Recover(s.disk);
    NothingLost(s.disk);
    if Rejected(s, p) {
      RejectedUnchanged(s, p);
    } else {
      AppendTraceLength(s, p);
      if e.crash.None? {
        AppendEndsTrace(s, p);
        AppendedQueue(s, p, |t| - 1);
        AppendedInv(s, p);
      } else if e.crash.value > 0 {
        AppendedQueue(s, p, if e.crash.value <= |t| then e.crash.value - 1 else |t| - 1);
      }
    }
  }

  lemma NewEntryIntact(s: State, payload: bytes)
    requires Shape(s) && |payload| < U32_LIMIT
    ensures NewEntry(s, payload).frame.Intact() && NewEntry(s, payload).frame.payload == payload
  {
  }

  lemma RejectedUnchanged(s: State, payload: bytes)
    requires Shape(s) && Rejected(s, payload)
    ensures WalModel.Append(s, payload) == Outcome(s, [], false)
  {
  }

  lemma AppendTraceLength(s: State, payload: bytes)
    requires Shape(s) && !Rejected(s, payload)
    ensures |WalModel.Append(s, payload).trace| >= |WriteSteps(s, payload)| > 0
  {
  }

  /** An acknowledgement, seen as an operation on queues. */
  lemma AckQueue(s: State, segment: nat, offset: nat)
    requires Inv(s) && IsHead(s, segment, offset)
    ensures var o := WalModel.Ack(s, segment, offset);
      && Inv(o.state) && o.trace != []
      && Queue(s.disk) == Delivered(s.records[0].frame) + Queue(o.state.disk)
      && forall i :: 0 <= i < |o.trace| ==> DiskOk(o.trace[i]) && Queue(o.trace[i]) == Queue(o.state.disk)
  {
    hide Ascending, Representable, CursorBehind, Indexed, AllWhole, Recover, WalModel.Ack, Frame.Intact, Delivered;
    AckKeeps(s, segment, offset);
    PendingIsQueue(s);
    assert Live(s.records) == Delivered(s.records[0].frame) + Live(s.records[1..]);
  }

  lemma AckRefines(m: Machine, e: Event)
    requires Ok(m) && m.Up? && e.op.Ack?
    ensures Refines(m, e)
  {
    hide DiskOk, Indexed, Queue, WalModel.Ack, Frame.Intact;
    var s, segment, offset := m.state, e.op.segment, e.op.offset;
    assert QueueOf(m) + [] == QueueOf(m);
    if IsHead(s, segment, offset) {
      AckQueue(s, segment, offset);
    } else {
      AckMismatch(s, segment, offset);
    }
  }

  lemma NextRefines(m: Machine, e: Event)
    requires Ok(m) && m.Up? && e.op.Next?
    ensures Refines(m, e)
  {
    hide Ascending, Representable, CursorBehind, Indexed, AllWhole, Recover;
    SkipKeeps(m.state);
  }

  /** A log that is not open stays as it is. */
  lemma DownRefines(m: Machine, e: Event)
    requires Ok(m) && m.Down? && !e.op.Reopen?
    ensures Refines(m, e)
  {
    hide Ascending, Representable, CursorBehind, Live, Recover, Lost;
    assert QueueOf(m) + [] == QueueOf(m);
    assert Recover(m.disk) + [] == Recover(m.disk);
    NothingLost(m.disk);
  }

  lemma StepRefines(m: Machine, e: Event)
    requires Ok(m)
    ensures Refines(m, e)
  {
    if e.op.Reopen? {
      ReopenRefines(m, e);
    } else if m.Down? {
      DownRefines(m, e);
    } else if e.op.Append? {
      AppendRefines(m, e);
    } else if e.op.Next? {
      NextRefines(m, e);
    } else {
      AckRefines(m, e);
    }
  }

  // ---- Whole runs ----

  function Run(m: Machine, es: seq<Event>): (r: Machine)
    requires Ok(m)
    ensures Ok(r)
    decreases |es|
  {
    if es == [] then m
    else
      StepRefines(m, es[0]);
      Run(Step(m, es[0]), es[1..])
  }

  /** The payloads whose append landed during the run, in order. */
  function Appended(m: Machine, es: seq<Event>): seq<bytes>
    requires Ok(m)
    decreases |es|
  {
    if es == [] then []
    else
      StepRefines(m, es[0]);
      NewPayload(m, es[0]) + Appended(Step(m, es[0]), es[1..])
  }

  /** How many heads the run acknowledged. */
  function Acks(m: Machine, es: seq<Event>): nat
    requires Ok(m)
    decreases |es|
  {
    if es == [] then 0
    else
      StepRefines(m, es[0]);
      (if Acked(m, es[0]) then 1 else 0) + Acks(Step(m, es[0]), es[1..])
  }

  /** How many records were in files the cap removed. */
  function Evictions(m: Machine, es: seq<Event>): nat
    requires Ok(m)
    decreases |es|
  {
    if es == [] then 0
    else
      StepRefines(m, es[0]);
      Evicted(m, es[0]) + Evictions(Step(m, es[0]), es[1..])
  }

  predicate NeverOverCap(m: Machine, es: seq<Event>)
    requires Ok(m)
    decreases |es|
  {
    es == [] ||
    (StepRefines(m, es[0]);
     WithinCap(m, es[0]) && NeverOverCap(Step(m, es[0]), es[1..]))
  }

  lemma AckedFront(m: Machine, e: Event)
    requires Ok(m) && Acked(m, e)
    ensures QueueOf(m) != [] && NewPayload(m, e) == []
  {
    hide Ascending, Representable, CursorBehind, Indexed, AllWhole, Recover, Queue;
    PendingIsQueue(m.state);
    assert Live(m.state.records) == Delivered(m.state.records[0].frame) + Live(m.state.records[1..]);
  }

  lemma ExactStep<T>(q: seq<T>, added: seq<T>, rest: seq<T>, gone: nat, n: nat, acked: bool)
    requires acked ==> q != [] && added == []
    requires gone <= |if acked then q[1..] else q + added|
    requires n <= |(if acked then q[1..] else q + added)[gone..] + rest|
    ensures var all := q + (added + rest); var k := n + gone + if acked then 1 else 0;
      k <= |all| && ((if acked then q[1..] else q + added)[gone..] + rest)[n..] == all[k..]
  {
  }

  /** Crash recovery, over every run: what a reopening finds at the end is, in
      order, everything that was there or was appended, less exactly the
      acknowledged heads and the records in files the cap removed. */
  lemma {:induction false} RunExact(m: Machine, es: seq<Event>)
    requires Ok(m)
    ensures var all := QueueOf(m) + Appended(m, es); var gone := Acks(m, es) + Evictions(m, es);
      gone <= |all| && QueueOf(Run(m, es)) == all[gone..]
    decreases |es|
  {
    hide NewPayload, QueueOf, Step, Ok, WithinCap, Acked, Evicted;
    var q := QueueOf(m);
    if es == [] {
      assert (q + [])[0..] == q;
    } else {
      StepRefines(m, es[0]);
      var acked := Acked(m, es[0]);
      if acked {
        AckedFront(m, es[0]);
      }
      var m' := Step(m, es[0]);
      RunExact(m', es[1..]);
      ExactStep(q, NewPayload(m, es[0]), Appended(m', es[1..]), Evicted(m, es[0]),
                Acks(m', es[1..]) + Evictions(m', es[1..]), acked);
    }
  }

  /** While the cap is not reached nothing is evicted. */
  lemma {:induction false} NeverEvicts(m: Machine, es: seq<Event>)
    requires Ok(m) && NeverOverCap(m, es)
    ensures Evictions(m, es) == 0
    decreases |es|
  {
    hide Step, Ok, WithinCap, Evicted;
    if es != [] {
      StepRefines(m, es[0]);
      NeverEvicts(Step(m, es[0]), es[1..]);
    }
  }

  lemma EmptyDirectory()
    ensures Ok(Down(Disk([], None))) && QueueOf(Down(Disk([], None))) == []
  {
  }

  /** From an empty directory: what a run leaves in the log is what it appended,
      less the acknowledged and the evicted. */
  lemma RunFromNothing(es: seq<Event>)
    ensures var m := Down(Disk([], None));
      && Ok(m)
      && Acks(m, es) + Evictions(m, es) <= |Appended(m, es)|
      && QueueOf(Run(m, es)) == Appended(m, es)[Acks(m, es) + Evictions(m, es)..]
  {
    EmptyDirectory();
    hide Ok, QueueOf, Run, Appended, Acks, Evictions;
    var m := Down(Disk([], None));
    RunExact(m, es);
    assert QueueOf(m) + Appended(m, es) == Appended(m, es);
  }
}
