/** From a growing log file to the collector: the tailer, the exporter and the
    log together, over whole runs with crashes at any durable effect and a
    collector that may accept what it reports as failed. */
module Pipeline {
  import opened ByteStrings
  import opened Wrappers
  import opened WalModel
  import opened WalRuns
  import opened Export
  import opened Accounts
  import opened ExportProofs
  import opened DeliveryProofs
  import opened SkipProofs
  import opened Lines
  import opened Tailer
  import WalOperations

  /** The collector's reports and the request encoding, both arbitrary. */
  datatype Outside = Outside(verdicts: Verdicts, encode: seq<bytes> -> bytes)

  /** One file source. `wal`, `log`, `checkpoint` and `file` survive a crash,
      `tail` does not. `base` records where reading began before the first
      checkpoint was written. */
  datatype Node = Node(file: File, checkpoint: Option<bytes>, wal: WalRuns.Machine, log: seq<Attempt>,
                       tail: Option<Tail>, base: nat)

  /** `Tick`: poll the file and hand the batch over; `saved` is whether the
      checkpoint file could then be written. `Missed`: the file cannot be opened
      at this tick. `Other`: a batch of another source. `Damage`: records of the
      log are damaged, the directory becoming `segs`. */
  datatype Event =
    | Grow(x: bytes)
    | Missed
    | Damage(segs: seq<Segment>)
    | Reopen(maxBytes: nat, crash: Option<nat>)
    | Tick(saved: bool, crash: Option<nat>)
    | Other(payload: bytes, crash: Option<nat>)

  function World(n: Node): Export.World {
    Export.World(n.wal.Disk(), n.log)
  }

  predicate Ready(n: Node) {
    WalRuns.Ok(n.wal) && CheckpointReadable(n.checkpoint)
  }

  /** The tailer is created when it is first needed; a malformed checkpoint
      file prevents it. */
  function WithTailer(n: Node): (r: Node)
    ensures n.tail.Some? || CheckpointReadable(n.checkpoint) ==> r.tail.Some?
  {
    if n.tail.Some? || !CheckpointReadable(n.checkpoint) then n
    else
      var t := NewTail(n.file, n.checkpoint);
      n.(tail := Some(t), base := if n.checkpoint.None? then t.offset else n.base)
  }

  /** The batch a tick would hand over. */
  function Batch(o: Outside, lines: seq<bytes>): bytes {
    o.encode(Bodies(lines))
  }

  function NewLines(n: Node): seq<bytes>
    requires n.tail.Some?
  {
    Polled(n.file.data, ReadFrom(n.file, n.tail.value))
  }

  /** The process dies after `k` effects of a delivery. */
  function Crashed(n: Node, f: Flow, k: nat): Node {
    var w := if k <= |f.trace| then WorldAt(World(n), f.trace, k) else Export.World(f.state.disk, f.log);
    n.(wal := Down(w.disk), log := w.log, tail := None)
  }

  /** The checkpoint that a poll makes possible. */
  function Saved(t: Tail): Option<bytes> {
    Some(EncodeCheckpoint(Checkpoint(t.pendingOffset, t.pendingSignature)))
  }

  function Step(o: Outside, n: Node, e: Event): Node
    requires WalRuns.Ok(n.wal)
  {
    match e
    case Grow(x) => n.(file := n.file.(data := n.file.data + x))
    case Missed => n.(tail := None)
    case Damage(segs) => n.(wal := Struck(n.wal, segs))
    case Reopen(maxBytes, crash) =>
      n.(wal := WalRuns.Step(n.wal, WalRuns.Event(WalRuns.Reopen(maxBytes), crash)), tail := None)
    case Other(payload, crash) =>
      if n.wal.Down? then n
      else
        var f := Deliver(o.verdicts, n.wal.state, n.log, payload);
        if crash.Some? then Crashed(n, f, crash.value)
        else n.(wal := Up(f.state), log := f.log)
    case Tick(saved, crash) =>
      if n.wal.Down? then n
      else
        var m := WithTailer(n);
        if m.tail.None? then m
        else
          var lines := NewLines(m);
          var t := AfterPoll(m.file, m.tail.value);
          if lines == [] then m.(tail := Some(t))
          else
            var f := Deliver(o.verdicts, m.wal.state, m.log, Batch(o, lines));
            // The checkpoint's rename is the effect behind the delivery's.
            var persisted := f.handed && saved && (crash.Some? ==> crash.value > |f.trace|);
            var next := if persisted then AfterPersist(t) else t;
            var after := if crash.Some? then Crashed(m, f, crash.value)
                         else m.(wal := Up(f.state), log := f.log, tail := Some(next));
            if persisted then after.(checkpoint := Saved(t)) else after
  }

  // ---- The books of a run ----

  /** Which bytes of the file each submitted batch carries. */
  datatype Books = Books(ledger: Ledger, spans: seq<(nat, nat)>)

  /** Batch `i` holds exactly what a poll at the start of its stretch returned,
      from the file as it was at some earlier length. */
  ghost predicate Carries(o: Outside, b: Books, data: bytes, i: nat)
    requires i < |b.spans| && i < |b.ledger.subs|
  {
    exists size :: ReadAt(o, b, data, i, size)
  }

  predicate ReadAt(o: Outside, b: Books, data: bytes, i: nat, size: nat)
    requires i < |b.spans| && i < |b.ledger.subs|
  {
    var (lo, hi) := b.spans[i];
    && lo <= size <= |data|
    && hi == lo + |Flatten(Polled(data[..size], lo))|
    && b.ledger.subs[i] == Batch(o, Polled(data[..size], lo))
  }

  /** Byte `x` is in a batch that is owed. */
  ghost predicate Covered(o: Outside, b: Books, data: bytes, x: nat) {
    exists i :: 0 <= i < |b.spans| && i < |b.ledger.subs| && i in b.ledger.owed && b.spans[i].0 <= x < b.spans[i].1
      && Carries(o, b, data, i)
  }

  ghost predicate AllCovered(o: Outside, b: Books, data: bytes, from: nat, to: nat) {
    forall x :: from <= x < to ==> Covered(o, b, data, x)
  }

  /** The tailer in memory agrees with the checkpoint on disk. */
  predicate TailOk(n: Node)
    requires CheckpointReadable(n.checkpoint)
  {
    && n.file.signature < U128_LIMIT && |n.file.data| < U64_LIMIT
    && (n.checkpoint.Some? ==>
          var c := DecodeCheckpoint(n.checkpoint.value);
          c.signature == n.file.signature && n.base <= c.offset <= |n.file.data|)
    && (n.tail.Some? ==>
          var t := n.tail.value;
          && t.signature == n.file.signature && t.offset <= |n.file.data|
          && t.offset == if n.checkpoint.Some? then DecodeCheckpoint(n.checkpoint.value).offset else n.base)
  }

  /** Where the durable offset stands. */
  function Durable(n: Node): nat
    requires CheckpointReadable(n.checkpoint)
  {
    if n.checkpoint.Some? then DecodeCheckpoint(n.checkpoint.value).offset else n.base
  }

  ghost predicate Balanced(o: Outside, n: Node, b: Books) {
    && Ready(n) && TailOk(n)
    && Holds(b.ledger, World(n)) && |b.spans| == |b.ledger.subs|
    && AllCovered(o, b, n.file.data, n.base, Durable(n))
  }

  // ---- One event ----

  lemma CarriesLater(o: Outside, b: Books, data: bytes, x: bytes, i: nat)
    requires i < |b.spans| && i < |b.ledger.subs| && Carries(o, b, data, i)
    ensures Carries(o, b, data + x, i)
  {
    hide Polled, Flatten, Batch;
    var size: nat :| ReadAt(o, b, data, i, size);
    assert (data + x)[..size] == data[..size];
    assert ReadAt(o, b, data + x, i, size);
  }

  /** The bytes of that stretch, cut into complete lines and whole windows
      without a newline. */
  lemma CarriesLines(o: Outside, b: Books, data: bytes, i: nat)
    requires i < |b.spans| && i < |b.ledger.subs| && Carries(o, b, data, i)
    ensures b.spans[i].0 <= b.spans[i].1 <= |data|
    ensures exists lines ::
      && Flatten(lines) == data[b.spans[i].0..b.spans[i].1] && b.ledger.subs[i] == Batch(o, lines)
      && forall line :: line in lines ==> WholeLine(line)
  {
    hide Polled, Flatten, Batch;
    var size: nat :| ReadAt(o, b, data, i, size);
    var (lo, hi) := b.spans[i];
    var lines := Polled(data[..size], lo);
    PolledTiles(data[..size], lo);
    PolledWhole(data[..size], lo);
    assert data[..size][lo..hi] == data[lo..hi];
    assert Flatten(lines) == data[b.spans[i].0..b.spans[i].1] && b.ledger.subs[i] == Batch(o, lines);
  }

  lemma CoveredLater(o: Outside, b: Books, data: bytes, more: bytes, x: nat)
    requires Covered(o, b, data, x)
    ensures Covered(o, b, data + more, x)
  {
    var i :| 0 <= i < |b.spans| && i < |b.ledger.subs| && i in b.ledger.owed && b.spans[i].0 <= x < b.spans[i].1
      && Carries(o, b, data, i);
    CarriesLater(o, b, data, more, i);
  }

  /** More submissions and more batches in charge do not uncover anything. */
  lemma CoveredMore(o: Outside, b: Books, c: Books, data: bytes, x: nat)
    requires Covered(o, b, data, x)
    requires b.ledger.subs <= c.ledger.subs && b.spans <= c.spans && b.ledger.owed <= c.ledger.owed
    ensures Covered(o, c, data, x)
  {
    hide ReadAt;
    var i :| 0 <= i < |b.spans| && i < |b.ledger.subs| && i in b.ledger.owed && b.spans[i].0 <= x < b.spans[i].1
      && Carries(o, b, data, i);
    CarriesMore(o, b, c, data, i);
  }

  lemma CarriesMore(o: Outside, b: Books, c: Books, data: bytes, i: nat)
    requires i < |b.spans| && i < |b.ledger.subs| && Carries(o, b, data, i)
    requires b.ledger.subs <= c.ledger.subs && b.spans <= c.spans
    ensures Carries(o, c, data, i)
  {
    hide Polled, Flatten, Batch;
    var size: nat :| ReadAt(o, b, data, i, size);
    assert c.spans[i] == b.spans[i] && c.ledger.subs[i] == b.ledger.subs[i];
    assert ReadAt(o, c, data, i, size);
  }

  lemma AllCoveredMore(o: Outside, b: Books, c: Books, data: bytes, from: nat, to: nat)
    requires AllCovered(o, b, data, from, to)
    requires b.ledger.subs <= c.ledger.subs && b.spans <= c.spans && b.ledger.owed <= c.ledger.owed
    ensures AllCovered(o, c, data, from, to)
  {
    hide Covered;
    forall x | from <= x < to ensures Covered(o, c, data, x) {
      CoveredMore(o, b, c, data, x);
    }
  }

  /** What the event submits. */
  function Submits(o: Outside, n: Node, e: Event): seq<bytes>
    requires Ready(n)
  {
    if n.wal.Down? then []
    else
      match e
      case Other(payload, _) => [payload]
      case Tick(_, _) =>
        var lines := NewLines(WithTailer(n));
        if lines == [] then [] else [Batch(o, lines)]
      case _ => []
  }

  function CrashOf(e: Event): Option<nat> {
    if e.Grow? || e.Missed? || e.Damage? then None else e.crash
  }

  /** The event's batch became durable in the log. */
  predicate EventLands(o: Outside, n: Node, e: Event)
    requires Ready(n)
  {
    Submits(o, n, e) != [] && Lands(o.verdicts, n.wal.state, n.log, Submits(o, n, e)[0], CrashOf(e))
  }

  /** How many batches were in the segment files the event removed to meet the
      cap. */
  function EventEvicts(o: Outside, n: Node, e: Event): nat
    requires Ready(n)
  {
    if e.Reopen? then Evicted(n.wal, ReopenEvent(e))
    else if Submits(o, n, e) != [] then CapTakes(o.verdicts, n.wal.state, n.log, Submits(o, n, e)[0], CrashOf(e))
    else 0
  }

  function ReopenEvent(e: Event): WalRuns.Event
    requires e.Reopen?
  {
    WalRuns.Event(WalRuns.Reopen(e.maxBytes), e.crash)
  }

  /** The exporter reported that it took charge of the event's batch. */
  predicate TakesCharge(o: Outside, n: Node, e: Event)
    requires Ready(n)
  {
    && Submits(o, n, e) != []
    && var f := Deliver(o.verdicts, n.wal.state, n.log, Submits(o, n, e)[0]);
       f.handed && (CrashOf(e).Some? ==> CrashOf(e).value > |f.trace|)
  }

  /** From this event on the agent answers for its batch. */
  predicate Owes(o: Outside, n: Node, e: Event)
    requires Ready(n)
  {
    EventLands(o, n, e) || TakesCharge(o, n, e)
  }

  function LastOf(ids: seq<nat>, k: nat): seq<nat> {
    if k <= |ids| then ids[|ids| - k..] else ids
  }

  function QueueOf(n: Node): seq<bytes>
    requires Ready(n)
  {
    Queue(n.wal.Disk())
  }

  /** The numbers of the batches the event sent requests for: as many of those
      a whole delivery would send as requests went out. */
  function EventTried(o: Outside, n: Node, e: Event, ids: seq<nat>, next: nat): seq<nat>
    requires Ready(n)
  {
    if Submits(o, n, e) == [] then []
    else
      var all := DeliveryTried(o.verdicts, n.wal.state, n.log, Submits(o, n, e)[0], ids, next);
      var k := |Step(o, n, e).log| - |n.log|;
      if 0 <= k <= |all| then all[..k] else all
  }

  /** The stretch of the file one poll reads. */
  function Span(m: Node): (nat, nat)
    requires m.tail.Some?
  {
    var from := ReadFrom(m.file, m.tail.value);
    (from, from + |Flatten(NewLines(m))|)
  }

  /** Only batches polled from the file have a stretch of it. */
  function Spans(o: Outside, n: Node, e: Event): (spans: seq<(nat, nat)>)
    requires Ready(n)
    ensures |spans| == |Submits(o, n, e)|
  {
    if Submits(o, n, e) == [] then [] else if e.Tick? then [Span(WithTailer(n))] else [(0, 0)]
  }

  /** The books after an event, computed from it: the batch it submits gets the
      next number; the cap took the oldest of the batches waiting, as many as
      lay in the files it removed; the log holds the last ones of the rest; a
      damage takes out the batches it hit. */
  function Enter(o: Outside, n: Node, e: Event, b: Books): Books
    requires Ready(n) && Ready(Step(o, n, e))
  {
    var l, next := b.ledger, |b.ledger.subs|;
    if e.Damage? then b.(ledger := AfterDamage(l, n.wal, e.segs))
    else
      var waiting := Waiting(l.queue, next, EventLands(o, n, e));
      Books(
        Ledger(l.subs + Submits(o, n, e),
               LastOf(waiting, |QueueOf(Step(o, n, e))|),
               l.tried + EventTried(o, n, e, l.queue, next),
               l.evicted + FirstOf(waiting, EventEvicts(o, n, e)),
               l.skipped,
               l.owed + if Owes(o, n, e) then {next} else {}),
        b.spans + Spans(o, n, e))
  }

  /** An event that leaves log and collector alone. */
  lemma NothingHappens(o: Outside, n: Node, e: Event, b: Books)
    requires Balanced(o, n, b) && Ready(Step(o, n, e))
    requires Submits(o, n, e) == [] && !e.Reopen? && !e.Damage? && Step(o, n, e).wal == n.wal
    ensures Enter(o, n, e, b) == b
  {
    hide WalRuns.Ok, TailOk, AllCovered, DiskOk, Queue, Names, InOrder, AllSafe, Step, Submits;
    var l := b.ledger;
    assert l.subs + [] == l.subs && l.owed + {} == l.owed && l.queue + [] == l.queue && l.tried + [] == l.tried;
    assert b.spans + [] == b.spans && l.evicted + {} == l.evicted;
    assert FirstOf(l.queue, 0) == {};
    QueueSize(l, QueueOf(n), n.log);
    assert l.queue[0..] == l.queue;
  }

  lemma DamageBalanced(o: Outside, n: Node, e: Event, b: Books) returns (c: Books)
    requires Balanced(o, n, b) && e.Damage?
    ensures Ready(Step(o, n, e)) && Balanced(o, Step(o, n, e), c) && c == Enter(o, n, e, b)
  {
    hide Matches, Covered, AllCovered, DiskOk, Queue, Struck, AfterDamage, WalRuns.Ok;
    StruckOk(n.wal, e.segs);
    DiskOkOf(Struck(n.wal, e.segs));
    DiskOkOf(n.wal);
    DamageMatches(b.ledger, n.wal, e.segs, n.log);
    DamageKeeps(b.ledger, n.wal, e.segs);
    c := Enter(o, n, e, b);
    AllCoveredMore(o, b, c, n.file.data, n.base, Durable(n));
  }

  lemma DamageKeeps(l: Ledger, m: WalRuns.Machine, segs: seq<Segment>)
    requires WalRuns.Ok(m)
    ensures var r := AfterDamage(l, m, segs); r.subs == l.subs && r.owed == l.owed
  {
  }

  lemma GrowBalanced(o: Outside, n: Node, x: bytes, b: Books)
    requires Balanced(o, n, b) && |n.file.data| + |x| < U64_LIMIT
    ensures Balanced(o, Step(o, n, Event.Grow(x)), b) && Enter(o, n, Event.Grow(x), b) == b
  {
    hide Holds, Covered, WalRuns.Ok, Enter;
    forall y | n.base <= y < Durable(n) ensures Covered(o, b, n.file.data + x, y) {
      CoveredLater(o, b, n.file.data, x, y);
    }
    NothingHappens(o, n, Event.Grow(x), b);
  }

  lemma MissedBalanced(o: Outside, n: Node, b: Books)
    requires Balanced(o, n, b)
    ensures Balanced(o, Step(o, n, Missed), b) && Enter(o, n, Missed, b) == b
  {
    hide Holds, Covered, WalRuns.Ok, Enter;
    NothingHappens(o, n, Missed, b);
  }

  lemma ReopenBalanced(o: Outside, n: Node, e: Event, b: Books) returns (c: Books)
    requires Balanced(o, n, b) && e.Reopen?
    ensures Balanced(o, Step(o, n, e), c) && c == Enter(o, n, e, b)
  {
    hide Covered, Indexed, AllWhole, Ascending, Representable, CursorBehind, Recover, Live, WithinCap, WalRuns.Step,
      InOrder, AllSafe, Evicted, Names;
    var l, we := b.ledger, ReopenEvent(e);
    StepRefines(n.wal, we);
    ReopenExpected(n.wal, we);
    DiskOkOf(WalRuns.Step(n.wal, we));
    var q, k := QueueOf(n), Evicted(n.wal, we);
    QueueSize(l, q, n.log);
    EvictMatches(l, q, n.log, k);
    c := b.(ledger := Evict(l, k));
    AllCoveredMore(o, b, c, n.file.data, n.base, Durable(n));
    assert l.subs + [] == l.subs && l.owed + {} == l.owed && l.queue + [] == l.queue && l.tried + [] == l.tried;
    assert b.spans + [] == b.spans;
  }

  lemma ReopenExpected(m: WalRuns.Machine, e: WalRuns.Event)
    requires WalRuns.Ok(m) && e.op.Reopen?
    ensures Expected(m, e) == Queue(m.Disk())
  {
    hide Live, Recover, Ascending, Representable, CursorBehind, Indexed, AllWhole;
    assert Queue(m.Disk()) + [] == Queue(m.Disk());
  }

  /** A completed delivery whose batch is entered as taken charge of. */
  lemma DeliverBooked(v: Verdicts, s: State, log: seq<Attempt>, payload: bytes, l: Ledger) returns (r: Ledger)
    requires WalModel.Inv(s) && Holds(l, Export.World(s.disk, log))
    ensures var f := Deliver(v, s, log, payload); var n := |l.subs|;
      && WalModel.Inv(f.state) && Holds(r, Export.World(f.state.disk, f.log))
      && Booked(l, r, payload, Lands(v, s, log, payload, None), CapTakes(v, s, log, payload, None),
                DeliveryTried(v, s, log, payload, l.queue, n), f.handed)
  {
    hide Matches, Indexed, AllWhole, Ascending, Representable, CursorBehind, Queue, Deliver, Lands, CapTakes, Accepted,
      WalOperations.LostToCap, Appends, DeliveryTried, SentAlong;
    r := DeliverEnds(v, s, log, payload, l);
    var f := Deliver(v, s, log, payload);
    SubmittedAlong(l, r, payload, DeliveryTried(v, s, log, payload, l.queue, |l.subs|));
    if f.handed {
      OweMatches(r, Queue(f.state.disk), f.log, |l.subs|);
      OwedAlong(l, r, DeliveryTried(v, s, log, payload, l.queue, |l.subs|));
      r := Owe(r, |l.subs|);
    }
  }

  lemma SubmittedAlong(l: Ledger, r: Ledger, payload: bytes, ids: seq<nat>)
    ensures SentAlong(Submit(l, payload), r, ids) == SentAlong(l, r, ids)
  {
  }

  lemma OwedAlong(l: Ledger, r: Ledger, ids: seq<nat>)
    ensures SentAlong(l, Owe(r, |l.subs|), ids) == SentAlong(l, r, ids)
  {
  }

  /** The next batch is entered: submitted, and owed if it landed or the
      exporter took charge of it. */
  predicate Booked(l: Ledger, r: Ledger, payload: bytes, landed: bool, k: nat, sent: seq<nat>, handed: bool) {
    var n := |l.subs|;
    && r.subs == l.subs + [payload] && r.skipped == l.skipped
    && SentAlong(l, r, sent)
    && r.owed == l.owed + (if landed || handed then {n} else {})
    && r.evicted == l.evicted + FirstOf(Waiting(l.queue, n, landed), k)
    && IsSuffix(r.queue, Waiting(l.queue, n, landed))
  }

  /** Dying behind the last effect is like completing. */
  lemma LateDelivery(v: Verdicts, s: State, log: seq<Attempt>, payload: bytes, k: nat)
    requires WalModel.Inv(s) && k > |Deliver(v, s, log, payload).trace|
    ensures Lands(v, s, log, payload, Some(k)) == Lands(v, s, log, payload, None)
    ensures CapTakes(v, s, log, payload, Some(k)) == CapTakes(v, s, log, payload, None)
  {
    hide Indexed, AllWhole, DiskOk, Deliver, Attempts, Landed, Evicted, Appends, SentBefore, WalModel.Append;
    if Appends(v, s, log, payload) {
      TraceCovers(v, s, log, payload);
      LateCrash(s, payload, k - SentBefore(v, s, log, payload));
    }
  }

  lemma TraceCovers(v: Verdicts, s: State, log: seq<Attempt>, payload: bytes)
    requires Shape(s) && Appends(v, s, log, payload)
    ensures |Deliver(v, s, log, payload).trace|
         >= SentBefore(v, s, log, payload) + |WalModel.Append(s, payload).trace|
  {
    hide Deliver, Drain, WalModel.Append, Attempts, Tried, Succeeds;
    DeliverUnfold(v, s, log, payload);
  }

  function AfterDelivery(n: Node, f: Flow, crash: Option<nat>): Node {
    if crash.Some? then Crashed(n, f, crash.value) else n.(wal := Up(f.state), log := f.log)
  }

  /** A delivery, whole or cut short, for a batch with the given span. */
  lemma DeliveryBalanced(o: Outside, n: Node, payload: bytes, span: (nat, nat), crash: Option<nat>, b: Books)
    returns (c: Books)
    requires Balanced(o, n, b) && n.wal.Up?
    ensures var s := n.wal.state; var f := Deliver(o.verdicts, s, n.log, payload);
      && Balanced(o, AfterDelivery(n, f, crash), c) && c.spans == b.spans + [span]
      && Booked(b.ledger, c.ledger, payload, Lands(o.verdicts, s, n.log, payload, crash),
                CapTakes(o.verdicts, s, n.log, payload, crash),
                DeliveryTried(o.verdicts, s, n.log, payload, b.ledger.queue, |b.ledger.subs|),
                f.handed && (crash.None? || crash.value > |f.trace|))
  {
    hide Matches, Covered, Indexed, AllWhole, Ascending, Representable, CursorBehind, Queue, Deliver, Lands, CapTakes,
      DeliveryTried, SentAlong;
    var s, v := n.wal.state, o.verdicts;
    var l: Ledger;
    if crash.Some? && crash.value <= |Deliver(v, s, n.log, payload).trace| {
      l := DeliverHolds(v, s, n.log, payload, b.ledger, crash.value);
      SubmittedAlong(b.ledger, l, payload, DeliveryTried(v, s, n.log, payload, b.ledger.queue, |b.ledger.subs|));
    } else {
      l := DeliverBooked(v, s, n.log, payload, b.ledger);
      if crash.Some? {
        LateDelivery(v, s, n.log, payload, crash.value);
      }
    }
    c := Books(l, b.spans + [span]);
    AllCoveredMore(o, b, c, n.file.data, n.base, Durable(n));
  }

  /** The same, as an event. */
  lemma BookedEnters(o: Outside, n: Node, e: Event, payload: bytes, b: Books, c: Books)
    requires Ready(n) && n.wal.Up? && Submits(o, n, e) == [payload] && !e.Reopen? && !e.Damage?
    requires Ready(Step(o, n, e)) && Holds(b.ledger, World(n)) && Holds(c.ledger, World(Step(o, n, e)))
    requires c.spans == b.spans + Spans(o, n, e)
    requires Booked(b.ledger, c.ledger, payload, EventLands(o, n, e), EventEvicts(o, n, e),
                    DeliveryTried(o.verdicts, n.wal.state, n.log, payload, b.ledger.queue, |b.ledger.subs|),
                    TakesCharge(o, n, e))
    ensures c == Enter(o, n, e, b)
  {
    hide Indexed, AllWhole, Step, InOrder, AllSafe, Queue, EventLands, EventEvicts, TakesCharge, DiskOk, DeliveryTried,
      Spans, Submits;
    QueueSize(c.ledger, QueueOf(Step(o, n, e)), Step(o, n, e).log);
    TriedExactly(b.ledger, c.ledger, n.log, Step(o, n, e).log,
                 DeliveryTried(o.verdicts, n.wal.state, n.log, payload, b.ledger.queue, |b.ledger.subs|));
    assert c.ledger.tried == b.ledger.tried + EventTried(o, n, e, b.ledger.queue, |b.ledger.subs|);
  }

  /** The number of requests says how far the sending went. */
  lemma {:induction false} TriedExactly(l: Ledger, r: Ledger, log: seq<Attempt>, log': seq<Attempt>, ids: seq<nat>)
    requires SentAlong(l, r, ids) && Names(l, l.tried, Payloads(log)) && Names(r, r.tried, Payloads(log'))
    ensures 0 <= |log'| - |log| <= |ids| && r.tried == l.tried + ids[..|log'| - |log|]
  {
    hide Names;
    NamesCount(l, l.tried, log);
    NamesCount(r, r.tried, log');
    Between(l.tried, r.tried, ids);
  }

  lemma {:induction false} NamesCount(l: Ledger, ids: seq<nat>, log: seq<Attempt>)
    requires Names(l, ids, Payloads(log))
    ensures |ids| == |log|
  {
  }

  lemma Between<T>(a: seq<T>, t: seq<T>, x: seq<T>)
    requires a <= t <= a + x
    ensures t == a + x[..|t| - |a|]
  {
    assert t == (a + x)[..|t|];
  }

  lemma OtherBalanced(o: Outside, n: Node, e: Event, b: Books) returns (c: Books)
    requires Balanced(o, n, b) && e.Other?
    ensures Balanced(o, Step(o, n, e), c) && c == Enter(o, n, e, b)
  {
    hide Holds, AllCovered, WalRuns.Ok, Deliver, Lands, CapTakes, Enter, Booked;
    if n.wal.Down? {
      c := b;
      NothingHappens(o, n, e, b);
    } else {
      c := DeliveryBalanced(o, n, e.payload, (0, 0), e.crash, b);
      BookedEnters(o, n, e, e.payload, b, c);
    }
  }

  lemma TailerBalanced(o: Outside, n: Node, b: Books)
    requires Balanced(o, n, b)
    ensures Balanced(o, WithTailer(n), b)
  {
    hide Holds, WalRuns.Ok, Covered;
  }

  /** A new checkpoint covers no more than what was handed over before and the
      batch just taken charge of. */
  lemma CheckpointCovered(o: Outside, m: Node, b: Books, c: Books)
    requires m.tail.Some? && CheckpointReadable(m.checkpoint) && TailOk(m)
    requires AllCovered(o, c, m.file.data, m.base, Durable(m))
    requires |b.spans| == |b.ledger.subs| && |b.ledger.subs| in c.ledger.owed
    requires c.ledger.subs == b.ledger.subs + [Batch(o, NewLines(m))] && c.spans == b.spans + [Span(m)]
    ensures AllCovered(o, c, m.file.data, m.base, AfterPoll(m.file, m.tail.value).pendingOffset)
    ensures AfterPoll(m.file, m.tail.value).pendingOffset <= |m.file.data|
  {
    hide Polled, Flatten, Bodies;
    var t := m.tail.value;
    var n := |b.ledger.subs|;
    PolledTiles(m.file.data, t.offset);
    assert c.spans[n] == Span(m) && c.ledger.subs[n] == Batch(o, NewLines(m));
    assert m.file.data[..|m.file.data|] == m.file.data;
    assert ReadAt(o, c, m.file.data, n, |m.file.data|);
    var hi := AfterPoll(m.file, t).pendingOffset;
    forall x | m.base <= x < hi ensures Covered(o, c, m.file.data, x) {
      if x >= t.offset {
        assert c.spans[n].0 <= x < c.spans[n].1;
      }
    }
  }

  /** Tailer and checkpoint move on. */
  lemma TailMoved(o: Outside, n: Node, r: Node, c: Books)
    requires Balanced(o, n, c) && r == n.(tail := r.tail, checkpoint := r.checkpoint)
    requires CheckpointReadable(r.checkpoint) && TailOk(r) && AllCovered(o, c, r.file.data, r.base, Durable(r))
    ensures Balanced(o, r, c)
  {
    hide Holds, WalRuns.Ok, TailOk, AllCovered, Durable;
  }

  lemma TickBalanced(o: Outside, n: Node, e: Event, b: Books) returns (c: Books)
    requires Balanced(o, n, b) && e.Tick?
    ensures Balanced(o, Step(o, n, e), c) && c == Enter(o, n, e, b)
  {
    hide Holds, AllCovered, Indexed, AllWhole, DiskOk, Deliver, Polled, Flatten, DecodeCheckpoint, Batch, Enter,
      Rejected;
    if n.wal.Down? {
      NothingHappens(o, n, e, b);
      return b;
    }
    TailerBalanced(o, n, b);
    if NewLines(WithTailer(n)) == [] {
      NothingHappens(o, n, e, b);
      return b;
    }
    c := TickDelivers(o, n, e, b);
  }

  lemma TickDelivers(o: Outside, n: Node, e: Event, b: Books) returns (c: Books)
    requires Balanced(o, n, b) && e.Tick? && n.wal.Up? && NewLines(WithTailer(n)) != []
    ensures Balanced(o, Step(o, n, e), c) && c == Enter(o, n, e, b)
  {
    hide Holds, AllCovered, Indexed, AllWhole, DiskOk, Deliver, Polled, Flatten, DecodeCheckpoint, Batch, Lands,
      CapTakes, DeliveryTried, Enter, Booked, LE;
    var m := WithTailer(n);
    TailerBalanced(o, n, b);
    var lines := NewLines(m);
    var t := AfterPoll(m.file, m.tail.value);
    var f := Deliver(o.verdicts, m.wal.state, m.log, Batch(o, lines));
    c := DeliveryBalanced(o, m, Batch(o, lines), Span(m), e.crash, b);
    var r := Step(o, n, e);
    if TakesCharge(o, n, e) && e.saved {
      BookedOwes(b.ledger, c.ledger, Batch(o, lines), EventLands(o, n, e), EventEvicts(o, n, e),
                 DeliveryTried(o.verdicts, m.wal.state, m.log, Batch(o, lines), b.ledger.queue, |b.ledger.subs|));
      CheckpointCovered(o, m, b, c);
      CheckpointRoundTrip(Checkpoint(t.pendingOffset, t.pendingSignature));
    }
    TailMoved(o, AfterDelivery(m, f, e.crash), r, c);
    BookedEnters(o, n, e, Batch(o, lines), b, c);
  }

  lemma BookedOwes(l: Ledger, r: Ledger, payload: bytes, landed: bool, k: nat, sent: seq<nat>)
    requires Booked(l, r, payload, landed, k, sent, true)
    ensures |l.subs| in r.owed && r.subs == l.subs + [payload]
  {
  }

  lemma StepBalanced(o: Outside, n: Node, e: Event, b: Books) returns (c: Books)
    requires Balanced(o, n, b) && |Step(o, n, e).file.data| < U64_LIMIT
    ensures Balanced(o, Step(o, n, e), c) && c == Enter(o, n, e, b)
  {
    hide Balanced, Enter, Deliver, Saved, WithTailer;
    match e
    case Grow(x) =>
      assert e == Event.Grow(x);
      GrowBalanced(o, n, x, b);
      c := b;
    case Missed =>
      MissedBalanced(o, n, b);
      c := b;
    case Damage(_) => c := DamageBalanced(o, n, e, b);
    case Reopen(_, _) => c := ReopenBalanced(o, n, e, b);
    case Tick(_, _) => c := TickBalanced(o, n, e, b);
    case Other(_, _) => c := OtherBalanced(o, n, e, b);
  }

  // ---- Whole runs ----

  /** Books for any starting point: everything already sent or queued counts as
      submitted earlier, and what is queued is owed. */
  function OpeningLedger(q: seq<bytes>, log: seq<Attempt>): Ledger {
    var ids := Upward(|log|, |q|);
    Ledger(Payloads(log) + q, ids, Upward(0, |log|), {}, {}, FirstOf(ids, |ids|))
  }

  function Upward(from: nat, n: nat): (ids: seq<nat>)
    ensures |ids| == n && forall i :: 0 <= i < n ==> ids[i] == from + i
    decreases n
  {
    if n == 0 then [] else [from] + Upward(from + 1, n - 1)
  }

  lemma OpeningMatches(q: seq<bytes>, log: seq<Attempt>)
    ensures Matches(OpeningLedger(q, log), q, log)
  {
    var l := OpeningLedger(q, log);
    OpeningNames(q, log);
    hide Names;
    forall n | n in l.owed ensures Safe(l, log, n) {
    }
  }

  lemma OpeningNames(q: seq<bytes>, log: seq<Attempt>)
    ensures var l := OpeningLedger(q, log); Names(l, l.queue, q) && Names(l, l.tried, Payloads(log))
  {
    hide FirstOf;
  }

  /** The log and the checkpoint stay usable, whatever happens. */
  lemma StepReady(o: Outside, n: Node, e: Event)
    requires Ready(n)
    ensures Ready(Step(o, n, e))
  {
    hide Matches, Indexed, AllWhole, Ascending, Representable, CursorBehind, Queue, Deliver, WithinCap, WalRuns.Step;
    match e
    case Grow(_) =>
    case Missed =>
    case Damage(segs) => StruckOk(n.wal, segs);
    case Reopen(maxBytes, crash) =>
      StepRefines(n.wal, WalRuns.Event(WalRuns.Reopen(maxBytes), crash));
    case Other(payload, crash) =>
      if n.wal.Up? {
        DeliveryReady(o, n, payload, crash);
      }
    case Tick(_, crash) =>
      if n.wal.Up? && NewLines(WithTailer(n)) != [] {
        DeliveryReady(o, WithTailer(n), Batch(o, NewLines(WithTailer(n))), crash);
      }
  }

  lemma DeliveryReady(o: Outside, n: Node, payload: bytes, crash: Option<nat>)
    requires Ready(n) && n.wal.Up?
    ensures WalRuns.Ok(AfterDelivery(n, Deliver(o.verdicts, n.wal.state, n.log, payload), crash).wal)
  {
    hide Matches, Indexed, AllWhole, Ascending, Representable, CursorBehind, Queue, Deliver;
    var s := n.wal.state;
    var f := Deliver(o.verdicts, s, n.log, payload);
    var l := OpeningLedger(Queue(s.disk), n.log);
    OpeningMatches(Queue(s.disk), n.log);
    if crash.Some? && crash.value <= |f.trace| {
      var r := DeliverHolds(o.verdicts, s, n.log, payload, l, crash.value);
    } else {
      var r := DeliverBooked(o.verdicts, s, n.log, payload, l);
    }
  }

  function Run(o: Outside, n: Node, es: seq<Event>): (r: Node)
    requires Ready(n)
    ensures Ready(r)
    decreases |es|
  {
    if es == [] then n
    else
      StepReady(o, n, es[0]);
      Run(o, Step(o, n, es[0]), es[1..])
  }

  /** The books of a run, entered event by event. */
  function Entered(o: Outside, n: Node, es: seq<Event>, b: Books): Books
    requires Ready(n)
    decreases |es|
  {
    if es == [] then b
    else
      StepReady(o, n, es[0]);
      Entered(o, Step(o, n, es[0]), es[1..], Enter(o, n, es[0], b))
  }

  /** No cap eviction can happen in this event. */
  predicate CalmEvent(o: Outside, n: Node, e: Event)
    requires Ready(n)
  {
    if e.Reopen? then WithinCap(n.wal, ReopenEvent(e))
    else Submits(o, n, e) != [] ==> Calm(n.wal.state, Submits(o, n, e)[0])
  }

  predicate CalmRun(o: Outside, n: Node, es: seq<Event>)
    requires Ready(n)
    decreases |es|
  {
    es == [] ||
    (StepReady(o, n, es[0]);
     CalmEvent(o, n, es[0]) && CalmRun(o, Step(o, n, es[0]), es[1..]))
  }

  lemma CalmEvictsNone(o: Outside, n: Node, e: Event)
    requires Ready(n) && CalmEvent(o, n, e)
    ensures EventEvicts(o, n, e) == 0
  {
    assert Submits(o, n, e) != [] ==> n.wal.Up?;
    hide Submits, Indexed, AllWhole, DiskOk, WalRuns.Step, Evicted, Expected, Landed, CheckpointReadable;
    if e.Reopen? {
      StepRefines(n.wal, ReopenEvent(e));
    } else if Submits(o, n, e) != [] {
      var s, p := n.wal.state, Submits(o, n, e)[0];
      StepRefines(Up(s), AppendEvent(o.verdicts, s, n.log, p, CrashOf(e)));
    }
  }

  /** While the cap is not reached, it takes nothing. */
  lemma {:induction false} CalmTakesNone(o: Outside, n: Node, es: seq<Event>, b: Books)
    requires Ready(n) && CalmRun(o, n, es)
    ensures Entered(o, n, es, b).ledger.evicted == b.ledger.evicted
    decreases |es|
  {
    hide Step, WalRuns.Ok, CheckpointReadable, CalmEvent, EventEvicts, EventLands, Submits, QueueOf, EventTried, Spans,
      Owes;
    if es != [] {
      StepReady(o, n, es[0]);
      CalmEvictsNone(o, n, es[0]);
      assert FirstOf(Waiting(b.ledger.queue, |b.ledger.subs|, EventLands(o, n, es[0])), 0) == {};
      CalmTakesNone(o, Step(o, n, es[0]), es[1..], Enter(o, n, es[0], b));
    }
  }

  /** Without damage nothing is skipped. */
  lemma {:induction false} NothingSkipped(o: Outside, n: Node, es: seq<Event>, b: Books)
    requires Ready(n) && forall e :: e in es ==> !e.Damage?
    ensures Entered(o, n, es, b).ledger.skipped == b.ledger.skipped
    decreases |es|
  {
    hide Step, WalRuns.Ok, CheckpointReadable, EventEvicts, EventLands, Submits, QueueOf, EventTried, Spans, Owes;
    if es != [] {
      assert es[0] in es;
      StepReady(o, n, es[0]);
      NothingSkipped(o, Step(o, n, es[0]), es[1..], Enter(o, n, es[0], b));
    }
  }

  lemma StepGrows(o: Outside, n: Node, e: Event)
    requires Ready(n)
    ensures n.file.data <= Step(o, n, e).file.data
  {
    hide Deliver, WalRuns.Step, Polled, Flatten;
  }

  lemma {:induction false} RunGrows(o: Outside, n: Node, es: seq<Event>)
    requires Ready(n)
    ensures n.file.data <= Run(o, n, es).file.data
    decreases |es|
  {
    hide Step, WalRuns.Ok, CheckpointReadable;
    if es != [] {
      StepReady(o, n, es[0]);
      StepGrows(o, n, es[0]);
      RunGrows(o, Step(o, n, es[0]), es[1..]);
    }
  }

  /** The books of a run balance. */
  lemma {:induction false} RunBalanced(o: Outside, n: Node, es: seq<Event>, b: Books)
    requires Balanced(o, n, b) && |Run(o, n, es).file.data| < U64_LIMIT
    ensures Balanced(o, Run(o, n, es), Entered(o, n, es, b))
    decreases |es|
  {
    hide Step, Holds, WalRuns.Ok, TailOk, AllCovered, Enter;
    if es != [] {
      StepReady(o, n, es[0]);
      var m := Step(o, n, es[0]);
      RunGrows(o, m, es[1..]);
      var c := StepBalanced(o, n, es[0], b);
      RunBalanced(o, m, es[1..], c);
    }
  }

  /** A node that has never read its file. */
  predicate Fresh(n: Node) {
    Ready(n) && n.checkpoint == None && n.tail == None && n.file.signature < U128_LIMIT
  }

  /** The first installation is one, whatever the file already holds. */
  lemma FirstInstallation(file: File, log: seq<Attempt>, base: nat)
    requires file.signature < U128_LIMIT
    ensures Fresh(Node(file, None, WalRuns.Down(Disk([], None)), log, None, base))
  {
  }

  /** The books of a run from a fresh node. */
  function BooksOf(o: Outside, n: Node, es: seq<Event>): Books
    requires Fresh(n)
  {
    Entered(o, n, es, OpeningBooks(n))
  }

  function OpeningBooks(n: Node): Books
    requires Ready(n)
  {
    var l := OpeningLedger(QueueOf(n), n.log);
    Books(l, seq(|l.subs|, i => (0, 0)))
  }

  lemma FreshBalanced(o: Outside, n: Node)
    requires Fresh(n) && |n.file.data| < U64_LIMIT
    ensures Balanced(o, n, OpeningBooks(n))
  {
    hide Indexed, AllWhole, Ascending, Representable, CursorBehind, Queue, Matches, OpeningLedger;
    OpeningMatches(QueueOf(n), n.log);
  }

  lemma FinallyBalanced(o: Outside, n: Node, es: seq<Event>)
    requires Fresh(n) && |Run(o, n, es).file.data| < U64_LIMIT
    ensures Balanced(o, Run(o, n, es), BooksOf(o, n, es))
  {
    hide Balanced, WalRuns.Ok;
    RunGrows(o, n, es);
    FreshBalanced(o, n);
    RunBalanced(o, n, es, OpeningBooks(n));
  }

  /** Strict FIFO over whole runs, in the numbers the run itself gives: they
      name what was sent and what the log holds; those of the requests never
      decrease and never pass what the log still holds; and when a batch is
      sent, every earlier one that was ever durable, or that the exporter took
      charge of, has been reported accepted, was in a segment file the cap
      removed, or was damaged. */
  lemma StrictFifo(o: Outside, n: Node, es: seq<Event>)
    requires Fresh(n) && |Run(o, n, es).file.data| < U64_LIMIT
    ensures var l, r := BooksOf(o, n, es).ledger, Run(o, n, es);
      && Names(l, l.tried, Payloads(r.log)) && NonDecreasing(l.tried)
      && Names(l, l.queue, QueueOf(r)) && Increasing(l.queue)
      && (forall i, j :: 0 <= i < |l.tried| && 0 <= j < |l.queue| ==> l.tried[i] <= l.queue[j])
      && (forall i, j :: i in l.owed && 0 <= j < |l.tried| && i < l.tried[j] ==>
            i in l.evicted || i in l.skipped || Accepted(l, r.log, i))
  {
    hide WalRuns.Ok, TailOk, AllCovered, Names, Increasing, NonDecreasing, Queue, Accepted, Entered, OpeningBooks;
    FinallyBalanced(o, n, es);
    var l, r := BooksOf(o, n, es).ledger, Run(o, n, es);
    forall i, j | i in l.owed && 0 <= j < |l.tried| && i < l.tried[j]
      ensures i in l.evicted || i in l.skipped || Accepted(l, r.log, i)
    {
      EarlierSettled(l, QueueOf(r), r.log, i, j);
    }
  }

  /** Byte `x` was polled into a batch that is with the collector, in the log,
      taken by the cap or damaged. */
  ghost predicate Accounted(o: Outside, r: Node, b: Books, x: nat) {
    exists i :: 0 <= i < |b.spans| && i < |b.ledger.subs| && b.spans[i].0 <= x < b.spans[i].1
      && Carries(o, b, r.file.data, i) && Safe(b.ledger, r.log, i)
  }

  /** At least once, end to end: every byte between where reading began and the
      durable offset is accounted for, and so is every batch that was durable
      when the run began or became so. */
  lemma AtLeastOnce(o: Outside, n: Node, es: seq<Event>)
    requires Fresh(n) && |Run(o, n, es).file.data| < U64_LIMIT
    ensures var b, r := BooksOf(o, n, es), Run(o, n, es);
      && (forall i :: i in b.ledger.owed ==> Safe(b.ledger, r.log, i))
      && (forall x :: r.base <= x < Durable(r) ==> Accounted(o, r, b, x))
  {
    hide WalRuns.Ok, TailOk, Names, Increasing, NonDecreasing, Queue, Safe, Carries, Entered, OpeningBooks;
    FinallyBalanced(o, n, es);
    var b, r := BooksOf(o, n, es), Run(o, n, es);
    forall x | r.base <= x < Durable(r) ensures Accounted(o, r, b, x) {
      assert Covered(o, b, r.file.data, x);
      var i :| 0 <= i < |b.spans| && i < |b.ledger.subs| && i in b.ledger.owed && b.spans[i].0 <= x < b.spans[i].1
        && Carries(o, b, r.file.data, i);
      assert Safe(b.ledger, r.log, i);
    }
  }

  // ---- A refused batch ----

  /** A tick whose batch the log refuses while others wait: log, collector and
      checkpoint stay as they are, and the next poll returns the same lines. */
  lemma RefusedTick(o: Outside, n: Node, saved: bool)
    requires Refused(o, n)
    ensures var r := Step(o, n, Tick(saved, None));
      && r.wal == n.wal && r.log == n.log && r.checkpoint == n.checkpoint && r.file == n.file
      && Refused(o, r)
  {
    hide Indexed, AllWhole, DiskOk, Polled, Flatten, Bodies, Rejected, WalModel.Append, Drain;
    var m := WithTailer(n);
    RejectedUnchanged(n.wal.state, Batch(o, NewLines(m)));
    DeliverUnfold(o.verdicts, n.wal.state, n.log, Batch(o, NewLines(m)));
  }

  /** Batches wait in the log, and it refuses the lines that come next. */
  predicate Refused(o: Outside, n: Node) {
    && Ready(n) && n.wal.Up? && n.wal.state.records != []
    && NewLines(WithTailer(n)) != []
    && Rejected(n.wal.state, Batch(o, NewLines(WithTailer(n))))
  }

  /** However often it is tried and whatever the collector would say: the
      backlog does not move and the lines are not shipped. */
  lemma {:induction false} RefusedForever(o: Outside, n: Node, es: seq<Event>)
    requires Refused(o, n) && forall e :: e in es ==> e.Tick? && e.crash == None
    ensures var r := Run(o, n, es); r.wal == n.wal && r.log == n.log && r.checkpoint == n.checkpoint
    decreases |es|
  {
    hide Step, Rejected, WithTailer, NewLines, WalRuns.Ok;
    if es != [] {
      assert es[0] in es;
      assert es[0] == Tick(es[0].saved, None);
      StepReady(o, n, es[0]);
      RefusedTick(o, n, es[0].saved);
      RefusedForever(o, Step(o, n, es[0]), es[1..]);
    }
  }

  // ---- The checkpoint ----

  /** The checkpoint moves with the responsibility, exactly: a tick with new
      lines puts it behind them if and only if the exporter took charge of the
      batch, because the collector accepted it with nothing waiting or because
      the log took it, and the file could be written before a crash. Otherwise
      checkpoint and position stay, and the next tick reads the same lines. */
  lemma TickPersists(o: Outside, n: Node, saved: bool, crash: Option<nat>)
    requires Ready(n) && n.wal.Up? && |n.file.data| < U64_LIMIT && n.file.signature < U128_LIMIT
    requires NewLines(WithTailer(n)) != []
    ensures var r := Step(o, n, Tick(saved, crash)); var s, lines := n.wal.state, NewLines(WithTailer(n));
      var next, batch := Position(n) + |Flatten(lines)|, Batch(o, lines);
      var charged := (s.records == [] && Succeeds(o.verdicts, n.log, batch)) || WalOperations.Takes(s, batch);
      && Ready(r) && r.file == n.file
      && if charged && saved && (crash.Some? ==> crash.value > |Deliver(o.verdicts, s, n.log, batch).trace|)
         then r.checkpoint.Some? && DecodeCheckpoint(r.checkpoint.value) == Checkpoint(next, n.file.signature)
              && Position(r) == next
         else r.checkpoint == n.checkpoint && (crash.None? ==> Position(r) == Position(n))
  {
    StepReady(o, n, Tick(saved, crash));
    TickUnfold(o, n, saved, crash);
    var m, r := WithTailer(n), Step(o, n, Tick(saved, crash));
    DeliverRefines(o.verdicts, n.wal.state, n.log, Batch(o, NewLines(m)));
    PositionMeans(n);
    PositionMeans(r);
    PersistedResumes(n.file, m.tail.value);
    hide Step, Inv, Deliver, Polled, Flatten, Batch, Succeeds, WalOperations.Takes, DecodeCheckpoint, WorldAt, Position,
      ReadFrom, StartOffset, WalRuns.Ok, EncodeCheckpoint, AfterPersist;
  }

  lemma PositionMeans(n: Node)
    requires Ready(n)
    ensures WithTailer(n).tail.Some? && WithTailer(n).file == n.file
    ensures Position(n) == ReadFrom(n.file, WithTailer(n).tail.value)
    ensures Position(n) == if n.tail.Some? then ReadFrom(n.file, n.tail.value) else StartOffset(n.file, n.checkpoint)
  {
    hide WalRuns.Ok, DecodeCheckpoint;
  }

  lemma TickUnfold(o: Outside, n: Node, saved: bool, crash: Option<nat>)
    requires Ready(n) && n.wal.Up? && NewLines(WithTailer(n)) != []
    ensures var r, m := Step(o, n, Tick(saved, crash)), WithTailer(n); var t := AfterPoll(m.file, m.tail.value);
      var f := Deliver(o.verdicts, n.wal.state, n.log, Batch(o, NewLines(m)));
      var persisted := f.handed && saved && (crash.Some? ==> crash.value > |f.trace|);
      && r.file == n.file && r.checkpoint == (if persisted then Saved(t) else n.checkpoint)
      && r.tail == if crash.Some? then None else Some(if persisted then AfterPersist(t) else t)
  {
    hide Inv, Deliver, AfterPoll, Polled, Batch, WorldAt;
  }

  /** Without the file the tailer is dropped; when it is back, reading resumes
      at the checkpoint, or at its end when there is none. */
  lemma MissedResumes(o: Outside, n: Node)
    requires Ready(n) && TailOk(n)
    ensures var r := Step(o, n, Missed);
      && Ready(r) && r == n.(tail := None)
      && Position(r) == if n.checkpoint.Some? then Position(n) else |n.file.data|
  {
    hide DecodeCheckpoint;
  }

  // ---- With an accepting collector ----

  /** The pace of a tick, exactly: it takes 31 off a backlog, net of its own
      batch, and all of a smaller one, if and only if the file has new lines and
      the log does not refuse them (short of segment numbers running out). An
      idle tick changes neither log nor collector nor checkpoint. */
  lemma TickDrains(o: Outside, n: Node, saved: bool)
    requires Ready(n) && n.wal.Up? && AcceptingFrom(o.verdicts, |n.log|)
    ensures var r := Step(o, n, Tick(saved, None));
      var s, lines := n.wal.state, NewLines(WithTailer(n));
      && r.wal.Up?
      && (lines == [] ==> r.wal == n.wal && r.log == n.log && r.checkpoint == n.checkpoint)
      && (s.records != [] && s.active + 2 < U64_LIMIT ==>
            (|r.wal.state.records| <= |s.records| - Min(|s.records|, MAX_WAL_DRAIN_PER_TICK - 1)
             <==> lines != [] && !Rejected(s, Batch(o, lines))))
  {
    hide Indexed, AllWhole, DiskOk, Deliver, Polled, Flatten, Bodies, Rejected;
    TickPace(o.verdicts, n.wal.state, n.log, Batch(o, NewLines(WithTailer(n))));
  }

  /** What the polls of a file that does not change return. */
  function Polls(data: bytes, from: nat): seq<seq<bytes>>
    requires from <= |data|
    decreases |data| - from
  {
    var lines := Polled(data, from);
    if lines == [] then []
    else
      PolledTiles(data, from);
      PolledAdvances(data, from);
      [lines] + Polls(data, from + |Flatten(lines)|)
  }

  function Joined(polls: seq<seq<bytes>>): seq<bytes> {
    if polls == [] then [] else polls[0] + Joined(polls[1..])
  }

  lemma {:induction false} PollsDrain(data: bytes, from: nat)
    requires from <= |data|
    ensures Joined(Polls(data, from)) == DrainFile(data, from)
    decreases |data| - from
  {
    hide Polled, Flatten;
    var lines := Polled(data, from);
    if lines != [] {
      PolledTiles(data, from);
      PolledAdvances(data, from);
      PollsDrain(data, from + |Flatten(lines)|);
      assert Polls(data, from)[1..] == Polls(data, from + |Flatten(lines)|);
    }
  }

  /** The requests that ship them, one each. */
  function Shipped(o: Outside, polls: seq<seq<bytes>>): (log: seq<Attempt>) {
    if polls == [] then [] else [Attempt(Batch(o, polls[0]), true)] + Shipped(o, polls[1..])
  }

  function Ticks(k: nat): (es: seq<Event>)
    ensures |es| == k
  {
    if k == 0 then [] else [Tick(true, None)] + Ticks(k - 1)
  }

  /** Where the next poll reads from. */
  function Position(n: Node): (from: nat)
    requires Ready(n)
    ensures from <= |n.file.data|
  {
    ReadFrom(n.file, WithTailer(n).tail.value)
  }

  lemma TickShips(o: Outside, n: Node)
    requires Ready(n) && n.wal.Up? && n.wal.state.records == [] && AcceptingFrom(o.verdicts, |n.log|)
    requires Polled(n.file.data, Position(n)) != []
    ensures var r := Step(o, n, Tick(true, None)); var lines := Polled(n.file.data, Position(n));
      && Ready(r) && r.wal == n.wal && r.file == n.file && r.log == n.log + [Attempt(Batch(o, lines), true)]
      && Position(r) == Position(n) + |Flatten(lines)|
      && r.checkpoint.Some?
  {
    hide Indexed, AllWhole, DiskOk, Deliver, Polled, Flatten, Bodies, Succeeds, Tried, LE;
    var lines := Polled(n.file.data, Position(n));
    DirectWhenEmpty(o.verdicts, n.wal.state, n.log, Batch(o, lines));
    PolledTiles(n.file.data, Position(n));
  }

  /** With nothing waiting, an accepting collector gets every complete line of a
      file that does not change, in order and in one request per poll; what is
      left has no newline and is shorter than a window. */
  lemma {:induction false} FixedFileShipped(o: Outside, n: Node)
    requires Ready(n) && n.wal.Up? && n.wal.state.records == [] && AcceptingFrom(o.verdicts, |n.log|)
    ensures var data, from := n.file.data, Position(n);
      var polls := Polls(data, from);
      var r := Run(o, n, Ticks(|polls|));
      && r.log == n.log + Shipped(o, polls) && Joined(polls) == DrainFile(data, from)
      && r.wal == n.wal && r.file == n.file
      && from <= Position(r) && Flatten(Joined(polls)) == data[from..Position(r)]
      && LF !in data[Position(r)..] && |data| - Position(r) < MAX_POLL_BYTES
    decreases |n.file.data| - Position(n)
  {
    hide Polled, Flatten, Step, WalRuns.Ok, Position, DrainFile, Bodies;
    var data, from := n.file.data, Position(n);
    var lines := Polled(data, from);
    PollsDrain(data, from);
    DrainTakesAll(data, from);
    if lines == [] {
      NoneShipped(o, n, data, from);
    } else {
      TickShips(o, n);
      StepReady(o, n, Tick(true, None));
      var m := Step(o, n, Tick(true, None));
      PolledTiles(data, from);
      PolledAdvances(data, from);
      FixedFileShipped(o, m);
      var rest := Polls(data, Position(m));
      PollsFirst(o, data, from, Position(m));
      TicksFirst(|rest|);
      RunFirst(o, n, Tick(true, None), Ticks(|rest|));
      hide Polls, Joined, Run, Shipped;
      Associative(n.log, [Attempt(Batch(o, lines), true)], Shipped(o, rest));
      FlattenConcat(lines, Joined(rest));
      SlicesMeet(data, from, Position(m), Position(Run(o, m, Ticks(|rest|))));
    }
  }

  lemma PollsFirst(o: Outside, data: bytes, from: nat, mid: nat)
    requires from <= mid <= |data| && Polled(data, from) != [] && mid == from + |Flatten(Polled(data, from))|
    ensures Polls(data, from) == [Polled(data, from)] + Polls(data, mid)
    ensures Joined(Polls(data, from)) == Polled(data, from) + Joined(Polls(data, mid))
    ensures Shipped(o, Polls(data, from))
         == [Attempt(Batch(o, Polled(data, from)), true)] + Shipped(o, Polls(data, mid))
  {
    hide Polled, Flatten, Batch;
    assert Polls(data, from)[1..] == Polls(data, mid);
  }

  lemma TicksFirst(k: nat)
    ensures Ticks(k + 1) == [Tick(true, None)] + Ticks(k)
  {
  }

  lemma RunFirst(o: Outside, n: Node, e: Event, es: seq<Event>)
    requires Ready(n) && Ready(Step(o, n, e))
    ensures Run(o, n, [e] + es) == Run(o, Step(o, n, e), es)
  {
    assert ([e] + es)[1..] == es;
  }

  lemma NoneShipped(o: Outside, n: Node, data: bytes, from: nat)
    requires Ready(n) && from <= |data| && Polled(data, from) == []
    ensures Polls(data, from) == [] && DrainFile(data, from) == [] && Flatten([]) == []
    ensures Run(o, n, Ticks(0)) == n && n.log + Shipped(o, []) == n.log
  {
  }
}
