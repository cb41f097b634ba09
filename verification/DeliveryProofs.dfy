/** One delivered batch, from its submission to any point a crash may stop it,
    and the pace at which a backlog goes down. */
module DeliveryProofs {
  import opened ByteStrings
  import opened Wrappers
  import opened Frames
  import opened WalModel
  import opened WalProofs
  import opened WalEviction
  import opened WalOperations
  import opened WalReopen
  import opened WalRuns
  import opened Export
  import opened Accounts
  import opened ExportProofs

  /** The cap has no reason to evict for this payload. */
  predicate Calm(s: State, payload: bytes) {
    Total(s.disk.segments) + HEADER_BYTES + |payload| <= s.maxBytes
  }

  // ---- The append inside a delivery ----

  /** The batch goes to the log: others wait there, or the collector did not
      take it. */
  predicate Appends(v: Verdicts, s: State, log: seq<Attempt>, payload: bytes) {
    s.records != [] || !Succeeds(v, log, payload)
  }

  /** How many requests precede that append. */
  function SentBefore(v: Verdicts, s: State, log: seq<Attempt>, payload: bytes): nat {
    if s.records != [] then 0 else |Attempts(v, log, payload, ATTEMPTS)|
  }

  /** The append as an event of the log, in a delivery that a crash may stop
      after a number of effects. */
  function AppendEvent(v: Verdicts, s: State, log: seq<Attempt>, payload: bytes, crash: Option<nat>): WalRuns.Event {
    var before := SentBefore(v, s, log, payload);
    WalRuns.Event(WalRuns.Append(payload),
                  match crash
                  case None => None
                  case Some(k) => Some(if k < before then 0 else k - before))
  }

  /** The batch became durable. */
  predicate Lands(v: Verdicts, s: State, log: seq<Attempt>, payload: bytes, crash: Option<nat>)
    requires Inv(s)
  {
    Appends(v, s, log, payload) && Landed(Up(s), AppendEvent(v, s, log, payload, crash))
  }

  /** How many batches were in the segment files the delivery removed to meet
      the cap. */
  function CapTakes(v: Verdicts, s: State, log: seq<Attempt>, payload: bytes, crash: Option<nat>): nat
    requires Inv(s)
  {
    if Appends(v, s, log, payload) then Evicted(Up(s), AppendEvent(v, s, log, payload, crash)) else 0
  }

  lemma AppendInvAlways(s: State, payload: bytes)
    requires Inv(s)
    ensures Inv(WalModel.Append(s, payload).state)
  {
    hide WalModel.Append, Indexed, AllWhole, DiskOk;
    if Rejected(s, payload) {
      RejectedUnchanged(s, payload);
    } else {
      AppendedInv(s, payload);
    }
  }

  lemma LateCrash(s: State, payload: bytes, k: nat)
    requires Inv(s) && k >= |WalModel.Append(s, payload).trace|
    ensures var e := WalRuns.Event(WalRuns.Append(payload), None);
      var late := WalRuns.Event(WalRuns.Append(payload), Some(k));
      && Landed(Up(s), late) == Landed(Up(s), e) && Evicted(Up(s), late) == Evicted(Up(s), e)
      && Step(Up(s), late).Disk() == WalModel.Append(s, payload).state.disk
  {
    hide Ascending, Representable, CursorBehind, Indexed, AllWhole, Recover, WalModel.Append, WriteSteps, Lost,
      NewEntry;
    if Rejected(s, payload) {
      RejectedUnchanged(s, payload);
    } else {
      AppendTraceLength(s, payload);
      AppendEndsTrace(s, payload);
    }
  }

  lemma NoEffect(s: State, payload: bytes)
    requires Inv(s)
    ensures var e := WalRuns.Event(WalRuns.Append(payload), Some(0));
      !Landed(Up(s), e) && Evicted(Up(s), e) == 0 && Step(Up(s), e).Disk() == s.disk
  {
    hide Ascending, Representable, CursorBehind, Indexed, AllWhole, Recover, WalModel.Append, WriteSteps, Lost;
    if !Rejected(s, payload) {
      AppendTraceLength(s, payload);
    }
    NothingLost(s.disk);
    assert Recover(s.disk) + [] == Recover(s.disk);
  }

  // ---- The ledger over a delivery ----

  /** A batch that may be appended: newer than everything sent or queued. */
  predicate Newest(l: Ledger, n: nat) {
    && n < |l.subs|
    && (forall i :: 0 <= i < |l.tried| ==> l.tried[i] <= n)
    && (forall j :: 0 <= j < |l.queue| ==> l.queue[j] < n)
    && (forall e :: e in l.evicted ==> e < n)
    && (forall e :: e in l.skipped ==> e < n)
  }

  /** The batches waiting in the log once batch `n` landed or did not. */
  function Waiting(ids: seq<nat>, n: nat, landed: bool): seq<nat> {
    ids + if landed then [n] else []
  }

  function DropFirst(ids: seq<nat>, k: nat): seq<nat> {
    if k <= |ids| then ids[k..] else []
  }

  /** The numbers of the batches a whole delivery sends requests for, one per
      attempt: those waiting in the log behind which batch `n` was put, or batch
      `n` itself. `ids` number what the log held before. */
  function DeliveryTried(v: Verdicts, s: State, log: seq<Attempt>, payload: bytes, ids: seq<nat>, n: nat): seq<nat>
    requires Inv(s)
  {
    if s.records == [] then Copies(n, |Attempts(v, log, payload, ATTEMPTS)|)
    else
      var o := WalModel.Append(s, payload);
      if !o.ok then []
      else
        var e := WalRuns.Event(WalRuns.Append(payload), None);
        DrainTried(v, o.state, log, MAX_WAL_DRAIN_PER_TICK,
                   DropFirst(Waiting(ids, n, Landed(Up(s), e)), Evicted(Up(s), e)))
  }

  /** From `l` to `r`: batch `n` landed or not, the cap took the `k` oldest of
      those waiting, requests were sent for the first of `sent`, and the front
      of the rest may have been acknowledged. */
  predicate Follows(l: Ledger, r: Ledger, n: nat, landed: bool, k: nat, sent: seq<nat>) {
    && r.subs == l.subs && r.skipped == l.skipped && SentAlong(l, r, sent)
    && r.owed == l.owed + (if landed then {n} else {})
    && k <= |Waiting(l.queue, n, landed)|
    && r.evicted == l.evicted + FirstOf(Waiting(l.queue, n, landed), k)
    && IsSuffix(r.queue, Waiting(l.queue, n, landed))
  }

  /** An append, whole or cut short, as an entry in the ledger. */
  lemma AppendBooked(s: State, log: seq<Attempt>, l: Ledger, n: nat, crash: Option<nat>) returns (r: Ledger)
    requires Inv(s) && Holds(l, World(s.disk, log)) && Newest(l, n)
    ensures var e := WalRuns.Event(WalRuns.Append(l.subs[n]), crash);
      var landed, k := Landed(Up(s), e), Evicted(Up(s), e);
      && k <= |l.queue| + (if landed then 1 else 0)
      && r == AfterAppend(l, n, landed, k)
      && Holds(r, World(Step(Up(s), e).Disk(), log)) && |r.queue| == |Queue(Step(Up(s), e).Disk())|
  {
    hide InOrder, AllSafe, Safe, Accepted, Indexed, AllWhole, Ascending, Representable, CursorBehind, Recover, Live,
      WalRuns.Step, Landed, Evicted;
    var e := WalRuns.Event(WalRuns.Append(l.subs[n]), crash);
    var landed, k := Landed(Up(s), e), Evicted(Up(s), e);
    StepRefines(Up(s), e);
    DiskOkOf(Step(Up(s), e));
    var q := Queue(s.disk);
    var l1, q1 := l, q;
    assert q + [] == q;
    if landed {
      EnqueueMatches(l, q, log, n);
      l1, q1 := Enqueue(l, n), q + [l.subs[n]];
      BackIsSafe(l, log, n);
      OweMatches(l1, q1, log, n);
      l1 := Owe(l1, n);
    }
    EvictMatches(l1, q1, log, k);
    r := Evict(l1, k);
  }

  lemma BackIsSafe(l: Ledger, log: seq<Attempt>, n: nat)
    ensures Safe(Enqueue(l, n), log, n)
  {
    assert Enqueue(l, n).queue[|l.queue|] == n;
  }

  lemma AfterAppendFollows(l: Ledger, n: nat, landed: bool, k: nat, sent: seq<nat>)
    requires k <= |l.queue| + if landed then 1 else 0
    ensures var r := AfterAppend(l, n, landed, k);
      Follows(l, r, n, landed, k, sent) && r.tried == l.tried && r.queue == DropFirst(Waiting(l.queue, n, landed), k)
  {
    assert l.queue + [] == l.queue;
    assert l.owed + {} == l.owed;
  }

  /** Later requests and acknowledgements do not disturb that. */
  lemma FollowsLater(l: Ledger, r: Ledger, r': Ledger, n: nat, landed: bool, k: nat, sent: seq<nat>)
    requires Follows(l, r, n, landed, k, sent) && r.tried == l.tried
    requires r' == r.(tried := r'.tried, queue := r'.queue) && IsSuffix(r'.queue, r.queue) && SentAlong(r, r', sent)
    ensures Follows(l, r', n, landed, k, sent)
  {
    SuffixTransitive(r'.queue, r.queue, Waiting(l.queue, n, landed));
  }

  lemma FollowsSent(l: Ledger, r: Ledger, n: nat, count: nat)
    requires OnlySent(l, r, n) && |r.tried| <= |l.tried| + count
    ensures Follows(l, r, n, false, 0, Copies(n, count))
  {
    AlongFirst(l, r, n, count, []);
    assert Copies(n, count) + [] == Copies(n, count);
    hide SentAlong, Copies;
    assert l.queue + [] == l.queue && l.queue[0..] == l.queue;
    assert FirstOf(l.queue, 0) == {};
  }

  /** Requests before the append do not matter to it. */
  lemma SentThenFollows(l: Ledger, l1: Ledger, r: Ledger, n: nat, landed: bool, k: nat, count: nat)
    requires OnlySent(l, l1, n) && |l1.tried| <= |l.tried| + count
    requires Follows(l1, r, n, landed, k, []) && r.tried == l1.tried
    ensures Follows(l, r, n, landed, k, Copies(n, count))
  {
    FollowsSent(l, l1, n, count);
  }

  /** All attempts of a direct delivery: the log is empty. */
  lemma SendDirect(v: Verdicts, d: Disk, log: seq<Attempt>, l: Ledger, n: nat) returns (r: Ledger)
    requires Holds(l, World(d, log)) && Newest(l, n) && l.queue == []
    ensures var p := l.subs[n]; var log1 := Tried(v, log, p);
      && Holds(r, World(d, log1)) && OnlySent(l, r, n) && Newest(r, n)
      && |r.tried| == |l.tried| + |Attempts(v, log, p, ATTEMPTS)|
      && (Succeeds(v, log, p) ==> Accepted(r, log1, n))
  {
    hide Matches, Accepted, Queue, Attempts, Ascending, Representable, CursorBehind, Tried, Succeeds;
    var p := l.subs[n];
    TriedIsLast(v, log, p);
    r := AttemptsHold(v, l, d, log, n, ATTEMPTS, |Attempts(v, log, p, ATTEMPTS)| - 1);
  }

  lemma EmptyLog(s: State, log: seq<Attempt>, l: Ledger)
    requires Inv(s) && s.records == [] && Holds(l, World(s.disk, log))
    ensures l.queue == []
  {
    hide Indexed, AllWhole, DiskOk, Queue;
    PendingIsQueue(s);
  }

  /** The two ways a batch is delivered, with their traces. */
  lemma DeliverUnfold(v: Verdicts, s: State, log: seq<Attempt>, p: bytes)
    requires Shape(s)
    ensures var f := Deliver(v, s, log, p); var o := WalModel.Append(s, p);
      if s.records != [] then
        if !o.ok then f == Flow(o.state, log, InLog(o.trace, log), false, false)
        else var d := Drain(v, o.state, log, MAX_WAL_DRAIN_PER_TICK);
             f == d.(trace := InLog(o.trace, log) + d.trace)
      else
        var sent := OnDisk(s.disk, Attempts(v, log, p, ATTEMPTS));
        f == if Succeeds(v, log, p) then Flow(s, Tried(v, log, p), sent, true, true)
             else Flow(o.state, Tried(v, log, p), sent + InLog(o.trace, Tried(v, log, p)), o.ok, false)
  {
    hide WalModel.Append, Drain, Attempts, Tried, Succeeds;
  }

  /** A delivery on plain queues: with nothing waiting the batch is exported, and
      put into the log when that fails; otherwise it goes behind what waits, and
      up to 32 heads are exported unless the log refuses it. The exporter took
      charge exactly when the batch was accepted or the log took it. */
  lemma DeliverRefines(v: Verdicts, s: State, log: seq<Attempt>, p: bytes)
    requires Inv(s)
    ensures var f := Deliver(v, s, log, p); var r := WalModel.Append(s, p).state;
      && Inv(f.state) && Inv(r)
      && (f.handed <==> Takes(s, p) || (s.records == [] && Succeeds(v, log, p)))
      && Backlog(Queue(f.state.disk), f.log, f.clean)
         == if s.records == [] then Backlog(if Succeeds(v, log, p) then [] else Queue(r.disk), Tried(v, log, p),
                                            Succeeds(v, log, p))
            else if Takes(s, p) then DrainQueue(v, Queue(r.disk), log, 32)
            else Backlog(Queue(r.disk), log, false)
  {
    hide Indexed, AllWhole, Ascending, Representable, CursorBehind, Drain, Deliver, Tried, Succeeds, WalModel.Append,
      Queue, Takes;
    DeliverUnfold(v, s, log, p);
    AppendTakes(s, p);
    AppendInvAlways(s, p);
    var r := WalModel.Append(s, p).state;
    if s.records == [] {
      PendingIsQueue(s);
      NoneLive();
    } else if Takes(s, p) {
      DrainRefines(v, r, log, MAX_WAL_DRAIN_PER_TICK);
      DrainHands(v, r, log, MAX_WAL_DRAIN_PER_TICK);
    }
  }

  /** A crash at the `i`-th world of a delivery that goes through the log. */
  lemma QueuedHolds(v: Verdicts, s: State, log: seq<Attempt>, l: Ledger, n: nat, i: nat) returns (r: Ledger)
    requires Inv(s) && Holds(l, World(s.disk, log)) && Newest(l, n) && s.records != []
    requires i <= |Deliver(v, s, log, l.subs[n]).trace|
    ensures Holds(r, WorldAt(World(s.disk, log), Deliver(v, s, log, l.subs[n]).trace, i))
    ensures Follows(l, r, n, Lands(v, s, log, l.subs[n], Some(i)), CapTakes(v, s, log, l.subs[n], Some(i)),
                    DeliveryTried(v, s, log, l.subs[n], l.queue, n))
  {
    hide Matches, Queue, Indexed, AllWhole, Ascending, Representable, CursorBehind, Drain, Deliver, WalModel.Append,
      Landed, Evicted, Follows, OnlySent, SentAlong, DrainTried, Copies, Succeeds, AfterAppend;
    var p := l.subs[n];
    var o := WalModel.Append(s, p);
    DeliverUnfold(v, s, log, p);
    r := AppendBooked(s, log, l, n, Some(i));
    var landed, k := Lands(v, s, log, p, Some(i)), CapTakes(v, s, log, p, Some(i));
    var sent := DeliveryTried(v, s, log, p, l.queue, n);
    AfterAppendFollows(l, n, landed, k, sent);
    if i > |o.trace| {
      LateCrash(s, p, i);
      AppendInvAlways(s, p);
      var l1 := r;
      r := DrainHolds(v, o.state, log, MAX_WAL_DRAIN_PER_TICK, l1, i - |o.trace|);
      FollowsLater(l, l1, r, n, landed, k, sent);
    }
  }

  /** The same when nothing was waiting. */
  lemma DirectHolds(v: Verdicts, s: State, log: seq<Attempt>, l: Ledger, n: nat, i: nat) returns (r: Ledger)
    requires Inv(s) && Holds(l, World(s.disk, log)) && Newest(l, n) && s.records == []
    requires i <= |Deliver(v, s, log, l.subs[n]).trace|
    ensures Holds(r, WorldAt(World(s.disk, log), Deliver(v, s, log, l.subs[n]).trace, i))
    ensures Follows(l, r, n, Lands(v, s, log, l.subs[n], Some(i)), CapTakes(v, s, log, l.subs[n], Some(i)),
                    DeliveryTried(v, s, log, l.subs[n], l.queue, n))
  {
    hide Matches, Accepted, Queue, Indexed, AllWhole, Ascending, Representable, CursorBehind, Deliver, WalModel.Append,
      Landed, Evicted, Follows, OnlySent, SentAlong, DrainTried, Copies, Succeeds, AfterAppend, Attempts, Tried;
    var p := l.subs[n];
    var sent := Attempts(v, log, p, ATTEMPTS);
    DeliverUnfold(v, s, log, p);
    EmptyLog(s, log, l);
    NoEffect(s, p);
    if i <= |sent| {
      r := l;
      NothingSent(l, n);
      if i > 0 {
        r := AttemptsHold(v, l, s.disk, log, n, ATTEMPTS, i - 1);
      }
      FollowsSent(l, r, n, |sent|);
    } else {
      var l1 := SendDirect(v, s.disk, log, l, n);
      OnlySentKeeps(l, l1, n);
      r := AppendBooked(s, Tried(v, log, p), l1, n, Some(i - |sent|));
      var landed, k := Lands(v, s, log, p, Some(i)), CapTakes(v, s, log, p, Some(i));
      AfterAppendFollows(l1, n, landed, k, []);
      SentThenFollows(l, l1, r, n, landed, k, |sent|);
    }
  }

  /** A crash at the `i`-th world of a delivery: whatever part of it happened,
      the ledger still balances, and the cap took exactly the batches in the
      segment files it removed. */
  lemma DeliverHolds(v: Verdicts, s: State, log: seq<Attempt>, payload: bytes, l: Ledger, i: nat)
    returns (r: Ledger)
    requires Inv(s) && Holds(l, World(s.disk, log)) && i <= |Deliver(v, s, log, payload).trace|
    ensures Holds(r, WorldAt(World(s.disk, log), Deliver(v, s, log, payload).trace, i))
    ensures Follows(Submit(l, payload), r, |l.subs|, Lands(v, s, log, payload, Some(i)),
                    CapTakes(v, s, log, payload, Some(i)), DeliveryTried(v, s, log, payload, l.queue, |l.subs|))
  {
    hide Matches, Queue, Indexed, AllWhole, Ascending, Representable, CursorBehind, Deliver, Follows, Lands, CapTakes,
      DeliveryTried;
    SubmitMatches(l, Queue(s.disk), log, payload);
    if s.records != [] {
      r := QueuedHolds(v, s, log, Submit(l, payload), |l.subs|, i);
    } else {
      r := DirectHolds(v, s, log, Submit(l, payload), |l.subs|, i);
    }
  }

  /** Where batch `n` of a completed delivery is: with the collector, waiting,
      or gone with the segment the cap took whole. */
  predicate Settled(r: Ledger, log: seq<Attempt>, n: nat, lost: bool) {
    if lost then n in r.evicted else n !in r.evicted && (n in r.queue || Accepted(r, log, n))
  }

  /** After a successful append the batch is in the log, unless the active
      segment has outgrown the cap. */
  lemma AppendSettles(s: State, log: seq<Attempt>, l: Ledger, n: nat)
    requires Inv(s) && Holds(l, World(s.disk, log)) && Newest(l, n) && WalModel.Append(s, l.subs[n]).ok
    ensures var e := WalRuns.Event(WalRuns.Append(l.subs[n]), None); var k := Evicted(Up(s), e);
      && Landed(Up(s), e) && k <= |l.queue| + 1
      && Settled(AfterAppend(l, n, true, k), log, n, LostToCap(s, l.subs[n]))
  {
    hide Matches, Accepted, Indexed, AllWhole, Ascending, Representable, CursorBehind, Recover, WalModel.Append, Live,
      Evicted, WriteSteps, NewEntry;
    var p := l.subs[n];
    var e := WalRuns.Event(WalRuns.Append(p), None);
    var o := WalModel.Append(s, p);
    if Rejected(s, p) {
      RejectedUnchanged(s, p);
    }
    StepRefines(Up(s), e);
    AppendRetention(s, p);
    AppendLiveEnd(s, p);
    var k := Evicted(Up(s), e);
    QueueSize(l, Queue(s.disk), log);
    assert |Queue(o.state.disk)| == |l.queue| + 1 - k;
    var r := AfterAppend(l, n, true, k);
    assert (l.queue + [n])[|l.queue|] == n;
    if LostToCap(s, p) {
      assert n in FirstOf(l.queue + [n], k);
    } else {
      assert r.queue[|r.queue| - 1] == n;
    }
  }

  lemma QueueSize(l: Ledger, q: seq<bytes>, log: seq<Attempt>)
    requires Matches(l, q, log)
    ensures |l.queue| == |q|
  {
  }

  /** The log is empty on disk exactly when the new record went. */
  lemma AppendLiveEnd(s: State, payload: bytes)
    requires Inv(s) && WalModel.Append(s, payload).ok
    ensures var r := WalModel.Append(s, payload).state;
      Inv(r) && (Queue(r.disk) == [] <==> LostToCap(s, payload))
  {
    AppendInvAlways(s, payload);
    OkFits(s, payload);
    AppendRetention(s, payload);
    hide Indexed, AllWhole, Ascending, Representable, CursorBehind, Recover, WalModel.Append, NewEntry, LostToCap, Live;
    var r := WalModel.Append(s, payload).state;
    PendingIsQueue(r);
    if r.records == [] {
      NoneLive();
    } else {
      EndLive(r.records, s, payload);
    }
  }

  lemma OkFits(s: State, payload: bytes)
    requires Shape(s) && WalModel.Append(s, payload).ok
    ensures !Rejected(s, payload) && |payload| < U32_LIMIT
  {
    hide EnforceCap, Written, WriteSteps;
  }

  lemma NoneLive()
    ensures Live([]) == []
  {
  }

  lemma {:induction false} EndLive(es: seq<Entry>, s: State, payload: bytes)
    requires Shape(s) && |payload| < U32_LIMIT && es != [] && es[|es| - 1] == NewEntry(s, payload)
    ensures Live(es) != []
  {
    hide NewEntry;
    NewEntryIntact(s, payload);
    LiveAppend(es[..|es| - 1], NewEntry(s, payload));
    assert es == es[..|es| - 1] + [NewEntry(s, payload)];
  }

  /** A completed delivery. When the exporter says it took charge, the batch is
      with the collector or in the log, except when its append filled the
      active segment beyond the cap. */
  lemma DeliverEnds(v: Verdicts, s: State, log: seq<Attempt>, payload: bytes, l: Ledger)
    returns (r: Ledger)
    requires Inv(s) && Holds(l, World(s.disk, log))
    ensures var f := Deliver(v, s, log, payload); var n := |l.subs|;
      && Inv(f.state) && Holds(r, World(f.state.disk, f.log))
      && Follows(Submit(l, payload), r, n, Lands(v, s, log, payload, None), CapTakes(v, s, log, payload, None),
                 DeliveryTried(v, s, log, payload, l.queue, n))
      && (f.handed ==> Settled(r, f.log, n, Appends(v, s, log, payload) && LostToCap(s, payload)))
  {
    hide Matches, Queue, Indexed, AllWhole, Ascending, Representable, CursorBehind, Deliver, Follows, Lands, CapTakes,
      DeliveryTried, Settled, LostToCap, Succeeds;
    SubmitMatches(l, Queue(s.disk), log, payload);
    if s.records != [] {
      r := QueuedEnds(v, s, log, Submit(l, payload), |l.subs|);
    } else {
      r := DirectEnds(v, s, log, Submit(l, payload), |l.subs|);
    }
  }

  lemma QueuedEnds(v: Verdicts, s: State, log: seq<Attempt>, l: Ledger, n: nat) returns (r: Ledger)
    requires Inv(s) && Holds(l, World(s.disk, log)) && Newest(l, n) && s.records != []
    ensures var p := l.subs[n]; var f := Deliver(v, s, log, p);
      && Inv(f.state) && Holds(r, World(f.state.disk, f.log))
      && Follows(l, r, n, Lands(v, s, log, p, None), CapTakes(v, s, log, p, None),
                 DeliveryTried(v, s, log, p, l.queue, n))
      && (f.handed ==> Settled(r, f.log, n, LostToCap(s, p)))
  {
    hide Matches, Queue, Indexed, AllWhole, Ascending, Representable, CursorBehind, Drain, Deliver, WalModel.Append,
      Landed, Evicted, Follows, OnlySent, SentAlong, DrainTried, Copies, Succeeds, AfterAppend, Accepted, LostToCap;
    var p := l.subs[n];
    var o := WalModel.Append(s, p);
    DeliverUnfold(v, s, log, p);
    var l1 := AppendBooked(s, log, l, n, None);
    var landed, k := Lands(v, s, log, p, None), CapTakes(v, s, log, p, None);
    var sent := DeliveryTried(v, s, log, p, l.queue, n);
    AfterAppendFollows(l, n, landed, k, sent);
    AppendInvAlways(s, p);
    r := l1;
    if o.ok {
      AppendSettles(s, log, l, n);
      r := DrainEnds(v, o.state, log, MAX_WAL_DRAIN_PER_TICK, l1);
      FollowsLater(l, l1, r, n, landed, k, sent);
      if n in l1.queue || Accepted(l1, log, n) {
        assert Safe(l1, log, n);
      }
    }
  }

  lemma AcceptedSettles(l: Ledger, log: seq<Attempt>, n: nat)
    requires Newest(l, n) && Accepted(l, log, n)
    ensures Settled(l, log, n, false)
  {
  }

  lemma DirectEnds(v: Verdicts, s: State, log: seq<Attempt>, l: Ledger, n: nat) returns (r: Ledger)
    requires Inv(s) && Holds(l, World(s.disk, log)) && Newest(l, n) && s.records == []
    ensures var p := l.subs[n]; var f := Deliver(v, s, log, p);
      && Inv(f.state) && Holds(r, World(f.state.disk, f.log))
      && Follows(l, r, n, Lands(v, s, log, p, None), CapTakes(v, s, log, p, None),
                 DeliveryTried(v, s, log, p, l.queue, n))
      && (f.handed ==> Settled(r, f.log, n, !Succeeds(v, log, p) && LostToCap(s, p)))
  {
    var p := l.subs[n];
    hide Matches, Queue, Indexed, AllWhole, Ascending, Representable, CursorBehind, Deliver, WalModel.Append, Landed,
      Evicted, Follows, OnlySent, SentAlong, DrainTried, Copies, Succeeds, AfterAppend, Accepted, LostToCap, Attempts,
      Tried, Settled, Newest, Inv;
    DeliverUnfold(v, s, log, p);
    EmptyLog(s, log, l);
    var l1 := SendDirect(v, s.disk, log, l, n);
    OnlySentKeeps(l, l1, n);
    var k := |Attempts(v, log, p, ATTEMPTS)|;
    if Succeeds(v, log, p) {
      FollowsSent(l, l1, n, k);
      AcceptedSettles(l1, Tried(v, log, p), n);
      r := l1;
    } else {
      r := DirectQueued(v, s, Tried(v, log, p), l, l1, n, k);
    }
  }

  /** The collector did not take it. */
  lemma DirectQueued(v: Verdicts, s: State, log1: seq<Attempt>, l: Ledger, l1: Ledger, n: nat, k: nat)
    returns (r: Ledger)
    requires Inv(s) && Holds(l1, World(s.disk, log1)) && Newest(l1, n)
    requires OnlySent(l, l1, n) && |l1.tried| <= |l.tried| + k
    ensures var o := WalModel.Append(s, l1.subs[n]); var e := WalRuns.Event(WalRuns.Append(l1.subs[n]), None);
      && Inv(o.state) && Holds(r, World(o.state.disk, log1))
      && Follows(l, r, n, Landed(Up(s), e), Evicted(Up(s), e), Copies(n, k))
      && (o.ok ==> Settled(r, log1, n, LostToCap(s, l1.subs[n])))
  {
    var p := l1.subs[n];
    hide Matches, Queue, Indexed, AllWhole, Ascending, Representable, CursorBehind, WalModel.Append, Landed, Evicted,
      Follows, OnlySent, SentAlong, Copies, AfterAppend, LostToCap, Settled, Newest;
    var e := WalRuns.Event(WalRuns.Append(p), None);
    r := AppendBooked(s, log1, l1, n, None);
    AfterAppendFollows(l1, n, Landed(Up(s), e), Evicted(Up(s), e), []);
    SentThenFollows(l, l1, r, n, Landed(Up(s), e), Evicted(Up(s), e), k);
    AppendInvAlways(s, p);
    if WalModel.Append(s, p).ok {
      AppendSettles(s, log1, l1, n);
    }
  }

  // ---- Backlog ----

  lemma AcceptedAtOnce(v: Verdicts, log: seq<Attempt>, p: bytes)
    requires AcceptingFrom(v, |log|)
    ensures Succeeds(v, log, p) && Tried(v, log, p) == log + [Attempt(p, true)]
  {
    assert v(|log|);
  }

  /** An accepting collector: each of the `n` turns takes one head off. */
  lemma {:induction false} DrainPace(v: Verdicts, s: State, log: seq<Attempt>, n: nat)
    requires Inv(s) && AcceptingFrom(v, |log|)
    ensures var f := Drain(v, s, log, n);
      && Inv(f.state) && f.clean && |f.log| >= |log|
      && |f.state.records| <= (if |s.records| > n then |s.records| - n else 0)
    decreases n
  {
    hide Indexed, AllWhole, Ascending, Representable, CursorBehind, Drain, Tried, Succeeds, Frame.Intact, HeadOf,
      SkipDamaged, WalModel.Ack, Queue;
    DrainNothing(v, s, log);
    if n > 0 {
      DrainUnfold(v, s, log, n);
      HeadIsFront(s);
      SkipShrinks(s);
      var head := SkipDamaged(s);
      if head.records != [] {
        AcceptedAtOnce(v, log, Queue(s.disk)[0]);
        AckHead(head);
        AckShrinks(head);
        DrainPace(v, AckFirst(head).state, Tried(v, log, Queue(s.disk)[0]), n - 1);
      }
    }
  }

  lemma {:induction false} SkipShrinks(s: State)
    ensures |SkipDamaged(s).records| <= |s.records|
    decreases |s.records|
  {
    if s.records != [] {
      SkipShrinks(s.(records := s.records[1..]));
    }
  }

  lemma AckShrinks(r: State)
    requires Shape(r) && r.records != []
    ensures |AckFirst(r).state.records| == |r.records| - 1
  {
  }

  /** The pace, exactly: with an accepting collector a tick takes 31 off the
      backlog net of its own batch, and all of a smaller one, if and only if the
      log does not refuse that batch (short of segment numbers running out). A
      refused batch stops everything: nothing is sent and nothing changes. */
  lemma TickPace(v: Verdicts, s: State, log: seq<Attempt>, payload: bytes)
    requires Inv(s) && AcceptingFrom(v, |log|)
    ensures var f := Deliver(v, s, log, payload); var n := |s.records|;
      var pace := |f.state.records| <= n - Min(n, MAX_WAL_DRAIN_PER_TICK - 1);
      && Inv(f.state) && |f.log| >= |log|
      && f.state.maxBytes == s.maxBytes && f.state.active <= s.active + 2
      && (f.handed <==> s.records == [] || Takes(s, payload))
      && (f.handed ==> f.clean && pace)
      && (!f.handed ==> f.log == log)
      && (s.records != [] && Rejected(s, payload) ==> f.state == s)
      && (s.records != [] && s.active + 2 < U64_LIMIT ==> (pace <==> !Rejected(s, payload)))
  {
    hide Indexed, AllWhole, Ascending, Representable, CursorBehind, Drain, Deliver, Tried, Succeeds, WalModel.Append,
      MustRoll;
    DeliverUnfold(v, s, log, payload);
    if s.records == [] {
      AcceptedAtOnce(v, log, payload);
      return;
    }
    var o := WalModel.Append(s, payload);
    AppendTakes(s, payload);
    AppendInvAlways(s, payload);
    if Rejected(s, payload) {
      RejectedUnchanged(s, payload);
    } else {
      AppendGrowsByOne(s, payload);
    }
    if o.ok {
      DrainPace(v, o.state, log, MAX_WAL_DRAIN_PER_TICK);
      DrainHands(v, o.state, log, MAX_WAL_DRAIN_PER_TICK);
      DrainNumbers(v, o.state, log, MAX_WAL_DRAIN_PER_TICK);
    }
  }

  /** Draining opens no segments. */
  lemma {:induction false} DrainNumbers(v: Verdicts, s: State, log: seq<Attempt>, n: nat)
    requires Shape(s)
    ensures var r := Drain(v, s, log, n).state; r.maxBytes == s.maxBytes && r.active == s.active
    decreases n
  {
    hide Succeeds, Tried, Attempts, SkipDamaged, HeadOf, DropAcked, DropTrace, Ascending;
    SkipShape(s);
    SkipNumbers(s);
    var r := SkipDamaged(s);
    if n > 0 && HeadOf(r).Head? && Succeeds(v, log, HeadOf(r).payload) {
      var h := HeadOf(r);
      AckShape(r, h.segment, h.offset);
      DrainNumbers(v, WalModel.Ack(r, h.segment, h.offset).state, Tried(v, log, h.payload), n - 1);
    }
  }

  lemma {:induction false} SkipNumbers(s: State)
    ensures SkipDamaged(s).maxBytes == s.maxBytes && SkipDamaged(s).active == s.active
    decreases |s.records|
  {
    if s.records != [] {
      SkipNumbers(s.(records := s.records[1..]));
    }
  }

  lemma DrainHands(v: Verdicts, s: State, log: seq<Attempt>, n: nat)
    requires Shape(s)
    ensures Drain(v, s, log, n).handed
  {
  }

  lemma AppendGrowsByOne(s: State, payload: bytes)
    requires Inv(s) && !Rejected(s, payload)
    ensures |WalModel.Append(s, payload).state.records| <= |s.records| + 1
  {
    hide Indexed, AllWhole, Ascending, Representable, CursorBehind, Recover;
    AppendKeeps(s, payload);
  }

  /** The state after a number of ticks. */
  function Ticks(v: Verdicts, s: State, log: seq<Attempt>, payloads: seq<bytes>): Flow
    requires Shape(s)
    decreases |payloads|
  {
    if payloads == [] then Flow(s, log, [], true, true)
    else
      var f := Deliver(v, s, log, payloads[0]);
      DeliverShape(v, s, log, payloads[0]);
      Ticks(v, f.state, f.log, payloads[1..])
  }

  lemma DeliverShape(v: Verdicts, s: State, log: seq<Attempt>, p: bytes)
    requires Shape(s)
    ensures Shape(Deliver(v, s, log, p).state)
  {
    hide Drain;
    if s.records != [] && WalModel.Append(s, p).ok {
      DrainShape(v, WalModel.Append(s, p).state, log, MAX_WAL_DRAIN_PER_TICK);
    }
  }

  lemma {:induction false} DrainShape(v: Verdicts, s: State, log: seq<Attempt>, n: nat)
    requires Shape(s)
    ensures Shape(Drain(v, s, log, n).state)
    decreases n
  {
    hide Succeeds, Tried, Attempts, WalModel.Ack, SkipDamaged, HeadOf;
    SkipShape(s);
    var r := SkipDamaged(s);
    if n > 0 && HeadOf(r).Head? && Succeeds(v, log, HeadOf(r).payload) {
      AckShape(r, HeadOf(r).segment, HeadOf(r).offset);
      DrainShape(v, WalModel.Ack(r, HeadOf(r).segment, HeadOf(r).offset).state, Tried(v, log, HeadOf(r).payload),
          n - 1);
    }
  }

  /** A batch that no log of this budget refuses for its size. */
  predicate SizeFits(maxBytes: nat, payload: bytes) {
    |payload| < U32_LIMIT && HEADER_BYTES + |payload| <= maxBytes
  }

  /** Any backlog is gone after one tick per 31 of its records, as long as the
      batches fit the budget and there are segment numbers left. */
  lemma {:induction false} BacklogDrains(v: Verdicts, s: State, log: seq<Attempt>, payloads: seq<bytes>)
    requires Inv(s) && AcceptingFrom(v, |log|)
    requires forall p :: p in payloads ==> SizeFits(s.maxBytes, p)
    requires s.active + 2 * |payloads| < U64_LIMIT
    ensures var f := Ticks(v, s, log, payloads);
      && Inv(f.state) && |f.log| >= |log|
      && |f.state.records| <= |s.records| - Min(|s.records|, (MAX_WAL_DRAIN_PER_TICK - 1) * |payloads|)
    decreases |payloads|
  {
    hide Indexed, AllWhole, DiskOk, Deliver, WalModel.Append, MustRoll, LostToCap;
    if payloads != [] {
      assert SizeFits(s.maxBytes, payloads[0]);
      TickPace(v, s, log, payloads[0]);
      var f := Deliver(v, s, log, payloads[0]);
      BacklogDrains(v, f.state, f.log, payloads[1..]);
    }
  }

  /** With nothing waiting a batch goes straight to the collector. */
  lemma DirectWhenEmpty(v: Verdicts, s: State, log: seq<Attempt>, payload: bytes)
    requires Shape(s) && s.records == [] && AcceptingFrom(v, |log|)
    ensures var f := Deliver(v, s, log, payload);
      f.state == s && f.log == log + [Attempt(payload, true)] && f.handed && f.clean
  {
    hide Succeeds, Tried, Attempts, WalModel.Append, Drain;
    AcceptedAtOnce(v, log, payload);
  }

  /** After enough ticks direct export resumes. */
  lemma DirectResumes(v: Verdicts, s: State, log: seq<Attempt>, payloads: seq<bytes>, next: bytes)
    requires Inv(s) && AcceptingFrom(v, |log|)
    requires forall p :: p in payloads ==> SizeFits(s.maxBytes, p)
    requires s.active + 2 * |payloads| < U64_LIMIT
    requires (MAX_WAL_DRAIN_PER_TICK - 1) * |payloads| >= |s.records|
    ensures var r := Ticks(v, s, log, payloads);
      && Inv(r.state) && r.state.records == []
      && var f := Deliver(v, r.state, r.log, next);
         f.state == r.state && f.log == r.log + [Attempt(next, true)] && f.handed && f.clean
  {
    BacklogDrains(v, s, log, payloads);
    var r := Ticks(v, s, log, payloads);
    hide Ticks, Deliver, Inv, SizeFits, Ascending;
    DirectWhenEmpty(v, r.state, r.log, next);
  }

  // ---- A backlog that never drains ----

  function Repeat(payload: bytes, k: nat): (ps: seq<bytes>)
    ensures |ps| == k
  {
    if k == 0 then [] else [payload] + Repeat(payload, k - 1)
  }

  /** A batch the log refuses, submitted again and again behind a backlog:
      nothing is ever sent, whatever the collector would say. */
  lemma {:induction false} RefusedStalls(v: Verdicts, s: State, log: seq<Attempt>, payload: bytes, k: nat)
    requires Shape(s) && s.records != [] && Rejected(s, payload)
    ensures var f := Ticks(v, s, log, Repeat(payload, k)); f.state == s && f.log == log
    decreases k
  {
    hide Ascending, WalModel.Append, Drain, Rejected, Deliver;
    if k > 0 {
      DeliverUnfold(v, s, log, payload);
      RejectedUnchanged(s, payload);
      RefusedStalls(v, s, log, payload, k - 1);
    }
  }

  /** It happens: a 20-byte log holding one record, and any batch of more than
      12 bytes. */
  lemma StalledLog(v: Verdicts, log: seq<Attempt>, p: bytes, big: bytes, k: nat)
    requires |p| == 4 && |big| > 12
    ensures var s := WalModel.Append(SmallLog(), p).state;
      && Inv(s) && |s.records| == 1
      && var f := Ticks(v, s, log, Repeat(big, k)); f.state == s && f.log == log
  {
    hide Indexed, AllWhole, DiskOk, WalModel.Append, Ticks, Repeat, MustRoll;
    AppendCanLoseItsRecord(p, p);
    AppendTakes(SmallLog(), p);
    RefusedStalls(v, WalModel.Append(SmallLog(), p).state, log, big, k);
  }
}
