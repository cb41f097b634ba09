/** The export path keeps the ledger: at every world a delivery passes through,
    requests are in order and nothing taken charge of is lost. */
module ExportProofs {
  import opened ByteStrings
  import opened Frames
  import opened WalModel
  import opened WalReplay
  import opened WalRuns
  import opened Export
  import opened Accounts

  predicate Holds(l: Ledger, w: World) {
    DiskOk(w.disk) && Matches(l, Queue(w.disk), w.log)
  }

  function WorldAt(w: World, trace: seq<World>, k: nat): World
    requires k <= |trace|
  {
    if k == 0 then w else trace[k - 1]
  }

  /** Only requests for batch `n` were added. */
  predicate OnlySent(l: Ledger, r: Ledger, n: nat) {
    && r == l.(tried := r.tried)
    && l.tried <= r.tried
    && r.tried == l.tried + Copies(n, |r.tried| - |l.tried|)
  }

  /** The requests added are the first ones of `ids`. */
  predicate SentAlong(l: Ledger, r: Ledger, ids: seq<nat>) {
    l.tried <= r.tried <= l.tried + ids
  }

  /** The numbers of the batches a drain sends requests for, one per attempt.
      `ids` number what the log holds. */
  function DrainTried(v: Verdicts, s: State, log: seq<Attempt>, n: nat, ids: seq<nat>): seq<nat>
    requires Shape(s)
    decreases n
  {
    var r := SkipDamaged(s);
    if n == 0 || ids == [] || !HeadOf(r).Head? then []
    else
      var h := HeadOf(r);
      SkipShape(s);
      AckShape(r, h.segment, h.offset);
      Copies(ids[0], |Attempts(v, log, h.payload, ATTEMPTS)|)
      + if !Succeeds(v, log, h.payload) then []
        else DrainTried(v, WalModel.Ack(r, h.segment, h.offset).state, Tried(v, log, h.payload), n - 1, ids[1..])
  }

  /** The `i`-th attempt of exporting batch `n`. */
  lemma {:induction false} AttemptsHold(v: Verdicts, l: Ledger, d: Disk, log: seq<Attempt>, n: nat, tries: nat, i: nat)
    returns (r: Ledger)
    requires Holds(l, World(d, log)) && MaySend(l, n) && i < |Attempts(v, log, l.subs[n], tries)|
    ensures var a := Attempts(v, log, l.subs[n], tries)[i];
      && Holds(r, World(d, a)) && OnlySent(l, r, n) && MaySend(r, n) && |r.tried| == |l.tried| + i + 1
      && a != [] && (a[|a| - 1].reported ==> Accepted(r, a, n))
    decreases tries
  {
    hide Names, InOrder, AllSafe, Ascending, Representable, CursorBehind, Accepted, Queue;
    var p := l.subs[n];
    var l1 := Sent(l, n);
    var log1 := log + [Attempt(p, v(|log|))];
    SendMatches(l, Queue(d), log, n, v(|log|));
    SentOnce(l, n);
    if i == 0 {
      r := l1;
    } else {
      r := AttemptsHold(v, l1, d, log1, n, tries - 1, i - 1);
      SentMore(l, l1, r, n);
    }
  }

  lemma SentOnce(l: Ledger, n: nat)
    ensures OnlySent(l, Sent(l, n), n)
  {
    assert [n] == Copies(n, 1);
  }

  lemma NothingSent(l: Ledger, n: nat)
    ensures OnlySent(l, l, n)
  {
  }

  lemma SentMore(l: Ledger, m: Ledger, r: Ledger, n: nat)
    requires OnlySent(l, m, n) && OnlySent(m, r, n)
    ensures OnlySent(l, r, n)
  {
    var a, b := |m.tried| - |l.tried|, |r.tried| - |m.tried|;
    assert Copies(n, a) + Copies(n, b) == Copies(n, a + b);
    Associative(l.tried, Copies(n, a), Copies(n, b));
  }

  /** The head of the log may be sent. */
  lemma HeadMaySend(l: Ledger, q: seq<bytes>, log: seq<Attempt>)
    requires Matches(l, q, log) && q != []
    ensures l.queue != [] && MaySend(l, l.queue[0]) && l.subs[l.queue[0]] == q[0]
  {
    forall j | 0 <= j < |l.queue| ensures l.queue[0] <= l.queue[j] {
    }
  }

  function AckFirst(r: State): Outcome
    requires Shape(r) && r.records != []
  {
    WalModel.Ack(r, r.records[0].segment, r.records[0].offset)
  }

  /** The head `next` returns is the front of the queue. */
  lemma HeadIsFront(s: State)
    requires Inv(s)
    ensures var r := SkipDamaged(s);
      && Inv(r) && r.disk == s.disk && Queue(r.disk) == Queue(s.disk)
      && if r.records == [] then Queue(s.disk) == [] && HeadOf(r) == Nothing
         else Queue(s.disk) != [] && r.records[0].frame.Intact() && r.records[0].frame.payload == Queue(s.disk)[0]
              && HeadOf(r) == Head(r.records[0].segment, r.records[0].offset, Queue(s.disk)[0])
  {
    hide Indexed, AllWhole, DiskOk, Recover, Frame.Intact, ReadEntry;
    SkipKeeps(s);
    NextDelivers(s);
    var r := SkipDamaged(s);
    if r.records != [] {
      HeadReadable(r);
    }
  }

  /** Acknowledging it takes it off. */
  lemma AckHead(r: State)
    requires Inv(r) && r.records != [] && r.records[0].frame.Intact() && Queue(r.disk) != []
    ensures var o := AckFirst(r);
      && Inv(o.state) && o.trace != [] && Queue(o.state.disk) == Queue(r.disk)[1..]
      && forall i :: 0 <= i < |o.trace| ==> DiskOk(o.trace[i]) && Queue(o.trace[i]) == Queue(r.disk)[1..]
  {
    hide Indexed, AllWhole, DiskOk, Queue, WalModel.Ack, Frame.Intact;
    WalRuns.AckQueue(r, r.records[0].segment, r.records[0].offset);
    IntactDelivered(r.records[0].frame);
  }

  lemma IntactDelivered(f: Frame)
    requires f.Intact()
    ensures Delivered(f) == [f.payload]
  {
  }

  /** One head of the drain, with its trace. */
  lemma DrainUnfold(v: Verdicts, s: State, log: seq<Attempt>, n: nat)
    requires Inv(s) && n > 0
    ensures var r := SkipDamaged(s); var f := Drain(v, s, log, n);
      && Shape(r)
      && if r.records == [] then f == Flow(r, log, [], true, true)
         else
           && Queue(s.disk) != [] && Shape(AckFirst(r).state)
           && var p := Queue(s.disk)[0];
              var sent := OnDisk(s.disk, Attempts(v, log, p, ATTEMPTS));
              var rest := Drain(v, AckFirst(r).state, Tried(v, log, p), n - 1);
              f == if !Succeeds(v, log, p) then Flow(r, Tried(v, log, p), sent, true, false)
                   else Flow(rest.state, rest.log, sent + InLog(AckFirst(r).trace, Tried(v, log, p)) + rest.trace,
                             true, rest.clean)
  {
    hide Indexed, AllWhole, DiskOk, Queue, WalModel.Ack, Frame.Intact, Attempts, Succeeds, Tried, HeadOf, SkipDamaged;
    HeadIsFront(s);
    var r := SkipDamaged(s);
    if r.records != [] {
      AckHead(r);
    }
  }

  /** All attempts of exporting the front of the queue, and what they change. */
  lemma SendFront(v: Verdicts, d: Disk, log: seq<Attempt>, l: Ledger) returns (r: Ledger)
    requires Holds(l, World(d, log)) && Queue(d) != []
    ensures l.queue != [] && l.queue[0] < |l.subs| && l.subs[l.queue[0]] == Queue(d)[0] && MaySend(l, l.queue[0])
    ensures var p := Queue(d)[0]; var log1 := Tried(v, log, p);
      && Holds(r, World(d, log1)) && OnlySent(l, r, l.queue[0]) && log <= log1
      && |r.tried| == |l.tried| + |Attempts(v, log, p, ATTEMPTS)|
      && (Succeeds(v, log, p) ==> Accepted(r, log1, r.queue[0]))
  {
    hide Names, InOrder, AllSafe, Accepted, Queue, MaySend, Attempts, Ascending, Representable, CursorBehind, Tried,
      Succeeds;
    HeadMaySend(l, Queue(d), log);
    var p := Queue(d)[0];
    assert l.queue[0] < |l.subs| by { HeadKnown(l, Queue(d)); }
    TriedIsLast(v, log, p);
    var n := |Attempts(v, log, p, ATTEMPTS)|;
    r := AttemptsHold(v, l, d, log, l.queue[0], ATTEMPTS, n - 1);
    AttemptsExtend(v, log, p, ATTEMPTS, n - 1);
  }

  lemma HeadKnown(l: Ledger, q: seq<bytes>)
    requires Names(l, l.queue, q) && q != []
    ensures l.queue[0] < |l.subs|
  {
  }

  /** A plain queue, the requests sent so far, and whether nothing failed. */
  datatype Backlog = Backlog(queue: seq<bytes>, log: seq<Attempt>, clean: bool)

  /** The drain on a plain queue: export the front, take it off, go on until
      `n` are gone, none is left or one fails. */
  function DrainQueue(v: Verdicts, q: seq<bytes>, log: seq<Attempt>, n: nat): Backlog
    decreases n
  {
    if n == 0 || q == [] then Backlog(q, log, true)
    else if !Succeeds(v, log, q[0]) then Backlog(q, Tried(v, log, q[0]), false)
    else DrainQueue(v, q[1..], Tried(v, log, q[0]), n - 1)
  }

  /** Draining the log is draining the queue it holds. */
  lemma {:induction false} DrainRefines(v: Verdicts, s: State, log: seq<Attempt>, n: nat)
    requires Inv(s)
    ensures var f := Drain(v, s, log, n);
      Inv(f.state) && Backlog(Queue(f.state.disk), f.log, f.clean) == DrainQueue(v, Queue(s.disk), log, n)
    decreases n
  {
    hide Indexed, AllWhole, Ascending, Representable, CursorBehind, Drain, Tried, Succeeds, Frame.Intact, HeadOf,
      SkipDamaged, WalModel.Ack, Queue;
    DrainNothing(v, s, log);
    if n > 0 {
      DrainUnfold(v, s, log, n);
      HeadIsFront(s);
      var head := SkipDamaged(s);
      if head.records != [] {
        AckHead(head);
        DrainRefines(v, AckFirst(head).state, Tried(v, log, Queue(s.disk)[0]), n - 1);
      }
    }
  }

  /** Attempts add to what was sent. */
  lemma {:induction false} AttemptsExtend(v: Verdicts, log: seq<Attempt>, p: bytes, tries: nat, i: nat)
    requires i < |Attempts(v, log, p, tries)|
    ensures log <= Attempts(v, log, p, tries)[i]
    decreases tries
  {
    if i > 0 {
      AttemptsExtend(v, log + [Attempt(p, v(|log|))], p, tries - 1, i - 1);
    }
  }

  /** The first turn of a drain that finds a head, as requests. */
  lemma TriedUnfold(v: Verdicts, s: State, log: seq<Attempt>, n: nat, ids: seq<nat>)
    requires Inv(s) && n > 0 && ids != [] && SkipDamaged(s).records != []
    ensures Queue(s.disk) != [] && Shape(SkipDamaged(s)) && Shape(AckFirst(SkipDamaged(s)).state)
    ensures var p := Queue(s.disk)[0];
      DrainTried(v, s, log, n, ids) == Copies(ids[0], |Attempts(v, log, p, ATTEMPTS)|)
        + if !Succeeds(v, log, p) then []
          else DrainTried(v, AckFirst(SkipDamaged(s)).state, Tried(v, log, p), n - 1, ids[1..])
  {
    hide Indexed, AllWhole, DiskOk, Queue, WalModel.Ack, Frame.Intact, Attempts, Succeeds, Tried, HeadOf, SkipDamaged;
    HeadIsFront(s);
    AckHead(SkipDamaged(s));
  }

  /** Some of the attempts for the head. */
  lemma AlongFirst(l: Ledger, r: Ledger, n: nat, k: nat, rest: seq<nat>)
    requires OnlySent(l, r, n) && |r.tried| <= |l.tried| + k
    ensures SentAlong(l, r, Copies(n, k) + rest)
  {
    var j := |r.tried| - |l.tried|;
    assert Copies(n, k) + rest == Copies(n, j) + (Copies(n, k)[j..] + rest);
    Associative(l.tried, Copies(n, j), Copies(n, k)[j..] + rest);
  }

  /** All of them, and then some of the rest. */
  lemma AlongRest(l: Ledger, m: Ledger, r: Ledger, n: nat, k: nat, rest: seq<nat>)
    requires OnlySent(l, m, n) && |m.tried| == |l.tried| + k && SentAlong(m, r, rest)
    ensures SentAlong(l, r, Copies(n, k) + rest)
  {
    Associative(l.tried, Copies(n, k), rest);
  }

  lemma AlongNone(l: Ledger, ids: seq<nat>)
    ensures SentAlong(l, l, ids)
  {
  }

  /** Draining, at its `i`-th world. */
  lemma {:induction false} DrainHolds(v: Verdicts, s: State, log: seq<Attempt>, n: nat, l: Ledger, i: nat)
    returns (r: Ledger)
    requires Inv(s) && Holds(l, World(s.disk, log)) && i <= |Drain(v, s, log, n).trace|
    ensures Holds(r, WorldAt(World(s.disk, log), Drain(v, s, log, n).trace, i))
    ensures r == l.(tried := r.tried, queue := r.queue) && IsSuffix(r.queue, l.queue)
    ensures SentAlong(l, r, DrainTried(v, s, log, n, l.queue))
    decreases n
  {
    hide Names, InOrder, AllSafe, Accepted, Queue, MaySend, Attempts, Drain, Indexed, AllWhole, Ascending,
      Representable, CursorBehind, Tried, Succeeds, Frame.Intact, HeadOf, SkipDamaged, WalModel.Ack, DrainTried, Copies,
      OnlySent, SentAlong;
    AlongNone(l, DrainTried(v, s, log, n, l.queue));
    if i == 0 {
      return l;
    }
    if n == 0 {
      DrainNone(v, s, log);
      return l;
    }
    DrainUnfold(v, s, log, n);
    HeadIsFront(s);
    var head := SkipDamaged(s);
    if head.records == [] {
      return l;
    }
    AckHead(head);
    var l1 := SendFront(v, s.disk, log, l);
    OnlySentKeeps(l, l1, l.queue[0]);
    TriedUnfold(v, s, log, n, l.queue);
    var p := Queue(s.disk)[0];
    var log1 := Tried(v, log, p);
    var k := |Attempts(v, log, p, ATTEMPTS)|;
    var rest := if !Succeeds(v, log, p) then [] else DrainTried(v, AckFirst(head).state, log1, n - 1, l.queue[1..]);
    if i <= k {
      r := AttemptsHold(v, l, s.disk, log, l.queue[0], ATTEMPTS, i - 1);
      OnlySentKeeps(l, r, l.queue[0]);
      AlongFirst(l, r, l.queue[0], k, rest);
      return;
    }
    AckMatches(l1, Queue(s.disk), log1);
    if i <= k + |AckFirst(head).trace| {
      r := Acknowledge(l1);
      AlongFirst(l, l1, l.queue[0], k, rest);
      AlongSame(l, l1, r, Copies(l.queue[0], k) + rest);
    } else {
      r := DrainHolds(v, AckFirst(head).state, log1, n - 1, Acknowledge(l1), i - k - |AckFirst(head).trace|);
      AlongAck(l1, r, rest);
      AlongRest(l, l1, r, l.queue[0], k, rest);
    }
  }

  lemma OnlySentKeeps(l: Ledger, r: Ledger, n: nat)
    requires OnlySent(l, r, n)
    ensures r == l.(tried := r.tried) && l.tried <= r.tried
  {
  }

  lemma AlongSame(l: Ledger, m: Ledger, r: Ledger, ids: seq<nat>)
    requires SentAlong(l, m, ids) && r.tried == m.tried
    ensures SentAlong(l, r, ids)
  {
  }

  lemma AlongAck(l: Ledger, r: Ledger, ids: seq<nat>)
    requires l.queue != [] && SentAlong(Acknowledge(l), r, ids)
    ensures SentAlong(l, r, ids)
  {
  }

  lemma DrainNone(v: Verdicts, s: State, log: seq<Attempt>)
    requires Shape(s)
    ensures Drain(v, s, log, 0).trace == []
  {
  }

  lemma TriedIsLast(v: Verdicts, log: seq<Attempt>, p: bytes)
    ensures var a := Attempts(v, log, p, ATTEMPTS);
      a != [] && Tried(v, log, p) == a[|a| - 1]
    ensures Tried(v, log, p) != [] ==>
      (Succeeds(v, log, p) <==> Tried(v, log, p)[|Tried(v, log, p)| - 1].reported)
  {
  }

  /** Draining to its end. */
  lemma {:induction false} DrainEnds(v: Verdicts, s: State, log: seq<Attempt>, n: nat, l: Ledger)
    returns (r: Ledger)
    requires Inv(s) && Holds(l, World(s.disk, log))
    ensures var f := Drain(v, s, log, n);
      && Inv(f.state) && f.handed && Holds(r, World(f.state.disk, f.log))
      && r == l.(tried := r.tried, queue := r.queue) && IsSuffix(r.queue, l.queue)
    ensures SentAlong(l, r, DrainTried(v, s, log, n, l.queue))
    ensures forall m :: Safe(l, log, m) ==> Safe(r, Drain(v, s, log, n).log, m)
    decreases n
  {
    hide Names, InOrder, AllSafe, Accepted, Queue, MaySend, Attempts, Drain, Indexed, AllWhole, Ascending,
      Representable, CursorBehind, Tried, Succeeds, Frame.Intact, HeadOf, SkipDamaged, WalModel.Ack, DrainTried, Copies,
      OnlySent, SentAlong;
    AlongNone(l, DrainTried(v, s, log, n, l.queue));
    DrainNothing(v, s, log);
    if n == 0 {
      return l;
    }
    DrainUnfold(v, s, log, n);
    HeadIsFront(s);
    var head := SkipDamaged(s);
    if head.records == [] {
      return l;
    }
    var l1 := SendFront(v, s.disk, log, l);
    OnlySentKeeps(l, l1, l.queue[0]);
    TriedUnfold(v, s, log, n, l.queue);
    var p := Queue(s.disk)[0];
    var log1 := Tried(v, log, p);
    var k := |Attempts(v, log, p, ATTEMPTS)|;
    forall m | Safe(l, log, m) ensures Safe(l1, log1, m) {
      SafeLater(l, l1, log, log1, m);
    }
    if !Succeeds(v, log, p) {
      AlongFirst(l, l1, l.queue[0], k, []);
      return l1;
    }
    AckHead(head);
    AckMatches(l1, Queue(s.disk), log1);
    var l2 := Acknowledge(l1);
    forall m | Safe(l1, log1, m) ensures Safe(l2, log1, m) {
      SafeAcknowledged(l1, log1, m);
    }
    r := DrainEnds(v, AckFirst(head).state, log1, n - 1, l2);
    var rest := DrainTried(v, AckFirst(head).state, log1, n - 1, l.queue[1..]);
    AlongAck(l1, r, rest);
    AlongRest(l, l1, r, l.queue[0], k, rest);
  }

  lemma DrainNothing(v: Verdicts, s: State, log: seq<Attempt>)
    requires Shape(s)
    ensures Drain(v, s, log, 0) == Flow(s, log, [], true, true)
  {
  }

  /** Being safe only depends on more requests, not fewer. */
  lemma SafeLater(l: Ledger, r: Ledger, log: seq<Attempt>, log1: seq<Attempt>, m: nat)
    requires r == l.(tried := r.tried) && l.tried <= r.tried && log <= log1 && Safe(l, log, m)
    ensures Safe(r, log1, m)
  {
    if Accepted(l, log, m) {
      var j :| 0 <= j < |l.tried| && j < |log| && l.tried[j] == m && log[j].reported;
      assert r.tried[j] == m && log1[j].reported;
    }
  }

  lemma SafeAcknowledged(l: Ledger, log: seq<Attempt>, m: nat)
    requires l.queue != [] && Accepted(l, log, l.queue[0]) && Safe(l, log, m)
    ensures Safe(Acknowledge(l), log, m)
  {
    var r := Acknowledge(l);
    AcceptedKept(l, r, log, l.queue[0]);
    if m in l.queue {
      var i :| 0 <= i < |l.queue| && l.queue[i] == m;
      assert i > 0 ==> r.queue[i - 1] == m;
    } else if Accepted(l, log, m) {
      AcceptedKept(l, r, log, m);
    }
  }
}
