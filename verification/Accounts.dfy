/** Book-keeping for whole runs of the export path: every batch ever submitted
    has a number, and the ledger knows which numbers the log holds, which were
    sent, and which the cap evicted. */
module Accounts {
  import opened ByteStrings
  import opened Export

  /** `queue` are the numbers of the batches in the log, `tried` those of the
      requests, both in order; `evicted` those whose segment file the cap
      removed, `skipped` those damaged on disk; `owed` those that were ever
      durable in the log, or that the exporter said it took charge of. */
  datatype Ledger = Ledger(subs: seq<bytes>, queue: seq<nat>, tried: seq<nat>, evicted: set<nat>, skipped: set<nat>,
                           owed: set<nat>)

  predicate Increasing(ids: seq<nat>) {
    forall i, j :: 0 <= i < j < |ids| ==> ids[i] < ids[j]
  }

  predicate NonDecreasing(ids: seq<nat>) {
    forall i, j :: 0 <= i < j < |ids| ==> ids[i] <= ids[j]
  }

  /** Batch `n` is with the collector, in the log, evicted or damaged. */
  predicate Safe(l: Ledger, log: seq<Attempt>, n: nat) {
    n in l.queue || n in l.evicted || n in l.skipped || Accepted(l, log, n)
  }

  predicate Accepted(l: Ledger, log: seq<Attempt>, n: nat) {
    exists j :: 0 <= j < |l.tried| && j < |log| && l.tried[j] == n && log[j].reported
  }

  /** The numbers name the payloads they are said to name. */
  predicate Names(l: Ledger, ids: seq<nat>, payloads: seq<bytes>) {
    |ids| == |payloads| && forall i :: 0 <= i < |ids| ==> ids[i] < |l.subs| && l.subs[ids[i]] == payloads[i]
  }

  function Payloads(log: seq<Attempt>): (ps: seq<bytes>)
    ensures |ps| == |log| && forall i :: 0 <= i < |log| ==> ps[i] == log[i].payload
  {
    if log == [] then [] else [log[0].payload] + Payloads(log[1..])
  }

  /** Requests never go back before what the log still holds. */
  predicate InOrder(l: Ledger) {
    && Increasing(l.queue) && NonDecreasing(l.tried)
    && (forall i, j :: 0 <= i < |l.tried| && 0 <= j < |l.queue| ==> l.tried[i] <= l.queue[j])
    && OldestFirst(l)
  }

  /** What the cap claimed is older than everything the log holds. */
  predicate OldestFirst(l: Ledger) {
    forall n, j :: n in l.evicted && 0 <= j < |l.queue| ==> n < l.queue[j]
  }

  /** Nothing owed is lost. */
  predicate AllSafe(l: Ledger, log: seq<Attempt>) {
    forall n :: n in l.owed ==> Safe(l, log, n)
  }

  /** What is gone from the log was submitted. */
  predicate KnownGone(l: Ledger) {
    && (forall n :: n in l.evicted ==> n < |l.subs|)
    && (forall n :: n in l.skipped ==> n < |l.subs|)
  }

  predicate Matches(l: Ledger, q: seq<bytes>, log: seq<Attempt>) {
    Names(l, l.queue, q) && Names(l, l.tried, Payloads(log)) && InOrder(l) && AllSafe(l, log) && KnownGone(l)
  }

  // ---- How each effect changes the ledger ----

  function Sent(l: Ledger, n: nat): Ledger {
    l.(tried := l.tried + [n])
  }

  function FirstOf(ids: seq<nat>, k: nat): set<nat> {
    set i | 0 <= i < k && i < |ids| :: ids[i]
  }

  function Copies(n: nat, k: nat): (ids: seq<nat>)
    ensures |ids| == k && forall i :: 0 <= i < k ==> ids[i] == n
  {
    seq(k, _ => n)
  }

  /** The first `k` batches of the log are gone for good. */
  function Evict(l: Ledger, k: nat): Ledger
    requires k <= |l.queue|
  {
    l.(queue := l.queue[k..], evicted := l.evicted + FirstOf(l.queue, k))
  }

  function Enqueue(l: Ledger, n: nat): Ledger {
    l.(queue := l.queue + [n])
  }

  function Acknowledge(l: Ledger): Ledger
    requires l.queue != []
  {
    l.(queue := l.queue[1..])
  }

  /** Of the batches in the log only `left` came through a damage. */
  function Skip(l: Ledger, left: seq<nat>): Ledger {
    l.(queue := left, skipped := l.skipped + set n | n in l.queue && n !in left)
  }

  function Submit(l: Ledger, payload: bytes): Ledger {
    l.(subs := l.subs + [payload])
  }

  function Owe(l: Ledger, n: nat): Ledger {
    l.(owed := l.owed + {n})
  }

  /** An append of batch `n`: its record landed or not, and the cap took the
      first `k` records. */
  function AfterAppend(l: Ledger, n: nat, landed: bool, k: nat): Ledger
    requires k <= |l.queue| + if landed then 1 else 0
  {
    Evict(if landed then Owe(Enqueue(l, n), n) else l, k)
  }

  /** Batch `n` may be sent now: nothing older is still in the log, and
      nothing newer was sent. */
  predicate MaySend(l: Ledger, n: nat) {
    && n < |l.subs|
    && (forall i :: 0 <= i < |l.tried| ==> l.tried[i] <= n)
    && (forall j :: 0 <= j < |l.queue| ==> n <= l.queue[j])
  }

  // ---- Names ----

  lemma NamesKept(l: Ledger, r: Ledger, ids: seq<nat>, ps: seq<bytes>)
    requires Names(l, ids, ps) && l.subs <= r.subs
    ensures Names(r, ids, ps)
  {
  }

  lemma NamesBack(l: Ledger, r: Ledger, ids: seq<nat>, ps: seq<bytes>, n: nat)
    requires Names(l, ids, ps) && r.subs == l.subs && n < |l.subs|
    ensures Names(r, ids + [n], ps + [l.subs[n]])
  {
  }

  lemma NamesDrop(l: Ledger, r: Ledger, ids: seq<nat>, ps: seq<bytes>, k: nat)
    requires Names(l, ids, ps) && r.subs == l.subs && k <= |ids|
    ensures |ids| == |ps| && Names(r, ids[k..], ps[k..])
  {
    assert forall i :: 0 <= i < |ids| - k ==> ids[k..][i] == ids[k + i] && ps[k..][i] == ps[k + i];
  }

  lemma PayloadsAppend(log: seq<Attempt>, a: Attempt)
    ensures Payloads(log + [a]) == Payloads(log) + [a.payload]
  {
  }

  // ---- Nothing owed is lost ----

  lemma AcceptedKept(l: Ledger, r: Ledger, log: seq<Attempt>, n: nat)
    requires Accepted(l, log, n) && r.tried == l.tried
    ensures Accepted(r, log, n)
  {
  }

  lemma AcceptedLater(l: Ledger, r: Ledger, log: seq<Attempt>, log': seq<Attempt>, n: nat)
    requires Accepted(l, log, n) && l.tried <= r.tried && log <= log'
    ensures Accepted(r, log', n)
  {
    var j :| 0 <= j < |l.tried| && j < |log| && l.tried[j] == n && log[j].reported;
    assert r.tried[j] == n && log'[j].reported;
  }

  /** What leaves the log must be safe some other way. */
  lemma SafeStays(l: Ledger, r: Ledger, log: seq<Attempt>, log': seq<Attempt>)
    requires AllSafe(l, log) && l.tried <= r.tried && log <= log'
    requires r.owed <= l.owed && l.evicted <= r.evicted && l.skipped <= r.skipped
    requires forall n :: n in l.queue ==> Safe(r, log', n)
    ensures AllSafe(r, log')
  {
    hide Accepted;
    forall n | n in r.owed ensures Safe(r, log', n) {
      assert Safe(l, log, n);
      if Accepted(l, log, n) {
        AcceptedLater(l, r, log, log', n);
      }
    }
  }

  // ---- Effects ----

  lemma SendOrder(l: Ledger, n: nat)
    requires InOrder(l) && MaySend(l, n)
    ensures InOrder(Sent(l, n)) && MaySend(Sent(l, n), n)
  {
  }

  lemma SendMatches(l: Ledger, q: seq<bytes>, log: seq<Attempt>, n: nat, reported: bool)
    requires Matches(l, q, log) && MaySend(l, n)
    ensures Matches(Sent(l, n), q, log + [Attempt(l.subs[n], reported)]) && MaySend(Sent(l, n), n)
    ensures reported ==> Accepted(Sent(l, n), log + [Attempt(l.subs[n], reported)], n)
  {
    var r, a := Sent(l, n), Attempt(l.subs[n], reported);
    SendOrder(l, n);
    SentReported(l, log, n, a);
    hide InOrder, AllSafe, MaySend, Accepted, Names;
    SafeStays(l, r, log, log + [a]);
    PayloadsAppend(log, a);
    NamesBack(l, r, l.tried, Payloads(log), n);
    NamesKept(l, r, l.queue, q);
  }

  lemma SentReported(l: Ledger, log: seq<Attempt>, n: nat, a: Attempt)
    requires Names(l, l.tried, Payloads(log))
    ensures a.reported ==> Accepted(Sent(l, n), log + [a], n)
  {
    assert Sent(l, n).tried[|log|] == n && (log + [a])[|log|] == a;
  }

  lemma EvictedSafe(l: Ledger, log: seq<Attempt>, k: nat)
    requires k <= |l.queue|
    ensures forall n :: n in l.queue ==> Safe(Evict(l, k), log, n)
  {
    var r := Evict(l, k);
    forall n | n in l.queue ensures Safe(r, log, n) {
      var i :| 0 <= i < |l.queue| && l.queue[i] == n;
      if i >= k {
        assert r.queue[i - k] == n;
      }
    }
  }

  lemma EvictedOrder(l: Ledger, k: nat)
    requires k <= |l.queue| && InOrder(l) && KnownGone(l)
    requires forall i :: 0 <= i < |l.queue| ==> l.queue[i] < |l.subs|
    ensures InOrder(Evict(l, k)) && KnownGone(Evict(l, k))
  {
  }

  lemma EvictMatches(l: Ledger, q: seq<bytes>, log: seq<Attempt>, k: nat)
    requires Matches(l, q, log) && k <= |l.queue|
    ensures Matches(Evict(l, k), q[k..], log)
  {
    var r := Evict(l, k);
    EvictedSafe(l, log, k);
    EvictedOrder(l, k);
    hide InOrder, AllSafe, Names, KnownGone, Safe;
    SafeStays(l, r, log, log);
    NamesDrop(l, r, l.queue, q, k);
    NamesKept(l, r, l.tried, Payloads(log));
  }

  lemma EnqueuedSafe(l: Ledger, log: seq<Attempt>, n: nat)
    ensures forall m :: m in l.queue ==> Safe(Enqueue(l, n), log, m)
  {
    var r := Enqueue(l, n);
    forall m | m in l.queue ensures Safe(r, log, m) {
      var i :| 0 <= i < |l.queue| && l.queue[i] == m;
      assert r.queue[i] == m;
    }
  }

  lemma EnqueuedOrder(l: Ledger, n: nat)
    requires InOrder(l)
    requires forall i :: 0 <= i < |l.tried| ==> l.tried[i] <= n
    requires forall j :: 0 <= j < |l.queue| ==> l.queue[j] < n
    requires forall e :: e in l.evicted ==> e < n
    ensures InOrder(Enqueue(l, n))
  {
  }

  lemma EnqueueMatches(l: Ledger, q: seq<bytes>, log: seq<Attempt>, n: nat)
    requires Matches(l, q, log) && n < |l.subs|
    requires forall i :: 0 <= i < |l.tried| ==> l.tried[i] <= n
    requires forall j :: 0 <= j < |l.queue| ==> l.queue[j] < n
    requires forall e :: e in l.evicted ==> e < n
    ensures Matches(Enqueue(l, n), q + [l.subs[n]], log)
  {
    var r := Enqueue(l, n);
    EnqueuedSafe(l, log, n);
    EnqueuedOrder(l, n);
    hide InOrder, AllSafe, Names, Safe;
    SafeStays(l, r, log, log);
    NamesBack(l, r, l.queue, q, n);
    NamesKept(l, r, l.tried, Payloads(log));
  }

  lemma SkippedSafe(l: Ledger, log: seq<Attempt>, left: seq<nat>)
    ensures forall n :: n in l.queue ==> Safe(Skip(l, left), log, n)
  {
    hide Accepted;
  }

  lemma SkippedOrder(l: Ledger, left: seq<nat>)
    requires InOrder(l) && KnownGone(l) && Increasing(left)
    requires forall n :: n in left ==> n in l.queue
    requires forall i :: 0 <= i < |l.queue| ==> l.queue[i] < |l.subs|
    ensures InOrder(Skip(l, left)) && KnownGone(Skip(l, left))
  {
    forall j | 0 <= j < |left| ensures exists k :: 0 <= k < |l.queue| && l.queue[k] == left[j] {
      assert left[j] in l.queue;
    }
  }

  lemma SkipMatches(l: Ledger, q: seq<bytes>, log: seq<Attempt>, left: seq<nat>, q': seq<bytes>)
    requires Matches(l, q, log) && Names(l, left, q') && Increasing(left)
    requires forall n :: n in left ==> n in l.queue
    ensures Matches(Skip(l, left), q', log)
  {
    var r := Skip(l, left);
    SkippedSafe(l, log, left);
    SkippedOrder(l, left);
    hide InOrder, AllSafe, Names, KnownGone, Safe, Increasing;
    SafeStays(l, r, log, log);
    NamesKept(l, r, left, q');
    NamesKept(l, r, l.tried, Payloads(log));
  }

  lemma AckedSafe(l: Ledger, log: seq<Attempt>)
    requires l.queue != [] && Accepted(l, log, l.queue[0])
    ensures forall n :: n in l.queue ==> Safe(Acknowledge(l), log, n)
  {
    var r := Acknowledge(l);
    AcceptedKept(l, r, log, l.queue[0]);
    hide Accepted;
    forall n | n in l.queue ensures Safe(r, log, n) {
      var i :| 0 <= i < |l.queue| && l.queue[i] == n;
      assert i > 0 ==> r.queue[i - 1] == n;
    }
  }

  lemma AckedOrder(l: Ledger)
    requires InOrder(l) && l.queue != []
    ensures InOrder(Acknowledge(l))
  {
  }

  lemma AckMatches(l: Ledger, q: seq<bytes>, log: seq<Attempt>)
    requires Matches(l, q, log) && l.queue != [] && Accepted(l, log, l.queue[0])
    ensures Matches(Acknowledge(l), q[1..], log)
  {
    var r := Acknowledge(l);
    AckedSafe(l, log);
    AckedOrder(l);
    hide InOrder, AllSafe, Names, Safe, Accepted;
    SafeStays(l, r, log, log);
    NamesDrop(l, r, l.queue, q, 1);
    NamesKept(l, r, l.tried, Payloads(log));
  }

  lemma SubmittedNewest(l: Ledger, q: seq<bytes>, log: seq<Attempt>)
    requires Matches(l, q, log)
    ensures forall i :: 0 <= i < |l.tried| ==> l.tried[i] < |l.subs|
    ensures forall j :: 0 <= j < |l.queue| ==> l.queue[j] < |l.subs|
  {
  }

  lemma SubmittedOrder(l: Ledger, payload: bytes)
    requires InOrder(l) && KnownGone(l)
    ensures InOrder(Submit(l, payload)) && KnownGone(Submit(l, payload))
  {
  }

  lemma SubmitMatches(l: Ledger, q: seq<bytes>, log: seq<Attempt>, payload: bytes)
    requires Matches(l, q, log)
    ensures var r := Submit(l, payload); var n := |l.subs|;
      && Matches(r, q, log) && r.subs[n] == payload
      && (forall i :: 0 <= i < |r.tried| ==> r.tried[i] < n)
      && (forall j :: 0 <= j < |r.queue| ==> r.queue[j] < n)
      && (forall e :: e in r.evicted ==> e < n)
      && (forall e :: e in r.skipped ==> e < n)
  {
    var r := Submit(l, payload);
    SubmittedNewest(l, q, log);
    SubmittedOrder(l, payload);
    hide InOrder, AllSafe, Names;
    SafeStays(l, r, log, log);
    NamesKept(l, r, l.queue, q);
    NamesKept(l, r, l.tried, Payloads(log));
  }

  lemma OweMatches(l: Ledger, q: seq<bytes>, log: seq<Attempt>, n: nat)
    requires Matches(l, q, log) && Safe(l, log, n)
    ensures Matches(Owe(l, n), q, log)
  {
    var r := Owe(l, n);
    NamesKept(l, r, l.queue, q);
    NamesKept(l, r, l.tried, Payloads(log));
    OwedSafe(l, log, n);
    hide AllSafe, Names, Safe;
  }

  lemma OwedSafe(l: Ledger, log: seq<Attempt>, n: nat)
    requires AllSafe(l, log) && Safe(l, log, n)
    ensures AllSafe(Owe(l, n), log)
  {
    var r := Owe(l, n);
    hide Accepted;
    forall m | m in r.owed ensures Safe(r, log, m) {
      assert Safe(l, log, m);
      if Accepted(l, log, m) {
        AcceptedKept(l, r, log, m);
      }
    }
  }

  /** An owed batch that is older than some request is settled. */
  lemma EarlierSettled(l: Ledger, q: seq<bytes>, log: seq<Attempt>, i: nat, j: nat)
    requires Matches(l, q, log) && i in l.owed && j < |l.tried| && i < l.tried[j]
    ensures i !in l.queue && (i in l.evicted || i in l.skipped || Accepted(l, log, i))
  {
    hide Names, Accepted;
    assert Safe(l, log, i);
  }
}
