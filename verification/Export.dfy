/** The export path in front of the log: retries, the drain of the log, and the
    choice between direct delivery and queueing. `World` is everything outside
    the process: the disk and what the collector has been sent. */
module Export {
  import opened ByteStrings
  import opened WalModel
  import WalReplay

  const MAX_WAL_DRAIN_PER_TICK: nat := 32
  /** One initial attempt and one per retry delay. */
  const ATTEMPTS: nat := 4

  /** A request sent to the collector, and whether the client saw it succeed.
      A request whose failure was reported may have been accepted all the same. */
  datatype Attempt = Attempt(payload: bytes, reported: bool)

  datatype World = World(disk: Disk, log: seq<Attempt>)

  /** The adversary: what the client gets to see of the n-th request. */
  type Verdicts = nat -> bool

  /** The logs of requests after each attempt of one export. */
  function Attempts(v: Verdicts, log: seq<Attempt>, payload: bytes, tries: nat): (logs: seq<seq<Attempt>>)
    ensures tries > 0 ==> logs != []
    decreases tries
  {
    if tries == 0 then []
    else
      var l := log + [Attempt(payload, v(|log|))];
      [l] + if v(|log|) then [] else Attempts(v, l, payload, tries - 1)
  }

  function Tried(v: Verdicts, log: seq<Attempt>, payload: bytes): (r: seq<Attempt>) {
    var logs := Attempts(v, log, payload, ATTEMPTS);
    logs[|logs| - 1]
  }

  /** The export succeeds when its last attempt is reported accepted. */
  predicate Succeeds(v: Verdicts, log: seq<Attempt>, payload: bytes) {
    var r := Tried(v, log, payload);
    r != [] && r[|r| - 1].reported
  }

  lemma {:induction false} AttemptAt(v: Verdicts, log: seq<Attempt>, payload: bytes, tries: nat, i: nat)
    requires i < |Attempts(v, log, payload, tries)|
    ensures var logs := Attempts(v, log, payload, tries);
      && |logs| <= tries
      && |logs[i]| == |log| + i + 1
      && log <= logs[i]
      && logs[i][|log| + i] == Attempt(payload, v(|log| + i))
      && (if i + 1 < |logs| then !v(|log| + i) else |logs| == tries || v(|log| + i))
    decreases tries
  {
    var l := log + [Attempt(payload, v(|log|))];
    if !v(|log|) {
      var rest := Attempts(v, l, payload, tries - 1);
      assert Attempts(v, log, payload, tries) == [l] + rest;
      if i > 0 {
        AttemptAt(v, l, payload, tries - 1, i - 1);
      } else if rest != [] {
        AttemptAt(v, l, payload, tries - 1, 0);
      }
    }
  }

  /** The retry schedule, exactly: at most four attempts, all of the same
      request, every one but the last reported failed, and the last one too if
      the export fails, which takes all four. */
  lemma AttemptsExact(v: Verdicts, log: seq<Attempt>, payload: bytes, tries: nat)
    requires tries > 0
    ensures var logs := Attempts(v, log, payload, tries);
      && 1 <= |logs| <= tries
      && (forall i :: 0 <= i < |logs| ==> |logs[i]| == |log| + i + 1 && log <= logs[i])
      && (forall i :: 0 <= i < |logs| ==> logs[i][|log| + i] == Attempt(payload, v(|log| + i)))
      && (forall i :: 0 <= i < |logs| - 1 ==> !logs[i][|log| + i].reported)
      && (|logs| == tries || logs[|logs| - 1][|log| + |logs| - 1].reported)
  {
    hide Attempts;
    var logs := Attempts(v, log, payload, tries);
    AttemptAt(v, log, payload, tries, 0);
    forall i | 0 <= i < |logs|
      ensures |logs| <= tries && |logs[i]| == |log| + i + 1 && log <= logs[i]
      ensures logs[i][|log| + i] == Attempt(payload, v(|log| + i))
      ensures if i + 1 < |logs| then !v(|log| + i) else |logs| == tries || v(|log| + i)
    {
      AttemptAt(v, log, payload, tries, i);
    }
  }

  /** The last log of requests, up to its `i`-th request. */
  lemma {:induction false} LastLog(v: Verdicts, log: seq<Attempt>, payload: bytes, tries: nat, i: nat)
    requires |log| <= i < |log| + |Attempts(v, log, payload, tries)|
    ensures var logs := Attempts(v, log, payload, tries); var r := logs[|logs| - 1];
      |r| == |log| + |logs| && log <= r && r[i] == Attempt(payload, v(i))
    decreases tries
  {
    var l := log + [Attempt(payload, v(|log|))];
    var rest := if v(|log|) then [] else Attempts(v, l, payload, tries - 1);
    assert Attempts(v, log, payload, tries) == [l] + rest;
    hide Attempts;
    if rest != [] {
      LastLog(v, l, payload, tries - 1, if i > |log| then i else i + 1);
    }
  }

  /** One initial attempt and three retries: the export succeeds if and only if
      one of the next four requests is reported accepted, and what it sends is
      the same request up to the first such report. */
  lemma SucceedsExactly(v: Verdicts, log: seq<Attempt>, payload: bytes)
    ensures var n, r := |log|, Tried(v, log, payload);
      && (Succeeds(v, log, payload) <==> v(n) || v(n + 1) || v(n + 2) || v(n + 3))
      && |r| == n + (if v(n) then 1 else if v(n + 1) then 2 else if v(n + 2) then 3 else 4)
      && log <= r && forall i :: n <= i < |r| ==> r[i] == Attempt(payload, v(i))
  {
    hide Attempts;
    var n, logs, r := |log|, Attempts(v, log, payload, ATTEMPTS), Tried(v, log, payload);
    AttemptAt(v, log, payload, ATTEMPTS, |logs| - 1);
    LastLog(v, log, payload, ATTEMPTS, n);
    assert |logs| > 1 ==> !v(n) by {
      AttemptAt(v, log, payload, ATTEMPTS, 0);
    }
    assert |logs| > 2 ==> !v(n + 1) by {
      if |logs| > 2 {
        AttemptAt(v, log, payload, ATTEMPTS, 1);
      }
    }
    assert |logs| > 3 ==> !v(n + 2) by {
      if |logs| > 3 {
        AttemptAt(v, log, payload, ATTEMPTS, 2);
      }
    }
    forall i | n <= i < |r| ensures r[i] == Attempt(payload, v(i)) {
      LastLog(v, log, payload, ATTEMPTS, i);
    }
  }

  function OnDisk(d: Disk, logs: seq<seq<Attempt>>): (ws: seq<World>)
    ensures |ws| == |logs| && forall i :: 0 <= i < |logs| ==> ws[i] == World(d, logs[i])
  {
    if logs == [] then [] else [World(d, logs[0])] + OnDisk(d, logs[1..])
  }

  function InLog(disks: seq<Disk>, log: seq<Attempt>): (ws: seq<World>)
    ensures |ws| == |disks| && forall i :: 0 <= i < |disks| ==> ws[i] == World(disks[i], log)
  {
    if disks == [] then [] else [World(disks[0], log)] + InLog(disks[1..], log)
  }

  /** `handed`: the batch was accepted or is durable. `clean`: nothing failed. */
  datatype Flow = Flow(state: State, log: seq<Attempt>, trace: seq<World>, handed: bool, clean: bool)

  /** Exports heads of the log, oldest first, until `n` are gone, none is left
      or one fails. */
  function Drain(v: Verdicts, s: State, log: seq<Attempt>, n: nat): Flow
    requires Shape(s)
    decreases n
  {
    var r := SkipDamaged(s);
    if n == 0 then Flow(s, log, [], true, true)
    else
      match HeadOf(r)
      case Nothing => Flow(r, log, [], true, true)
      case Unreadable => Flow(r, log, [], true, false)
      case Head(segment, offset, payload) =>
        var sent := OnDisk(s.disk, Attempts(v, log, payload, ATTEMPTS));
        var log1 := Tried(v, log, payload);
        if !Succeeds(v, log, payload) then Flow(r, log1, sent, true, false)
        else
          SkipShape(s);
          var o := Ack(r, segment, offset);
          AckShape(r, segment, offset);
          var rest := Drain(v, o.state, log1, n - 1);
          Flow(rest.state, rest.log, sent + InLog(o.trace, log1) + rest.trace, true, rest.clean)
  }

  lemma SkipShape(s: State)
    requires Shape(s)
    ensures Shape(SkipDamaged(s)) && SkipDamaged(s).disk == s.disk
    decreases |s.records|
  {
    if s.records != [] {
      SkipShape(s.(records := s.records[1..]));
    }
  }

  lemma AckShape(s: State, segment: nat, offset: nat)
    requires Shape(s)
    ensures Shape(Ack(s, segment, offset).state)
  {
    if IsHead(s, segment, offset) {
      var s1 := SaveCursor(s.(records := s.records[1..]));
      WalReplay.DropAckedShape(s1.disk.segments, s1.cursor.segment, s1.active);
    }
  }

  /** One batch: straight to the collector when the log is empty, behind the
      log otherwise; into the log when the collector does not take it. */
  function Deliver(v: Verdicts, s: State, log: seq<Attempt>, payload: bytes): Flow
    requires Shape(s)
  {
    if s.records != [] then
      var o := Append(s, payload);
      if !o.ok then Flow(o.state, log, InLog(o.trace, log), false, false)
      else
        var d := Drain(v, o.state, log, MAX_WAL_DRAIN_PER_TICK);
        d.(trace := InLog(o.trace, log) + d.trace)
    else
      var sent := OnDisk(s.disk, Attempts(v, log, payload, ATTEMPTS));
      var log1 := Tried(v, log, payload);
      if Succeeds(v, log, payload) then Flow(s, log1, sent, true, true)
      else
        var o := Append(s, payload);
        Flow(o.state, log1, sent + InLog(o.trace, log1), o.ok, false)
  }

  // ---- Backlog ----

  /** From here on the collector reports every request accepted. */
  ghost predicate AcceptingFrom(v: Verdicts, n: nat) {
    forall i :: i >= n ==> v(i)
  }
}
