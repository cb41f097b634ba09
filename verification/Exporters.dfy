/** The exporter and the file source as objects, proved against `Export` and
    `Pipeline`. */
module Exporters {
  import opened ByteStrings
  import opened Wrappers
  import opened WalModel
  import WalRuns
  import opened WriteAheadLog
  import opened Export
  import opened ExportProofs
  import opened DeliveryProofs
  import opened Lines
  import opened Tailer
  import P = Pipeline

  /** The other end of the wire: it keeps what it was sent, and what the client
      gets to see is up to it. */
  class Collector {
    const verdicts: Verdicts
    var log: seq<Attempt>

    constructor (verdicts: Verdicts)
      ensures this.verdicts == verdicts && log == []
    {
      this.verdicts, log := verdicts, [];
    }

    method Send(payload: bytes) returns (ok: bool)
      modifies this`log
      ensures ok == verdicts(|old(log)|) && log == old(log) + [Attempt(payload, ok)]
    {
      ok := verdicts(|log|);
      log := log + [Attempt(payload, ok)];
    }
  }

  /** The export path shared by metrics and logs, each over a log of its own. */
  class Exporter {
    const wal: Wal
    const collector: Collector
    /** Every state of disk and collector passed through. */
    ghost var worlds: seq<World>

    constructor (wal: Wal, collector: Collector)
      ensures this.wal == wal && this.collector == collector && worlds == []
    {
      this.wal, this.collector, worlds := wal, collector, [];
    }

    ghost predicate Valid()
      reads wal, wal.dir
    {
      wal.Valid()
    }

    /** Up to four attempts; the last one decides. */
    method ExportWithRetry(payload: bytes) returns (ok: bool)
      modifies this`worlds, collector
      ensures collector.log == Tried(collector.verdicts, old(collector.log), payload)
      ensures ok == Succeeds(collector.verdicts, old(collector.log), payload)
      ensures worlds == old(worlds)
        + OnDisk(wal.dir.Contents(), Attempts(collector.verdicts, old(collector.log), payload, ATTEMPTS))
    {
      hide OnDisk, Succeeds, Tried;
      ghost var v, log0, d := collector.verdicts, collector.log, wal.dir.Contents();
      ghost var sent: seq<seq<Attempt>> := [];
      OnDiskNone(d);
      var attempt := 0;
      ok := false;
      while attempt < ATTEMPTS
        invariant attempt <= ATTEMPTS && !ok
        invariant Attempts(v, log0, payload, ATTEMPTS) == sent + Attempts(v, collector.log, payload, ATTEMPTS - attempt)
        invariant sent == [] ==> attempt == 0
        invariant sent != [] ==>
          sent[|sent| - 1] == collector.log && collector.log != [] && !collector.log[|collector.log| - 1].reported
        invariant worlds == old(worlds) + OnDisk(d, sent)
        decreases ATTEMPTS - attempt
      {
        AttemptsUnfold(v, collector.log, payload, ATTEMPTS - attempt, sent);
        ok := collector.Send(payload);
        OnDiskAppend(d, sent, collector.log);
        Associative(old(worlds), OnDisk(d, sent), [World(d, collector.log)]);
        sent := sent + [collector.log];
        worlds := worlds + [World(wal.dir.Contents(), collector.log)];
        if ok {
          break;
        }
        attempt := attempt + 1;
      }
      AttemptsOver(v, log0, collector.log, payload, sent, ok);
    }

    method Acknowledge(entry: WalEntry)
      requires Valid()
      modifies this`worlds, wal, wal.dir
      ensures Valid()
      ensures var o := WalModel.Ack(old(wal.View()), entry.segment, entry.offset);
        wal.View() == o.state && worlds == old(worlds) + InLog(o.trace, collector.log)
    {
      hide DiskOk, Indexed, AllWhole, InLog, WalModel.Ack, Metas;
      ghost var h := wal.dir.history;
      var acked := wal.Ack(entry);
      worlds := worlds + InLog(wal.dir.history[|h|..], collector.log);
    }

    /** One turn of the drain: the head is sent and acknowledged, or there is
        none, or sending it failed. */
    method DrainOne(ghost left: nat) returns (more: bool, clean: bool)
      requires Valid() && left > 0
      modifies this`worlds, collector, wal, wal.dir
      ensures Valid() && (more ==> clean) && old(worlds) <= worlds
      ensures var v := collector.verdicts; var seen := worlds[|old(worlds)|..];
        Drain(v, old(wal.View()), old(collector.log), left)
        == if more then Later(seen, Drain(v, wal.View(), collector.log, left - 1))
           else Flow(wal.View(), collector.log, seen, true, clean)
    {
      hide DiskOk, Indexed, AllWhole, Drain, OnDisk, InLog, Attempts, Tried, Succeeds, SkipDamaged, WalModel.Ack, Metas,
        Queue;
      ghost var before, s, log0 := worlds, wal.View(), collector.log;
      HeadIsFront(s);
      var entry := wal.Next();
      if entry.None? {
        DrainEmpty(collector.verdicts, s, log0, left);
        return false, true;
      }
      var ok := ExportWithRetry(entry.value.payload);
      ghost var sent := OnDisk(s.disk, Attempts(collector.verdicts, log0, entry.value.payload, ATTEMPTS));
      assert worlds[|before|..] == sent;
      if !ok {
        DrainFails(collector.verdicts, s, log0, left);
        return false, false;
      }
      DrainSucceeds(collector.verdicts, s, log0, left);
      AckHead(SkipDamaged(s));
      Acknowledge(entry.value);
      assert worlds[|before|..] == sent + InLog(AckFirst(SkipDamaged(s)).trace, collector.log);
      return true, true;
    }

    /** Sends heads of the log, oldest first, until the bound, the end of the
        log or a failure. */
    method DrainWal() returns (clean: bool)
      requires Valid()
      modifies this`worlds, collector, wal, wal.dir
      ensures Valid()
      ensures var f := Drain(collector.verdicts, old(wal.View()), old(collector.log), MAX_WAL_DRAIN_PER_TICK);
        && wal.View() == f.state && collector.log == f.log && clean == f.clean
        && worlds == old(worlds) + f.trace
    {
      hide DiskOk, Indexed, AllWhole, Drain, Metas;
      ghost var v := collector.verdicts;
      ghost var f0 := Drain(v, wal.View(), collector.log, MAX_WAL_DRAIN_PER_TICK);
      ghost var seen: seq<World> := [];
      var turn := 0;
      while turn < MAX_WAL_DRAIN_PER_TICK
        invariant turn <= MAX_WAL_DRAIN_PER_TICK && Valid()
        invariant Later(seen, Drain(v, wal.View(), collector.log, MAX_WAL_DRAIN_PER_TICK - turn)) == f0
        invariant worlds == old(worlds) + seen
        decreases MAX_WAL_DRAIN_PER_TICK - turn
      {
        ghost var before := worlds;
        var more: bool;
        more, clean := DrainOne(MAX_WAL_DRAIN_PER_TICK - turn);
        ghost var step := worlds[|before|..];
        Associative(old(worlds), seen, step);
        if !more {
          return;
        }
        LaterLater(seen, step, Drain(v, wal.View(), collector.log, MAX_WAL_DRAIN_PER_TICK - turn - 1));
        seen := seen + step;
        turn := turn + 1;
      }
      DrainNothing(v, wal.View(), collector.log);
      assert seen + [] == seen;
      clean := true;
    }

    method Append(payload: bytes) returns (ok: bool)
      requires Valid()
      modifies this`worlds, wal, wal.dir
      ensures Valid()
      ensures var o := WalModel.Append(old(wal.View()), payload);
        ok == o.ok && wal.View() == o.state && worlds == old(worlds) + InLog(o.trace, collector.log)
    {
      hide DiskOk, Indexed, AllWhole, InLog, WalModel.Append, Metas;
      ghost var h := wal.dir.history;
      ok := wal.Append(payload);
      worlds := worlds + InLog(wal.dir.history[|h|..], collector.log);
    }

    /** One batch of either signal. `handed` is what the logs exporter reports,
        `clean` what the metrics exporter reports. */
    method DeliverBatch(payload: bytes) returns (handed: bool, clean: bool)
      requires Valid()
      modifies this`worlds, collector, wal, wal.dir
      ensures Valid()
      ensures var f := Deliver(collector.verdicts, old(wal.View()), old(collector.log), payload);
        && wal.View() == f.state && collector.log == f.log && handed == f.handed && clean == f.clean
        && worlds == old(worlds) + f.trace
    {
      hide DiskOk, Indexed, AllWhole, Drain, Deliver, OnDisk, InLog, Attempts, Tried, Succeeds, WalModel.Append, Metas;
      ghost var w0 := worlds;
      DeliverUnfold(collector.verdicts, wal.View(), collector.log, payload);
      var pending := wal.PendingCount();
      if pending > 0 {
        handed := Append(payload);
        if !handed {
          return false, false;
        }
        DrainHands(collector.verdicts, wal.View(), collector.log, MAX_WAL_DRAIN_PER_TICK);
        ghost var w1 := worlds;
        clean := DrainWal();
        Associative(w0, w1[|w0|..], worlds[|w1|..]);
        return;
      }
      clean := ExportWithRetry(payload);
      handed := clean;
      if !clean {
        ghost var w1 := worlds;
        handed := Append(payload);
        Associative(w0, w1[|w0|..], worlds[|w1|..]);
      }
    }
  }

  /** A log file of the configuration and what is read of it. */
  class FileSource {
    var tailer: FileTailer?
    var checkpoint: Option<bytes>
    /** Where reading began before there was a checkpoint. */
    ghost var base: nat

    constructor (checkpoint: Option<bytes>)
      ensures this.checkpoint == checkpoint && tailer == null
    {
      this.checkpoint, tailer, base := checkpoint, null, 0;
    }

    ghost function Node(file: File, exporter: Exporter): P.Node
      reads this, tailer, exporter, exporter.wal, exporter.wal.dir, exporter.collector
    {
      P.Node(file, checkpoint, WalRuns.Up(exporter.wal.View()), exporter.collector.log,
             if tailer == null then None else Some(tailer.View()), base)
    }

    /** Polls the file and hands the batch over; the checkpoint moves only once
        the exporter took charge. One tick of the pipeline; without the file, or
        with a checkpoint file it cannot read, a tick that does nothing. */
    method PollInto(file: Option<File>, exporter: Exporter, encode: seq<bytes> -> bytes, writable: bool)
      requires exporter.Valid()
      modifies this, tailer, exporter`worlds, exporter.collector, exporter.wal, exporter.wal.dir
      ensures exporter.Valid()
      ensures tailer != null ==> tailer == old(tailer) || fresh(tailer)
      ensures file.Some? ==>
        var o := P.Outside(exporter.collector.verdicts, encode);
        Node(file.value, exporter) == P.Step(o, old(Node(file.value, exporter)), P.Tick(writable, None))
      ensures file.None? ==> exporter.worlds == old(exporter.worlds) && forall f ::
        var o := P.Outside(exporter.collector.verdicts, encode);
        Node(f, exporter) == P.Step(o, old(Node(f, exporter)), P.Missed)
    {
      hide DiskOk, Indexed, AllWhole, Shape, Inv, Metas, Deliver, Polled, Flatten, LE, LineLength;
      if tailer == null {
        tailer := OpenTailer(file, checkpoint);
        if tailer == null {
          return;
        }
        base := if checkpoint.None? then tailer.offset else base;
      }
      if file.None? {
        tailer := null;
        return;
      }
      ghost var m := P.WithTailer(old(Node(file.value, exporter)));
      assert Node(file.value, exporter) == m;
      var records := tailer.Poll(file.value);
      BodiesEmpty(P.NewLines(m));
      if records == [] {
        return;
      }
      var handed, clean := exporter.DeliverBatch(encode(records));
      if !handed {
        return;
      }
      var written := tailer.PersistCheckpoint(writable);
      if written.Some? {
        checkpoint := written;
      }
    }
  }

  lemma BodiesEmpty(lines: seq<bytes>)
    ensures Bodies(lines) == [] <==> lines == []
  {
  }

  /** A flow seen from before some worlds. */
  function Later(earlier: seq<World>, f: Flow): Flow {
    f.(trace := earlier + f.trace)
  }

  lemma DrainEmpty(v: Verdicts, s: State, log: seq<Attempt>, n: nat)
    requires Inv(s) && n > 0 && SkipDamaged(s).records == []
    ensures Drain(v, s, log, n) == Flow(SkipDamaged(s), log, [], true, true)
  {
    hide Drain, DiskOk, Indexed, AllWhole;
    DrainUnfold(v, s, log, n);
  }

  lemma DrainFails(v: Verdicts, s: State, log: seq<Attempt>, n: nat)
    requires Inv(s) && n > 0 && SkipDamaged(s).records != []
    requires Queue(s.disk) != [] && !Succeeds(v, log, Queue(s.disk)[0])
    ensures var p := Queue(s.disk)[0];
      Drain(v, s, log, n)
      == Flow(SkipDamaged(s), Tried(v, log, p), OnDisk(s.disk, Attempts(v, log, p, ATTEMPTS)), true, false)
  {
    hide Drain, DiskOk, Indexed, AllWhole, Attempts, Tried, Succeeds;
    DrainUnfold(v, s, log, n);
  }

  lemma DrainSucceeds(v: Verdicts, s: State, log: seq<Attempt>, n: nat)
    requires Inv(s) && n > 0 && SkipDamaged(s).records != []
    requires Queue(s.disk) != [] && Succeeds(v, log, Queue(s.disk)[0])
    ensures var p := Queue(s.disk)[0]; var r := SkipDamaged(s); var log1 := Tried(v, log, p);
      && Shape(r) && Shape(AckFirst(r).state)
      && Drain(v, s, log, n)
         == Later(OnDisk(s.disk, Attempts(v, log, p, ATTEMPTS)) + InLog(AckFirst(r).trace, log1),
                  Drain(v, AckFirst(r).state, log1, n - 1))
  {
    hide Drain, Ascending, Representable, CursorBehind, Indexed, AllWhole, Attempts, Tried, Succeeds, OnDisk, InLog,
      SkipDamaged, Queue, WalModel.Ack;
    DrainUnfold(v, s, log, n);
    DrainHands(v, AckFirst(SkipDamaged(s)).state, Tried(v, log, Queue(s.disk)[0]), n - 1);
  }

  lemma LaterLater(a: seq<World>, b: seq<World>, f: Flow)
    ensures Later(a, Later(b, f)) == Later(a + b, f)
  {
    Associative(a, b, f.trace);
  }

  lemma OnDiskNone(d: Disk)
    ensures OnDisk(d, []) == []
  {
  }

  lemma OnDiskAppend(d: Disk, logs: seq<seq<Attempt>>, log: seq<Attempt>)
    ensures OnDisk(d, logs + [log]) == OnDisk(d, logs) + [World(d, log)]
  {
  }

  lemma AttemptsUnfold(v: Verdicts, log: seq<Attempt>, p: bytes, tries: nat, sent: seq<seq<Attempt>>)
    requires tries > 0
    ensures var l := log + [Attempt(p, v(|log|))];
      sent + Attempts(v, log, p, tries) == (sent + [l]) + if v(|log|) then [] else Attempts(v, l, p, tries - 1)
  {
    var l := log + [Attempt(p, v(|log|))];
    Associative(sent, [l], if v(|log|) then [] else Attempts(v, l, p, tries - 1));
  }

  /** Where the retry loop ends. */
  lemma AttemptsOver(v: Verdicts, log0: seq<Attempt>, log: seq<Attempt>, p: bytes, sent: seq<seq<Attempt>>, ok: bool)
    requires sent != [] && sent[|sent| - 1] == log && log != [] && log[|log| - 1].reported == ok
    requires Attempts(v, log0, p, ATTEMPTS) == sent + if ok then [] else Attempts(v, log, p, 0)
    ensures Attempts(v, log0, p, ATTEMPTS) == sent
    ensures Tried(v, log0, p) == log && Succeeds(v, log0, p) == ok
  {
    assert sent + [] == sent;
  }
}
