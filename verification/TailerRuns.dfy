/** Whole runs of a tailer over a file that only grows: any schedule of growth,
    polls, persisted checkpoints and restarts. */
module TailerRuns {
  import opened ByteStrings
  import opened Wrappers
  import opened Lines
  import opened Tailer

  datatype Event = Grow(x: bytes) | Poll | Persist | Restart

  /** `delivered` are the lines of polls whose checkpoint was persisted,
      `polled` those of the last poll since, `start` where reading began. */
  datatype Reader = Reader(file: File, checkpoint: Option<bytes>, tail: Tail, start: nat,
                           polled: seq<bytes>, delivered: seq<bytes>)

  function Begin(file: File, checkpoint: Option<bytes>): Reader
    requires CheckpointReadable(checkpoint)
  {
    var t := NewTail(file, checkpoint);
    Reader(file, checkpoint, t, t.offset, [], [])
  }

  /** File offsets and identities fit the checkpoint's fields. */
  predicate Storable(file: File) {
    |file.data| < U64_LIMIT && file.signature < U128_LIMIT
  }

  /** A restart before the first checkpoint begins at the file's end. */
  function Step(r: Reader, e: Event): Reader
    requires CheckpointReadable(r.checkpoint)
  {
    match e
    case Grow(x) => r.(file := r.file.(data := r.file.data + x))
    case Poll => r.(tail := AfterPoll(r.file, r.tail), polled := Polled(r.file.data, ReadFrom(r.file, r.tail)))
    case Persist =>
      r.(tail := AfterPersist(r.tail), delivered := r.delivered + r.polled, polled := [],
         checkpoint := Some(EncodeCheckpoint(Checkpoint(r.tail.pendingOffset, r.tail.pendingSignature))))
    case Restart =>
      var t := NewTail(r.file, r.checkpoint);
      r.(tail := t, polled := [], start := if r.checkpoint.None? then t.offset else r.start)
  }

  /** Delivered lines tile the file from the start to the committed offset,
      polled ones from there to the pending offset, and the checkpoint on disk
      says the same as the tailer in memory. */
  predicate Tiled(r: Reader) {
    var t := r.tail;
    && CheckpointReadable(r.checkpoint)
    && t.signature == t.pendingSignature == r.file.signature < U128_LIMIT
    && r.start <= t.offset <= t.pendingOffset <= |r.file.data| && t.pendingOffset < U64_LIMIT
    && Flatten(r.delivered) == r.file.data[r.start..t.offset]
    && Flatten(r.polled) == r.file.data[t.offset..t.pendingOffset]
    && match r.checkpoint
       case Some(b) => DecodeCheckpoint(b) == Checkpoint(t.offset, t.signature)
       case None => t.offset == r.start && r.delivered == []
  }

  lemma BeginTiled(file: File)
    requires Storable(file)
    ensures Tiled(Begin(file, None))
  {
  }

  lemma SliceKept(data: bytes, x: bytes, i: nat, j: nat)
    requires i <= j <= |data|
    ensures (data + x)[i..j] == data[i..j]
  {
  }

  lemma StepTiled(r: Reader, e: Event)
    requires Tiled(r) && Storable(Step(r, e).file)
    ensures Tiled(Step(r, e))
  {
    hide Flatten, Polled, DecodeCheckpoint;
    var data, t := r.file.data, r.tail;
    NothingFlattens();
    match e
    case Grow(x) =>
      SliceKept(data, x, r.start, t.offset);
      SliceKept(data, x, t.offset, t.pendingOffset);
    case Poll =>
      PolledTiles(data, t.offset);
    case Persist =>
      CheckpointRoundTrip(Checkpoint(t.pendingOffset, t.pendingSignature));
      FlattenConcat(r.delivered, r.polled);
      SlicesMeet(data, r.start, t.offset, t.pendingOffset);
    case Restart =>
  }

  /** A tailer rebuilt from the persisted checkpoint is the tailer that
      persisted it. */
  lemma RestartResumes(r: Reader)
    requires Tiled(r) && r.checkpoint.Some?
    ensures Step(r, Restart).tail == Tail(r.tail.offset, r.tail.signature, r.tail.offset, r.tail.signature)
    ensures Step(Step(r, Restart), Poll) == Step(r, Poll)
  {
  }

  function Run(r: Reader, es: seq<Event>): Reader
    requires CheckpointReadable(r.checkpoint)
    decreases |es|
  {
    if es == [] then r else Run(Step(r, es[0]), es[1..])
  }

  lemma {:induction false} RunGrows(r: Reader, es: seq<Event>)
    requires CheckpointReadable(r.checkpoint)
    ensures r.file.data <= Run(r, es).file.data && r.file.signature == Run(r, es).file.signature
    decreases |es|
  {
    if es != [] {
      RunGrows(Step(r, es[0]), es[1..]);
    }
  }

  /** Whatever the schedule and the length of the lines, consumed ranges tile
      the file without gap or overlap. */
  lemma {:induction false} RunTiled(r: Reader, es: seq<Event>)
    requires Tiled(r) && Storable(Run(r, es).file)
    ensures Tiled(Run(r, es))
    decreases |es|
  {
    if es != [] {
      RunGrows(Step(r, es[0]), es[1..]);
      StepTiled(r, es[0]);
      RunTiled(Step(r, es[0]), es[1..]);
    }
  }

  /** A file without a checkpoint is shipped from where it ended when it was
      met, or met again: nothing it held before is delivered or polled. */
  lemma OnlyGrowth(file: File, es: seq<Event>)
    requires Storable(Run(Begin(file, None), es).file)
    ensures var r := Run(Begin(file, None), es);
      && |file.data| <= r.start <= |r.file.data| && Flatten(r.delivered + r.polled) <= r.file.data[r.start..]
      && (Restart !in es ==> r.start == |file.data|)
      && (r.checkpoint.None? ==> Step(r, Restart).start == |r.file.data|)
  {
    hide Flatten;
    var b := Begin(file, None);
    RunGrows(b, es);
    BeginTiled(file);
    RunTiled(b, es);
    StartsLate(b, es, |file.data|);
    var r := Run(b, es);
    FlattenConcat(r.delivered, r.polled);
    SlicesMeet(r.file.data, r.start, r.tail.offset, r.tail.pendingOffset);
  }

  lemma {:induction false} StartsLate(r: Reader, es: seq<Event>, least: nat)
    requires CheckpointReadable(r.checkpoint) && least <= r.start && least <= |r.file.data|
    ensures least <= Run(r, es).start && (Restart !in es ==> Run(r, es).start == r.start)
    decreases |es|
  {
    hide Flatten, Polled;
    if es != [] {
      RunGrows(r, [es[0]]);
      StartsLate(Step(r, es[0]), es[1..], least);
    }
  }

  /** Every line, newline included, fits a window: each window-sized stretch of
      the file has a newline. */
  predicate LinesFit(data: bytes) {
    forall i :: 0 <= i && i + MAX_POLL_BYTES <= |data| ==> NewlineWithin(data, i)
  }

  predicate NewlineWithin(data: bytes, i: nat)
    requires i + MAX_POLL_BYTES <= |data|
  {
    LF in data[i..i + MAX_POLL_BYTES]
  }

  lemma LinesFitPrefix(a: bytes, b: bytes)
    requires a <= b && LinesFit(b)
    ensures LinesFit(a)
  {
    forall i | 0 <= i && i + MAX_POLL_BYTES <= |a| ensures NewlineWithin(a, i) {
      SliceKept(a, b[|a|..], i, i + MAX_POLL_BYTES);
      assert b == a + b[|a|..];
      assert NewlineWithin(b, i);
    }
  }

  predicate AllComplete(lines: seq<bytes>) {
    forall line :: line in lines ==> Complete(line)
  }

  lemma StepComplete(r: Reader, e: Event)
    requires Tiled(r) && LinesFit(r.file.data) && AllComplete(r.delivered) && AllComplete(r.polled)
    ensures AllComplete(Step(r, e).delivered) && AllComplete(Step(r, e).polled)
  {
    hide Complete, Polled, Flatten;
    if e.Poll? {
      var from := r.tail.offset;
      if |r.file.data| - from >= MAX_POLL_BYTES {
        assert NewlineWithin(r.file.data, from);
      }
      PolledComplete(r.file.data, from);
    }
  }

  lemma {:induction false} RunComplete(r: Reader, es: seq<Event>)
    requires Tiled(r) && Storable(Run(r, es).file) && LinesFit(Run(r, es).file.data)
    requires AllComplete(r.delivered) && AllComplete(r.polled)
    ensures AllComplete(Run(r, es).delivered) && AllComplete(Run(r, es).polled)
    decreases |es|
  {
    hide LinesFit, AllComplete;
    if es != [] {
      var s := Step(r, es[0]);
      RunGrows(s, es[1..]);
      RunGrows(r, es);
      LinesFitPrefix(r.file.data, Run(r, es).file.data);
      StepComplete(r, es[0]);
      StepTiled(r, es[0]);
      RunComplete(s, es[1..]);
    }
  }

  /** Window independence: when every line fits a window, any schedule delivers
      exactly the lines of the file between start and committed offset, each
      once and in order. */
  lemma WindowIndependence(file: File, es: seq<Event>)
    requires var r := Run(Begin(file, None), es); Storable(r.file) && LinesFit(r.file.data)
    ensures var r := Run(Begin(file, None), es);
      && r.start <= r.tail.offset <= |r.file.data|
      && r.delivered == SplitInclusive(r.file.data[r.start..r.tail.offset])
      && Bodies(r.delivered) == Bodies(SplitInclusive(r.file.data[r.start..r.tail.offset]))
  {
    var b := Begin(file, None);
    RunGrows(b, es);
    BeginTiled(file);
    RunTiled(b, es);
    RunComplete(b, es);
    SplitUnique(Run(b, es).delivered);
  }

  /** A retry after growth returns the earlier bodies first. */
  lemma RetryRepeats(r: Reader, x: bytes)
    requires Tiled(r)
    ensures var again := Step(Step(Step(r, Poll), Grow(x)), Poll);
      Bodies(Step(r, Poll).polled) <= Bodies(again.polled)
  {
    hide Flatten, Polled, Bodies;
    PolledAgain(r.file.data, x, r.tail.offset);
    var a, b := Step(r, Poll).polled, Step(Step(Step(r, Poll), Grow(x)), Poll).polled;
    assert b == a + b[|a|..];
    BodiesConcat(a, b[|a|..]);
  }
}
