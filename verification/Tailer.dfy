/** The checkpointed reader of one log file. */
module Tailer {
  import opened ByteStrings
  import opened Wrappers
  import opened Lines

  const U128_LIMIT: nat := U64_LIMIT * U64_LIMIT

  /** A file as the tailer sees it: contents and identity. */
  datatype File = File(data: bytes, signature: nat)

  datatype Tail = Tail(offset: nat, signature: nat, pendingOffset: nat, pendingSignature: nat)

  datatype Checkpoint = Checkpoint(offset: nat, signature: nat)

  function EncodeCheckpoint(c: Checkpoint): (b: bytes)
    ensures |b| == 24
  {
    LE(c.offset, 8) + LE(c.signature, 16)
  }

  function DecodeCheckpoint(b: bytes): Checkpoint
    requires |b| == 24
  {
    Checkpoint(FromLE(b[..8]), FromLE(b[8..]))
  }

  lemma CheckpointRoundTrip(c: Checkpoint)
    requires c.offset < U64_LIMIT && c.signature < U128_LIMIT
    ensures DecodeCheckpoint(EncodeCheckpoint(c)) == c
  {
    Widths();
    LERoundTrip(c.offset, 8);
    LERoundTrip(c.signature, 16);
    assert EncodeCheckpoint(c)[..8] == LE(c.offset, 8);
    assert EncodeCheckpoint(c)[8..] == LE(c.signature, 16);
  }

  /** The offset from byte 0, the file's identity from byte 8, lowest byte
      first. */
  lemma CheckpointLayout(c: Checkpoint)
    ensures var b := EncodeCheckpoint(c);
      && |b| == 24
      && (forall i :: 0 <= i < 8 ==> b[i] == Digit(c.offset, i))
      && (forall i :: 0 <= i < 16 ==> b[8 + i] == Digit(c.signature, i))
  {
    hide LE, Digit;
    forall i | 0 <= i < 8 ensures EncodeCheckpoint(c)[i] == Digit(c.offset, i) {
      Digits(c.offset, 8, i);
    }
    forall i | 0 <= i < 16 ensures EncodeCheckpoint(c)[8 + i] == Digit(c.signature, i) {
      Digits(c.signature, 16, i);
    }
  }

  predicate CheckpointReadable(c: Option<bytes>) {
    c.Some? ==> |c.value| == 24
  }

  /** Where a new tailer starts: at the checkpoint if it fits this file, at the
      top of a replaced or shortened file, at the end of an unknown one. */
  function StartOffset(file: File, checkpoint: Option<bytes>): (offset: nat)
    requires CheckpointReadable(checkpoint)
    ensures offset <= |file.data|
  {
    match checkpoint
    case None => |file.data|
    case Some(b) =>
      var c := DecodeCheckpoint(b);
      if c.signature == file.signature && c.offset <= |file.data| then c.offset else 0
  }

  function NewTail(file: File, checkpoint: Option<bytes>): Tail
    requires CheckpointReadable(checkpoint)
  {
    var offset := StartOffset(file, checkpoint);
    Tail(offset, file.signature, offset, file.signature)
  }

  /** A replaced or truncated file is read from its start. */
  function ReadFrom(file: File, t: Tail): (from: nat)
    ensures from <= |file.data|
  {
    if file.signature != t.signature || |file.data| < t.offset then 0 else t.offset
  }

  function Window(data: bytes, from: nat): (w: bytes)
    requires from <= |data|
    ensures |w| <= MAX_POLL_BYTES
  {
    if |data| - from <= MAX_POLL_BYTES then data[from..] else data[from..from + MAX_POLL_BYTES]
  }

  /** The lines one poll takes. */
  function Polled(data: bytes, from: nat): (lines: seq<bytes>)
    requires from <= |data|
    ensures |lines| <= MAX_POLL_RECORDS
  {
    var w := Window(data, from);
    TakeLines(w, |w| == MAX_POLL_BYTES, MAX_POLL_RECORDS)
  }

  function AfterPoll(file: File, t: Tail): Tail {
    var from := ReadFrom(file, t);
    t.(pendingOffset := from + |Flatten(Polled(file.data, from))|, pendingSignature := file.signature)
  }

  function AfterPersist(t: Tail): Tail {
    Tail(t.pendingOffset, t.pendingSignature, t.pendingOffset, t.pendingSignature)
  }

  // ---- One poll ----

  lemma WindowSlice(data: bytes, from: nat)
    requires from <= |data|
    ensures var w := Window(data, from); from + |w| <= |data| && w == data[from..from + |w|]
  {
  }

  /** A poll takes a contiguous piece starting where it was told to, within
      both bounds. */
  lemma PolledTiles(data: bytes, from: nat)
    requires from <= |data|
    ensures var taken := Flatten(Polled(data, from));
      && |taken| <= 512 * 1024 && |Polled(data, from)| <= 4096 && from + |taken| <= |data|
      && taken == data[from..from + |taken|]
  {
    var w := Window(data, from);
    WindowSlice(data, from);
    TakenIsPrefix(w, |w| == MAX_POLL_BYTES, MAX_POLL_RECORDS);
    var n := |Flatten(Polled(data, from))|;
    assert w[..n] == data[from..from + n];
  }

  /** A poll is empty exactly when what is left has no newline and is shorter
      than the window. */
  lemma PolledEmpty(data: bytes, from: nat)
    requires from <= |data|
    ensures Polled(data, from) == [] <==> 10 !in data[from..] && |data| - from < 512 * 1024
  {
    var w := Window(data, from);
    NothingTaken(w, |w| == MAX_POLL_BYTES, MAX_POLL_RECORDS);
  }

  /** Fewer lines than the bound means no complete line of the window was left. */
  lemma PolledMaximal(data: bytes, from: nat)
    requires from <= |data| && |Polled(data, from)| < 4096
    ensures var n := from + |Flatten(Polled(data, from))|;
      var end := if |data| - from <= 512 * 1024 then |data| else from + 512 * 1024;
      n <= end && 10 !in data[n..end]
  {
    var w := Window(data, from);
    TakenMaximal(w, |w| == MAX_POLL_BYTES, MAX_POLL_RECORDS);
    var n := |Flatten(Polled(data, from))|;
    assert w[n..] == data[from + n..from + |w|];
  }

  /** A file met for the first time: whatever it already holds is not shipped,
      and what is appended is, from its first byte. */
  lemma UnknownFile(file: File, x: bytes)
    ensures var from := NewTail(file, None).offset;
      && from == |file.data| && (file.data + x)[from..] == x
      && Flatten(Polled(file.data + x, from)) <= x
  {
    hide Flatten, Polled;
    PolledTiles(file.data + x, |file.data|);
    assert (file.data + x)[|file.data|..] == x;
  }

  /** After a poll and its checkpoint the tailer and one rebuilt from that
      checkpoint both go on behind the polled lines, also in a file that was
      replaced before the poll. */
  lemma PersistedResumes(file: File, t: Tail)
    requires |file.data| < U64_LIMIT && file.signature < U128_LIMIT
    ensures var from := ReadFrom(file, t); var t1 := AfterPoll(file, t);
      var next := from + |Flatten(Polled(file.data, from))|;
      var saved := EncodeCheckpoint(Checkpoint(t1.pendingOffset, t1.pendingSignature));
      && next <= |file.data|
      && DecodeCheckpoint(saved) == Checkpoint(next, file.signature)
      && ReadFrom(file, AfterPersist(t1)) == next == StartOffset(file, Some(saved))
      && ReadFrom(file, t1) == from
  {
    hide Flatten, Polled, LE, FromLE;
    PolledTiles(file.data, ReadFrom(file, t));
    var t1 := AfterPoll(file, t);
    CheckpointRoundTrip(Checkpoint(t1.pendingOffset, t1.pendingSignature));
  }

  /** A rotated or shortened file loses nothing to the old position: a running
      tailer and one rebuilt from the stale checkpoint both drain it from its
      first byte. */
  lemma ReplacedFile(file: File, t: Tail, checkpoint: bytes)
    requires |checkpoint| == 24
    requires DecodeCheckpoint(checkpoint) == Checkpoint(t.offset, t.signature)
    requires file.signature != t.signature || |file.data| < t.offset
    ensures var n := |Flatten(DrainFile(file.data, ReadFrom(file, t)))|;
      && StartOffset(file, Some(checkpoint)) == ReadFrom(file, t)
      && n <= |file.data| && Flatten(DrainFile(file.data, ReadFrom(file, t))) == file.data[..n]
      && LF !in file.data[n..]
  {
    hide Flatten, DrainFile, DecodeCheckpoint;
    DrainTakesAll(file.data, 0);
  }

  /** Unless the window is full and has no newline, every line is complete. */
  lemma PolledComplete(data: bytes, from: nat)
    requires from <= |data|
    requires |data| - from >= MAX_POLL_BYTES ==> LF in data[from..from + MAX_POLL_BYTES]
    ensures forall line :: line in Polled(data, from) ==> Complete(line)
  {
    var w := Window(data, from);
    TakenComplete(w, |w| == MAX_POLL_BYTES, MAX_POLL_RECORDS);
  }

  /** A complete line, or a whole window without a newline. */
  predicate WholeLine(line: bytes) {
    Complete(line) || (|line| == MAX_POLL_BYTES && LF !in line)
  }

  /** A poll never cuts a line that fits its window. */
  lemma PolledWhole(data: bytes, from: nat)
    requires from <= |data|
    ensures forall line :: line in Polled(data, from) ==> WholeLine(line)
  {
    var w := Window(data, from);
    if |w| == MAX_POLL_BYTES && LF !in w {
      LineLengthExact(w);
      TakeStep(w, true, MAX_POLL_RECORDS);
      var n := LineLength(w);
      assert n == |w| by {
        assert w[n - 1] in w;
      }
      assert w[..n] == w && w[n..] == [];
    } else {
      TakenComplete(w, |w| == MAX_POLL_BYTES, MAX_POLL_RECORDS);
    }
  }

  /** Polling again from the same place after growth repeats the earlier lines
      first. */
  lemma PolledAgain(data: bytes, x: bytes, from: nat)
    requires from <= |data|
    ensures Polled(data, from) <= Polled(data + x, from)
  {
    var w, w' := Window(data, from), Window(data + x, from);
    if |w| == MAX_POLL_BYTES {
      assert w' == w;
    } else {
      assert w == data[from..];
      assert w' == w + w'[|w|..];
      TakenAgain(w, w'[|w|..], |w'| == MAX_POLL_BYTES, MAX_POLL_RECORDS);
    }
  }

  /** Polling and persisting until nothing comes. */
  function DrainFile(data: bytes, from: nat): seq<bytes>
    requires from <= |data|
    decreases |data| - from
  {
    var lines := Polled(data, from);
    if lines == [] then []
    else
      PolledTiles(data, from);
      PolledAdvances(data, from);
      lines + DrainFile(data, from + |Flatten(lines)|)
  }

  lemma PolledAdvances(data: bytes, from: nat)
    requires from <= |data| && Polled(data, from) != []
    ensures |Flatten(Polled(data, from))| > 0
  {
  }

  /** Draining a file that does not change ends, having taken everything but a
      tail without newline that is shorter than a window. */
  lemma {:induction false} DrainTakesAll(data: bytes, from: nat)
    requires from <= |data|
    ensures var n := |Flatten(DrainFile(data, from))|;
      && from + n <= |data| && Flatten(DrainFile(data, from)) == data[from..from + n]
      && LF !in data[from + n..] && |data| - (from + n) < MAX_POLL_BYTES
    decreases |data| - from
  {
    hide Polled, Flatten;
    var lines := Polled(data, from);
    PolledEmpty(data, from);
    NothingFlattens();
    if lines != [] {
      PolledTiles(data, from);
      PolledAdvances(data, from);
      var mid := from + |Flatten(lines)|;
      DrainTakesAll(data, mid);
      FlattenConcat(lines, DrainFile(data, mid));
      var n := |Flatten(DrainFile(data, mid))|;
      SlicesMeet(data, from, mid, mid + n);
    }
  }

  lemma NothingFlattens()
    ensures Flatten([]) == []
  {
  }

  lemma SlicesMeet(data: bytes, a: nat, b: nat, c: nat)
    requires a <= b <= c <= |data|
    ensures data[a..b] + data[b..c] == data[a..c]
  {
  }

  // ---- The object ----

  class FileTailer {
    var offset: nat
    var signature: nat
    var pendingOffset: nat
    var pendingSignature: nat

    function View(): Tail
      reads this
    {
      Tail(offset, signature, pendingOffset, pendingSignature)
    }

    constructor (file: File, checkpoint: Option<bytes>)
      requires CheckpointReadable(checkpoint)
      ensures View() == NewTail(file, checkpoint)
    {
      var start := |file.data|;
      if checkpoint.Some? {
        var c := DecodeCheckpoint(checkpoint.value);
        start := if c.signature == file.signature && c.offset <= |file.data| then c.offset else 0;
      }
      offset, pendingOffset := start, start;
      signature, pendingSignature := file.signature, file.signature;
    }

    /** The bodies of the complete lines behind the committed offset. */
    method Poll(file: File) returns (records: seq<bytes>)
      modifies this`pendingOffset, this`pendingSignature
      ensures records == Bodies(Polled(file.data, ReadFrom(file, old(View()))))
      ensures View() == AfterPoll(file, old(View()))
    {
      hide TakeLines, Flatten, Bodies, LineLength, Window;
      NothingFlattens();
      NothingShipped();
      var startOffset := if file.signature != signature || |file.data| < offset then 0 else offset;
      var window := Window(file.data, startOffset);
      var windowFull := |window| == MAX_POLL_BYTES;
      records := [];
      var consumed := 0;
      ghost var taken: seq<bytes> := [];
      while consumed < |window|
        invariant consumed <= |window| && |records| == |taken| <= MAX_POLL_RECORDS
        invariant records == Bodies(taken) && consumed == |Flatten(taken)|
        invariant consumed == 0 <==> taken == []
        invariant TakeLines(window, windowFull, MAX_POLL_RECORDS)
               == taken + TakeLines(window[consumed..], windowFull && consumed == 0, MAX_POLL_RECORDS - |taken|)
        decreases |window| - consumed
      {
        if |records| == MAX_POLL_RECORDS {
          break;
        }
        var line := window[consumed..][..LineLength(window[consumed..])];
        var complete := line[|line| - 1] == LF;
        var splitOversizedLine := windowFull && consumed == 0;
        if !complete && !splitOversizedLine {
          break;
        }
        var text := if complete then line[..|line| - 1] else line;
        var body := if text != [] && text[|text| - 1] == CR then text[..|text| - 1] else text;
        TakeAdvance(window, consumed, splitOversizedLine, MAX_POLL_RECORDS - |taken|, taken, line);
        ShipOneMore(taken, line);
        records := records + [body];
        taken := taken + [line];
        consumed := consumed + |line|;
      }
      TakeStops(window[consumed..], windowFull && consumed == 0, MAX_POLL_RECORDS - |taken|);
      assert taken + [] == taken;
      pendingOffset := startOffset + consumed;
      pendingSignature := file.signature;
    }

    /** Renames a new checkpoint into place; when the file system refuses,
        nothing is committed. */
    method PersistCheckpoint(writable: bool) returns (checkpoint: Option<bytes>)
      modifies this`offset, this`signature
      ensures if writable
        then checkpoint == Some(EncodeCheckpoint(Checkpoint(old(pendingOffset), old(pendingSignature))))
             && View() == AfterPersist(old(View()))
        else checkpoint == None && View() == old(View())
    {
      if !writable {
        return None;
      }
      checkpoint := Some(EncodeCheckpoint(Checkpoint(pendingOffset, pendingSignature)));
      offset := pendingOffset;
      signature := pendingSignature;
    }
  }

  /** Opening fails when there is no file, or its checkpoint is not 24 bytes. */
  method OpenTailer(file: Option<File>, checkpoint: Option<bytes>) returns (t: FileTailer?)
    ensures t != null <==> file.Some? && CheckpointReadable(checkpoint)
    ensures t != null ==> fresh(t) && t.View() == NewTail(file.value, checkpoint)
  {
    if file.None? || (checkpoint.Some? && |checkpoint.value| != 24) {
      return null;
    }
    t := new FileTailer(file.value, checkpoint);
  }

  lemma NothingShipped()
    ensures Bodies([]) == []
  {
  }

  /** Where the poll loop stops, nothing more is taken. */
  lemma TakeStops(rest: bytes, split: bool, room: nat)
    requires rest == [] || room == 0 || (rest[LineLength(rest) - 1] != LF && !split)
    ensures TakeLines(rest, split, room) == []
  {
  }

  /** One turn of the poll loop. */
  lemma TakeAdvance(w: bytes, consumed: nat, split: bool, room: nat, taken: seq<bytes>, line: bytes)
    requires consumed < |w| && room > 0 && line == w[consumed..][..LineLength(w[consumed..])]
    requires Ended(line) || split
    ensures taken + TakeLines(w[consumed..], split, room)
         == (taken + [line]) + TakeLines(w[consumed + |line|..], false, room - 1)
  {
    hide Ended;
    var rest := w[consumed..];
    assert rest[|line|..] == w[consumed + |line|..];
    TakeFirst(rest, split, room, line);
    assert taken + ([line] + TakeLines(rest[|line|..], false, room - 1))
        == (taken + [line]) + TakeLines(rest[|line|..], false, room - 1);
  }

  lemma TakeFirst(rest: bytes, split: bool, room: nat, line: bytes)
    requires rest != [] && room > 0 && line == rest[..LineLength(rest)]
    requires Ended(line) || split
    ensures TakeLines(rest, split, room) == [line] + TakeLines(rest[|line|..], false, room - 1)
  {
  }

  lemma ShipOneMore(taken: seq<bytes>, line: bytes)
    ensures Flatten(taken + [line]) == Flatten(taken) + line
    ensures Bodies(taken + [line]) == Bodies(taken) + [Body(line)]
  {
    FlattenConcat(taken, [line]);
    BodiesConcat(taken, [line]);
    assert [line][1..] == [];
    assert Flatten([line]) == line + [];
  }
}
