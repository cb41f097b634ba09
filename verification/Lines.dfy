/** Splitting a window of file bytes into lines, and the bounded selection a
    poll makes from it. */
module Lines {
  import opened ByteStrings

  const LF: byte := 10
  const CR: byte := 13
  const MAX_POLL_BYTES: nat := 512 * 1024
  const MAX_POLL_RECORDS: nat := 4096

  /** Length of the first line, its newline included if it has one. */
  function LineLength(b: bytes): (n: nat)
    ensures n <= |b| && (b != [] ==> n > 0)
  {
    if b == [] then 0 else if b[0] == LF then 1 else 1 + LineLength(b[1..])
  }

  /** A newline ends the first line, and none is inside it. */
  lemma {:induction false} LineLengthExact(b: bytes)
    requires b != []
    ensures var n := LineLength(b);
      && LF !in b[..n - 1]
      && (b[n - 1] != LF ==> n == |b| && LF !in b)
  {
    if b[0] != LF {
      var rest := b[1..];
      assert b == [b[0]] + rest;
      if rest != [] {
        LineLengthExact(rest);
        var n := LineLength(rest);
        assert b[..n] == [b[0]] + rest[..n - 1];
      }
    }
  }

  predicate Ended(line: bytes) {
    line != [] && line[|line| - 1] == LF
  }

  /** A complete line: one newline, at the end. */
  predicate Complete(line: bytes) {
    Ended(line) && LF !in line[..|line| - 1]
  }

  /** `split_inclusive` on newlines. */
  function SplitInclusive(b: bytes): seq<bytes>
    decreases |b|
  {
    if b == [] then [] else [b[..LineLength(b)]] + SplitInclusive(b[LineLength(b)..])
  }

  /** The lines a poll takes from its window: complete ones, at most `room`,
      and one incomplete line only when `split` allows it at the front. */
  function TakeLines(w: bytes, split: bool, room: nat): (lines: seq<bytes>)
    ensures |lines| <= room
    decreases |w|
  {
    if room == 0 || w == [] then []
    else
      var n := LineLength(w);
      if w[n - 1] != LF && !split then [] else [w[..n]] + TakeLines(w[n..], false, room - 1)
  }

  function Flatten(lines: seq<bytes>): bytes {
    if lines == [] then [] else lines[0] + Flatten(lines[1..])
  }

  /** What is shipped of a line: newline and one carriage return go. */
  function Body(line: bytes): bytes {
    var text := if Ended(line) then line[..|line| - 1] else line;
    if text != [] && text[|text| - 1] == CR then text[..|text| - 1] else text
  }

  function Bodies(lines: seq<bytes>): seq<bytes> {
    if lines == [] then [] else [Body(lines[0])] + Bodies(lines[1..])
  }

  /** Exactly the line ending goes, for every line: one newline, then one
      carriage return; a fragment without newline loses a trailing carriage
      return too. */
  lemma BodyOf(text: bytes)
    ensures Body(text + [13]) == Body(text + [13, 10]) == text
    ensures text == [] || text[|text| - 1] != 13 ==> Body(text + [10]) == text
    ensures text == [] || (text[|text| - 1] != 13 && text[|text| - 1] != 10) ==> Body(text) == text
  {
    assert (text + [LF])[..|text|] == text && (text + [CR])[..|text|] == text;
    assert (text + [CR, LF])[..|text| + 1] == text + [CR];
  }

  /** A second carriage return stays. */
  lemma BodyKeepsInner(text: bytes)
    ensures Body(text + [CR, CR, LF]) == text + [CR]
  {
    assert (text + [CR, CR, LF])[..|text| + 2] == text + [CR, CR];
    assert (text + [CR, CR])[..|text| + 1] == text + [CR];
  }

  lemma {:induction false} FlattenConcat(a: seq<bytes>, b: seq<bytes>)
    ensures Flatten(a + b) == Flatten(a) + Flatten(b)
  {
    if a == [] {
      assert a + b == b;
    } else {
      assert (a + b)[1..] == a[1..] + b;
      FlattenConcat(a[1..], b);
    }
  }

  lemma {:induction false} BodiesConcat(a: seq<bytes>, b: seq<bytes>)
    ensures Bodies(a + b) == Bodies(a) + Bodies(b)
  {
    if a == [] {
      assert a + b == b;
    } else {
      assert (a + b)[1..] == a[1..] + b;
      BodiesConcat(a[1..], b);
    }
  }

  /** One body per line, in order. */
  lemma {:induction false} BodiesEach(lines: seq<bytes>, i: nat)
    requires i < |lines|
    ensures |Bodies(lines)| == |lines| && Bodies(lines)[i] == Body(lines[i])
  {
    if i > 0 {
      BodiesEach(lines[1..], i - 1);
    } else if |lines| > 1 {
      BodiesEach(lines[1..], 0);
    }
  }

  lemma PrefixPrepend<T>(a: seq<T>, b: seq<T>, c: seq<T>)
    requires a <= b
    ensures c + a <= c + b
  {
  }

  /** One step of the selection: nothing, or the first line and then what is
      taken behind it. */
  lemma TakeStep(w: bytes, split: bool, room: nat)
    requires room > 0 && w != []
    ensures var n := LineLength(w);
      TakeLines(w, split, room) ==
        if w[n - 1] != LF && !split then [] else [w[..n]] + TakeLines(w[n..], false, room - 1)
  {
    hide LineLength;
  }

  lemma FlattenHead(w: bytes, n: nat, rest: seq<bytes>)
    requires n <= |w| && Flatten(rest) <= w[n..]
    ensures Flatten([w[..n]] + rest) <= w
  {
    assert Flatten([w[..n]] + rest) == w[..n] + Flatten(rest);
    hide Flatten;
    PrefixPrepend(Flatten(rest), w[n..], w[..n]);
    assert w == w[..n] + w[n..];
  }

  /** What is taken are the first bytes of the window, in order. */
  lemma {:induction false} TakenIsPrefix(w: bytes, split: bool, room: nat)
    ensures Flatten(TakeLines(w, split, room)) <= w
    decreases |w|
  {
    if room > 0 && w != [] {
      TakeStep(w, split, room);
      hide TakeLines, LineLength, Ended;
      var n := LineLength(w);
      if w[n - 1] == LF || split {
        var rest := TakeLines(w[n..], false, room - 1);
        TakenIsPrefix(w[n..], false, room - 1);
        hide Flatten;
        FlattenHead(w, n, rest);
        assert TakeLines(w, split, room) == [w[..n]] + rest;
      } else {
        assert TakeLines(w, split, room) == [];
      }
    } else {
      hide LineLength;
      assert TakeLines(w, split, room) == [];
    }
  }

  /** Only a window without any newline is shipped as an incomplete line. */
  lemma {:induction false} TakenComplete(w: bytes, split: bool, room: nat)
    requires split ==> LF in w
    ensures forall line :: line in TakeLines(w, split, room) ==> Complete(line)
    decreases |w|
  {
    if room > 0 && w != [] {
      var n := LineLength(w);
      LineLengthExact(w);
      TakeStep(w, split, room);
      hide TakeLines, LineLength;
      if w[n - 1] == LF {
        TakenComplete(w[n..], false, room - 1);
        assert w[..n][..n - 1] == w[..n - 1];
      }
    }
  }

  /** A poll returns nothing exactly when its window has no newline and may
      not be split. */
  lemma NothingTaken(w: bytes, split: bool, room: nat)
    requires room > 0
    ensures TakeLines(w, split, room) == [] <==> LF !in w && (split ==> w == [])
  {
    if w != [] {
      var n := LineLength(w);
      LineLengthExact(w);
      TakeStep(w, split, room);
      hide TakeLines, LineLength;
      if w[n - 1] == LF {
        assert w[n - 1] in w;
      }
    }
  }

  lemma FlattenLeaves(w: bytes, n: nat, rest: seq<bytes>)
    requires n <= |w| && |Flatten(rest)| <= |w[n..]|
    ensures |Flatten([w[..n]] + rest)| == n + |Flatten(rest)|
    ensures w[n..][|Flatten(rest)|..] == w[n + |Flatten(rest)|..]
  {
    assert Flatten([w[..n]] + rest) == w[..n] + Flatten(rest);
  }

  /** A poll stops early for one reason only: with room left it has taken every
      complete line of its window. */
  lemma {:induction false} TakenMaximal(w: bytes, split: bool, room: nat)
    ensures var lines := TakeLines(w, split, room);
      |Flatten(lines)| <= |w| && (|lines| < room ==> LF !in w[|Flatten(lines)|..])
    decreases |w|
  {
    if room > 0 && w != [] {
      TakeStep(w, split, room);
      hide TakeLines, Ended;
      var n := LineLength(w);
      LineLengthExact(w);
      hide LineLength;
      if w[n - 1] == LF || split {
        var rest := TakeLines(w[n..], false, room - 1);
        TakenMaximal(w[n..], false, room - 1);
        hide Flatten;
        FlattenLeaves(w, n, rest);
      } else {
        assert TakeLines(w, split, room) == [];
      }
    }
  }

  lemma GrownSlices(w: bytes, x: bytes, n: nat)
    requires 0 < n <= |w|
    ensures (w + x)[..n] == w[..n] && (w + x)[n..] == w[n..] + x && (w + x)[n - 1] == w[n - 1]
  {
  }

  /** Looking again at a longer window repeats the complete lines taken before,
      as a prefix. */
  lemma {:induction false} TakenAgain(w: bytes, x: bytes, split: bool, room: nat)
    ensures TakeLines(w, false, room) <= TakeLines(w + x, split, room)
    decreases |w|
  {
    if room > 0 && w != [] {
      var n := LineLength(w);
      TakeStep(w, false, room);
      if w[n - 1] == LF {
        LineLengthStable(w, x);
        TakeStep(w + x, split, room);
        hide TakeLines, LineLength;
        GrownSlices(w, x, n);
        TakenAgain(w[n..], x, false, room - 1);
        PrefixPrepend(TakeLines(w[n..], false, room - 1), TakeLines(w[n..] + x, false, room - 1), [w[..n]]);
      } else {
        hide TakeLines, LineLength;
        assert TakeLines(w, false, room) == [];
      }
    }
  }

  lemma {:induction false} LineLengthStable(w: bytes, x: bytes)
    requires w != [] && w[LineLength(w) - 1] == LF
    ensures LineLength(w + x) == LineLength(w)
  {
    assert (w + x)[0] == w[0];
    if w[0] != LF {
      assert (w + x)[1..] == w[1..] + x;
      assert w[1..] != [];
      LineLengthStable(w[1..], x);
    }
  }

  /** Complete lines are the split of the bytes they make up. */
  lemma {:induction false} SplitUnique(lines: seq<bytes>)
    requires forall line :: line in lines ==> Complete(line)
    ensures SplitInclusive(Flatten(lines)) == lines
  {
    if lines != [] {
      var rest := Flatten(lines[1..]);
      SplitUnique(lines[1..]);
      CompleteLength(lines[0], rest);
      var b := lines[0] + rest;
      assert b[..|lines[0]|] == lines[0] && b[|lines[0]|..] == rest;
    }
  }

  lemma {:induction false} CompleteLength(line: bytes, rest: bytes)
    requires Complete(line)
    ensures LineLength(line + rest) == |line|
  {
    assert (line + rest)[0] == line[0];
    if |line| > 1 {
      assert line[0] in line[..|line| - 1];
      assert (line + rest)[1..] == line[1..] + rest;
      assert line[1..][..|line| - 2] == line[..|line| - 1][1..];
      CompleteLength(line[1..], rest);
    }
  }
}
