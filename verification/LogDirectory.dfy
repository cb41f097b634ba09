/** The log directory as an object: the file operations the log performs, each
    recording in `history` every state it takes the disk through. */
module LogDirectory {
  import opened ByteStrings
  import opened Wrappers
  import opened WalModel

  function Ids(segs: seq<Segment>): (ids: seq<nat>)
    ensures |ids| == |segs| && forall i :: 0 <= i < |segs| ==> ids[i] == segs[i].id
  {
    if segs == [] then [] else [segs[0].id] + Ids(segs[1..])
  }

  lemma WriteTraceConcat(d: WalModel.Disk, x: bytes, y: bytes)
    requires d.segments != []
    ensures var mid := d.(segments := AppendLast(d.segments, x));
      && AppendLast(mid.segments, y) == AppendLast(d.segments, x + y)
      && WriteTrace(d, x + y) == WriteTrace(d, x) + WriteTrace(mid, y)
  {
    var mid := d.(segments := AppendLast(d.segments, x));
    forall z: bytes ensures AppendLast(mid.segments, z) == AppendLast(d.segments, x + z) {
      var last := d.segments[|d.segments| - 1];
      assert last.data + (x + z) == last.data + x + z;
    }
    forall i | 0 <= i < |x + y|
      ensures WriteTrace(d, x + y)[i] == (WriteTrace(d, x) + WriteTrace(mid, y))[i]
    {
      if i < |x| {
        assert (x + y)[..i + 1] == x[..i + 1];
      } else {
        assert (x + y)[..i + 1] == x + y[..i - |x| + 1];
      }
    }
  }

  class Directory {
    var segments: seq<Segment>
    var cursorFile: Option<bytes>
    ghost var history: seq<WalModel.Disk>

    constructor (segments: seq<Segment>, cursorFile: Option<bytes>)
      ensures this.segments == segments && this.cursorFile == cursorFile && history == []
    {
      this.segments, this.cursorFile, history := segments, cursorFile, [];
    }

    ghost function Contents(): WalModel.Disk
      reads this
    {
      WalModel.Disk(segments, cursorFile)
    }

    /** Segment numbers in ascending order. */
    method List() returns (ids: seq<nat>)
      ensures ids == Ids(segments)
    {
      ids := Ids(segments);
    }

    /** Opens a segment file, creating it when it is new. */
    method OpenSegment(id: nat)
      requires forall g :: g in segments ==> g.id <= id
      modifies this
      ensures cursorFile == old(cursorFile)
      ensures if exists g :: g in old(segments) && g.id == id
              then segments == old(segments) && history == old(history)
              else segments == old(segments) + [Segment(id, [])] && history == old(history) + [Contents()]
    {
      if Find(segments, id) == |segments| {
        NotFound(segments, id);
        segments := segments + [Segment(id, [])];
        history := history + [Contents()];
      }
    }

    static lemma {:induction false} NotFound(segs: seq<Segment>, id: nat)
      requires Find(segs, id) == |segs|
      ensures forall g :: g in segs ==> g.id != id
    {
      if segs != [] {
        NotFound(segs[1..], id);
      }
    }

    /** Appends to the newest segment; the bytes land one after another. */
    method Extend(x: bytes)
      requires segments != []
      modifies this
      ensures cursorFile == old(cursorFile)
      ensures segments == AppendLast(old(segments), x)
      ensures history == old(history) + WriteTrace(old(Contents()), x)
    {
      ghost var before := Contents();
      var base := segments;
      for i := 0 to |x|
        invariant cursorFile == before.cursorFile
        invariant segments == if i == 0 then base else AppendLast(base, x[..i])
        invariant history == old(history) + WriteTrace(before, x)[..i]
      {
        segments := AppendLast(base, x[..i + 1]);
        history := history + [Contents()];
        assert WriteTrace(before, x)[..i + 1] == WriteTrace(before, x)[..i] + [WriteTrace(before, x)[i]];
      }
      assert x[..|x|] == x;
      if x == [] {
        var n := |base| - 1;
        assert base[n].data + x == base[n].data;
        assert base == base[..n] + [Segment(base[n].id, base[n].data + x)];
      }
    }

    method Length(id: nat) returns (n: nat)
      requires Find(segments, id) < |segments|
      ensures n == |segments[Find(segments, id)].data|
    {
      n := |segments[Find(segments, id)].data|;
    }

    method Read(id: nat, from: nat, to: nat) returns (b: bytes)
      requires Find(segments, id) < |segments|
      requires from <= to <= |segments[Find(segments, id)].data|
      ensures b == segments[Find(segments, id)].data[from..to]
    {
      b := segments[Find(segments, id)].data[from..to];
    }

    method Truncate(id: nat, len: nat)
      requires Find(segments, id) < |segments|
      requires len <= |segments[Find(segments, id)].data|
      modifies this
      ensures cursorFile == old(cursorFile)
      ensures var i := Find(old(segments), id);
        segments == old(segments)[..i] + [Segment(id, old(segments)[i].data[..len])] + old(segments)[i + 1..]
      ensures history == old(history) + [Contents()]
    {
      var i := Find(segments, id);
      segments := segments[..i] + [Segment(id, segments[i].data[..len])] + segments[i + 1..];
      history := history + [Contents()];
    }

    method Remove(id: nat)
      requires Find(segments, id) < |segments|
      modifies this
      ensures cursorFile == old(cursorFile)
      ensures var i := Find(old(segments), id); segments == old(segments)[..i] + old(segments)[i + 1..]
      ensures history == old(history) + [Contents()]
    {
      var i := Find(segments, id);
      segments := segments[..i] + segments[i + 1..];
      history := history + [Contents()];
    }

    /** The rename of the freshly written temporary file over the cursor file. */
    method ReplaceCursor(content: bytes)
      modifies this
      ensures segments == old(segments) && cursorFile == Some(content)
      ensures history == old(history) + [Contents()]
    {
      cursorFile := Some(content);
      history := history + [Contents()];
    }
  }
}
