/** Damage to the log while it is in use: which of the batches it holds come
    through, and that the rest of the books stays as it was. */
module SkipProofs {
  import opened ByteStrings
  import opened Frames
  import opened WalModel
  import opened WalRuns
  import opened WalDamage
  import opened Accounts
  import opened Export

  /** Some records of the directory are damaged under a log that may be open. */
  function Struck(m: Machine, segs: seq<Segment>): (r: Machine)
    requires Ok(m)
  {
    if !DiskDamaged(m.Disk().segments, segs) then m
    else
      match m
      case Down(d) => Down(d.(segments := segs))
      case Up(s) =>
        OverInv(s, segs);
        Up(Over(s, segs))
  }

  lemma StruckOk(m: Machine, segs: seq<Segment>)
    requires Ok(m)
    ensures Ok(Struck(m, segs))
    ensures Struck(m, segs).Disk()
         == if DiskDamaged(m.Disk().segments, segs) then m.Disk().(segments := segs) else m.Disk()
  {
    hide DiskDamaged, Indexed, AllWhole, Ascending, Representable, CursorBehind;
    if DiskDamaged(m.Disk().segments, segs) {
      match m
      case Down(d) => DamagedDiskOk(d, segs);
      case Up(s) => OverInv(s, segs);
    }
  }

  /** The numbers of the batches that come through: `ids` number the intact
      ones of `es`, and `es'` is what a damage made of them. */
  function Undamaged(es: seq<Entry>, es': seq<Entry>, ids: seq<nat>): (left: seq<nat>)
    requires |es| == |es'|
    ensures forall n :: n in left ==> n in ids
  {
    if es == [] || ids == [] then []
    else if !es[0].frame.Intact() then Undamaged(es[1..], es'[1..], ids)
    else (if es[0] == es'[0] then [ids[0]] else []) + Undamaged(es[1..], es'[1..], ids[1..])
  }

  /** They number what a rescan delivers afterwards, in the same order. */
  lemma {:induction false} UndamagedNames(l: Ledger, es: seq<Entry>, es': seq<Entry>, ids: seq<nat>)
    requires EntriesDamaged(es, es') && Names(l, ids, Live(es)) && Increasing(ids)
    ensures var left := Undamaged(es, es', ids); Names(l, left, Live(es')) && Increasing(left)
    decreases |es|
  {
    hide Frame.Intact, Damaged, EntriesDamaged;
    SameCount(es, es');
    if es == [] {
      assert es' == [] && ids == [];
    } else {
      var rest, rest' := es[1..], es'[1..];
      TailDamaged(es, es');
      LiveHead(es);
      LiveHead(es');
      HeadDamaged(es, es');
      if es[0].frame.Intact() {
        NamesTail(l, ids, es[0].frame.payload, Live(rest));
        UndamagedNames(l, rest, rest', ids[1..]);
        UndamagedHead(es, es', ids);
        hide Undamaged, Names, Increasing, Live;
        var left := Undamaged(rest, rest', ids[1..]);
        if es[0] == es'[0] {
          NamesFront(l, ids[0], left, es[0].frame.payload, Live(rest'));
          IncreasingFront(ids, left);
        }
      } else {
        UndamagedNames(l, rest, rest', ids);
        UndamagedSkip(es, es', ids);
      }
    }
  }

  lemma SameCount(es: seq<Entry>, es': seq<Entry>)
    requires EntriesDamaged(es, es')
    ensures |es| == |es'|
  {
  }

  lemma UndamagedHead(es: seq<Entry>, es': seq<Entry>, ids: seq<nat>)
    requires |es| == |es'| && es != [] && ids != [] && es[0].frame.Intact()
    ensures var left := Undamaged(es[1..], es'[1..], ids[1..]);
      Undamaged(es, es', ids) == if es[0] == es'[0] then [ids[0]] + left else left
  {
    hide Frame.Intact;
    var left := Undamaged(es[1..], es'[1..], ids[1..]);
    assert [] + left == left;
  }

  /** Records that were not deliverable before have no number. */
  lemma UndamagedSkip(es: seq<Entry>, es': seq<Entry>, ids: seq<nat>)
    requires |es| == |es'| && es != [] && !es[0].frame.Intact()
    ensures Undamaged(es, es', ids) == if ids == [] then [] else Undamaged(es[1..], es'[1..], ids)
    ensures ids == [] ==> Undamaged(es[1..], es'[1..], ids) == []
  {
    hide Frame.Intact;
  }

  lemma TailDamaged(es: seq<Entry>, es': seq<Entry>)
    requires EntriesDamaged(es, es') && es != []
    ensures EntriesDamaged(es[1..], es'[1..])
  {
    hide Damaged;
  }

  /** A record is the same afterwards, or will not be delivered. */
  lemma HeadDamaged(es: seq<Entry>, es': seq<Entry>)
    requires EntriesDamaged(es, es') && es != []
    ensures es[0] == es'[0] || (es[0].frame.Intact() && !es'[0].frame.Intact())
  {
    hide Frame.Intact;
    if es[0].frame != es'[0].frame {
      DamageDetected(es[0].frame, es'[0].frame);
      DamagedWasIntact(es[0].frame, es'[0].frame);
    }
  }

  lemma DamagedWasIntact(f: Frame, g: Frame)
    requires Damaged(f, g)
    ensures f.Intact()
  {
  }

  lemma LiveHead(es: seq<Entry>)
    requires es != []
    ensures Live(es) == if es[0].frame.Intact() then [es[0].frame.payload] + Live(es[1..]) else Live(es[1..])
  {
    hide Frame.Intact;
  }

  lemma {:induction false} NamesTail(l: Ledger, ids: seq<nat>, p: bytes, rest: seq<bytes>)
    requires Names(l, ids, [p] + rest) && Increasing(ids)
    ensures ids != [] && ids[0] < |l.subs| && l.subs[ids[0]] == p
    ensures Names(l, ids[1..], rest) && Increasing(ids[1..])
  {
    assert ids[0] < |l.subs|;
    assert forall i :: 0 <= i < |rest| ==> rest[i] == ([p] + rest)[i + 1] && ids[1..][i] == ids[i + 1];
  }

  lemma {:induction false} NamesFront(l: Ledger, n: nat, ids: seq<nat>, p: bytes, rest: seq<bytes>)
    requires Names(l, ids, rest) && n < |l.subs| && l.subs[n] == p
    ensures Names(l, [n] + ids, [p] + rest)
  {
  }

  lemma {:induction false} IncreasingFront(ids: seq<nat>, left: seq<nat>)
    requires Increasing(ids) && ids != [] && Increasing(left) && forall n :: n in left ==> n in ids[1..]
    ensures Increasing([ids[0]] + left)
  {
    forall j | 0 <= j < |left| ensures ids[0] < left[j] {
      assert left[j] in ids[1..];
    }
  }

  /** The ledger after a damage. */
  function AfterDamage(l: Ledger, m: Machine, segs: seq<Segment>): Ledger
    requires Ok(m)
  {
    if !DiskDamaged(m.Disk().segments, segs) then l
    else
      DiskOkOf(m);
      DamagedRecover(m.Disk(), segs);
      Skip(l, Undamaged(Recover(m.Disk()), Recover(m.Disk().(segments := segs)), l.queue))
  }

  lemma DamageMatches(l: Ledger, m: Machine, segs: seq<Segment>, log: seq<Attempt>)
    requires Ok(m) && Matches(l, Queue(m.Disk()), log)
    ensures Ok(Struck(m, segs)) && Matches(AfterDamage(l, m, segs), Queue(Struck(m, segs).Disk()), log)
  {
    hide DiskDamaged, Ascending, Representable, CursorBehind, Recover, EntriesDamaged, Undamaged, InOrder, AllSafe,
      Names, Indexed, AllWhole, Live;
    StruckOk(m, segs);
    if DiskDamaged(m.Disk().segments, segs) {
      DiskOkOf(m);
      DamagedRecover(m.Disk(), segs);
      var es, es' := Recover(m.Disk()), Recover(m.Disk().(segments := segs));
      SameCount(es, es');
      QueueAscends(l, Queue(m.Disk()), log);
      UndamagedNames(l, es, es', l.queue);
      SkipMatches(l, Queue(m.Disk()), log, Undamaged(es, es', l.queue), Live(es'));
    }
  }

  lemma QueueAscends(l: Ledger, q: seq<bytes>, log: seq<Attempt>)
    requires Matches(l, q, log)
    ensures Increasing(l.queue)
  {
  }
}
