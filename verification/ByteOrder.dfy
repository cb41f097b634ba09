/** Bytewise lexical order and sorting by it. */
module ByteOrder {
  import opened ByteStrings

  predicate LexLe(a: bytes, b: bytes) {
    if a == [] then true
    else if b == [] then false
    else a[0] < b[0] || (a[0] == b[0] && LexLe(a[1..], b[1..]))
  }

  lemma {:induction false} LexTotal(a: bytes, b: bytes)
    ensures LexLe(a, b) || LexLe(b, a)
    ensures LexLe(a, b) && LexLe(b, a) ==> a == b
  {
    if a != [] && b != [] {
      LexTotal(a[1..], b[1..]);
      assert a == [a[0]] + a[1..] && b == [b[0]] + b[1..];
    }
  }

  lemma {:induction false} LexTransitive(a: bytes, b: bytes, c: bytes)
    requires LexLe(a, b) && LexLe(b, c)
    ensures LexLe(a, c)
  {
    if a != [] && b != [] && c != [] && a[0] == b[0] == c[0] {
      LexTransitive(a[1..], b[1..], c[1..]);
    }
  }

  /** The smaller byte at the first place where they differ. */
  predicate SmallerAt(a: bytes, b: bytes, i: int) {
    0 <= i < |a| && i < |b| && a[..i] == b[..i] && a[i] < b[i]
  }

  /** The order of byte strings: a prefix comes first, and otherwise the first
      difference decides. */
  lemma {:induction false} LexLeMeans(a: bytes, b: bytes)
    ensures LexLe(a, b) <==> a <= b || exists i :: SmallerAt(a, b, i)
  {
    if a != [] && b != [] {
      var s, t := a[1..], b[1..];
      assert a == [a[0]] + s && b == [b[0]] + t;
      LexLeMeans(s, t);
      assert a[0] < b[0] ==> SmallerAt(a, b, 0);
      forall i | a[0] == b[0] && SmallerAt(s, t, i) ensures SmallerAt(a, b, i + 1) {
        assert a[..i + 1] == [a[0]] + s[..i] && b[..i + 1] == [b[0]] + t[..i];
      }
      forall i | SmallerAt(a, b, i) ensures a[0] < b[0] || (a[0] == b[0] && SmallerAt(s, t, i - 1)) {
        SmallerFirst(a, b, i);
      }
    }
  }

  lemma SmallerFirst(a: bytes, b: bytes, i: int)
    requires SmallerAt(a, b, i)
    ensures a[0] < b[0] || (a[0] == b[0] && SmallerAt(a[1..], b[1..], i - 1))
  {
    if i > 0 {
      assert a[..i][0] == a[0] && b[..i][0] == b[0];
      assert a[1..][..i - 1] == a[..i][1..] && b[1..][..i - 1] == b[..i][1..];
    }
  }

  predicate Sorted(s: seq<bytes>) {
    forall i, j :: 0 <= i < j < |s| ==> LexLe(s[i], s[j])
  }

  function Insert(x: bytes, s: seq<bytes>): seq<bytes> {
    if s == [] || LexLe(x, s[0]) then [x] + s else [s[0]] + Insert(x, s[1..])
  }

  function Sort(s: seq<bytes>): seq<bytes> {
    if s == [] then [] else Insert(s[0], Sort(s[1..]))
  }

  lemma {:induction false} InsertKeeps(x: bytes, s: seq<bytes>)
    requires Sorted(s)
    ensures Sorted(Insert(x, s)) && multiset(Insert(x, s)) == multiset(s) + multiset{x}
  {
    hide LexLe;
    if s != [] && LexLe(x, s[0]) {
      forall j | 0 <= j < |s| ensures LexLe(x, s[j]) {
        if j > 0 {
          LexTransitive(x, s[0], s[j]);
        }
      }
      SortedPrepend(x, s);
    } else if s != [] {
      var rest := Insert(x, s[1..]);
      InsertKeeps(x, s[1..]);
      LexTotal(x, s[0]);
      assert s == [s[0]] + s[1..];
      forall j | 0 <= j < |rest| ensures LexLe(s[0], rest[j]) {
        assert rest[j] in multiset(rest);
        assert rest[j] == x || rest[j] in s[1..];
      }
      SortedPrepend(s[0], rest);
    }
  }

  lemma SortedPrepend(x: bytes, s: seq<bytes>)
    requires Sorted(s) && forall j :: 0 <= j < |s| ==> LexLe(x, s[j])
    ensures Sorted([x] + s)
  {
    hide LexLe;
  }

  /** Sorting sorts and keeps every element with its multiplicity. */
  lemma {:induction false} SortKeeps(s: seq<bytes>)
    ensures Sorted(Sort(s)) && multiset(Sort(s)) == multiset(s)
  {
    if s != [] {
      SortKeeps(s[1..]);
      InsertKeeps(s[0], Sort(s[1..]));
      assert s == [s[0]] + s[1..];
    }
  }

  /** There is one sorted arrangement of a multiset. */
  lemma {:induction false} SortedUnique(s: seq<bytes>, t: seq<bytes>)
    requires Sorted(s) && Sorted(t) && multiset(s) == multiset(t)
    ensures s == t
  {
    hide LexLe;
    SameLength(s, t);
    if s != [] {
      FirstIsLeast(s, t);
      FirstIsLeast(t, s);
      LexTotal(s[0], t[0]);
      SameTails(s, t);
      hide Sorted;
      SortedUnique(s[1..], t[1..]);
      assert s == [s[0]] + s[1..] && t == [t[0]] + t[1..];
    }
  }

  lemma SameLength(s: seq<bytes>, t: seq<bytes>)
    requires multiset(s) == multiset(t)
    ensures |s| == |t|
  {
    assert |multiset(s)| == |s| && |multiset(t)| == |t|;
  }

  lemma SameTails(s: seq<bytes>, t: seq<bytes>)
    requires Sorted(s) && Sorted(t) && s != [] && t != [] && s[0] == t[0] && multiset(s) == multiset(t)
    ensures Sorted(s[1..]) && Sorted(t[1..]) && multiset(s[1..]) == multiset(t[1..])
  {
    TailSorted(s);
    TailSorted(t);
    hide Sorted;
    TailMultiset(s);
    TailMultiset(t);
  }

  lemma TailSorted(s: seq<bytes>)
    requires Sorted(s) && s != []
    ensures Sorted(s[1..])
  {
    hide LexLe;
  }

  lemma TailMultiset(s: seq<bytes>)
    requires s != []
    ensures multiset(s[1..]) == multiset(s) - multiset{s[0]}
  {
    assert s == [s[0]] + s[1..];
  }

  lemma FirstIsLeast(s: seq<bytes>, t: seq<bytes>)
    requires Sorted(s) && s != [] && t != [] && multiset(s) == multiset(t)
    ensures LexLe(s[0], t[0])
  {
    assert t[0] in multiset(s);
    var i :| 0 <= i < |s| && s[i] == t[0];
    LexTotal(s[0], s[0]);
  }

  /** Order does not matter, everything else does. */
  lemma SortCanonical(a: seq<bytes>, b: seq<bytes>)
    ensures Sort(a) == Sort(b) <==> multiset(a) == multiset(b)
  {
    SortKeeps(a);
    SortKeeps(b);
    if multiset(a) == multiset(b) {
      SortedUnique(Sort(a), Sort(b));
    }
  }
}
