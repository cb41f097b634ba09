/** Slash-separated paths: the string test for "inside a namespace" is the
    prefix test on path segments. */
module Namespace {
  import opened ByteStrings

  const SLASH: byte := 47
  const DOT: byte := 46

  /** One byte in front of a split: a new segment, or a longer first one. */
  function Grow(c: byte, segs: seq<bytes>): seq<bytes>
    requires segs != []
  {
    if c == SLASH then [[]] + segs else [[c] + segs[0]] + segs[1..]
  }

  /** `split('/')`: always at least one segment. */
  function Split(s: bytes): (segs: seq<bytes>)
    ensures segs != []
  {
    if s == [] then [[]] else Grow(s[0], Split(s[1..]))
  }

  function Join(segs: seq<bytes>): bytes
    requires segs != []
  {
    if |segs| == 1 then segs[0] else segs[0] + [SLASH] + Join(segs[1..])
  }

  predicate CleanSegment(seg: bytes) {
    seg != [] && seg != [DOT] && seg != [DOT, DOT]
  }

  /** Non-empty, and no empty, `.` or `..` segment. */
  predicate CleanPath(s: bytes) {
    s != [] && forall seg :: seg in Split(s) ==> CleanSegment(seg)
  }

  /** The source's test. */
  predicate Within(project: bytes, ns: bytes) {
    CleanPath(project) && CleanPath(ns) && (project == ns || ns + [SLASH] <= project)
  }

  lemma JoinGrow(c: byte, segs: seq<bytes>)
    requires segs != []
    ensures Join(Grow(c, segs)) == [c] + Join(segs)
  {
    if c == SLASH {
      assert [] + [SLASH] + Join(segs) == [SLASH] + Join(segs);
    } else if |segs| > 1 {
      assert Grow(c, segs)[1..] == segs[1..];
      assert ([c] + segs[0]) + [SLASH] + Join(segs[1..]) == [c] + (segs[0] + [SLASH] + Join(segs[1..]));
    }
  }

  lemma {:induction false} SplitJoin(s: bytes)
    ensures Join(Split(s)) == s
  {
    if s != [] {
      SplitJoin(s[1..]);
      JoinGrow(s[0], Split(s[1..]));
      hide Join, Grow;
      assert s == [s[0]] + s[1..];
    }
  }

  lemma HeadOfSum(x: seq<bytes>, y: seq<bytes>)
    requires x != []
    ensures (x + y)[0] == x[0] && (x + y)[1..] == x[1..] + y
  {
  }

  lemma GrowSum(c: byte, x: seq<bytes>, y: seq<bytes>)
    requires x != []
    ensures Grow(c, x + y) == Grow(c, x) + y
  {
    HeadOfSum(x, y);
    if c == SLASH {
      Associative([[]], x, y);
    } else {
      Associative([[c] + x[0]], x[1..], y);
    }
  }

  /** A slash separates the segments before it from those behind. */
  lemma {:induction false} SplitAtSlash(a: bytes, b: bytes)
    ensures Split(a + [SLASH] + b) == Split(a) + Split(b)
  {
    if a == [] {
      assert a + [SLASH] + b == [SLASH] + b;
      assert ([SLASH] + b)[1..] == b;
    } else {
      var s := a + [SLASH] + b;
      assert s[0] == a[0] && s[1..] == a[1..] + [SLASH] + b;
      SplitAtSlash(a[1..], b);
      hide Grow;
      GrowSum(a[0], Split(a[1..]), Split(b));
    }
  }

  lemma {:induction false} JoinConcat(a: seq<bytes>, b: seq<bytes>)
    requires a != [] && b != []
    ensures Join(a + b) == Join(a) + [SLASH] + Join(b)
  {
    assert (a + b)[1..] == a[1..] + b;
    if |a| == 1 {
      assert a[1..] + b == b;
    } else {
      JoinConcat(a[1..], b);
      assert a[0] + [SLASH] + (Join(a[1..]) + [SLASH] + Join(b)) == (a[0] + [SLASH] + Join(a[1..])) + [SLASH] + Join(b);
    }
  }

  lemma {:induction false} SplitPlain(s: bytes)
    requires SLASH !in s
    ensures Split(s) == [s]
  {
    if s != [] {
      SplitPlain(s[1..]);
      assert [s[0]] + s[1..] == s;
    }
  }

  /** Clean paths, exactly: without a slash neither empty nor one or two dots,
      and with one, both sides of it are clean. */
  lemma CleanExactly(a: bytes, b: bytes)
    ensures 47 !in a ==> (CleanPath(a) <==> a != [] && a != [46] && a != [46, 46])
    ensures CleanPath(a + [47] + b) <==> CleanPath(a) && CleanPath(b)
  {
    if SLASH !in a {
      SplitPlain(a);
      OneSegment(a);
    }
    SplitAtSlash(a, b);
    NeverEmpty(a);
    NeverEmpty(b);
    NeverEmpty(a + [SLASH] + b);
    hide Split, CleanPath;
    CleanSum(Split(a), Split(b));
  }

  lemma OneSegment(s: bytes)
    requires Split(s) == [s]
    ensures CleanPath(s) <==> CleanSegment(s)
  {
    assert s in Split(s);
    hide Split;
  }

  /** The empty path has an empty segment. */
  lemma NeverEmpty(s: bytes)
    ensures CleanPath(s) <==> forall seg :: seg in Split(s) ==> CleanSegment(seg)
  {
    if s == [] {
      assert [] in Split(s);
    }
  }

  lemma CleanSum(x: seq<bytes>, y: seq<bytes>)
    ensures (forall seg :: seg in x + y ==> CleanSegment(seg))
       <==> (forall seg :: seg in x ==> CleanSegment(seg)) && (forall seg :: seg in y ==> CleanSegment(seg))
  {
    hide CleanSegment;
    if forall seg :: seg in x + y ==> CleanSegment(seg) {
      forall seg | seg in x ensures CleanSegment(seg) {
        assert seg in x + y;
      }
      forall seg | seg in y ensures CleanSegment(seg) {
        assert seg in x + y;
      }
    }
  }

  /** The string test is the segment test. */
  lemma WithinIsSegmentPrefix(project: bytes, ns: bytes)
    ensures Within(project, ns) <==> CleanPath(project) && CleanPath(ns) && Split(ns) <= Split(project)
  {
    if project != ns && ns + [SLASH] <= project {
      var rest := project[|ns| + 1..];
      assert project == ns + [SLASH] + rest;
      SplitAtSlash(ns, rest);
    }
    if Split(ns) <= Split(project) {
      SplitJoin(ns);
      SplitJoin(project);
      var rest := Split(project)[|Split(ns)|..];
      assert Split(project) == Split(ns) + rest;
      if rest == [] {
        assert Split(project) == Split(ns);
      } else {
        JoinConcat(Split(ns), rest);
        assert project == ns + [SLASH] + Join(rest);
      }
    }
  }

  /** On clean paths containment is a partial order. */
  lemma WithinPartialOrder(a: bytes, b: bytes, c: bytes)
    ensures CleanPath(a) ==> Within(a, a)
    ensures Within(a, b) && Within(b, a) ==> a == b
    ensures Within(a, b) && Within(b, c) ==> Within(a, c)
  {
    WithinIsSegmentPrefix(a, b);
    WithinIsSegmentPrefix(b, c);
    WithinIsSegmentPrefix(a, c);
  }

  /** Two namespaces that contain a common project are nested: there is no
      partial overlap. */
  lemma WithinLaminar(project: bytes, a: bytes, b: bytes)
    requires Within(project, a) && Within(project, b)
    ensures Within(a, b) || Within(b, a)
  {
    WithinIsSegmentPrefix(project, a);
    WithinIsSegmentPrefix(project, b);
    WithinIsSegmentPrefix(a, b);
    WithinIsSegmentPrefix(b, a);
    var p, x, y := Split(project), Split(a), Split(b);
    if |x| <= |y| {
      assert x == y[..|x|] by { assert p[..|y|][..|x|] == p[..|x|]; }
    } else {
      assert y == x[..|y|] by { assert p[..|x|][..|y|] == p[..|y|]; }
    }
  }
}
