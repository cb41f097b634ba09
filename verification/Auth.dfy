/** The proof-of-possession transcripts, and the separation of all four signed
    message formats. */
module Auth {
  import opened ByteStrings
  import opened Wrappers
  import opened Chunks
  import Enroll
  import Cert

  function DomainTag(): bytes { Ascii("crossx-relay/auth/v1") }
  function EnrollDomainTag(): bytes { Ascii("crossx-relay/auth/enroll-pop/v1") }

  function Transcript(digest: bytes, principal: bytes, nonce: bytes): bytes {
    Concat([DomainTag(), digest, principal, nonce])
  }

  function EnrollmentTranscript(digest: bytes, canonicalClaims: bytes, nonce: bytes): bytes {
    Concat([EnrollDomainTag(), digest, canonicalClaims, nonce])
  }

  method TranscriptBytes(digest: bytes, principal: bytes, nonce: bytes) returns (output: bytes)
    ensures output == Transcript(digest, principal, nonce)
  {
    output := Four(DomainTag(), digest, principal, nonce);
  }

  method EnrollmentTranscriptBytes(digest: bytes, canonicalClaims: bytes, nonce: bytes) returns (output: bytes)
    ensures output == EnrollmentTranscript(digest, canonicalClaims, nonce)
  {
    output := Four(EnrollDomainTag(), digest, canonicalClaims, nonce);
  }

  method Four(a: bytes, b: bytes, c: bytes, d: bytes) returns (output: bytes)
    ensures output == Concat([a, b, c, d])
  {
    output := AppendChunk([], a);
    output := AppendChunk(output, b);
    output := AppendChunk(output, c);
    output := AppendChunk(output, d);
    ConcatAppend([], a);
    ConcatAppend([a], b);
    ConcatAppend([a, b], c);
    ConcatAppend([a, b, c], d);
    assert [] + [a] == [a] && [a] + [b] == [a, b] && [a, b] + [c] == [a, b, c] && [a, b, c] + [d] == [a, b, c, d];
  }

  lemma TranscriptInjective(d1: bytes, p1: bytes, n1: bytes, d2: bytes, p2: bytes, n2: bytes)
    requires Fits([d1, p1, n1]) && Fits([d2, p2, n2])
    ensures Transcript(d1, p1, n1) == Transcript(d2, p2, n2) <==> d1 == d2 && p1 == p2 && n1 == n2
  {
    hide DomainTag, Concat;
    TagLengths();
    if Transcript(d1, p1, n1) == Transcript(d2, p2, n2) {
      FitsFour(DomainTag(), d1, p1, n1);
      FitsFour(DomainTag(), d2, p2, n2);
      var f, g := [DomainTag(), d1, p1, n1], [DomainTag(), d2, p2, n2];
      ConcatInjective(f, g);
      assert f[1] == g[1] && f[2] == g[2] && f[3] == g[3];
    }
  }

  /** Both transcripts read back as their tag and their parts in order. */
  lemma TranscriptReads(d: bytes, p: bytes, n: bytes)
    requires Fits([d, p, n])
    ensures Parse(Transcript(d, p, n)) == Some([Ascii("crossx-relay/auth/v1"), d, p, n])
    ensures Parse(EnrollmentTranscript(d, p, n)) == Some([Ascii("crossx-relay/auth/enroll-pop/v1"), d, p, n])
  {
    hide Ascii, Concat, Parse;
    TagLengths();
    FitsFour(DomainTag(), d, p, n);
    FitsFour(EnrollDomainTag(), d, p, n);
    ParseConcat([DomainTag(), d, p, n]);
    ParseConcat([EnrollDomainTag(), d, p, n]);
  }

  lemma FitsFour(t: bytes, a: bytes, b: bytes, c: bytes)
    requires |t| < U32_LIMIT && Fits([a, b, c])
    ensures Fits([t, a, b, c])
  {
    var f := [a, b, c];
    assert |f[0]| < U32_LIMIT && |f[1]| < U32_LIMIT && |f[2]| < U32_LIMIT;
  }

  /** The enrolled proof is bound to the full claims it was made for. */
  lemma EnrollmentTranscriptInjective(d1: bytes, c1: Enroll.Claims, n1: bytes, d2: bytes, c2: Enroll.Claims, n2: bytes)
    requires Enroll.Encodable(c1) && Enroll.Encodable(c2)
    requires Fits([d1, Enroll.Canonical(c1), n1]) && Fits([d2, Enroll.Canonical(c2), n2])
    ensures EnrollmentTranscript(d1, Enroll.Canonical(c1), n1) == EnrollmentTranscript(d2, Enroll.Canonical(c2), n2)
       <==> d1 == d2 && Enroll.SameClaims(c1, c2) && n1 == n2
  {
    hide EnrollDomainTag, Concat, Enroll.Canonical, Enroll.SameClaims;
    TagLengths();
    var m1, m2 := Enroll.Canonical(c1), Enroll.Canonical(c2);
    Enroll.CanonicalInjective(c1, c2);
    if EnrollmentTranscript(d1, m1, n1) == EnrollmentTranscript(d2, m2, n2) {
      FitsFour(EnrollDomainTag(), d1, m1, n1);
      FitsFour(EnrollDomainTag(), d2, m2, n2);
      var f, g := [EnrollDomainTag(), d1, m1, n1], [EnrollDomainTag(), d2, m2, n2];
      ConcatInjective(f, g);
      assert f[1] == g[1] && f[2] == g[2] && f[3] == g[3];
    }
  }

  lemma TagLengths()
    ensures |DomainTag()| == 20 && |EnrollDomainTag()| == 31
    ensures Cert.Tag() != DomainTag()
  {
    assert Cert.Tag()[13] == 'c' as int && DomainTag()[13] == 'a' as int;
  }

  /** No bytes are a signed message of two kinds, whatever the field values and
      lengths. */
  lemma MessagesDisjoint(claims: Enroll.Claims, cert: Cert.Cert, d1: bytes, p: bytes, n1: bytes, d2: bytes, m: bytes,
          n2: bytes)
    requires Enroll.Typed(claims) && IsI64(cert.exp)
    ensures var e, c := Enroll.Canonical(claims), Cert.CanonicalCert(cert);
      var t, x := Transcript(d1, p, n1), EnrollmentTranscript(d2, m, n2);
      e != c && e != t && e != x && c != t && c != x && t != x
  {
    hide Enroll.Tag, Cert.Tag, DomainTag, EnrollDomainTag, Concat, BE, Enroll.ScopeBlock;
    TagLengths();
    Enroll.TagShort();
    Cert.TagShort();
    var ef, cf := Enroll.Fields(claims)[1..], Cert.Fields(cert)[1..];
    var tf, xf := [d1, p, n1], [d2, m, n2];
    assert Enroll.Fields(claims) == [Enroll.Tag()] + ef && Cert.Fields(cert) == [Cert.Tag()] + cf;
    assert [DomainTag(), d1, p, n1] == [DomainTag()] + tf;
    assert [EnrollDomainTag(), d2, m, n2] == [EnrollDomainTag()] + xf;
    TagsSeparate(Enroll.Tag(), Cert.Tag(), ef, cf);
    TagsSeparate(Enroll.Tag(), DomainTag(), ef, tf);
    TagsSeparate(Enroll.Tag(), EnrollDomainTag(), ef, xf);
    TagsSeparate(Cert.Tag(), DomainTag(), cf, tf);
    TagsSeparate(Cert.Tag(), EnrollDomainTag(), cf, xf);
    TagsSeparate(DomainTag(), EnrollDomainTag(), tf, xf);
  }

  // ---- The proof a peer signs ----

  /** What a peer authenticates as: an enrollment, or a bare principal. */
  datatype Identity = Enrolled(claims: Enroll.Claims) | Bare(principal: bytes)

  predicate Presentable(id: Identity) {
    match id
    case Enrolled(c) => Enroll.Encodable(c) && |Enroll.Canonical(c)| < U32_LIMIT
    case Bare(p) => |p| < U32_LIMIT
  }

  function ProofTranscript(id: Identity, binding: bytes, nonce: bytes): bytes
    requires Presentable(id)
  {
    match id
    case Enrolled(c) => EnrollmentTranscript(binding, Enroll.Canonical(c), nonce)
    case Bare(p) => Transcript(binding, p, nonce)
  }

  predicate SameIdentity(a: Identity, b: Identity) {
    match a
    case Enrolled(c) => b.Enrolled? && Enroll.SameClaims(c, b.claims)
    case Bare(p) => b == a
  }

  /** A proof speaks for one identity, one relay binding and one nonce. */
  lemma ProofBinds(a: Identity, b1: bytes, n1: bytes, b: Identity, b2: bytes, n2: bytes)
    requires Presentable(a) && Presentable(b)
    requires |b1| < U32_LIMIT && |b2| < U32_LIMIT && |n1| < U32_LIMIT && |n2| < U32_LIMIT
    ensures ProofTranscript(a, b1, n1) == ProofTranscript(b, b2, n2)
       <==> SameIdentity(a, b) && b1 == b2 && n1 == n2
  {
    hide Transcript, EnrollmentTranscript, Enroll.Canonical;
    match (a, b)
    case (Enrolled(c), Enrolled(d)) => EnrollmentTranscriptInjective(b1, c, n1, b2, d, n2);
    case (Bare(p), Bare(q)) => TranscriptInjective(b1, p, n1, b2, q, n2);
    case (Enrolled(c), Bare(p)) => BranchesApart(b2, p, n2, b1, Enroll.Canonical(c), n1);
    case (Bare(p), Enrolled(c)) => BranchesApart(b1, p, n1, b2, Enroll.Canonical(c), n2);
  }

  /** Which transcript an identity signs, in full. */
  lemma ProofReads(id: Identity, binding: bytes, nonce: bytes)
    requires Presentable(id) && |binding| < U32_LIMIT && |nonce| < U32_LIMIT
    ensures Parse(ProofTranscript(id, binding, nonce)) == Some(
      match id
      case Enrolled(c) => [Ascii("crossx-relay/auth/enroll-pop/v1"), binding, Enroll.Canonical(c), nonce]
      case Bare(p) => [Ascii("crossx-relay/auth/v1"), binding, p, nonce])
  {
    hide Ascii, Parse, Concat, Transcript, EnrollmentTranscript, Enroll.Canonical;
    match id
    case Enrolled(c) => TranscriptReads(binding, Enroll.Canonical(c), nonce);
    case Bare(p) => TranscriptReads(binding, p, nonce);
  }

  lemma BranchesApart(d1: bytes, p: bytes, n1: bytes, d2: bytes, m: bytes, n2: bytes)
    ensures Transcript(d1, p, n1) != EnrollmentTranscript(d2, m, n2)
  {
    hide DomainTag, EnrollDomainTag, Concat;
    TagLengths();
    assert [DomainTag(), d1, p, n1] == [DomainTag()] + [d1, p, n1];
    assert [EnrollDomainTag(), d2, m, n2] == [EnrollDomainTag()] + [d2, m, n2];
    TagsSeparate(DomainTag(), EnrollDomainTag(), [d1, p, n1], [d2, m, n2]);
  }
}
