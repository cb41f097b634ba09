/** The certificate chain-to-root: canonical bytes, signature guards and chain
    validation. */
module Cert {
  import opened ByteStrings
  import opened Wrappers
  import opened Chunks
  import opened Enroll
  import opened Namespace

  function Tag(): bytes { Ascii("crossx-relay/cert/v1") }
  function RoleIssuing(): bytes { Ascii("issuing") }
  function RoleOrg(): bytes { Ascii("org") }
  function RoleMember(): bytes { Ascii("member") }

  datatype Cert = Cert(subjectPub: bytes, subjectId: bytes, role: bytes, orgNamespace: bytes, exp: int,
                       issuerId: bytes, sig: bytes)

  datatype ChainError = Chain | UntrustedRoot | Expired | CrossOrg | EnrollFailed

  function Fields(c: Cert): seq<bytes>
    requires IsI64(c.exp)
  {
    [Tag(), c.subjectPub, c.subjectId, c.role, c.orgNamespace, BE(Unsigned(c.exp), 8), c.issuerId]
  }

  function CanonicalCert(c: Cert): bytes
    requires IsI64(c.exp)
  {
    Concat(Fields(c))
  }

  method CanonicalCertBytes(c: Cert) returns (out: bytes)
    requires IsI64(c.exp)
    ensures out == CanonicalCert(c)
  {
    out := AppendAll([Tag(), c.subjectPub, c.subjectId, c.role, c.orgNamespace, BE(Unsigned(c.exp), 8), c.issuerId]);
  }

  predicate Encodable(c: Cert) {
    && IsI64(c.exp)
    && Fits([c.subjectPub, c.subjectId, c.role, c.orgNamespace, c.issuerId])
  }

  lemma TagShort()
    ensures |Tag()| == 20
  {
  }

  lemma FieldsFit(c: Cert)
    requires Encodable(c)
    ensures Fits(Fields(c))
  {
    hide Tag, BE;
    TagShort();
    var f := [c.subjectPub, c.subjectId, c.role, c.orgNamespace, c.issuerId];
    assert |f[0]| < U32_LIMIT && |f[1]| < U32_LIMIT && |f[2]| < U32_LIMIT && |f[3]| < U32_LIMIT && |f[4]| < U32_LIMIT;
    var g := Fields(c);
    forall i | 0 <= i < |g| ensures |g[i]| < U32_LIMIT {
      assert i == 0 || i == 1 || i == 2 || i == 3 || i == 4 || i == 5 || i == 6;
    }
  }

  /** The signed bytes determine every field but the signature. */
  lemma CanonicalCertInjective(a: Cert, b: Cert)
    requires Encodable(a) && Encodable(b)
    ensures CanonicalCert(a) == CanonicalCert(b) <==> a.(sig := []) == b.(sig := [])
  {
    hide Tag, BE, Unsigned, Concat;
    if CanonicalCert(a) == CanonicalCert(b) {
      FieldsFit(a);
      FieldsFit(b);
      ConcatInjective(Fields(a), Fields(b));
      var f, g := Fields(a), Fields(b);
      assert f[1] == g[1] && f[2] == g[2] && f[3] == g[3] && f[4] == g[4] && f[5] == g[5] && f[6] == g[6];
      I64BytesInjective(a.exp, b.exp);
    }
  }

  /** Reading a certificate back from its signed bytes, field by field. */
  function Read(b: bytes): Option<Cert> {
    match Parse(b)
    case None => None
    case Some(f) =>
      if |f| != 7 || f[0] != Tag() then None
      else Some(Cert(f[1], f[2], f[3], f[4], Signed(FromBE(f[5])), f[6], []))
  }

  /** Every field but the signature is in the signed bytes, in its place. */
  lemma CanonicalCertReads(c: Cert)
    requires Encodable(c)
    ensures Read(CanonicalCert(c)) == Some(c.(sig := []))
  {
    hide Tag, BE, FromBE, Concat, Parse, Signed, Unsigned;
    FieldsFit(c);
    ParseConcat(Fields(c));
    I64RoundTrip(c.exp);
  }

  /** The chunks of the signed bytes, in order. */
  lemma CanonicalCertChunks(c: Cert)
    requires Encodable(c)
    ensures Parse(CanonicalCert(c)) == Some([
      Ascii("crossx-relay/cert/v1"), c.subjectPub, c.subjectId, c.role, c.orgNamespace,
      BE(if c.exp < 0 then c.exp + 0x1_0000_0000_0000_0000 else c.exp, 8), c.issuerId])
  {
    hide BE, Concat, Parse, Ascii;
    FieldsFit(c);
    ParseConcat(Fields(c));
  }

  /** Wrong lengths and malformed keys are refusals, not failures. */
  predicate VerifyCertSig(s: Scheme, cert: Cert, issuerPub: bytes)
    requires IsI64(cert.exp)
  {
    |issuerPub| == 32 && s.isKey(issuerPub) && |cert.sig| == 64
    && s.verifies(issuerPub, CanonicalCert(cert), cert.sig)
  }

  /** Trusted roots have 32-byte keys. */
  predicate RootsOk(roots: map<bytes, bytes>) {
    forall id :: id in roots ==> |roots[id]| == 32
  }

  predicate Dated(chain: seq<Cert>) {
    forall i :: 0 <= i < |chain| ==> IsI64(chain[i].exp)
  }

  /** Not expired, with a positive expiry. */
  predicate Current(exp: int, now: int) {
    0 < exp && now < exp
  }

  predicate CertsCurrent(chain: seq<Cert>, now: int) {
    forall i :: 0 <= i < |chain| ==> Current(chain[i].exp, now)
  }

  /** A member, its organisation and the issuing authority, in this order. */
  predicate Ordered(chain: seq<Cert>) {
    && |chain| == 3
    && chain[0].role == RoleMember() && chain[1].role == RoleOrg() && chain[2].role == RoleIssuing()
  }

  /** Each certificate is signed by the key of the next one. */
  predicate Linked(s: Scheme, chain: seq<Cert>)
    requires Dated(chain)
  {
    forall i :: 0 <= i < |chain| - 1 ==> VerifyCertSig(s, chain[i], chain[i + 1].subjectPub)
  }

  predicate Rooted(s: Scheme, chain: seq<Cert>, roots: map<bytes, bytes>)
    requires Ordered(chain) && Dated(chain)
  {
    chain[2].issuerId in roots && VerifyCertSig(s, chain[2], roots[chain[2].issuerId])
  }

  /** The enrollment carries a valid signature of the member's key. */
  predicate Vouched(s: Scheme, token: Token, member: Cert)
    requires Typed(token.claims)
  {
    && |member.subjectPub| == 32 && s.isKey(member.subjectPub)
    && |token.sig| == 64 && s.verifies(member.subjectPub, Canonical(token.claims), token.sig)
  }

  predicate SameOrg(chain: seq<Cert>)
    requires Ordered(chain)
  {
    chain[0].orgNamespace != [] && chain[0].orgNamespace == chain[1].orgNamespace
  }

  /** Everything the chain itself must satisfy, whatever the time. */
  predicate ChainSound(s: Scheme, chain: seq<Cert>, roots: map<bytes, bytes>)
    requires Dated(chain)
  {
    Ordered(chain) && Linked(s, chain) && Rooted(s, chain, roots) && SameOrg(chain) && |chain[0].subjectPub| == 32
  }

  /** The declarative meaning of acceptance. */
  predicate Accepted(s: Scheme, token: Token, chain: seq<Cert>, roots: map<bytes, bytes>, now: int)
    requires Typed(token.claims) && Dated(chain)
  {
    && ChainSound(s, chain, roots) && CertsCurrent(chain, now)
    && Vouched(s, token, chain[0]) && Current(token.claims.exp, now)
    && Within(token.claims.project, chain[0].orgNamespace)
  }

  method VerifyChain(s: Scheme, token: Token, chain: seq<Cert>, roots: map<bytes, bytes>, now: int)
    returns (r: Result<Claims, ChainError>)
    requires Typed(token.claims) && Dated(chain) && RootsOk(roots)
    ensures r.Success? <==> Accepted(s, token, chain, roots, now)
    ensures r.Success? ==> r.value == token.claims
    ensures r == Failure(UntrustedRoot) <==>
      Ordered(chain) && CertsCurrent(chain, now) && Linked(s, chain) && !Rooted(s, chain, roots)
    ensures r == Failure(Expired) <==>
      && Ordered(chain)
      && (CertsCurrent(chain, now) ==>
            ChainSound(s, chain, roots) && Vouched(s, token, chain[0]) && !Current(token.claims.exp, now))
    ensures r == Failure(EnrollFailed) <==>
      ChainSound(s, chain, roots) && CertsCurrent(chain, now) && !Vouched(s, token, chain[0])
    ensures r == Failure(CrossOrg) <==>
      && ChainSound(s, chain, roots) && CertsCurrent(chain, now)
      && Vouched(s, token, chain[0]) && Current(token.claims.exp, now)
      && !Within(token.claims.project, chain[0].orgNamespace)
  {
    hide RoleMember, RoleOrg, RoleIssuing, VerifyCertSig, Within, Canonical;
    if |chain| != 3 {
      return Failure(Chain);
    }
    var member, org, issuing := chain[0], chain[1], chain[2];
    if member.role != RoleMember() || org.role != RoleOrg() || issuing.role != RoleIssuing() {
      return Failure(Chain);
    }
    for i := 0 to |chain|
      invariant forall j :: 0 <= j < i ==> Current(chain[j].exp, now)
    {
      if chain[i].exp <= 0 || now >= chain[i].exp {
        return Failure(Expired);
      }
    }
    if !VerifyCertSig(s, member, org.subjectPub) || !VerifyCertSig(s, org, issuing.subjectPub) {
      return Failure(Chain);
    }
    if issuing.issuerId !in roots {
      return Failure(UntrustedRoot);
    }
    if !VerifyCertSig(s, issuing, roots[issuing.issuerId]) {
      return Failure(UntrustedRoot);
    }
    if member.orgNamespace == [] || member.orgNamespace != org.orgNamespace {
      return Failure(Chain);
    }
    if |member.subjectPub| != 32 {
      return Failure(Chain);
    }
    var verified := Verify(s, token, member.subjectPub);
    if verified.Failure? {
      return Failure(EnrollFailed);
    }
    var claims := verified.value;
    if claims.exp <= 0 || now >= claims.exp {
      return Failure(Expired);
    }
    if !Within(claims.project, member.orgNamespace) {
      return Failure(CrossOrg);
    }
    r := Success(claims);
  }

  /** Acceptance spelled out, certificate by certificate: who must have signed
      what under whose key, and what each field must hold. */
  lemma AcceptedMeans(s: Scheme, token: Token, chain: seq<Cert>, roots: map<bytes, bytes>, now: int)
    requires Typed(token.claims) && Dated(chain) && RootsOk(roots)
    ensures Accepted(s, token, chain, roots, now) <==>
      && |chain| == 3
      && var member, org, issuing := chain[0], chain[1], chain[2];
      && member.role == Ascii("member") && org.role == Ascii("org") && issuing.role == Ascii("issuing")
      // Whose key each signature verifies under.
      && issuing.issuerId in roots && s.isKey(roots[issuing.issuerId])
      && s.verifies(roots[issuing.issuerId], CanonicalCert(issuing), issuing.sig)
      && s.isKey(issuing.subjectPub) && s.verifies(issuing.subjectPub, CanonicalCert(org), org.sig)
      && s.isKey(org.subjectPub) && s.verifies(org.subjectPub, CanonicalCert(member), member.sig)
      && s.isKey(member.subjectPub) && s.verifies(member.subjectPub, Canonical(token.claims), token.sig)
      && |issuing.subjectPub| == 32 && |org.subjectPub| == 32 && |member.subjectPub| == 32
      && |issuing.sig| == 64 && |org.sig| == 64 && |member.sig| == 64 && |token.sig| == 64
      // What they say.
      && now < issuing.exp && now < org.exp && now < member.exp && now < token.claims.exp
      && 0 < issuing.exp && 0 < org.exp && 0 < member.exp && 0 < token.claims.exp
      && member.orgNamespace == org.orgNamespace != []
      && CleanPath(token.claims.project) && CleanPath(org.orgNamespace)
      && (token.claims.project == org.orgNamespace || org.orgNamespace + Ascii("/") <= token.claims.project)
  {
    hide CanonicalCert, Canonical, CleanPath;
    assert Ascii("/") == [SLASH];
    ConditionsMean(s, token, chain, roots, now);
  }

  /** Each condition on its own, which decides the error that is returned. */
  lemma ConditionsMean(s: Scheme, token: Token, chain: seq<Cert>, roots: map<bytes, bytes>, now: int)
    requires Typed(token.claims) && Dated(chain) && RootsOk(roots)
    ensures Ordered(chain) <==>
      |chain| == 3 && chain[0].role == Ascii("member") && chain[1].role == Ascii("org")
      && chain[2].role == Ascii("issuing")
    ensures Ordered(chain) ==> var member, org, issuing := chain[0], chain[1], chain[2];
      && (CertsCurrent(chain, now) <==>
            0 < member.exp && now < member.exp && 0 < org.exp && now < org.exp
            && 0 < issuing.exp && now < issuing.exp)
      && (Linked(s, chain) <==>
            && |org.subjectPub| == 32 && s.isKey(org.subjectPub) && |member.sig| == 64
            && s.verifies(org.subjectPub, CanonicalCert(member), member.sig)
            && |issuing.subjectPub| == 32 && s.isKey(issuing.subjectPub) && |org.sig| == 64
            && s.verifies(issuing.subjectPub, CanonicalCert(org), org.sig))
      && (Rooted(s, chain, roots) <==>
            && issuing.issuerId in roots && s.isKey(roots[issuing.issuerId]) && |issuing.sig| == 64
            && s.verifies(roots[issuing.issuerId], CanonicalCert(issuing), issuing.sig))
      && (Vouched(s, token, member) <==>
            && |member.subjectPub| == 32 && s.isKey(member.subjectPub) && |token.sig| == 64
            && s.verifies(member.subjectPub, Canonical(token.claims), token.sig))
  {
    hide CanonicalCert, Canonical;
    if Ordered(chain) {
      LinkedPairs(s, chain);
    }
  }

  lemma LinkedPairs(s: Scheme, chain: seq<Cert>)
    requires Dated(chain) && |chain| == 3
    ensures Linked(s, chain) <==>
      VerifyCertSig(s, chain[0], chain[1].subjectPub) && VerifyCertSig(s, chain[1], chain[2].subjectPub)
  {
    hide VerifyCertSig;
    assert Linked(s, chain) <==>
      VerifyCertSig(s, chain[0], chain[0 + 1].subjectPub) && VerifyCertSig(s, chain[1], chain[1 + 1].subjectPub);
  }

  /** The least of the four expiries. */
  function Deadline(token: Token, chain: seq<Cert>): int
    requires Ordered(chain)
  {
    Min(token.claims.exp, Min(chain[0].exp, Min(chain[1].exp, chain[2].exp)))
  }

  /** Time enters acceptance only through the deadline: a chain that is ever
      accepted is accepted at precisely the times before its least expiry, and
      that expiry is positive. */
  lemma AcceptanceWindow(s: Scheme, token: Token, chain: seq<Cert>, roots: map<bytes, bytes>, t: int, now: int)
    requires Typed(token.claims) && Dated(chain) && Accepted(s, token, chain, roots, t)
    ensures 0 < Deadline(token, chain)
    ensures Accepted(s, token, chain, roots, now) <==> now < Deadline(token, chain)
  {
    hide Linked, VerifyCertSig, Vouched, Within;
    assert Current(chain[0].exp, t) && Current(chain[1].exp, t) && Current(chain[2].exp, t);
    if Accepted(s, token, chain, roots, now) {
      assert Current(chain[0].exp, now) && Current(chain[1].exp, now) && Current(chain[2].exp, now);
    }
  }

  /** Accepted projects lie in the organisation's part of the path tree. */
  lemma AcceptedInsideOrg(s: Scheme, token: Token, chain: seq<Cert>, roots: map<bytes, bytes>, now: int)
    requires Typed(token.claims) && Dated(chain) && Accepted(s, token, chain, roots, now)
    ensures Split(chain[1].orgNamespace) <= Split(token.claims.project)
  {
    WithinIsSegmentPrefix(token.claims.project, chain[0].orgNamespace);
  }
}
