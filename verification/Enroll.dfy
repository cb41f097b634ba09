/** The enrollment credential: its canonical bytes and their verification. */
module Enroll {
  import opened ByteStrings
  import opened Wrappers
  import opened Chunks
  import opened ByteOrder

  function Tag(): bytes { Ascii("crossx-relay/enroll/v1") }

  /** Strings are their UTF-8 bytes. */
  datatype Claims = Claims(v: nat, project: bytes, peer: bytes, kind: bytes, pubKey: bytes,
                           scope: seq<bytes>, exp: int)

  datatype Token = Token(claims: Claims, sig: bytes)

  datatype EnrollError = InvalidSignature | Malformed

  /** The signature scheme: which 32 bytes are a key, and what verifies. */
  datatype Scheme = Scheme(isKey: bytes -> bool, verifies: (bytes, bytes, bytes) -> bool)

  /** The integer fields have their Rust types. */
  predicate Typed(c: Claims) {
    c.v < 0x1_0000 && IsI64(c.exp)
  }

  function ScopeBlock(scope: seq<bytes>): bytes {
    BE(LengthPrefix(|scope|), 4) + Concat(Sort(scope))
  }

  function Fields(c: Claims): seq<bytes>
    requires Typed(c)
  {
    [Tag(), BE(c.v, 2), c.project, c.peer, c.kind, c.pubKey, ScopeBlock(c.scope), BE(Unsigned(c.exp), 8)]
  }

  function Canonical(c: Claims): bytes
    requires Typed(c)
  {
    Concat(Fields(c))
  }

  /** The source's buffers: the sorted scope into a block, the block and the
      other fields into the output. */
  method CanonicalBytes(c: Claims) returns (out: bytes)
    requires Typed(c)
    ensures out == Canonical(c)
  {
    hide Tag, Sort, Sorted, LengthPrefix, BE, Chunk;
    var scope := Sort(c.scope);
    SortKeeps(c.scope);
    assert |scope| == |c.scope| by {
      assert |multiset(scope)| == |multiset(c.scope)|;
    }
    var scopeBlock := BE(LengthPrefix(|scope|), 4);
    for i := 0 to |scope|
      invariant scopeBlock == BE(LengthPrefix(|scope|), 4) + Concat(scope[..i])
    {
      ConcatAppend(scope[..i], scope[i]);
      assert scope[..i + 1] == scope[..i] + [scope[i]];
      scopeBlock := AppendChunk(scopeBlock, scope[i]);
    }
    assert scope[..|scope|] == scope;
    var fields := [Tag(), BE(c.v, 2), c.project, c.peer, c.kind, c.pubKey, scopeBlock, BE(Unsigned(c.exp), 8)];
    out := AppendAll(fields);
  }

  method AppendAll(fields: seq<bytes>) returns (out: bytes)
    ensures out == Concat(fields)
  {
    out := [];
    for i := 0 to |fields|
      invariant out == Concat(fields[..i])
    {
      ConcatAppend(fields[..i], fields[i]);
      assert fields[..i + 1] == fields[..i] + [fields[i]];
      out := AppendChunk(out, fields[i]);
    }
    assert fields[..|fields|] == fields;
  }

  /** Every length the encoding writes fits its u32 prefix. */
  predicate Encodable(c: Claims) {
    && Typed(c)
    && |c.project| < U32_LIMIT && |c.peer| < U32_LIMIT && |c.kind| < U32_LIMIT && |c.pubKey| < U32_LIMIT
    && |c.scope| < U32_LIMIT && Fits(c.scope) && |ScopeBlock(c.scope)| < U32_LIMIT
  }

  /** The same claims up to the order of the scope. */
  predicate SameClaims(a: Claims, b: Claims) {
    && a.v == b.v && a.project == b.project && a.peer == b.peer && a.kind == b.kind
    && a.pubKey == b.pubKey && a.exp == b.exp
    && multiset(a.scope) == multiset(b.scope)
  }

  lemma TagShort()
    ensures |Tag()| == 22
  {
  }

  lemma FieldsFit(c: Claims)
    requires Encodable(c)
    ensures Fits(Fields(c))
  {
    hide ScopeBlock, Tag, BE;
    TagShort();
    var f := Fields(c);
    forall i | 0 <= i < |f| ensures |f[i]| < U32_LIMIT {
      assert i == 0 || i == 1 || i == 2 || i == 3 || i == 4 || i == 5 || i == 6 || i == 7;
    }
  }

  lemma SortFits(s: seq<bytes>)
    requires Fits(s)
    ensures Fits(Sort(s))
  {
    SortKeeps(s);
    forall i | 0 <= i < |Sort(s)| ensures |Sort(s)[i]| < U32_LIMIT {
      assert Sort(s)[i] in multiset(Sort(s));
      assert Sort(s)[i] in s;
    }
  }

  lemma ScopeBlockCanonical(a: seq<bytes>, b: seq<bytes>)
    requires Fits(a) && Fits(b)
    ensures ScopeBlock(a) == ScopeBlock(b) <==> multiset(a) == multiset(b)
  {
    SortCanonical(a, b);
    SameSize(a, b);
    if ScopeBlock(a) == ScopeBlock(b) {
      assert ScopeBlock(a)[4..] == Concat(Sort(a)) && ScopeBlock(b)[4..] == Concat(Sort(b));
      SortFits(a);
      SortFits(b);
      ConcatInjective(Sort(a), Sort(b));
    }
  }

  lemma SameSize(a: seq<bytes>, b: seq<bytes>)
    ensures multiset(a) == multiset(b) ==> |a| == |b|
  {
    assert |multiset(a)| == |a| && |multiset(b)| == |b|;
  }

  /** The canonical bytes determine the claims up to scope order, and do not
      depend on that order. */
  lemma CanonicalInjective(a: Claims, b: Claims)
    requires Encodable(a) && Encodable(b)
    ensures Canonical(a) == Canonical(b) <==> SameClaims(a, b)
  {
    hide Tag, ScopeBlock, BE, Unsigned, Concat;
    ScopeBlockCanonical(a.scope, b.scope);
    if Canonical(a) == Canonical(b) {
      FieldsFit(a);
      FieldsFit(b);
      ConcatInjective(Fields(a), Fields(b));
      var f, g := Fields(a), Fields(b);
      assert f[1] == g[1] && f[2] == g[2] && f[3] == g[3] && f[4] == g[4];
      assert f[5] == g[5] && f[6] == g[6] && f[7] == g[7];
      Widths();
      BEInjective(a.v, b.v, 2);
      I64BytesInjective(a.exp, b.exp);
    }
  }

  /** Reading claims back from their canonical bytes, field by field. */
  function Read(b: bytes): Option<Claims> {
    match Parse(b)
    case None => None
    case Some(f) =>
      if |f| != 8 || f[0] != Tag() || |f[6]| < 4 then None
      else
        match Parse(f[6][4..])
        case None => None
        case Some(scope) =>
          if FromBE(f[6][..4]) != |scope| then None
          else Some(Claims(FromBE(f[1]), f[2], f[3], f[4], f[5], scope, Signed(FromBE(f[7]))))
  }

  /** Every field is where the format says: the canonical bytes read back as the
      claims with their scope sorted. */
  lemma CanonicalReads(c: Claims)
    requires Encodable(c)
    ensures Read(Canonical(c)) == Some(c.(scope := Sort(c.scope)))
  {
    hide Tag, BE, FromBE, Sort, Concat, Parse, Signed, Unsigned;
    FieldsFit(c);
    ParseConcat(Fields(c));
    ScopeBlockReads(c.scope);
    Widths();
    BERoundTrip(c.v, 2);
    I64RoundTrip(c.exp);
  }

  /** The chunks of the canonical bytes, in order: tag, version, project, peer,
      kind, key, the sorted scope behind its count, and the expiry in two's
      complement. */
  lemma CanonicalChunks(c: Claims)
    requires Encodable(c)
    ensures Parse(Canonical(c)) == Some([
      Ascii("crossx-relay/enroll/v1"), BE(c.v, 2), c.project, c.peer, c.kind, c.pubKey,
      BE(|c.scope|, 4) + Concat(Sort(c.scope)),
      BE(if c.exp < 0 then c.exp + 0x1_0000_0000_0000_0000 else c.exp, 8)])
  {
    hide BE, Sort, Concat, Parse, Ascii;
    FieldsFit(c);
    ParseConcat(Fields(c));
  }

  lemma ScopeBlockReads(scope: seq<bytes>)
    requires Fits(scope) && |scope| < U32_LIMIT
    ensures var b := ScopeBlock(scope);
      |b| >= 4 && Parse(b[4..]) == Some(Sort(scope)) && FromBE(b[..4]) == |Sort(scope)|
  {
    hide BE, FromBE, Sort, Concat, Parse;
    var b := ScopeBlock(scope);
    assert b[..4] == BE(|scope|, 4) && b[4..] == Concat(Sort(scope));
    SortFits(scope);
    ParseConcat(Sort(scope));
    Widths();
    BERoundTrip(|scope|, 4);
    SortKeeps(scope);
    SameSize(scope, Sort(scope));
  }

  /** Signature check against the authority key; expiry is the caller's. */
  function Verify(s: Scheme, token: Token, authority: bytes): Result<Claims, EnrollError>
    requires Typed(token.claims) && |authority| == 32
  {
    if !s.isKey(authority) then Failure(Malformed)
    else if |token.sig| != 64 then Failure(Malformed)
    else if !s.verifies(authority, Canonical(token.claims), token.sig) then Failure(InvalidSignature)
    else Success(token.claims)
  }

  /** A signature covers the claims, not the order the scope is listed in: it
      verifies for one listing exactly when it does for every other. */
  lemma VerifyIgnoresScopeOrder(s: Scheme, a: Token, b: Token, authority: bytes)
    requires Typed(a.claims) && Typed(b.claims) && |authority| == 32
    requires SameClaims(a.claims, b.claims) && a.sig == b.sig
    ensures Verify(s, a, authority).Success? <==> Verify(s, b, authority).Success?
  {
    hide Tag, LengthPrefix;
    SortCanonical(a.claims.scope, b.claims.scope);
    SameSize(a.claims.scope, b.claims.scope);
    assert ScopeBlock(a.claims.scope) == ScopeBlock(b.claims.scope);
    assert Fields(a.claims) == Fields(b.claims);
  }

  /** The three outcomes. */
  lemma VerifyExactly(s: Scheme, token: Token, authority: bytes)
    requires Typed(token.claims) && |authority| == 32
    ensures var r := Verify(s, token, authority); var shaped := s.isKey(authority) && |token.sig| == 64;
      && (r == Success(token.claims) <==> shaped && s.verifies(authority, Canonical(token.claims), token.sig))
      && (r == Failure(Malformed) <==> !shaped)
      && (r == Failure(InvalidSignature) <==> shaped && !s.verifies(authority, Canonical(token.claims), token.sig))
  {
    hide Canonical;
  }
}
