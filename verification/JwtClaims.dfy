/** What survives when a macaroon travels inside a JWT. */
module JwtClaims {
  import opened Text
  import opened Caveats
  import opened Macaroons
  import opened Delegation

  /** The receiver's macaroon accepts a request exactly when the issuer's signature also covers
      the location string as the receiver reads it, and every caveat holds. */
  lemma ImportedAccepts(lib: Library, l: Ledger, m: Fields, issued: real, received: real, ctx: Context, now: real)
    requires ClaimsOf(lib, l, m, issued).Some?
    ensures var c := ClaimsOf(lib, l, m, issued).value;
            && FromClaims(m.key, c, received).Some?
            && (Accepts(lib, FromClaims(m.key, c, received).value, m.key, ctx, now) <==>
                  (lib.mac(m.key, SignedText(LocationText(ParseLocation(LocationText(m.location))), m.identifier, m.caveats))
                     == m.signature
                   && AllHold(lib, m.caveats, ctx, now)))
  {
    hide SignedText, LocationText, ParseLocation, CaveatHolds, CaveatTexts, ParseCaveats;
    CaveatsRoundTrip(m.caveats);
  }

  /** Round trip: when the location string survives, the receiver rebuilds the same macaroon, which
      accepts exactly what the issuer's accepts, and a receiver that did not know it adopts its chain. */
  lemma ClaimsRoundTrip(lib: Library, l: Ledger, other: Ledger, m: Fields, issued: real, received: real, ctx: Context, now: real)
    requires ClaimsOf(lib, l, m, issued).Some?
    requires LocationSurvives(LocationText(m.location))
    ensures var c := ClaimsOf(lib, l, m, issued).value;
            && FromClaims(m.key, c, received).Some?
            && SameMacaroon(FromClaims(m.key, c, received).value, m)
            && (Accepts(lib, FromClaims(m.key, c, received).value, m.key, ctx, now) <==> Accepts(lib, m, m.key, ctx, now))
            && ChainOf(EnterClaims(other, c), m.identifier)
                 == (if m.identifier in other.chains then other.chains[m.identifier] else ChainOf(l, m.identifier))
  {
    hide SignedText, LocationText, ParseLocation, CaveatHolds, CaveatTexts, ParseCaveats;
    CaveatsRoundTrip(m.caveats);
    LocationRoundTrip(LocationText(m.location));
  }

  /** Claims with the parent signature and all caveats but the last are accepted within those. */
  lemma {:induction false} ShorterClaimsAccept(lib: Library, m: Fields, c: Claims, received: real, ctx: Context, now: real)
    requires Sealed(lib, m) && m.caveats != [] && LocationSurvives(LocationText(m.location))
    requires c.macaroonId == m.identifier && c.macaroonLocation == LocationText(m.location)
    requires c.caveats == CaveatTexts(Front(m.caveats)) && m.parentSignature == Some(c.macaroonSignature)
    ensures FromClaims(m.key, c, received).Some?
    ensures Accepts(lib, FromClaims(m.key, c, received).value, m.key, ctx, now) <==> AllHold(lib, Front(m.caveats), ctx, now)
  {
    hide SignedText, LocationText, ParseLocation, AllHold, CaveatTexts, ParseCaveats;
    CaveatsRoundTrip(Front(m.caveats));
    LocationRoundTrip(LocationText(m.location));
  }

  lemma {:induction false} FirstHolds(lib: Library, cs: seq<Caveat>, kind: CaveatType, ctx: Context, now: real)
    requires AllHold(lib, cs, ctx, now) && FirstOf(cs, kind).Some?
    ensures CaveatHolds(lib, Caveat(kind, FirstOf(cs, kind).value), ctx, now)
    decreases |cs|
  {
    hide CaveatHolds;
    assert CaveatHolds(lib, cs[0], ctx, now);
    if cs[0].kind != kind {
      assert forall k :: 0 <= k < |cs[1..]| ==> cs[1..][k] == cs[k + 1];
      FirstHolds(lib, cs[1..], kind, ctx, now);
    }
  }

  /** `int` never rounds a time bound down past the whole second it lies in. */
  lemma TruncateAtLeastFloor(x: real, y: real)
    requires x < y
    ensures x.Floor <= Truncate(y)
  {
  }

  /** The first caveat of a kind, by position. */
  predicate FirstAt(cs: seq<Caveat>, kind: CaveatType, i: nat) {
    i < |cs| && cs[i].kind == kind && forall j :: 0 <= j < i ==> cs[j].kind != kind
  }

  lemma {:induction false} FirstOfAt(cs: seq<Caveat>, kind: CaveatType, i: nat)
    requires FirstAt(cs, kind, i)
    ensures FirstOf(cs, kind) == Some(cs[i].value)
    decreases |cs|
  {
    if i > 0 {
      assert cs[0].kind != kind;
      assert forall j :: 0 <= j < i - 1 ==> cs[1..][j] == cs[j + 1];
      FirstOfAt(cs[1..], kind, i - 1);
    }
  }

  lemma {:induction false} FirstOfNone(cs: seq<Caveat>, kind: CaveatType)
    ensures FirstOf(cs, kind) == None <==> forall c :: c in cs ==> c.kind != kind
    decreases |cs|
  {
    if cs != [] {
      assert cs[0] in cs;
      FirstOfNone(cs[1..], kind);
    }
  }

  /** `n` is `x` without its fraction. */
  predicate WholePart(n: int, x: real) {
    if x >= 0.0 then n as real <= x < n as real + 1.0 else n as real - 1.0 < x <= n as real
  }

  /** What the claims say: the first agent binding is the subject, and there is none without one;
      `iat` is the whole second of issuing; the other fields are the macaroon's own and its stored chain. */
  lemma {:induction false} ClaimsSay(lib: Library, l: Ledger, m: Fields, issued: real, i: nat)
    requires ClaimsOf(lib, l, m, issued).Some?
    ensures var c := ClaimsOf(lib, l, m, issued).value;
            && (FirstAt(m.caveats, AgentId, i) ==> c.sub == Some(m.caveats[i].value))
            && (c.sub == None <==> forall x :: x in m.caveats ==> x.kind != AgentId)
            && WholePart(c.iat, issued)
            && c.macaroonId == m.identifier && c.macaroonLocation == LocationText(m.location)
            && c.caveats == CaveatTexts(m.caveats) && c.macaroonSignature == m.signature
            && c.parentSignature == m.parentSignature && c.macaroonCreated == Some(m.creationTime)
            && c.delegationChain == if m.identifier in l.chains then l.chains[m.identifier] else []
  {
    if FirstAt(m.caveats, AgentId, i) {
      FirstOfAt(m.caveats, AgentId, i);
    }
    FirstOfNone(m.caveats, AgentId);
  }

  /** `exp` is the whole second of the first time bound, missing without one; there are no claims
      when that bound is no finite number. */
  lemma {:induction false} ExpSays(lib: Library, l: Ledger, m: Fields, issued: real, i: nat, x: real)
    ensures FirstAt(m.caveats, TimeBefore, i) && lib.floatOf(m.caveats[i].value) == Some(Finite(x)) ==>
              && ClaimsOf(lib, l, m, issued).Some? && ClaimsOf(lib, l, m, issued).value.exp.Some?
              && WholePart(ClaimsOf(lib, l, m, issued).value.exp.value, x)
    ensures FirstAt(m.caveats, TimeBefore, i) && lib.floatOf(m.caveats[i].value) in {None, Some(PosInf), Some(NegInf), Some(NaN)} ==>
              ClaimsOf(lib, l, m, issued).None?
    ensures (forall c :: c in m.caveats ==> c.kind != TimeBefore) ==>
              ClaimsOf(lib, l, m, issued).Some? && ClaimsOf(lib, l, m, issued).value.exp == None
  {
    if FirstAt(m.caveats, TimeBefore, i) {
      FirstOfAt(m.caveats, TimeBefore, i);
    }
    FirstOfNone(m.caveats, TimeBefore);
  }

  /** The receiver's macaroon has the creation time of the claims, or the time of receiving. */
  lemma ReceivedCreationTime(key: Key, c: Claims, received: real)
    requires FromClaims(key, c, received).Some?
    ensures FromClaims(key, c, received).value.creationTime == if c.macaroonCreated.Some? then c.macaroonCreated.value else received
    ensures FromClaims(key, c, received).value.key == key
  {
  }

  /** The subject of the claims is the agent of every accepted request, and a request accepted at
      time `now` is never later than the whole second `exp` names. */
  lemma ClaimsBound(lib: Library, l: Ledger, m: Fields, issued: real, ctx: Context, now: real)
    requires ClaimsOf(lib, l, m, issued).Some? && Accepts(lib, m, m.key, ctx, now)
    ensures var c := ClaimsOf(lib, l, m, issued).value;
            && (c.sub.Some? ==> ctx.agentId == c.sub)
            && ((exists x :: x in m.caveats && x.kind == AgentId) ==> c.sub.Some? && ctx.agentId == c.sub)
            && (c.exp.Some? ==> now.Floor <= c.exp.value)
  {
    var c := ClaimsOf(lib, l, m, issued).value;
    FirstOfNone(m.caveats, AgentId);
    if c.sub.Some? {
      FirstHolds(lib, m.caveats, AgentId, ctx, now);
    }
    if c.exp.Some? {
      FirstHolds(lib, m.caveats, TimeBefore, ctx, now);
      var bound := lib.floatOf(FirstOf(m.caveats, TimeBefore).value).value;
      TruncateAtLeastFloor(now, bound.value);
    }
  }
}
