/** A macaroon: what it signs, whom it accepts, and its transport form. */
module Macaroons {
  import opened Text
  import opened Caveats

  type Key = seq<bv8>

  /** What `float(text)` can yield. */
  datatype Float = Finite(value: real) | PosInf | NegInf | NaN

  /** The library functions the SDK calls: HMAC-SHA256 with its base64 text, and number text. */
  datatype Library = Library(
    mac: (Key, string) -> string,
    floatOf: string -> Option<Float>,
    floatText: real -> string,
    intOf: string -> Option<int>,
    intText: int -> string
  )

  /** `int(str(n)) == n` */
  ghost predicate IntsPrint(lib: Library) {
    forall n: int :: lib.intOf(lib.intText(n)) == Some(n)
  }

  /** `float(str(x)) == x` at one value. */
  predicate FloatPrints(lib: Library, x: real) {
    lib.floatOf(lib.floatText(x)) == Some(Finite(x))
  }

  /** An entry of the request context that `_verify_caveat` passes through `int`. */
  datatype Number = Absent | Number(n: int) | Unreadable

  datatype Context = Context(
    agentId: Option<string>,
    resource: Option<string>,
    action: Option<string>,
    ipAddress: Option<string>,
    requestCount: Number,
    delegationDepth: Number
  )

  predicate Before(now: real, bound: Float) {
    match bound
    case Finite(b) => now < b
    case PosInf => true
    case NegInf => false
    case NaN => false
  }

  predicate After(now: real, bound: Float) {
    match bound
    case Finite(b) => now > b
    case PosInf => false
    case NegInf => true
    case NaN => false
  }

  predicate WithinLimit(lib: Library, used: Number, limit: string) {
    match used
    case Unreadable => false
    case Absent => lib.intOf(limit).Some? && 0 <= lib.intOf(limit).value
    case Number(n) => lib.intOf(limit).Some? && n <= lib.intOf(limit).value
  }

  predicate CaveatHolds(lib: Library, c: Caveat, ctx: Context, now: real) {
    match c.kind
    case TimeBefore => lib.floatOf(c.value).Some? && Before(now, lib.floatOf(c.value).value)
    case TimeAfter => lib.floatOf(c.value).Some? && After(now, lib.floatOf(c.value).value)
    case ResourcePrefix => StartsWith(ctx.resource.GetOr(""), c.value)
    case ActionLimit => ctx.action.GetOr("") in Split(c.value, ',')
    case AgentId => ctx.agentId == Some(c.value)
    case IpAddress => ctx.ipAddress == Some(c.value)
    case RequestCount => WithinLimit(lib, ctx.requestCount, c.value)
    case DelegationDepth => WithinLimit(lib, ctx.delegationDepth, c.value)
  }

  predicate AllHold(lib: Library, cs: seq<Caveat>, ctx: Context, now: real) {
    forall k :: 0 <= k < |cs| ==> CaveatHolds(lib, cs[k], ctx, now)
  }

  /** What each caveat means, in terms of the request and of the number its value prints. */
  lemma CaveatMeaning(lib: Library, v: string, x: real, n: int, ctx: Context, now: real)
    ensures lib.floatOf(v) == Some(Finite(x)) ==>
              && (CaveatHolds(lib, Caveat(TimeBefore, v), ctx, now) <==> now < x)
              && (CaveatHolds(lib, Caveat(TimeAfter, v), ctx, now) <==> now > x)
    ensures CaveatHolds(lib, Caveat(ResourcePrefix, v), ctx, now) <==>
              (if ctx.resource.Some? then StartsWith(ctx.resource.value, v) else v == "")
    ensures CaveatHolds(lib, Caveat(ActionLimit, v), ctx, now) <==>
              (if ctx.action.Some? then ctx.action.value in Split(v, ',') else "" in Split(v, ','))
    ensures CaveatHolds(lib, Caveat(AgentId, v), ctx, now) <==> ctx.agentId.Some? && ctx.agentId.value == v
    ensures CaveatHolds(lib, Caveat(IpAddress, v), ctx, now) <==> ctx.ipAddress.Some? && ctx.ipAddress.value == v
    ensures lib.intOf(v) == Some(n) ==>
              && (CaveatHolds(lib, Caveat(RequestCount, v), ctx, now) <==>
                    (ctx.requestCount.Absent? && 0 <= n) || (ctx.requestCount.Number? && ctx.requestCount.n <= n))
              && (CaveatHolds(lib, Caveat(DelegationDepth, v), ctx, now) <==>
                    (ctx.delegationDepth.Absent? && 0 <= n) || (ctx.delegationDepth.Number? && ctx.delegationDepth.n <= n))
  {
  }

  /** Values that are no number never hold; of the values `float` reads that are no finite number, an
      infinite bound holds on its open side only. */
  lemma UnreadableNeverHolds(lib: Library, v: string, ctx: Context, now: real)
    ensures lib.floatOf(v) in {None, Some(NaN)} ==>
              !CaveatHolds(lib, Caveat(TimeBefore, v), ctx, now) && !CaveatHolds(lib, Caveat(TimeAfter, v), ctx, now)
    ensures lib.floatOf(v) == Some(PosInf) ==>
              CaveatHolds(lib, Caveat(TimeBefore, v), ctx, now) && !CaveatHolds(lib, Caveat(TimeAfter, v), ctx, now)
    ensures lib.floatOf(v) == Some(NegInf) ==>
              !CaveatHolds(lib, Caveat(TimeBefore, v), ctx, now) && CaveatHolds(lib, Caveat(TimeAfter, v), ctx, now)
    ensures lib.intOf(v) == None ==>
              !CaveatHolds(lib, Caveat(RequestCount, v), ctx, now) && !CaveatHolds(lib, Caveat(DelegationDepth, v), ctx, now)
  {
  }

  /** The fields of a macaroon object at one moment. */
  datatype Fields = Fields(
    location: Location,
    identifier: string,
    key: Key,
    caveats: seq<Caveat>,
    signature: string,
    parentSignature: Option<string>,
    creationTime: real
  )

  function Signature(lib: Library, location: Location, identifier: string, key: Key, cs: seq<Caveat>): string {
    lib.mac(key, SignedText(LocationText(location), identifier, cs))
  }

  /** The macaroon obtained by adding `cs` one by one to a fresh macaroon: it is signed over all
      its caveats, and remembers the signature over all but the last. */
  function Minted(lib: Library, location: Location, identifier: string, key: Key, cs: seq<Caveat>, created: real): Fields {
    Fields(location, identifier, key, cs, Signature(lib, location, identifier, key, cs),
           if cs == [] then None else Some(Signature(lib, location, identifier, key, cs[..|cs| - 1])), created)
  }

  predicate Sealed(lib: Library, m: Fields) {
    m == Minted(lib, m.location, m.identifier, m.key, m.caveats, m.creationTime)
  }

  /** The meaning of a macaroon: what `verify` answers. */
  predicate Accepts(lib: Library, m: Fields, key: Key, ctx: Context, now: real) {
    && Signature(lib, m.location, m.identifier, key, m.caveats) == m.signature
    && AllHold(lib, m.caveats, ctx, now)
  }

  // ----- transport -----

  /** A token as the receiver reads it: anything that is not base64 of a JSON object with the
      mandatory keys is Undecodable. */
  datatype Token =
    | Undecodable
    | Record(location: string, identifier: string, caveats: seq<string>, signature: string,
             parentSignature: Option<string>, creationTime: Option<real>)

  function TokenOf(m: Fields): Token {
    Record(LocationText(m.location), m.identifier, CaveatTexts(m.caveats), m.signature,
           m.parentSignature, Some(m.creationTime))
  }

  datatype ReadError = BadFormat | BadSignature

  function ReadToken(lib: Library, t: Token, key: Key, now: real): Result<Fields, ReadError> {
    if t.Undecodable? then Err(BadFormat)
    else
      match ParseCaveats(t.caveats)
      case None => Err(BadFormat)
      case Some(cs) =>
        var location := ParseLocation(t.location);
        if Signature(lib, location, t.identifier, key, cs) != t.signature then Err(BadSignature)
        else Ok(Fields(location, t.identifier, key, cs, t.signature, t.parentSignature, t.creationTime.GetOr(now)))
  }

  /** Equal up to how the location string is divided into service and endpoint. */
  predicate SameMacaroon(a: Fields, b: Fields) {
    && LocationText(a.location) == LocationText(b.location)
    && a == b.(location := a.location)
  }

  lemma SameMacaroonAccepts(lib: Library, a: Fields, b: Fields, key: Key, ctx: Context, now: real)
    requires SameMacaroon(a, b)
    ensures Accepts(lib, a, key, ctx, now) <==> Accepts(lib, b, key, ctx, now)
  {
  }

  /** Reading back what was written: the same macaroon, when the location string survives. */
  lemma TokenRoundTrip(lib: Library, m: Fields, now: real)
    requires Sealed(lib, m)
    requires LocationSurvives(LocationText(m.location))
    ensures ReadToken(lib, TokenOf(m), m.key, now).Ok?
    ensures SameMacaroon(ReadToken(lib, TokenOf(m), m.key, now).value, m)
  {
    CaveatsRoundTrip(m.caveats);
    LocationRoundTrip(LocationText(m.location));
  }

  /** And exactly then, unless the MAC gives the two signed strings the same signature. */
  lemma TokenReadsIff(lib: Library, m: Fields, now: real)
    requires Sealed(lib, m)
    ensures var written := LocationText(m.location);
            var read := LocationText(ParseLocation(written));
            ReadToken(lib, TokenOf(m), m.key, now).Ok? <==>
              (LocationSurvives(written) ||
               lib.mac(m.key, SignedText(read, m.identifier, m.caveats))
                 == lib.mac(m.key, SignedText(written, m.identifier, m.caveats)))
  {
    CaveatsRoundTrip(m.caveats);
    LocationRoundTrip(LocationText(m.location));
  }

  /** Reading succeeds only on a record whose recomputed signature matches, and rewriting the result
      gives that record back. Whose caveats the record carries is another matter: see below. */
  lemma ReadTokenIsAuthentic(lib: Library, t: Token, key: Key, now: real)
    requires ReadToken(lib, t, key, now).Ok?
    ensures var m := ReadToken(lib, t, key, now).value;
            && t.Record?
            && t.signature == lib.mac(key, SignedText(LocationText(m.location), t.identifier, m.caveats))
            && TokenOf(m).caveats == t.caveats && TokenOf(m).signature == t.signature
            && TokenOf(m).identifier == t.identifier && TokenOf(m).parentSignature == t.parentSignature
            && (LocationSurvives(t.location) <==> TokenOf(m).location == t.location)
            && m.key == key && m.creationTime == (if t.creationTime.Some? then t.creationTime.value else now)
  {
    ParsedCaveatsPrint(t.caveats);
    LocationRoundTrip(t.location);
  }

  /** Why a token is not read: it is no record or has a malformed caveat; or, these being in order,
      its signature is not that of what it says. */
  lemma ReadFailsExactly(lib: Library, t: Token, key: Key, now: real)
    ensures ReadToken(lib, t, key, now) == Err(BadFormat) <==> t.Undecodable? || ParseCaveats(t.caveats).None?
    ensures ReadToken(lib, t, key, now) == Err(BadSignature) <==>
              t.Record? && ParseCaveats(t.caveats).Some?
              && t.signature != lib.mac(key, LocationText(ParseLocation(t.location)) + ":" + t.identifier
                                             + CaveatTail(ParseCaveats(t.caveats).value))
  {
    hide ParseCaveats, LocationText, ParseLocation, CaveatTail;
  }

  // ----- what a signature binds -----

  ghost predicate NoCollision(lib: Library, key: Key) {
    forall a: string, b: string :: lib.mac(key, a) == lib.mac(key, b) ==> a == b
  }

  /** The record of `m` with its caveats `a` written at the end of the name, and `b` left as caveats. */
  function Regrouped(m: Fields, a: seq<Caveat>, b: seq<Caveat>): Token {
    Record(LocationText(m.location), m.identifier + CaveatTail(a), CaveatTexts(b), m.signature,
           m.parentSignature, Some(m.creationTime))
  }

  /** The signature does not fix where the name ends: a record that has the first caveats as part of
      its name is read, too, and accepts whatever the remaining caveats allow. */
  lemma {:induction false} RegroupedTokenReads(lib: Library, m: Fields, a: seq<Caveat>, b: seq<Caveat>, read: real, ctx: Context, now: real)
    requires Sealed(lib, m) && m.caveats == a + b && LocationSurvives(LocationText(m.location))
    ensures ReadToken(lib, Regrouped(m, a, b), m.key, read).Ok?
    ensures Accepts(lib, ReadToken(lib, Regrouped(m, a, b), m.key, read).value, m.key, ctx, now) <==> AllHold(lib, b, ctx, now)
  {
    hide CaveatTail, CaveatTexts, ParseCaveats, LocationText, ParseLocation, AllHold;
    var location := LocationText(m.location);
    CaveatsRoundTrip(b);
    LocationRoundTrip(location);
    CaveatTailAppend(a, b);
    assert HeadText(location, m.identifier + CaveatTail(a)) + CaveatTail(b)
        == HeadText(location, m.identifier) + (CaveatTail(a) + CaveatTail(b));
  }

  /** With a collision-free MAC, exactly the records of the same signed string are read under a signature. */
  lemma ReadsUnderSignature(lib: Library, m: Fields, t: Token, now: real)
    requires NoCollision(lib, m.key) && Sealed(lib, m) && t.Record? && t.signature == m.signature
    ensures ReadToken(lib, t, m.key, now).Ok? <==>
              && ParseCaveats(t.caveats).Some?
              && SignedText(LocationText(ParseLocation(t.location)), t.identifier, ParseCaveats(t.caveats).value)
                   == SignedText(LocationText(m.location), m.identifier, m.caveats)
  {
    hide ParseCaveats, LocationText, ParseLocation, SignedText;
  }

  /** The signed string of `m` reads one way only, its head being location and name. */
  predicate Unambiguous(m: Fields) {
    ReadsOneWay(HeadText(LocationText(m.location), m.identifier), m.caveats)
  }

  /** With a collision-free MAC, a record under the signature of an unambiguous macaroon carries that
      macaroon's caveats if and only if what is read is unambiguous; and then its head is the same.
      A receiver can check that. */
  lemma {:induction false} ReadTokenBindsCaveats(lib: Library, m: Fields, t: Token, now: real)
    requires NoCollision(lib, m.key) && Sealed(lib, m) && Unambiguous(m)
    requires ReadToken(lib, t, m.key, now).Ok? && t.signature == m.signature
    ensures var r := ReadToken(lib, t, m.key, now).value;
            && (r.caveats == m.caveats <==> Unambiguous(r))
            && (Unambiguous(r) ==> HeadText(LocationText(r.location), r.identifier) == HeadText(LocationText(m.location), m.identifier))
  {
    hide LocationText, ParseLocation, HeadText, CaveatTail, ReadsOneWay;
    ReadsUnderSignature(lib, m, t, now);
    var r := ReadToken(lib, t, m.key, now).value;
    ReadingIsFaithfulIff(HeadText(LocationText(m.location), m.identifier), m.caveats,
                         HeadText(LocationText(r.location), r.identifier), r.caveats);
  }

  /** At the same location the name alone decides, and is the issued one. */
  lemma {:induction false} ReadTokenBindsName(lib: Library, m: Fields, t: Token, now: real)
    requires NoCollision(lib, m.key) && Sealed(lib, m) && ReadsOneWay(m.identifier, m.caveats)
    requires ReadToken(lib, t, m.key, now).Ok? && t.signature == m.signature
    requires LocationText(ParseLocation(t.location)) == LocationText(m.location)
    ensures var r := ReadToken(lib, t, m.key, now).value;
            && (r.caveats == m.caveats <==> ReadsOneWay(t.identifier, r.caveats))
            && (ReadsOneWay(t.identifier, r.caveats) ==> t.identifier == m.identifier)
  {
    hide LocationText, ParseLocation, SignedText, ReadsOneWay;
    ReadsUnderSignature(lib, m, t, now);
    var r := ReadToken(lib, t, m.key, now).value;
    AfterLocation(LocationText(m.location), m.identifier, m.caveats, t.identifier, r.caveats);
    ReadingIsFaithfulIff(m.identifier, m.caveats, t.identifier, r.caveats);
  }

  lemma AfterLocation(location: string, id: string, a: seq<Caveat>, other: string, b: seq<Caveat>)
    requires SignedText(location, id, a) == SignedText(location, other, b)
    ensures id + CaveatTail(a) == other + CaveatTail(b)
  {
    hide CaveatTail;
    var start := location + ":";
    assert SignedText(location, id, a)[|start|..] == id + CaveatTail(a);
    assert SignedText(location, other, b)[|start|..] == other + CaveatTail(b);
  }

  /** A receiver that insists on unambiguous records accepts, under the signature of an unambiguous
      macaroon, exactly what that macaroon accepts. */
  lemma {:induction false} UnambiguousTokenAccepts(lib: Library, m: Fields, t: Token, read: real, ctx: Context, now: real)
    requires NoCollision(lib, m.key) && Sealed(lib, m) && Unambiguous(m)
    requires ReadToken(lib, t, m.key, read).Ok? && t.signature == m.signature
    requires Unambiguous(ReadToken(lib, t, m.key, read).value)
    ensures Accepts(lib, ReadToken(lib, t, m.key, read).value, m.key, ctx, now) <==> Accepts(lib, m, m.key, ctx, now)
  {
    hide Unambiguous, LocationText, ParseLocation, SignedText, ParseCaveats, AllHold;
    ReadTokenBindsCaveats(lib, m, t, read);
  }

  // ----- the second signature of a token -----

  function Front(cs: seq<Caveat>): seq<Caveat> {
    if cs == [] then [] else cs[..|cs| - 1]
  }

  /** The macaroon before its last caveat was added: its signature is the parent signature that the
      token of `m` carries. */
  function Shorter(lib: Library, m: Fields): Fields {
    Minted(lib, m.location, m.identifier, m.key, Front(m.caveats), m.creationTime)
  }

  lemma ShorterIsSigned(lib: Library, m: Fields)
    requires Sealed(lib, m)
    ensures m.parentSignature.Some? <==> m.caveats != []
    ensures Sealed(lib, Shorter(lib, m)) && (m.caveats != [] ==> Some(Shorter(lib, m).signature) == m.parentSignature)
  {
  }

  lemma {:induction false} ShorterIsUnambiguous(lib: Library, m: Fields)
    requires Unambiguous(m)
    ensures Unambiguous(Shorter(lib, m))
  {
    FrontReadsOneWay(HeadText(LocationText(m.location), m.identifier), m.caveats);
  }

  /** The record of `m` without its last caveat, under the parent signature. */
  function ShorterToken(m: Fields): Token
    requires m.parentSignature.Some?
  {
    Record(LocationText(m.location), m.identifier, CaveatTexts(Front(m.caveats)), m.parentSignature.value, None, Some(m.creationTime))
  }

  /** Such a record is read, is as unambiguous as the macaroon, and accepts what all caveats but the
      last allow. */
  lemma {:induction false} ShorterTokenReads(lib: Library, m: Fields, read: real, ctx: Context, now: real)
    requires Sealed(lib, m) && m.caveats != [] && LocationSurvives(LocationText(m.location))
    ensures ReadToken(lib, ShorterToken(m), m.key, read).Ok?
    ensures var r := ReadToken(lib, ShorterToken(m), m.key, read).value;
            && r.caveats == Front(m.caveats)
            && (Accepts(lib, r, m.key, ctx, now) <==> AllHold(lib, Front(m.caveats), ctx, now))
            && (Unambiguous(m) ==> Unambiguous(r))
  {
    hide CaveatTexts, ParseCaveats, LocationText, ParseLocation, AllHold, SignedText, ReadsOneWay;
    CaveatsRoundTrip(Front(m.caveats));
    LocationRoundTrip(LocationText(m.location));
    if Unambiguous(m) {
      ShorterIsUnambiguous(lib, m);
    }
  }

  /** With a collision-free MAC, a record under the parent signature of an unambiguous macaroon carries
      all of its caveats but the last if and only if what is read is unambiguous. */
  lemma {:induction false} ReadUnderParentSignature(lib: Library, m: Fields, t: Token, now: real)
    requires NoCollision(lib, m.key) && Sealed(lib, m) && Unambiguous(m)
    requires ReadToken(lib, t, m.key, now).Ok? && m.parentSignature == Some(t.signature)
    ensures var r := ReadToken(lib, t, m.key, now).value;
            r.caveats == Front(m.caveats) <==> Unambiguous(r)
  {
    hide Sealed, ReadToken, Unambiguous, Front;
    ShorterIsSigned(lib, m);
    ShorterIsUnambiguous(lib, m);
    ShorterFields(lib, m);
    ReadTokenBindsCaveats(lib, Shorter(lib, m), t, now);
  }

  lemma ShorterFields(lib: Library, m: Fields)
    ensures Shorter(lib, m).key == m.key && Shorter(lib, m).caveats == Front(m.caveats)
  {
  }

  /** The last caveat adds nothing to the others. */
  ghost predicate LastFollows(lib: Library, cs: seq<Caveat>) {
    forall ctx: Context, now: real :: AllHold(lib, Front(cs), ctx, now) ==> AllHold(lib, cs, ctx, now)
  }

  /** Of the two signatures its token carries, a holder's unambiguous record under one gives no more
      than the macaroon, for all requests, if and only if it is the macaroon's own signature, or the
      last caveat follows from the others. */
  lemma {:induction false} HeldTokenShrinksIff(lib: Library, m: Fields, t: Token, read: real)
    requires NoCollision(lib, m.key) && Sealed(lib, m) && Unambiguous(m)
    requires ReadToken(lib, t, m.key, read).Ok? && Unambiguous(ReadToken(lib, t, m.key, read).value)
    requires t.signature == m.signature || m.parentSignature == Some(t.signature)
    ensures (forall ctx: Context, now: real ::
               Accepts(lib, ReadToken(lib, t, m.key, read).value, m.key, ctx, now) ==> Accepts(lib, m, m.key, ctx, now))
       <==> (t.signature == m.signature || LastFollows(lib, m.caveats))
  {
    hide Unambiguous, AllHold, Front, SignedText, ReadToken;
    var r := ReadToken(lib, t, m.key, read).value;
    ReadTokenIsAuthentic(lib, t, m.key, read);
    if t.signature == m.signature {
      forall ctx: Context, now: real ensures Accepts(lib, r, m.key, ctx, now) <==> Accepts(lib, m, m.key, ctx, now) {
        UnambiguousTokenAccepts(lib, m, t, read, ctx, now);
      }
    } else {
      ReadUnderParentSignature(lib, m, t, read);
      forall ctx: Context, now: real ensures Accepts(lib, r, m.key, ctx, now) <==> AllHold(lib, Front(m.caveats), ctx, now) {
        ReadTokenAccepts(lib, t, m.key, read, ctx, now);
      }
    }
  }

  lemma ReadTokenAccepts(lib: Library, t: Token, key: Key, read: real, ctx: Context, now: real)
    requires ReadToken(lib, t, key, read).Ok?
    ensures var r := ReadToken(lib, t, key, read).value;
            Accepts(lib, r, key, ctx, now) <==> AllHold(lib, r.caveats, ctx, now)
  {
  }

  class Macaroon {
    var location: Location
    var identifier: string
    var key: Key
    var caveats: seq<Caveat>
    var signature: string
    var parentSignature: Option<string>
    var creationTime: real

    function Value(): Fields
      reads this
    {
      Fields(location, identifier, key, caveats, signature, parentSignature, creationTime)
    }

    constructor (lib: Library, location: Location, identifier: string, key: Key, now: real)
      ensures Value() == Minted(lib, location, identifier, key, [], now)
    {
      this.location, this.identifier, this.key := location, identifier, key;
      this.caveats := [];
      this.signature := lib.mac(key, SignedText(LocationText(location), identifier, []));
      this.parentSignature := None;
      this.creationTime := now;
    }

    /** Concatenates the printed caveats one after the other. */
    method ComputeSignature(lib: Library, key: Key) returns (sig: string)
      ensures sig == Signature(lib, location, identifier, key, caveats)
    {
      hide CaveatText, CaveatTail;
      var data := LocationText(location) + ":" + identifier;
      assert CaveatTail(caveats[..0]) == "" by { EmptyTail(); }
      ghost var head := data;
      for i := 0 to |caveats|
        invariant data == head + CaveatTail(caveats[..i])
      {
        assert caveats[..i + 1] == caveats[..i] + [caveats[i]];
        CaveatTailSnoc(caveats[..i], caveats[i]);
        data := data + ":" + CaveatText(caveats[i]);
      }
      assert caveats[..|caveats|] == caveats;
      sig := lib.mac(key, data);
    }

    method AddCaveat(lib: Library, c: Caveat, now: real) returns (m: Macaroon)
      ensures fresh(m)
      ensures m.Value() == Fields(location, identifier, key, caveats + [c],
                                  Signature(lib, location, identifier, key, caveats + [c]),
                                  Some(signature), creationTime)
    {
      m := new Macaroon(lib, location, identifier, key, now);
      m.caveats := caveats + [c];
      m.signature := m.ComputeSignature(lib, m.key);
      m.parentSignature := Some(signature);
      m.creationTime := creationTime;
    }

    method Verify(lib: Library, key: Key, ctx: Context, now: real) returns (ok: bool)
      ensures ok <==> Accepts(lib, Value(), key, ctx, now)
    {
      hide Signature, CaveatHolds;
      var expected := ComputeSignature(lib, key);
      if expected != signature {
        return false;
      }
      for i := 0 to |caveats|
        invariant AllHold(lib, caveats[..i], ctx, now)
      {
        if !CaveatHolds(lib, caveats[i], ctx, now) {
          return false;
        }
      }
      return true;
    }

    method Serialize() returns (t: Token)
      ensures t == TokenOf(Value())
    {
      t := Record(LocationText(location), identifier, CaveatTexts(caveats), signature, parentSignature, Some(creationTime));
    }

    static method Deserialize(lib: Library, t: Token, key: Key, now: real) returns (r: Result<Macaroon, ReadError>)
      ensures r.Ok? ==> fresh(r.value) && ReadToken(lib, t, key, now) == Ok(r.value.Value())
      ensures r.Err? ==> ReadToken(lib, t, key, now) == Err(r.error)
    {
      if t.Undecodable? {
        return Err(BadFormat);
      }
      var m := new Macaroon(lib, ParseLocation(t.location), t.identifier, key, now);
      match ParseCaveats(t.caveats)
      case None => return Err(BadFormat);
      case Some(cs) =>
        m.caveats := cs;
        m.signature := t.signature;
        m.parentSignature := t.parentSignature;
        m.creationTime := t.creationTime.GetOr(now);
        var expected := m.ComputeSignature(lib, m.key);
        if expected != m.signature {
          return Err(BadSignature);
        }
        return Ok(m);
    }
  }

  lemma MintedFields(lib: Library, location: Location, identifier: string, key: Key, cs: seq<Caveat>, created: real)
    ensures var m := Minted(lib, location, identifier, key, cs, created);
            m.location == location && m.identifier == identifier && m.key == key && m.caveats == cs && m.creationTime == created
  {
  }

  lemma MintedSnoc(lib: Library, location: Location, identifier: string, key: Key, cs: seq<Caveat>, c: Caveat, created: real)
    ensures var m := Minted(lib, location, identifier, key, cs, created);
            Minted(lib, location, identifier, key, cs + [c], created)
              == Fields(location, identifier, key, cs + [c], Signature(lib, location, identifier, key, cs + [c]),
                        Some(m.signature), created)
  {
    assert (cs + [c])[..|cs|] == cs;
  }
}
