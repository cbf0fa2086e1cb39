/** The SDK client's delegation operations and their end-to-end meaning. */
module DelegationClient {
  import opened Text
  import opened Caveats
  import opened Macaroons
  import opened Delegation
  import opened Attenuation
  import opened JwtClaims

  const ROOT_LOCATION := Location("deeptrail-control", Some("/auth"))

  /** `additional_restrictions`: the two keys the client looks at. */
  datatype Restrictions = Restrictions(ipAddress: Option<string>, requestCount: Option<int>)

  /** The caveats both operations build from one request. */
  function RequestedCaveats(lib: Library, resource: string, permissions: seq<string>, expiry: real, r: Restrictions): seq<Caveat> {
    (if resource != "" then [Caveat(ResourcePrefix, resource)] else [])
    + (if permissions != [] then [Caveat(ActionLimit, Join(permissions, ','))] else [])
    + [Caveat(TimeBefore, lib.floatText(expiry))]
    + (if r.ipAddress.Some? then [Caveat(IpAddress, r.ipAddress.value)] else [])
    + (if r.requestCount.Some? then [Caveat(RequestCount, lib.intText(r.requestCount.value))] else [])
  }

  predicate AtMost(used: Number, limit: int) {
    match used
    case Unreadable => false
    case Absent => 0 <= limit
    case Number(n) => n <= limit
  }

  /** The restrictions as the caller asked for them, without any printed form. */
  predicate Allows(resource: string, permissions: seq<string>, expiry: real, r: Restrictions, ctx: Context, now: real) {
    && (resource != "" ==> StartsWith(ctx.resource.GetOr(""), resource))
    && (permissions != [] ==> ctx.action.GetOr("") in Pieces(permissions, ','))
    && now < expiry
    && (r.ipAddress.Some? ==> ctx.ipAddress == r.ipAddress)
    && (r.requestCount.Some? ==> AtMost(ctx.requestCount, r.requestCount.value))
  }

  lemma HoldsOne(lib: Library, c: Caveat, ctx: Context, now: real)
    ensures AllHold(lib, [c], ctx, now) <==> CaveatHolds(lib, c, ctx, now)
  {
    hide CaveatHolds;
    assert [c][0] == c;
  }

  lemma WithinPrintedLimit(lib: Library, used: Number, limit: int)
    requires IntsPrint(lib)
    ensures WithinLimit(lib, used, lib.intText(limit)) <==> AtMost(used, limit)
  {
  }

  /** Printing the request into caveats and checking those means what the caller asked for. */
  lemma RequestedCaveatsMean(lib: Library, resource: string, permissions: seq<string>, expiry: real, r: Restrictions,
                             ctx: Context, now: real)
    requires IntsPrint(lib) && FloatPrints(lib, expiry)
    ensures AllHold(lib, RequestedCaveats(lib, resource, permissions, expiry, r), ctx, now)
       <==> Allows(resource, permissions, expiry, r, ctx, now)
  {
    hide AllHold, Join, Split, Pieces, StartsWith, WithinLimit, AtMost;
    var a := if resource != "" then [Caveat(ResourcePrefix, resource)] else [];
    var b := if permissions != [] then [Caveat(ActionLimit, Join(permissions, ','))] else [];
    var c := Caveat(TimeBefore, lib.floatText(expiry));
    var d := if r.ipAddress.Some? then [Caveat(IpAddress, r.ipAddress.value)] else [];
    var e := if r.requestCount.Some? then [Caveat(RequestCount, lib.intText(r.requestCount.value))] else [];
    AllHoldAppend(lib, a + b + [c] + d, e, ctx, now);
    AllHoldAppend(lib, a + b + [c], d, ctx, now);
    AllHoldAppend(lib, a + b, [c], ctx, now);
    AllHoldAppend(lib, a, b, ctx, now);
    AllHoldEmpty(lib, ctx, now);
    if resource != "" { HoldsOne(lib, a[0], ctx, now); }
    if permissions != [] {
      HoldsOne(lib, b[0], ctx, now);
      SplitJoin(permissions, ',');
    }
    HoldsOne(lib, c, ctx, now);
    if r.ipAddress.Some? { HoldsOne(lib, d[0], ctx, now); }
    if r.requestCount.Some? {
      HoldsOne(lib, e[0], ctx, now);
      WithinPrintedLimit(lib, ctx.requestCount, r.requestCount.value);
    }
  }

  // ----- delegate_access and verify_delegation -----

  datatype Request = Request(delegator: string, target: string, resource: string, permissions: seq<string>,
                             ttl: int, restrictions: Restrictions)

  /** What one call draws from outside: for the root macaroon, for the expiry, for the delegated one. */
  datatype Supply = Supply(root: Draw, clock: real, delegated: Draw)

  datatype ClientError = EmptyDelegator | EmptyTarget | NoPermissions | BadTtl | DelegationFailed

  function Refusal(q: Request): Option<ClientError> {
    if IsBlank(q.delegator) then Some(EmptyDelegator)
    else if IsBlank(q.target) then Some(EmptyTarget)
    else if q.permissions == [] then Some(NoPermissions)
    else if q.ttl <= 0 then Some(BadTtl)
    else None
  }

  function Expiry(clock: real, ttl: int): real {
    clock + ttl as real
  }

  function ClientRoot(lib: Library, key: Key, agent: string, d: Draw): Fields {
    RootMacaroon(lib, key, agent, ROOT_LOCATION, [], d)
  }

  function AccessMacaroon(lib: Library, key: Key, q: Request, s: Supply): Fields {
    DelegatedMacaroon(lib, key, ClientRoot(lib, key, q.delegator, s.root), 0, q.target,
                      RequestedCaveats(lib, q.resource, q.permissions, Expiry(s.clock, q.ttl), q.restrictions), s.delegated)
  }

  datatype Info = Info(macaroonId: string, location: string, caveats: seq<string>, delegationChain: seq<string>,
                       creationTime: real, parentSignature: Option<string>)

  /** An exception yields no information and a text naming it; otherwise the manager's answer. */
  datatype Verdict =
    | VerificationError(cause: ReadError)
    | Checked(valid: bool, reason: string, info: Info)
  {
    predicate IsValid() { Checked? && valid }
  }

  function InfoOf(l: Ledger, m: Fields): Info {
    Info(m.identifier, LocationText(m.location), CaveatTexts(m.caveats), ChainOf(l, m.identifier),
         m.creationTime, m.parentSignature)
  }

  function VerdictOf(lib: Library, key: Key, l: Ledger, t: Token, ctx: Context, now: real): Verdict {
    match ReadToken(lib, t, key, now)
    case Err(e) => VerificationError(e)
    case Ok(m) => Checked(Accepts(lib, m, key, ctx, now), ReasonOf(Accepts(lib, m, key, ctx, now)), InfoOf(l, m))
  }

  lemma RootLocationSurvives()
    ensures LocationSurvives(LocationText(ROOT_LOCATION))
  {
  }

  /** A sealed macaroon handed over as a token is verified for exactly what it accepts, and the
      verifier reports the issuer's identifier, caveats, chain and times. */
  lemma {:induction false} VerdictOnToken(lib: Library, l: Ledger, m: Fields, ctx: Context, now: real)
    requires Sealed(lib, m) && LocationSurvives(LocationText(m.location))
    ensures VerdictOf(lib, m.key, l, TokenOf(m), ctx, now)
         == Checked(Accepts(lib, m, m.key, ctx, now),
                    if Accepts(lib, m, m.key, ctx, now) then "Macaroon verified successfully" else "Caveat verification failed",
                    Info(m.identifier, LocationText(m.location), CaveatTexts(m.caveats),
                         if m.identifier in l.chains then l.chains[m.identifier] else [], m.creationTime, m.parentSignature))
  {
    hide Sealed, Accepts, ReadToken, TokenOf, CaveatTexts, LocationText;
    TokenRoundTrip(lib, m, now);
    SameMacaroonAccepts(lib, ReadToken(lib, TokenOf(m), m.key, now).value, m, m.key, ctx, now);
  }

  /** A token that is not read gives its error, and only such a token does. */
  lemma UnreadVerdict(lib: Library, key: Key, l: Ledger, t: Token, ctx: Context, now: real, e: ReadError)
    ensures VerdictOf(lib, key, l, t, ctx, now) == VerificationError(e) <==> ReadToken(lib, t, key, now) == Err(e)
  {
  }

  /** Which arguments are refused: the first of blank delegator, blank target, no permissions and no
      positive lifetime; and otherwise none. */
  lemma {:induction false} RefusedExactly(q: Request)
    ensures Refusal(q) == Some(EmptyDelegator) <==> AllSpace(q.delegator)
    ensures Refusal(q) == Some(EmptyTarget) <==> !AllSpace(q.delegator) && AllSpace(q.target)
    ensures Refusal(q) == Some(NoPermissions) <==> !AllSpace(q.delegator) && !AllSpace(q.target) && q.permissions == []
    ensures Refusal(q) == Some(BadTtl) <==>
              !AllSpace(q.delegator) && !AllSpace(q.target) && q.permissions != [] && q.ttl <= 0
    ensures Refusal(q) == None <==> !AllSpace(q.delegator) && !AllSpace(q.target) && q.permissions != [] && q.ttl > 0
  {
    hide IsBlank;
    BlankIffAllSpace(q.delegator);
    BlankIffAllSpace(q.target);
  }

  lemma RootKeepsNothing(lib: Library, key: Key, agent: string, d: Draw)
    ensures NotOfKind(ClientRoot(lib, key, agent, d).caveats, AgentId) == []
    ensures Depth(lib, ClientRoot(lib, key, agent, d).caveats) == Some(0)
  {
    var cs := ClientRoot(lib, key, agent, d).caveats;
    assert cs == [Caveat(AgentId, agent)];
    KindOfOne(cs[0], AgentId);
    NoneOfKind(cs, DelegationDepth);
    FirstOfKind(cs, DelegationDepth);
  }

  /** The macaroon of `delegate_access` accepts a request exactly when the request is the target's,
      keeps to what was asked for, and claims a delegation depth of at most 1. The actions are the
      comma-separated pieces of the permissions. */
  lemma {:induction false} AccessAcceptsExactly(lib: Library, key: Key, q: Request, s: Supply, ctx: Context, now: real)
    requires IntsPrint(lib) && FloatPrints(lib, s.clock + q.ttl as real)
    ensures Accepts(lib, AccessMacaroon(lib, key, q, s), key, ctx, now) <==>
            && ctx.agentId == Some(q.target)
            && Allows(q.resource, q.permissions, s.clock + q.ttl as real, q.restrictions, ctx, now)
            && AtMost(ctx.delegationDepth, 1)
  {
    hide Accepts, RequestedCaveats, NotOfKind, Allows, WithinLimit, AtMost, Depth;
    var expiry := Expiry(s.clock, q.ttl);
    var extra := RequestedCaveats(lib, q.resource, q.permissions, expiry, q.restrictions);
    DelegatedAcceptsExactly(lib, key, ClientRoot(lib, key, q.delegator, s.root), 0, q.target, extra, s.delegated, ctx, now);
    RootKeepsNothing(lib, key, q.delegator, s.root);
    AllHoldEmpty(lib, ctx, now);
    RequestedCaveatsMean(lib, q.resource, q.permissions, expiry, q.restrictions, ctx, now);
    WithinPrintedLimit(lib, ctx.delegationDepth, 1);
  }

  /** End to end: the token of `delegate_access` verifies for exactly those requests. */
  lemma {:induction false} AccessEndToEnd(lib: Library, key: Key, l: Ledger, q: Request, s: Supply, ctx: Context, now: real)
    requires IntsPrint(lib) && FloatPrints(lib, s.clock + q.ttl as real)
    ensures VerdictOf(lib, key, l, TokenOf(AccessMacaroon(lib, key, q, s)), ctx, now).IsValid() <==>
            && ctx.agentId == Some(q.target)
            && Allows(q.resource, q.permissions, s.clock + q.ttl as real, q.restrictions, ctx, now)
            && AtMost(ctx.delegationDepth, 1)
  {
    hide Signature, Accepts, TokenOf, RequestedCaveats, DelegatedCaveats, Allows, AtMost, VerdictOf;
    RootLocationSurvives();
    VerdictOnToken(lib, l, AccessMacaroon(lib, key, q, s), ctx, now);
    AccessAcceptsExactly(lib, key, q, s, ctx, now);
  }

  /** What a request asks for, but for its last restriction: the count, else the address, else the time. */
  predicate AllowsButLast(q: Request, expiry: real, ctx: Context, now: real) {
    if q.restrictions.requestCount.Some? then
      Allows(q.resource, q.permissions, expiry, q.restrictions.(requestCount := None), ctx, now)
    else if q.restrictions.ipAddress.Some? then
      Allows(q.resource, q.permissions, expiry, q.restrictions.(ipAddress := None), ctx, now)
    else
      && (q.resource != "" ==> StartsWith(ctx.resource.GetOr(""), q.resource))
      && (q.permissions != [] ==> ctx.action.GetOr("") in Pieces(q.permissions, ','))
  }

  lemma {:induction false} FrontOfRequested(lib: Library, q: Request, expiry: real, ctx: Context, now: real)
    requires IntsPrint(lib) && (q.restrictions != Restrictions(None, None) ==> FloatPrints(lib, expiry))
    ensures AllHold(lib, Front(RequestedCaveats(lib, q.resource, q.permissions, expiry, q.restrictions)), ctx, now)
       <==> AllowsButLast(q, expiry, ctx, now)
  {
    hide AllHold, Join, Split, Pieces, StartsWith, WithinLimit, AtMost, Allows, CaveatHolds;
    var r := q.restrictions;
    var cs := RequestedCaveats(lib, q.resource, q.permissions, expiry, r);
    if r.requestCount.Some? {
      assert Front(cs) == RequestedCaveats(lib, q.resource, q.permissions, expiry, r.(requestCount := None));
      RequestedCaveatsMean(lib, q.resource, q.permissions, expiry, r.(requestCount := None), ctx, now);
    } else if r.ipAddress.Some? {
      assert Front(cs) == RequestedCaveats(lib, q.resource, q.permissions, expiry, r.(ipAddress := None));
      RequestedCaveatsMean(lib, q.resource, q.permissions, expiry, r.(ipAddress := None), ctx, now);
    } else {
      var a := if q.resource != "" then [Caveat(ResourcePrefix, q.resource)] else [];
      var b := if q.permissions != [] then [Caveat(ActionLimit, Join(q.permissions, ','))] else [];
      assert Front(cs) == a + b;
      AllHoldAppend(lib, a, b, ctx, now);
      PlainRequestMeans(lib, q, ctx, now);
    }
  }

  lemma PlainRequestMeans(lib: Library, q: Request, ctx: Context, now: real)
    ensures AllHold(lib, if q.resource != "" then [Caveat(ResourcePrefix, q.resource)] else [], ctx, now)
       <==> (q.resource != "" ==> StartsWith(ctx.resource.GetOr(""), q.resource))
    ensures AllHold(lib, if q.permissions != [] then [Caveat(ActionLimit, Join(q.permissions, ','))] else [], ctx, now)
       <==> (q.permissions != [] ==> ctx.action.GetOr("") in Pieces(q.permissions, ','))
  {
    hide AllHold, Join, Split, Pieces, StartsWith;
    AllHoldEmpty(lib, ctx, now);
    if q.resource != "" { HoldsOne(lib, Caveat(ResourcePrefix, q.resource), ctx, now); }
    if q.permissions != [] {
      HoldsOne(lib, Caveat(ActionLimit, Join(q.permissions, ',')), ctx, now);
      SplitJoin(q.permissions, ',');
    }
  }

  lemma AccessFront(lib: Library, key: Key, q: Request, s: Supply)
    ensures AccessMacaroon(lib, key, q, s).caveats != []
    ensures Front(AccessMacaroon(lib, key, q, s).caveats)
         == [Caveat(AgentId, q.target), Caveat(DelegationDepth, lib.intText(1))]
            + Front(RequestedCaveats(lib, q.resource, q.permissions, Expiry(s.clock, q.ttl), q.restrictions))
  {
    RootKeepsNothing(lib, key, q.delegator, s.root);
  }

  /** Under the parent signature that the token of `delegate_access` carries, the record without the
      last caveat verifies for exactly the requests that keep to all but the last restriction: with
      no further restriction asked for, the last is the expiry, and no time ends it. */
  lemma {:induction false} ShorterAccessVerifies(lib: Library, key: Key, l: Ledger, q: Request, s: Supply, ctx: Context, now: real)
    requires IntsPrint(lib) && (q.restrictions != Restrictions(None, None) ==> FloatPrints(lib, s.clock + q.ttl as real))
    ensures VerdictOf(lib, key, l, ShorterToken(AccessMacaroon(lib, key, q, s)), ctx, now).IsValid() <==>
            && ctx.agentId == Some(q.target)
            && AllowsButLast(q, s.clock + q.ttl as real, ctx, now)
            && AtMost(ctx.delegationDepth, 1)
  {
    hide Accepts, AllHold, RequestedCaveats, AllowsButLast, AtMost, WithinLimit, ReadToken, Front, DelegatedCaveats, ShorterToken;
    var m, expiry := AccessMacaroon(lib, key, q, s), Expiry(s.clock, q.ttl);
    RootLocationSurvives();
    AccessFront(lib, key, q, s);
    ShorterTokenReads(lib, m, now, ctx, now);
    var bound, depth := Caveat(AgentId, q.target), Caveat(DelegationDepth, lib.intText(1));
    AllHoldAppend(lib, [bound, depth], Front(RequestedCaveats(lib, q.resource, q.permissions, expiry, q.restrictions)), ctx, now);
    assert [bound] + [depth] == [bound, depth];
    AllHoldAppend(lib, [bound], [depth], ctx, now);
    HoldsOne(lib, bound, ctx, now);
    HoldsOne(lib, depth, ctx, now);
    FrontOfRequested(lib, q, expiry, ctx, now);
    WithinPrintedLimit(lib, ctx.delegationDepth, 1);
  }

  /** What the requested restrictions add to the signed string, letter by letter. */
  function RequestedText(lib: Library, q: Request, expiry: real): string {
    (if q.resource != "" then ":resource_prefix:" + q.resource else "")
    + (if q.permissions != [] then ":action_limit:" + Join(q.permissions, ',') else "")
    + (":time_before:" + lib.floatText(expiry))
    + (if q.restrictions.ipAddress.Some? then ":ip_address:" + q.restrictions.ipAddress.value else "")
    + (if q.restrictions.requestCount.Some? then ":request_count:" + lib.intText(q.restrictions.requestCount.value) else "")
  }

  /** The string that the macaroon of `delegate_access` signs. */
  lemma {:induction false} AccessSigns(lib: Library, key: Key, q: Request, s: Supply)
    ensures AccessMacaroon(lib, key, q, s).signature == lib.mac(key,
              ("deeptrail-control:/auth:delegated:" + q.target + ":" + s.delegated.uuid)
              + ((":agent_id:" + q.target) + (":delegation_depth:" + lib.intText(1)) + RequestedText(lib, q, s.clock + q.ttl as real)))
  {
    hide CaveatTail, Header, LocationText, NotOfKind, RequestedText, RequestedCaveats, DelegatedCaveats;
    var bound, depth := [Caveat(AgentId, q.target)], [Caveat(DelegationDepth, lib.intText(1))];
    var requested := RequestedCaveats(lib, q.resource, q.permissions, s.clock + q.ttl as real, q.restrictions);
    AccessCaveats(lib, key, q, s);
    CaveatTailAppend(bound + depth, requested);
    CaveatTailAppend(bound, depth);
    TailOfOne(AgentId, q.target);
    TailOfOne(DelegationDepth, lib.intText(1));
    HeaderTexts();
    RequestedTail(lib, q, s.clock + q.ttl as real);
    RootLocationText();
    assert HeadText("deeptrail-control:/auth", DelegatedId(q.target, s.delegated.uuid))
        == "deeptrail-control:/auth:delegated:" + q.target + ":" + s.delegated.uuid;
  }

  lemma AccessCaveats(lib: Library, key: Key, q: Request, s: Supply)
    ensures AccessMacaroon(lib, key, q, s).caveats
         == [Caveat(AgentId, q.target)] + [Caveat(DelegationDepth, lib.intText(1))]
            + RequestedCaveats(lib, q.resource, q.permissions, s.clock + q.ttl as real, q.restrictions)
  {
    hide RequestedCaveats, NotOfKind, Signature;
    RootKeepsNothing(lib, key, q.delegator, s.root);
    var bound, depth := Caveat(AgentId, q.target), Caveat(DelegationDepth, lib.intText(1));
    assert [] + [bound, depth] == [bound] + [depth];
  }

  lemma RootLocationText()
    ensures LocationText(ROOT_LOCATION) == "deeptrail-control:/auth"
  {
  }

  lemma {:induction false} RequestedTail(lib: Library, q: Request, expiry: real)
    ensures CaveatTail(RequestedCaveats(lib, q.resource, q.permissions, expiry, q.restrictions)) == RequestedText(lib, q, expiry)
  {
    hide CaveatTail, Header, Join;
    var a := if q.resource != "" then [Caveat(ResourcePrefix, q.resource)] else [];
    var b := if q.permissions != [] then [Caveat(ActionLimit, Join(q.permissions, ','))] else [];
    var c := Caveat(TimeBefore, lib.floatText(expiry));
    var d := if q.restrictions.ipAddress.Some? then [Caveat(IpAddress, q.restrictions.ipAddress.value)] else [];
    var e := if q.restrictions.requestCount.Some? then [Caveat(RequestCount, lib.intText(q.restrictions.requestCount.value))] else [];
    CaveatTailAppend(a + b + [c] + d, e);
    CaveatTailAppend(a + b + [c], d);
    CaveatTailAppend(a + b, [c]);
    CaveatTailAppend(a, b);
    EmptyTail();
    HeaderTexts();
    TailOfOne(ResourcePrefix, q.resource);
    TailOfOne(ActionLimit, Join(q.permissions, ','));
    TailOfOne(TimeBefore, lib.floatText(expiry));
    if q.restrictions.ipAddress.Some? { TailOfOne(IpAddress, q.restrictions.ipAddress.value); }
    if q.restrictions.requestCount.Some? { TailOfOne(RequestCount, lib.intText(q.restrictions.requestCount.value)); }
  }

  /** And its parent, the root. */
  lemma {:induction false} ClientRootSigns(lib: Library, key: Key, agent: string, d: Draw)
    ensures ClientRoot(lib, key, agent, d).signature == lib.mac(key,
              ("deeptrail-control:/auth:agent:" + agent + ":" + d.uuid) + (":agent_id:" + agent))
  {
    hide CaveatTail, Header, LocationText;
    assert ClientRoot(lib, key, agent, d).caveats == [Caveat(AgentId, agent)];
    TailOfOne(AgentId, agent);
    HeaderTexts();
    RootLocationText();
    assert HeadText("deeptrail-control:/auth", RootId(agent, d.uuid)) == "deeptrail-control:/auth:agent:" + agent + ":" + d.uuid;
  }

  /** The action test is membership in the caller's list exactly when no permission has a comma. */
  lemma ActionsAreThePermissions(permissions: seq<string>)
    requires permissions != []
    ensures (forall action: string :: action in Pieces(permissions, ',') <==> action in permissions)
       <==> (forall p :: p in permissions ==> ',' !in p)
  {
    SplitJoin(permissions, ',');
    JoinSplitMembers(permissions, ',');
  }

  // ----- create_delegation_chain -----

  /** One entry of the chain specification; `fromAgent` and `toAgent` are mandatory keys. */
  datatype Level = Level(fromAgent: Option<string>, toAgent: Option<string>, resource: string, permissions: seq<string>,
                         ttl: Option<int>, restrictions: Restrictions)

  function LevelExpiry(v: Level, s: Supply): real {
    Expiry(s.clock, v.ttl.GetOr(300))
  }

  function LevelCaveats(lib: Library, v: Level, s: Supply): seq<Caveat> {
    RequestedCaveats(lib, v.resource, v.permissions, LevelExpiry(v, s), v.restrictions)
  }

  predicate Complete(v: Level) {
    v.fromAgent.Some? && v.toAgent.Some?
  }

  predicate CompleteUpTo(vs: seq<Level>, n: nat)
    requires n <= |vs|
  {
    forall k :: 0 <= k < n ==> vs[k].fromAgent.Some? && vs[k].toAgent.Some?
  }

  /** The macaroon of level `i`. */
  function ChainMacaroon(lib: Library, key: Key, vs: seq<Level>, ss: seq<Supply>, i: nat): Fields
    requires i < |vs| == |ss| && CompleteUpTo(vs, i + 1)
  {
    var parent := if i == 0 then ClientRoot(lib, key, vs[0].fromAgent.value, ss[0].root)
                  else ChainMacaroon(lib, key, vs, ss, i - 1);
    DelegatedMacaroon(lib, key, parent, if i == 0 then 0 else 1, vs[i].toAgent.value, LevelCaveats(lib, vs[i], ss[i]), ss[i].delegated)
  }

  /** The tokens after the first `n` levels: a repeated receiver keeps the later one. */
  function ChainTokens(lib: Library, key: Key, vs: seq<Level>, ss: seq<Supply>, n: nat): map<string, Token>
    requires n <= |vs| == |ss| && CompleteUpTo(vs, n)
  {
    if n == 0 then map[]
    else ChainTokens(lib, key, vs, ss, n - 1)[vs[n - 1].toAgent.value := TokenOf(ChainMacaroon(lib, key, vs, ss, n - 1))]
  }

  function ChainLedger(lib: Library, key: Key, l: Ledger, vs: seq<Level>, ss: seq<Supply>, n: nat): Ledger
    requires n <= |vs| == |ss| && CompleteUpTo(vs, n)
  {
    if n == 0 then l
    else
      var m := ChainMacaroon(lib, key, vs, ss, n - 1);
      if n == 1 then
        var root := ClientRoot(lib, key, vs[0].fromAgent.value, ss[0].root);
        EnterDelegated(EnterRoot(l, root), root.identifier, m)
      else
        EnterDelegated(ChainLedger(lib, key, l, vs, ss, n - 1), ChainMacaroon(lib, key, vs, ss, n - 2).identifier, m)
  }

  /** How many levels come before the first with a missing mandatory key. */
  function CompleteLevels(vs: seq<Level>): (n: nat)
    ensures n <= |vs| && CompleteUpTo(vs, n)
    ensures n < |vs| ==> !Complete(vs[n])
  {
    if vs == [] || !Complete(vs[0]) then 0
    else
      var rest := CompleteLevels(vs[1..]);
      assert forall k :: 1 <= k < |vs| ==> vs[k] == vs[1..][k - 1];
      1 + rest
  }

  lemma ChainFacts(lib: Library, key: Key, vs: seq<Level>, ss: seq<Supply>, i: nat)
    requires i < |vs| == |ss| && CompleteUpTo(vs, i + 1)
    ensures var m := ChainMacaroon(lib, key, vs, ss, i);
            m.location == ROOT_LOCATION && m.key == key && Sealed(lib, m)
  {
    hide Signature, DelegatedCaveats;
    if i > 0 {
      ChainFacts(lib, key, vs, ss, i - 1);
    }
  }

  lemma {:induction false} RequestedHasNo(lib: Library, v: Level, s: Supply, kind: CaveatType)
    requires kind == AgentId || kind == DelegationDepth
    ensures OfKind(LevelCaveats(lib, v, s), kind) == []
  {
    NoneOfKind(LevelCaveats(lib, v, s), kind);
  }

  lemma {:induction false} ChainDepth(lib: Library, key: Key, vs: seq<Level>, ss: seq<Supply>, i: nat)
    requires IntsPrint(lib)
    requires i < |vs| == |ss| && CompleteUpTo(vs, i + 1)
    ensures OfKind(ChainMacaroon(lib, key, vs, ss, i).caveats, DelegationDepth) == DepthTrail(lib, i + 1)
    ensures Depth(lib, ChainMacaroon(lib, key, vs, ss, i).caveats) == Some(1)
    decreases i
  {
    hide Signature, OfKind, NotOfKind, DelegatedCaveats, Depth, LevelCaveats;
    var m := ChainMacaroon(lib, key, vs, ss, i);
    var extra := LevelCaveats(lib, vs[i], ss[i]);
    RequestedHasNo(lib, vs[i], ss[i], DelegationDepth);
    if i == 0 {
      var root := ClientRoot(lib, key, vs[0].fromAgent.value, ss[0].root);
      DelegatedCarries(lib, root.caveats, 0, vs[0].toAgent.value, extra);
      NoneOfKind(root.caveats, DelegationDepth);
      assert DepthTrail(lib, 0) == [];
    } else {
      ChainDepth(lib, key, vs, ss, i - 1);
      DelegatedCarries(lib, ChainMacaroon(lib, key, vs, ss, i - 1).caveats, 1, vs[i].toAgent.value, extra);
    }
    assert OfKind(m.caveats, DelegationDepth) == DepthTrail(lib, i + 1);
    DepthOfTrail(lib, m.caveats, i + 1);
  }

  /** What level `k` of the chain specification asks for. */
  predicate LevelAllows(v: Level, s: Supply, ctx: Context, now: real) {
    Allows(v.resource, v.permissions, s.clock + (if v.ttl.Some? then v.ttl.value else 300) as real, v.restrictions, ctx, now)
  }

  predicate LevelsAllow(vs: seq<Level>, ss: seq<Supply>, n: nat, ctx: Context, now: real)
    requires n <= |vs| == |ss|
  {
    forall k :: 0 <= k < n ==> LevelAllows(vs[k], ss[k], ctx, now)
  }

  predicate ExpiriesPrint(lib: Library, vs: seq<Level>, ss: seq<Supply>, n: nat)
    requires n <= |vs| == |ss|
  {
    forall k :: 0 <= k < n ==> FloatPrints(lib, ss[k].clock + (if vs[k].ttl.Some? then vs[k].ttl.value else 300) as real)
  }

  lemma {:induction false} ChainInherits(lib: Library, key: Key, vs: seq<Level>, ss: seq<Supply>, i: nat, ctx: Context, now: real)
    requires IntsPrint(lib)
    requires i < |vs| == |ss| && CompleteUpTo(vs, i + 1)
    requires ExpiriesPrint(lib, vs, ss, i + 1)
    ensures AllHold(lib, NotOfKind(ChainMacaroon(lib, key, vs, ss, i).caveats, AgentId), ctx, now)
       <==> LevelsAllow(vs, ss, i + 1, ctx, now) && AtMost(ctx.delegationDepth, 1)
    decreases i
  {
    hide Signature, NotOfKind, OfKind, AllHold, WithinLimit, AtMost, LevelAllows, RequestedCaveats, CaveatHolds;
    var parent := if i == 0 then ClientRoot(lib, key, vs[0].fromAgent.value, ss[0].root)
                  else ChainMacaroon(lib, key, vs, ss, i - 1);
    var kept := NotOfKind(parent.caveats, AgentId);
    var depth := if i == 0 then 0 else 1;
    var a, b := Caveat(AgentId, vs[i].toAgent.value), Caveat(DelegationDepth, lib.intText(depth + 1));
    var extra := LevelCaveats(lib, vs[i], ss[i]);
    var m := ChainMacaroon(lib, key, vs, ss, i);
    assert m.caveats == kept + [a] + [b] + extra;
    DropBinding(parent.caveats, a, b, extra);
    AllHoldAppend(lib, kept + [b], NotOfKind(extra, AgentId), ctx, now);
    AllHoldAppend(lib, kept, [b], ctx, now);
    HoldsOne(lib, b, ctx, now);
    AllHoldSplit(lib, extra, AgentId, ctx, now);
    RequestedHasNo(lib, vs[i], ss[i], AgentId);
    AllHoldEmpty(lib, ctx, now);
    assert CaveatHolds(lib, b, ctx, now) == WithinLimit(lib, ctx.delegationDepth, b.value) by { DepthCaveatHolds(lib, b, ctx, now); }
    WithinPrintedLimit(lib, ctx.delegationDepth, depth + 1);
    LevelCaveatsMean(lib, vs[i], ss[i], ctx, now);
    if i == 0 {
      RootKeepsNothing(lib, key, vs[0].fromAgent.value, ss[0].root);
    } else {
      ChainInherits(lib, key, vs, ss, i - 1, ctx, now);
      AtMostWeakens(ctx.delegationDepth);
    }
    LevelsAllowSnoc(vs, ss, i, ctx, now);
  }

  lemma LevelCaveatsMean(lib: Library, v: Level, s: Supply, ctx: Context, now: real)
    requires IntsPrint(lib) && FloatPrints(lib, LevelExpiry(v, s))
    ensures AllHold(lib, LevelCaveats(lib, v, s), ctx, now) <==> LevelAllows(v, s, ctx, now)
  {
    RequestedCaveatsMean(lib, v.resource, v.permissions, LevelExpiry(v, s), v.restrictions, ctx, now);
  }

  lemma LevelsAllowSnoc(vs: seq<Level>, ss: seq<Supply>, i: nat, ctx: Context, now: real)
    requires i < |vs| == |ss|
    ensures LevelsAllow(vs, ss, i + 1, ctx, now) <==> LevelsAllow(vs, ss, i, ctx, now) && LevelAllows(vs[i], ss[i], ctx, now)
  {
  }

  lemma AtMostWeakens(n: Number)
    ensures AtMost(n, 1) ==> AtMost(n, 2)
  {
  }

  lemma DepthCaveatHolds(lib: Library, c: Caveat, ctx: Context, now: real)
    requires c.kind == DelegationDepth
    ensures CaveatHolds(lib, c, ctx, now) == WithinLimit(lib, ctx.delegationDepth, c.value)
  {
  }

  lemma DropBinding(parent: seq<Caveat>, a: Caveat, b: Caveat, extra: seq<Caveat>)
    requires a.kind == AgentId && b.kind != AgentId
    ensures NotOfKind(NotOfKind(parent, AgentId) + [a] + [b] + extra, AgentId)
         == NotOfKind(parent, AgentId) + [b] + NotOfKind(extra, AgentId)
  {
    hide NotOfKind, OfKind;
    var kept := NotOfKind(parent, AgentId);
    NotOfKindAppend(kept + [a] + [b], extra, AgentId);
    NotOfKindAppend(kept + [a], [b], AgentId);
    NotOfKindAppend(kept, [a], AgentId);
    KindOfOne(a, AgentId);
    KindOfOne(b, AgentId);
    NotOfKindTwice(parent, AgentId);
    assert kept + [] + [b] + NotOfKind(extra, AgentId) == kept + [b] + NotOfKind(extra, AgentId);
  }

  /** The macaroon of level `i` accepts exactly the receiver's requests that every level up to `i`
      allows, at a claimed depth of at most 1: later levels only shrink it, whether or not their
      permission lists are sublists of the earlier ones. */
  lemma ChainAcceptsExactly(lib: Library, key: Key, vs: seq<Level>, ss: seq<Supply>, i: nat, ctx: Context, now: real)
    requires IntsPrint(lib)
    requires i < |vs| == |ss| && CompleteUpTo(vs, i + 1)
    requires ExpiriesPrint(lib, vs, ss, i + 1)
    ensures Accepts(lib, ChainMacaroon(lib, key, vs, ss, i), key, ctx, now) <==>
            && ctx.agentId == vs[i].toAgent
            && LevelsAllow(vs, ss, i + 1, ctx, now)
            && AtMost(ctx.delegationDepth, 1)
  {
    hide Sealed, NotOfKind, OfKind, Accepts, AllHold, AtMost, LevelAllows, LevelsAllow, DelegatedCaveats;
    var m := ChainMacaroon(lib, key, vs, ss, i);
    ChainFacts(lib, key, vs, ss, i);
    SealedAccepts(lib, m, ctx, now);
    AllHoldSplit(lib, m.caveats, AgentId, ctx, now);
    ChainInherits(lib, key, vs, ss, i, ctx, now);
    var parent := if i == 0 then ClientRoot(lib, key, vs[0].fromAgent.value, ss[0].root)
                  else ChainMacaroon(lib, key, vs, ss, i - 1);
    var target := vs[i].toAgent.value;
    DelegatedCarries(lib, parent.caveats, if i == 0 then 0 else 1, target, LevelCaveats(lib, vs[i], ss[i]));
    RequestedHasNo(lib, vs[i], ss[i], AgentId);
    assert OfKind(m.caveats, AgentId) == [Caveat(AgentId, target)];
    HoldsOne(lib, Caveat(AgentId, target), ctx, now);
  }

  lemma LevelIgnoresAgent(v: Level, s: Supply, ctx: Context, agent: string, now: real)
    ensures LevelAllows(v, s, ctx, now) == LevelAllows(v, s, WithAgent(ctx, agent), now)
  {
  }

  /** Each level of a chain shrinks the one before by exactly its own restrictions. */
  lemma ChainShrinks(lib: Library, key: Key, vs: seq<Level>, ss: seq<Supply>, i: nat, ctx: Context, now: real)
    requires IntsPrint(lib)
    requires 0 < i < |vs| == |ss| && CompleteUpTo(vs, i + 1)
    requires ExpiriesPrint(lib, vs, ss, i + 1)
    ensures Accepts(lib, ChainMacaroon(lib, key, vs, ss, i), key, ctx, now) <==>
            && ctx.agentId == vs[i].toAgent
            && Accepts(lib, ChainMacaroon(lib, key, vs, ss, i - 1), key, WithAgent(ctx, vs[i - 1].toAgent.value), now)
            && LevelAllows(vs[i], ss[i], ctx, now)
  {
    hide Accepts, ChainMacaroon, LevelAllows, AtMost, IntsPrint;
    var above := WithAgent(ctx, vs[i - 1].toAgent.value);
    ChainAcceptsExactly(lib, key, vs, ss, i, ctx, now);
    ChainAcceptsExactly(lib, key, vs, ss, i - 1, above, now);
    LevelsAllowSnoc(vs, ss, i, ctx, now);
    forall k | 0 <= k < i ensures LevelAllows(vs[k], ss[k], ctx, now) == LevelAllows(vs[k], ss[k], above, now) {
      LevelIgnoresAgent(vs[k], ss[k], ctx, vs[i - 1].toAgent.value, now);
    }
  }

  lemma {:induction false} RequestedTimeBound(lib: Library, v: Level, s: Supply)
    ensures OfKind(LevelCaveats(lib, v, s), TimeBefore) == [Caveat(TimeBefore, lib.floatText(LevelExpiry(v, s)))]
  {
    hide OfKind, NotOfKind, Join;
    var a := if v.resource != "" then [Caveat(ResourcePrefix, v.resource)] else [];
    var b := if v.permissions != [] then [Caveat(ActionLimit, Join(v.permissions, ','))] else [];
    var c := Caveat(TimeBefore, lib.floatText(LevelExpiry(v, s)));
    var d := if v.restrictions.ipAddress.Some? then [Caveat(IpAddress, v.restrictions.ipAddress.value)] else [];
    var e := if v.restrictions.requestCount.Some? then [Caveat(RequestCount, lib.intText(v.restrictions.requestCount.value))] else [];
    OfKindAppend(a + b + [c] + d, e, TimeBefore);
    OfKindAppend(a + b + [c], d, TimeBefore);
    OfKindAppend(a + b, [c], TimeBefore);
    OfKindAppend(a, b, TimeBefore);
    NoneOfKind(a, TimeBefore);
    NoneOfKind(b, TimeBefore);
    NoneOfKind(d, TimeBefore);
    NoneOfKind(e, TimeBefore);
    KindOfOne(c, TimeBefore);
  }

  lemma {:induction false} ChainTimeBounds(lib: Library, key: Key, vs: seq<Level>, ss: seq<Supply>, i: nat)
    requires i < |vs| == |ss| && CompleteUpTo(vs, i + 1)
    ensures var bounds := OfKind(ChainMacaroon(lib, key, vs, ss, i).caveats, TimeBefore);
            |bounds| == i + 1 && bounds[0] == Caveat(TimeBefore, lib.floatText(LevelExpiry(vs[0], ss[0])))
    decreases i
  {
    hide Signature, OfKind, NotOfKind, LevelCaveats;
    var parent := if i == 0 then ClientRoot(lib, key, vs[0].fromAgent.value, ss[0].root)
                  else ChainMacaroon(lib, key, vs, ss, i - 1);
    var depth := if i == 0 then 0 else 1;
    var extra := LevelCaveats(lib, vs[i], ss[i]);
    DelegatedKinds(lib, parent.caveats, depth, vs[i].toAgent.value, extra, TimeBefore);
    NoneOfKind([Caveat(AgentId, vs[i].toAgent.value)], TimeBefore);
    NoneOfKind([Caveat(DelegationDepth, lib.intText(depth + 1))], TimeBefore);
    OtherKindsKept(parent.caveats, AgentId, TimeBefore);
    RequestedTimeBound(lib, vs[i], ss[i]);
    if i == 0 {
      NoneOfKind(parent.caveats, TimeBefore);
    } else {
      ChainTimeBounds(lib, key, vs, ss, i - 1);
    }
  }

  /** The `exp` claim of every token of a chain is the expiry of its first level, although the
      token stops being accepted at the earliest expiry among its levels. */
  lemma ChainExpIsTheOldest(lib: Library, key: Key, l: Ledger, vs: seq<Level>, ss: seq<Supply>, i: nat, issued: real)
    requires IntsPrint(lib)
    requires i < |vs| == |ss| && CompleteUpTo(vs, i + 1) && ExpiriesPrint(lib, vs, ss, i + 1)
    ensures var m := ChainMacaroon(lib, key, vs, ss, i);
            && ClaimsOf(lib, l, m, issued).Some? && ClaimsOf(lib, l, m, issued).value.exp.Some?
            && WholePart(ClaimsOf(lib, l, m, issued).value.exp.value,
                         ss[0].clock + (if vs[0].ttl.Some? then vs[0].ttl.value else 300) as real)
            && forall ctx: Context, now: real, k: nat ::
                 k <= i && ss[k].clock + (if vs[k].ttl.Some? then vs[k].ttl.value else 300) as real <= now ==>
                   !Accepts(lib, m, key, ctx, now)
  {
    hide Signature, OfKind, NotOfKind, ChainMacaroon, AtMost, Accepts;
    var m := ChainMacaroon(lib, key, vs, ss, i);
    ChainTimeBounds(lib, key, vs, ss, i);
    FirstOfKind(m.caveats, TimeBefore);
    assert FloatPrints(lib, LevelExpiry(vs[0], ss[0]));
    forall ctx: Context, now: real, k: nat
      | k <= i && ss[k].clock + (if vs[k].ttl.Some? then vs[k].ttl.value else 300) as real <= now
      ensures !Accepts(lib, m, key, ctx, now)
    {
      assert !LevelAllows(vs[k], ss[k], ctx, now);
      ChainAcceptsExactly(lib, key, vs, ss, i, ctx, now);
    }
  }

  /** The subject of the claims is the receiver, for the macaroon of `delegate_access` and for each of a chain. */
  lemma {:induction false} SubjectIsReceiver(lib: Library, key: Key, l: Ledger, m: Fields, target: string, issued: real)
    requires OfKind(m.caveats, AgentId) == [Caveat(AgentId, target)] && ClaimsOf(lib, l, m, issued).Some?
    ensures ClaimsOf(lib, l, m, issued).value.sub == Some(target)
  {
    FirstOfKind(m.caveats, AgentId);
  }

  lemma {:induction false} AccessSubject(lib: Library, key: Key, l: Ledger, q: Request, s: Supply, issued: real)
    requires ClaimsOf(lib, l, AccessMacaroon(lib, key, q, s), issued).Some?
    ensures ClaimsOf(lib, l, AccessMacaroon(lib, key, q, s), issued).value.sub == Some(q.target)
  {
    hide OfKind, NotOfKind, DelegatedCaveats, ClaimsOf, Signature;
    var v := Level(Some(q.delegator), Some(q.target), q.resource, q.permissions, Some(q.ttl), q.restrictions);
    DelegatedCarries(lib, ClientRoot(lib, key, q.delegator, s.root).caveats, 0, q.target, LevelCaveats(lib, v, s));
    RequestedHasNo(lib, v, s, AgentId);
    SubjectIsReceiver(lib, key, l, AccessMacaroon(lib, key, q, s), q.target, issued);
  }

  lemma {:induction false} ChainSubject(lib: Library, key: Key, l: Ledger, vs: seq<Level>, ss: seq<Supply>, i: nat, issued: real)
    requires i < |vs| == |ss| && CompleteUpTo(vs, i + 1)
    requires ClaimsOf(lib, l, ChainMacaroon(lib, key, vs, ss, i), issued).Some?
    ensures ClaimsOf(lib, l, ChainMacaroon(lib, key, vs, ss, i), issued).value.sub == vs[i].toAgent
  {
    hide OfKind, NotOfKind, DelegatedCaveats, LevelCaveats, ClaimsOf, Signature;
    var parent := if i == 0 then ClientRoot(lib, key, vs[0].fromAgent.value, ss[0].root)
                  else ChainMacaroon(lib, key, vs, ss, i - 1);
    DelegatedCarries(lib, parent.caveats, if i == 0 then 0 else 1, vs[i].toAgent.value, LevelCaveats(lib, vs[i], ss[i]));
    RequestedHasNo(lib, vs[i], ss[i], AgentId);
    SubjectIsReceiver(lib, key, l, ChainMacaroon(lib, key, vs, ss, i), vs[i].toAgent.value, issued);
  }

  /** The token the client returns for a receiver is the one of the last level naming it. */
  lemma {:induction false} ChainTokenOf(lib: Library, key: Key, vs: seq<Level>, ss: seq<Supply>, n: nat, i: nat)
    requires i < n <= |vs| == |ss| && CompleteUpTo(vs, n)
    requires forall k :: i < k < n ==> vs[k].toAgent != vs[i].toAgent
    ensures vs[i].toAgent.value in ChainTokens(lib, key, vs, ss, n)
    ensures ChainTokens(lib, key, vs, ss, n)[vs[i].toAgent.value] == TokenOf(ChainMacaroon(lib, key, vs, ss, i))
    decreases n
  {
    hide TokenOf, ChainMacaroon;
    if i < n - 1 {
      ChainTokenOf(lib, key, vs, ss, n - 1, i);
    }
  }

  /** End to end for a chain of any length: the receiver's token verifies exactly for its own
      requests that all levels up to its last one allow. */
  lemma {:induction false} ChainEndToEnd(lib: Library, key: Key, l: Ledger, vs: seq<Level>, ss: seq<Supply>, i: nat,
                                         ctx: Context, now: real)
    requires IntsPrint(lib)
    requires i < |vs| == |ss| && CompleteUpTo(vs, |vs|)
    requires ExpiriesPrint(lib, vs, ss, i + 1)
    requires forall k :: i < k < |vs| ==> vs[k].toAgent != vs[i].toAgent
    ensures vs[i].toAgent.value in ChainTokens(lib, key, vs, ss, |vs|)
    ensures VerdictOf(lib, key, l, ChainTokens(lib, key, vs, ss, |vs|)[vs[i].toAgent.value], ctx, now).IsValid() <==>
            && ctx.agentId == vs[i].toAgent
            && LevelsAllow(vs, ss, i + 1, ctx, now)
            && AtMost(ctx.delegationDepth, 1)
  {
    hide Sealed, Accepts, TokenOf, ReadToken, ChainMacaroon, ChainTokens, LevelsAllow, AtMost, VerdictOf;
    ChainTokenOf(lib, key, vs, ss, |vs|, i);
    ChainFacts(lib, key, vs, ss, i);
    RootLocationSurvives();
    VerdictOnToken(lib, l, ChainMacaroon(lib, key, vs, ss, i), ctx, now);
    ChainAcceptsExactly(lib, key, vs, ss, i, ctx, now);
  }

  /** All the prefix restrictions together: they are comparable, and the longest one decides. */
  lemma LongestPrefixDecides(vs: seq<Level>, n: nat, longest: nat, resource: string)
    requires longest < n <= |vs| && forall k :: 0 <= k < n ==> |vs[k].resource| <= |vs[longest].resource|
    ensures (forall k :: 0 <= k < n ==> StartsWith(resource, vs[k].resource)) <==>
            (StartsWith(resource, vs[longest].resource)
             && forall k :: 0 <= k < n ==> StartsWith(vs[longest].resource, vs[k].resource))
  {
  }

  lemma ChainStart(lib: Library, key: Key, l: Ledger, vs: seq<Level>, ss: seq<Supply>)
    requires |vs| == |ss|
    ensures ChainTokens(lib, key, vs, ss, 0) == map[] && ChainLedger(lib, key, l, vs, ss, 0) == l
  {
  }

  /** What the loop of `create_delegation_chain` adds at level `i`. */
  lemma ChainStep(lib: Library, key: Key, l: Ledger, vs: seq<Level>, ss: seq<Supply>, i: nat)
    requires i < |vs| == |ss| && CompleteUpTo(vs, i + 1)
    ensures var m := ChainMacaroon(lib, key, vs, ss, i);
            && ChainTokens(lib, key, vs, ss, i + 1) == ChainTokens(lib, key, vs, ss, i)[vs[i].toAgent.value := TokenOf(m)]
            && ChainLedger(lib, key, l, vs, ss, i + 1) ==
                 (if i == 0 then
                    var root := ClientRoot(lib, key, vs[0].fromAgent.value, ss[0].root);
                    EnterDelegated(EnterRoot(l, root), root.identifier, m)
                  else
                    EnterDelegated(ChainLedger(lib, key, l, vs, ss, i), ChainMacaroon(lib, key, vs, ss, i - 1).identifier, m))
  {
  }

  function ChainIds(lib: Library, key: Key, vs: seq<Level>, ss: seq<Supply>, n: nat): seq<string>
    requires n <= |vs| == |ss| && CompleteUpTo(vs, n)
  {
    if n == 0 then [] else ChainIds(lib, key, vs, ss, n - 1) + [ChainMacaroon(lib, key, vs, ss, n - 1).identifier]
  }

  /** What the loop leaves in the tables: the macaroon of its last level, with a chain from the root
      through all levels. */
  lemma {:induction false} ChainIsStored(lib: Library, key: Key, l: Ledger, vs: seq<Level>, ss: seq<Supply>, i: nat)
    requires i < |vs| == |ss| && CompleteUpTo(vs, i + 1)
    ensures var l' := ChainLedger(lib, key, l, vs, ss, i + 1);
            var m := ChainMacaroon(lib, key, vs, ss, i);
            && m.identifier in l'.macaroons && l'.macaroons[m.identifier] == m && m.identifier in l'.chains
            && l'.chains[m.identifier]
                 == ["agent:" + vs[0].fromAgent.value + ":" + ss[0].root.uuid] + ChainIds(lib, key, vs, ss, i + 1)
    decreases i
  {
    hide ChainMacaroon, ClientRoot;
    ChainStep(lib, key, l, vs, ss, i);
    assert ChainIds(lib, key, vs, ss, 0) == [];
    if i == 0 {
      assert ClientRoot(lib, key, vs[0].fromAgent.value, ss[0].root).identifier
          == "agent:" + vs[0].fromAgent.value + ":" + ss[0].root.uuid by { ClientRootId(lib, key, vs[0].fromAgent.value, ss[0].root); }
    } else {
      ChainIsStored(lib, key, l, vs, ss, i - 1);
    }
  }

  lemma ClientRootId(lib: Library, key: Key, agent: string, d: Draw)
    ensures ClientRoot(lib, key, agent, d).identifier == "agent:" + agent + ":" + d.uuid
  {
  }

  // ----- the client object -----

  class Client {
    const manager: DelegationManager

    constructor (manager: DelegationManager)
      ensures this.manager == manager
    {
      this.manager := manager;
    }

    method BuildCaveats(resource: string, permissions: seq<string>, expiry: real, r: Restrictions) returns (cs: seq<Caveat>)
      ensures cs == RequestedCaveats(manager.lib, resource, permissions, expiry, r)
    {
      cs := [];
      if resource != "" {
        cs := cs + [Caveat(ResourcePrefix, resource)];
      }
      if permissions != [] {
        cs := cs + [Caveat(ActionLimit, Join(permissions, ','))];
      }
      cs := cs + [Caveat(TimeBefore, manager.lib.floatText(expiry))];
      if r.ipAddress.Some? {
        cs := cs + [Caveat(IpAddress, r.ipAddress.value)];
      }
      if r.requestCount.Some? {
        cs := cs + [Caveat(RequestCount, manager.lib.intText(r.requestCount.value))];
      }
    }

    /** No macaroon is ever found for the delegator, so every call starts from a new root. */
    method DelegateAccess(q: Request, s: Supply) returns (r: Result<Token, ClientError>)
      modifies manager
      ensures r.Err? ==> Refusal(q) == Some(r.error) && manager.Contents() == old(manager.Contents())
      ensures r.Ok? ==> Refusal(q) == None
      ensures r.Ok? ==> r.value == TokenOf(AccessMacaroon(manager.lib, manager.rootKey, q, s))
      ensures r.Ok? ==>
                var root := ClientRoot(manager.lib, manager.rootKey, q.delegator, s.root);
                manager.Contents() == EnterDelegated(EnterRoot(old(manager.Contents()), root), root.identifier,
                                                     AccessMacaroon(manager.lib, manager.rootKey, q, s))
    {
      hide AccessMacaroon, ClientRoot, TokenOf, EnterRoot, EnterDelegated, IsBlank;
      if IsBlank(q.delegator) { return Err(EmptyDelegator); }
      if IsBlank(q.target) { return Err(EmptyTarget); }
      if q.permissions == [] { return Err(NoPermissions); }
      if q.ttl <= 0 { return Err(BadTtl); }
      var m := IssueAccess(q, s);
      var token := m.Serialize();
      return Ok(token);
    }

    /** What follows the checks of `delegate_access`: the root, the caveats and the delegation. */
    method IssueAccess(q: Request, s: Supply) returns (m: Macaroon)
      modifies manager
      ensures m.Value() == AccessMacaroon(manager.lib, manager.rootKey, q, s)
      ensures var root := ClientRoot(manager.lib, manager.rootKey, q.delegator, s.root);
              manager.Contents() == EnterDelegated(EnterRoot(old(manager.Contents()), root), root.identifier, m.Value())
    {
      hide Signature, RequestedCaveats, DelegatedCaveats, Depth, EnterRoot, EnterDelegated;
      var root := manager.CreateRootMacaroon(q.delegator, ROOT_LOCATION, [], s.root);
      var caveats := BuildCaveats(q.resource, q.permissions, Expiry(s.clock, q.ttl), q.restrictions);
      RootKeepsNothing(manager.lib, manager.rootKey, q.delegator, s.root);
      var r := manager.DelegateMacaroon(root, q.target, caveats, s.delegated);
      return r.value;
    }

    method VerifyDelegation(t: Token, ctx: Context, now: real) returns (v: Verdict)
      ensures v == VerdictOf(manager.lib, manager.rootKey, manager.Contents(), t, ctx, now)
    {
      hide ReadToken, Accepts, LocationText, CaveatTexts;
      var read := Macaroon.Deserialize(manager.lib, t, manager.rootKey, now);
      match read
      case Err(e) => return VerificationError(e);
      case Ok(m) =>
        var valid, reason := manager.VerifyMacaroon(m, ctx, now);
        var chain := manager.GetDelegationChain(m.identifier);
        v := Checked(valid, reason, Info(m.identifier, LocationText(m.location), CaveatTexts(m.caveats), chain,
                                 m.creationTime, m.parentSignature));
    }

    /** One pass of the chain loop: the first creates the root, the others delegate on. */
    method DelegateLevel(current: Option<Macaroon>, v: Level, s: Supply) returns (m: Macaroon)
      requires Complete(v)
      requires current.Some? ==> Depth(manager.lib, current.value.caveats) == Some(1)
      modifies manager
      ensures fresh(m)
      ensures m.Value() == DelegatedMacaroon(manager.lib, manager.rootKey,
                             if current.None? then ClientRoot(manager.lib, manager.rootKey, v.fromAgent.value, s.root)
                             else old(current.value.Value()),
                             if current.None? then 0 else 1, v.toAgent.value, LevelCaveats(manager.lib, v, s), s.delegated)
      ensures manager.Contents() ==
                if current.None? then
                  var root := ClientRoot(manager.lib, manager.rootKey, v.fromAgent.value, s.root);
                  EnterDelegated(EnterRoot(old(manager.Contents()), root), root.identifier, m.Value())
                else EnterDelegated(old(manager.Contents()), old(current.value.identifier), m.Value())
    {
      hide Signature, RequestedCaveats, DelegatedMacaroon, RootMacaroon, Depth, EnterRoot, EnterDelegated;
      var parent;
      if current.None? {
        parent := manager.CreateRootMacaroon(v.fromAgent.value, ROOT_LOCATION, [], s.root);
        RootKeepsNothing(manager.lib, manager.rootKey, v.fromAgent.value, s.root);
      } else {
        parent := current.value;
      }
      var caveats := BuildCaveats(v.resource, v.permissions, LevelExpiry(v, s), v.restrictions);
      var r := manager.DelegateMacaroon(parent, v.toAgent.value, caveats, s.delegated);
      return r.value;
    }

    /** Fails at the first level with a missing agent; the levels before it stay recorded. */
    method CreateDelegationChain(vs: seq<Level>, ss: seq<Supply>) returns (r: Result<map<string, Token>, ClientError>)
      requires |ss| == |vs| && IntsPrint(manager.lib)
      modifies manager
      ensures r.Ok? <==> CompleteLevels(vs) == |vs|
      ensures r.Err? ==> r.error == DelegationFailed
      ensures r.Ok? ==> r.value == ChainTokens(manager.lib, manager.rootKey, vs, ss, |vs|)
      ensures manager.Contents() == ChainLedger(manager.lib, manager.rootKey, old(manager.Contents()), vs, ss, CompleteLevels(vs))
    {
      hide Signature, TokenOf, LevelCaveats, DelegatedMacaroon, Depth, EnterRoot, EnterDelegated, ChainTokens, ChainLedger, IntsPrint;
      var tokens: map<string, Token> := map[];
      var current: Option<Macaroon> := None;
      ghost var lib, key, start := manager.lib, manager.rootKey, manager.Contents();
      ChainStart(lib, key, start, vs, ss);
      for i := 0 to |vs|
        invariant i <= CompleteLevels(vs)
        invariant tokens == ChainTokens(lib, key, vs, ss, i)
        invariant manager.Contents() == ChainLedger(lib, key, start, vs, ss, i)
        invariant current.Some? <==> i > 0
        invariant i > 0 ==> current.value.Value() == ChainMacaroon(lib, key, vs, ss, i - 1)
      {
        if !Complete(vs[i]) {
          assert CompleteLevels(vs) == i;
          return Err(DelegationFailed);
        }
        if i > 0 {
          ChainDepth(lib, key, vs, ss, i - 1);
        }
        var m := DelegateLevel(current, vs[i], ss[i]);
        var token := m.Serialize();
        tokens := tokens[vs[i].toAgent.value := token];
        current := Some(m);
        ChainStep(lib, key, start, vs, ss, i);
      }
      return Ok(tokens);
    }
  }
}
