/** The delegation manager: root macaroons, delegation, the two tables, and JWT claims. */
module Delegation {
  import opened Text
  import opened Caveats
  import opened Macaroons

  /** The manager's two dictionaries, by value. */
  datatype Ledger = Ledger(macaroons: map<string, Fields>, chains: map<string, seq<string>>)

  const EMPTY_LEDGER := Ledger(map[], map[])

  /** What one issuing call draws from outside: a UUID and the clock. */
  datatype Draw = Draw(uuid: string, now: real)

  function RootId(agent: string, uuid: string): string {
    "agent:" + agent + ":" + uuid
  }

  function DelegatedId(target: string, uuid: string): string {
    "delegated:" + target + ":" + uuid
  }

  predicate KindAmongPieces(s: string) {
    exists p :: p in Split(s, ':') && KindOf(p).Some?
  }

  /** Both sorts of names, under a location, show a caveat header exactly when the agent, the UUID or
      what follows a colon of the location has a caveat kind among its colon-separated pieces. */
  lemma {:induction false} IssuedHeadShowsHeaderIff(location: string, agent: string, uuid: string)
    ensures HasHeader(HeadText(location, RootId(agent, uuid)) + ":") <==>
              (HasHeader(location + ":") || KindAmongPieces(agent) || KindAmongPieces(uuid))
    ensures HasHeader(HeadText(location, DelegatedId(agent, uuid)) + ":") <==>
              (HasHeader(location + ":") || KindAmongPieces(agent) || KindAmongPieces(uuid))
  {
    hide HasHeader, KindOf, Split;
    WordsAreNoKinds();
    assert "agent" + ":" == "agent:" && "delegated" + ":" == "delegated:";
    HeadShowsHeaderIff(location, "agent", agent, uuid);
    HeadShowsHeaderIff(location, "delegated", agent, uuid);
  }

  lemma WordsAreNoKinds()
    ensures ':' !in "agent" && ':' !in "delegated" && KindOf("agent").None? && KindOf("delegated").None?
  {
    var a, d := KindOf("agent"), KindOf("delegated");
    assert a.Some? ==> |KindName(a.value)| == 5;
    assert d.Some? ==> |KindName(d.value)| == 9;
  }

  lemma {:induction false} HeadShowsHeaderIff(location: string, word: string, agent: string, uuid: string)
    requires ':' !in word && KindOf(word).None?
    ensures HasHeader(HeadText(location, word + ":" + agent + ":" + uuid) + ":") <==>
              (HasHeader(location + ":") || KindAmongPieces(agent) || KindAmongPieces(uuid))
  {
    hide HasHeader, KindOf, Split;
    var s := HeadText(location, word + ":" + agent + ":" + uuid);
    var first, rest := Split(location, ':'), [word] + Split(agent, ':') + Split(uuid, ':');
    assert s == location + [':'] + (word + [':'] + (agent + [':'] + uuid));
    SplitAppend(location, ':', word + [':'] + (agent + [':'] + uuid));
    SplitAppend(word, ':', agent + [':'] + uuid);
    SplitAppend(agent, ':', uuid);
    SplitPlain(word, ':');
    assert Split(s, ':') == first + rest;
    HeaderIffKindPiece(s);
    HeaderIffKindPiece(location);
    assert forall p :: p in rest <==> p == word || p in Split(agent, ':') || p in Split(uuid, ':');
    KindAtOrAfter(first, rest);
    assert forall k :: 1 <= k < |first| ==> (first + rest)[k] == first[k];
  }

  lemma KindAtOrAfter(first: seq<string>, rest: seq<string>)
    ensures (exists k :: |first| <= k < |first + rest| && KindOf((first + rest)[k]).Some?) <==> (exists p :: p in rest && KindOf(p).Some?)
  {
    hide KindOf;
    if p :| p in rest && KindOf(p).Some? {
      var k :| 0 <= k < |rest| && rest[k] == p;
      assert (first + rest)[|first| + k] == p;
    }
  }

  function OfKind(cs: seq<Caveat>, kind: CaveatType): seq<Caveat> {
    if cs == [] then []
    else (if cs[0].kind == kind then [cs[0]] else []) + OfKind(cs[1..], kind)
  }

  function NotOfKind(cs: seq<Caveat>, kind: CaveatType): seq<Caveat> {
    if cs == [] then []
    else (if cs[0].kind != kind then [cs[0]] else []) + NotOfKind(cs[1..], kind)
  }

  lemma {:induction false} NotOfKindAppend(a: seq<Caveat>, b: seq<Caveat>, kind: CaveatType)
    ensures NotOfKind(a + b, kind) == NotOfKind(a, kind) + NotOfKind(b, kind)
    decreases |a|
  {
    if a == [] {
      assert a + b == b;
    } else {
      assert (a + b)[0] == a[0] && (a + b)[1..] == a[1..] + b;
      NotOfKindAppend(a[1..], b, kind);
      var head := if a[0].kind != kind then [a[0]] else [];
      assert head + NotOfKind(a[1..], kind) + NotOfKind(b, kind) == head + (NotOfKind(a[1..], kind) + NotOfKind(b, kind));
    }
  }

  lemma {:induction false} OfKindAppend(a: seq<Caveat>, b: seq<Caveat>, kind: CaveatType)
    ensures OfKind(a + b, kind) == OfKind(a, kind) + OfKind(b, kind)
    decreases |a|
  {
    if a == [] {
      assert a + b == b;
    } else {
      assert (a + b)[0] == a[0] && (a + b)[1..] == a[1..] + b;
      OfKindAppend(a[1..], b, kind);
      var head := if a[0].kind == kind then [a[0]] else [];
      assert head + OfKind(a[1..], kind) + OfKind(b, kind) == head + (OfKind(a[1..], kind) + OfKind(b, kind));
    }
  }

  lemma KindOfOne(c: Caveat, kind: CaveatType)
    ensures NotOfKind([c], kind) == if c.kind == kind then [] else [c]
    ensures OfKind([c], kind) == if c.kind == kind then [c] else []
  {
  }

  /** The value of the first caveat of a kind. */
  function FirstOf(cs: seq<Caveat>, kind: CaveatType): Option<string> {
    if cs == [] then None
    else if cs[0].kind == kind then Some(cs[0].value)
    else FirstOf(cs[1..], kind)
  }

  /** The first depth caveat read as an integer; 0 without one; None where `int` raises. */
  function Depth(lib: Library, cs: seq<Caveat>): Option<int> {
    match FirstOf(cs, DelegationDepth)
    case None => Some(0)
    case Some(text) => lib.intOf(text)
  }

  function RootCaveats(agent: string, initial: seq<Caveat>): seq<Caveat> {
    [Caveat(AgentId, agent)] + initial
  }

  function DelegatedCaveats(lib: Library, parent: seq<Caveat>, depth: int, target: string, extra: seq<Caveat>): seq<Caveat> {
    NotOfKind(parent, AgentId) + [Caveat(AgentId, target), Caveat(DelegationDepth, lib.intText(depth + 1))] + extra
  }

  lemma DelegatedCaveatsInSteps(lib: Library, parent: seq<Caveat>, depth: int, target: string, extra: seq<Caveat>)
    ensures NotOfKind(parent, AgentId) + [Caveat(AgentId, target)]
              + [Caveat(DelegationDepth, lib.intText(depth + 1))] + extra
         == DelegatedCaveats(lib, parent, depth, target, extra)
  {
  }

  function RootMacaroon(lib: Library, key: Key, agent: string, location: Location, initial: seq<Caveat>, d: Draw): Fields {
    Minted(lib, location, RootId(agent, d.uuid), key, RootCaveats(agent, initial), d.now)
  }

  function DelegatedMacaroon(lib: Library, key: Key, parent: Fields, depth: int, target: string, extra: seq<Caveat>, d: Draw): Fields {
    Minted(lib, parent.location, DelegatedId(target, d.uuid), key,
           DelegatedCaveats(lib, parent.caveats, depth, target, extra), d.now)
  }

  function ChainOf(l: Ledger, id: string): seq<string> {
    if id in l.chains then l.chains[id] else []
  }

  function Enter(l: Ledger, m: Fields, chain: seq<string>): Ledger {
    Ledger(l.macaroons[m.identifier := m], l.chains[m.identifier := chain])
  }

  function EnterRoot(l: Ledger, m: Fields): Ledger {
    Enter(l, m, [m.identifier])
  }

  /** A parent the table does not know starts the chain itself. */
  function ParentChain(l: Ledger, parentId: string): seq<string> {
    if parentId in l.chains then l.chains[parentId] else [parentId]
  }

  function EnterDelegated(l: Ledger, parentId: string, m: Fields): Ledger {
    Enter(l, m, ParentChain(l, parentId) + [m.identifier])
  }

  /** The fields of what is issued, caveats and signatures apart. */
  lemma IssuedFields(lib: Library, key: Key, agent: string, location: Location, initial: seq<Caveat>, parent: Fields, depth: int,
                     extra: seq<Caveat>, d: Draw)
    ensures var root := RootMacaroon(lib, key, agent, location, initial, d);
            && root.identifier == "agent:" + agent + ":" + d.uuid && root.location == location && root.key == key
            && root.creationTime == d.now && root.caveats == [Caveat(AgentId, agent)] + initial
    ensures var m := DelegatedMacaroon(lib, key, parent, depth, agent, extra, d);
            && m.identifier == "delegated:" + agent + ":" + d.uuid && m.location == parent.location && m.key == key
            && m.creationTime == d.now && NotOfKind(parent.caveats, AgentId) <= m.caveats
  {
  }

  /** What issuing leaves in the tables, by name: the macaroon under its identifier, its chain after
      its parent's, and everything else as it was. */
  lemma TablesAfterIssue(l: Ledger, m: Fields, parentId: string, other: string)
    ensures var l' := EnterRoot(l, m);
            && m.identifier in l'.macaroons && l'.macaroons[m.identifier] == m
            && m.identifier in l'.chains && l'.chains[m.identifier] == [m.identifier]
    ensures var l' := EnterDelegated(l, parentId, m);
            && m.identifier in l'.macaroons && l'.macaroons[m.identifier] == m
            && m.identifier in l'.chains
            && l'.chains[m.identifier] == (if parentId in l.chains then l.chains[parentId] else [parentId]) + [m.identifier]
    ensures forall l' :: l' in {EnterRoot(l, m), EnterDelegated(l, parentId, m)} && other != m.identifier ==>
              && (other in l'.macaroons <==> other in l.macaroons) && (other in l.chains <==> other in l'.chains)
              && (other in l.macaroons ==> l'.macaroons[other] == l.macaroons[other])
              && (other in l.chains ==> l'.chains[other] == l.chains[other])
  {
  }

  // ----- JWT claims -----

  datatype Claims = Claims(
    sub: Option<string>,
    macaroonId: string,
    macaroonLocation: string,
    caveats: seq<string>,
    delegationChain: seq<string>,
    macaroonSignature: string,
    parentSignature: Option<string>,
    macaroonCreated: Option<real>,
    iat: int,
    exp: Option<int>
  )

  /** `int(x)` on a float: towards zero. */
  function Truncate(x: real): int {
    if x >= 0.0 then x.Floor else -((-x).Floor)
  }

  /** `int(float(text))`; None where either call raises. */
  function WholeSeconds(lib: Library, text: string): Option<int> {
    match lib.floatOf(text)
    case Some(Finite(x)) => Some(Truncate(x))
    case _ => None
  }

  /** None where the `exp` of an unreadable time bound raises. */
  function ClaimsOf(lib: Library, l: Ledger, m: Fields, now: real): Option<Claims> {
    var bound := FirstOf(m.caveats, TimeBefore);
    if bound.Some? && WholeSeconds(lib, bound.value).None? then None
    else
      Some(Claims(FirstOf(m.caveats, AgentId), m.identifier, LocationText(m.location), CaveatTexts(m.caveats),
                  ChainOf(l, m.identifier), m.signature, m.parentSignature, Some(m.creationTime), Truncate(now),
                  if bound.Some? then WholeSeconds(lib, bound.value) else None))
  }

  /** No signature check here: `verify` does it. */
  function FromClaims(key: Key, c: Claims, now: real): Option<Fields> {
    match ParseCaveats(c.caveats)
    case None => None
    case Some(cs) =>
      Some(Fields(ParseLocation(c.macaroonLocation), c.macaroonId, key, cs, c.macaroonSignature,
                  c.parentSignature, c.macaroonCreated.GetOr(now)))
  }

  function EnterClaims(l: Ledger, c: Claims): Ledger {
    if c.macaroonId in l.chains then l else l.(chains := l.chains[c.macaroonId := c.delegationChain])
  }

  /** A wrong signature is reported like a failed caveat. */
  function ReasonOf(valid: bool): string {
    if valid then "Macaroon verified successfully" else "Caveat verification failed"
  }

  datatype Failure = BadDepth | BadTime | BadCaveat

  class DelegationManager {
    const lib: Library
    const rootKey: Key
    var macaroons: map<string, Macaroon>
    var delegationChains: map<string, seq<string>>

    ghost function Contents(): Ledger
      reads this, set id | id in macaroons :: macaroons[id]
    {
      Ledger(map id | id in macaroons :: macaroons[id].Value(), delegationChains)
    }

    constructor (lib: Library, rootKey: Key)
      ensures this.lib == lib && this.rootKey == rootKey
      ensures Contents() == EMPTY_LEDGER
    {
      this.lib, this.rootKey := lib, rootKey;
      macaroons, delegationChains := map[], map[];
    }

    /** Copies the parent's caveats, agent bindings excepted. */
    method CopyCaveats(m0: Macaroon, cs: seq<Caveat>, now: real) returns (m: Macaroon)
      requires m0.Value() == Minted(lib, m0.location, m0.identifier, m0.key, [], m0.creationTime)
      ensures m == m0 || fresh(m)
      ensures m.Value() == Minted(lib, m0.location, m0.identifier, m0.key, NotOfKind(cs, AgentId), m0.creationTime)
    {
      hide Signature, Minted;
      m := m0;
      for i := 0 to |cs|
        invariant m == m0 || fresh(m)
        invariant m.Value() == Minted(lib, m0.location, m0.identifier, m0.key, NotOfKind(cs[..i], AgentId), m0.creationTime)
      {
        assert cs[..i + 1] == cs[..i] + [cs[i]];
        NotOfKindAppend(cs[..i], [cs[i]], AgentId);
        KindOfOne(cs[i], AgentId);
        if cs[i].kind != AgentId {
          MintedSnoc(lib, m0.location, m0.identifier, m0.key, NotOfKind(cs[..i], AgentId), cs[i], m0.creationTime);
          MintedFields(lib, m0.location, m0.identifier, m0.key, NotOfKind(cs[..i], AgentId), m0.creationTime);
          m := m.AddCaveat(lib, cs[i], now);
        } else {
          assert NotOfKind(cs[..i + 1], AgentId) == NotOfKind(cs[..i], AgentId);
        }
      }
      assert cs[..|cs|] == cs;
    }

    method AddCaveats(m0: Macaroon, cs: seq<Caveat>, now: real) returns (m: Macaroon)
      requires m0.Value() == Minted(lib, m0.location, m0.identifier, m0.key, m0.caveats, m0.creationTime)
      ensures m == m0 || fresh(m)
      ensures m.Value() == Minted(lib, m0.location, m0.identifier, m0.key, m0.caveats + cs, m0.creationTime)
    {
      hide Signature, Minted;
      m := m0;
      assert m0.caveats + cs[..0] == m0.caveats;
      for i := 0 to |cs|
        invariant m == m0 || fresh(m)
        invariant m.Value() == Minted(lib, m0.location, m0.identifier, m0.key, m0.caveats + cs[..i], m0.creationTime)
      {
        MintedSnoc(lib, m0.location, m0.identifier, m0.key, m0.caveats + cs[..i], cs[i], m0.creationTime);
        MintedFields(lib, m0.location, m0.identifier, m0.key, m0.caveats + cs[..i], m0.creationTime);
        m := m.AddCaveat(lib, cs[i], now);
        assert m0.caveats + cs[..i] + [cs[i]] == m0.caveats + cs[..i + 1];
      }
      assert cs[..|cs|] == cs;
    }

    method Store(m: Macaroon, chain: seq<string>)
      modifies this
      ensures Contents() == Enter(old(Contents()), m.Value(), chain)
      ensures m.Value() == old(m.Value())
    {
      macaroons := macaroons[m.identifier := m];
      delegationChains := delegationChains[m.identifier := chain];
      assert Contents().macaroons == old(Contents()).macaroons[m.identifier := m.Value()];
    }

    /** The chain of the parent, which starts it itself when the table does not know it, goes on with `m`. */
    method StoreUnder(parentId: string, m: Macaroon)
      modifies this
      ensures Contents() == EnterDelegated(old(Contents()), parentId, m.Value())
      ensures m.Value() == old(m.Value())
    {
      var parentChain := if parentId in delegationChains then delegationChains[parentId] else [parentId];
      Store(m, parentChain + [m.identifier]);
    }

    method CreateRootMacaroon(agent: string, location: Location, initial: seq<Caveat>, d: Draw) returns (m: Macaroon)
      modifies this
      ensures fresh(m)
      ensures m.Value() == RootMacaroon(lib, rootKey, agent, location, initial, d)
      ensures Contents() == EnterRoot(old(Contents()), m.Value())
    {
      hide Signature, RootId;
      var identifier := RootId(agent, d.uuid);
      m := new Macaroon(lib, location, identifier, rootKey, d.now);
      MintedSnoc(lib, location, identifier, rootKey, [], Caveat(AgentId, agent), d.now);
      m := m.AddCaveat(lib, Caveat(AgentId, agent), d.now);
      m := AddCaveats(m, initial, d.now);
      assert [Caveat(AgentId, agent)] + initial == RootCaveats(agent, initial);
      label stored:
      Store(m, [identifier]);
      assert old@stored(Contents()) == old(Contents());
    }

    /** The value of the first depth caveat; `int` raises where this returns None. */
    method GetDelegationDepth(m: Macaroon) returns (depth: Option<int>)
      ensures depth == Depth(lib, m.caveats)
    {
      for i := 0 to |m.caveats|
        invariant FirstOf(m.caveats, DelegationDepth) == FirstOf(m.caveats[i..], DelegationDepth)
      {
        if m.caveats[i].kind == DelegationDepth {
          return lib.intOf(m.caveats[i].value);
        }
      }
      return Some(0);
    }

    /** A new macaroon with the parent's caveats, bound to the target instead. */
    method Rebind(parent: Macaroon, target: string, d: Draw) returns (m: Macaroon)
      ensures fresh(m)
      ensures m.Value() == Minted(lib, parent.location, DelegatedId(target, d.uuid), rootKey,
                                  NotOfKind(parent.caveats, AgentId) + [Caveat(AgentId, target)], d.now)
    {
      hide Signature, DelegatedId, NotOfKind, Minted;
      var identifier := DelegatedId(target, d.uuid);
      m := new Macaroon(lib, parent.location, identifier, rootKey, d.now);
      MintedFields(lib, parent.location, identifier, rootKey, [], d.now);
      m := CopyCaveats(m, parent.caveats, d.now);
      ghost var cs := NotOfKind(parent.caveats, AgentId);
      MintedFields(lib, parent.location, identifier, rootKey, cs, d.now);
      MintedSnoc(lib, parent.location, identifier, rootKey, cs, Caveat(AgentId, target), d.now);
      m := m.AddCaveat(lib, Caveat(AgentId, target), d.now);
    }

    method DelegateMacaroon(parent: Macaroon, target: string, extra: seq<Caveat>, d: Draw)
      returns (r: Result<Macaroon, Failure>)
      modifies this
      ensures r.Ok? <==> Depth(lib, parent.caveats).Some?
      ensures r.Ok? ==> fresh(r.value)
      ensures r.Ok? ==> r.value.Value() == DelegatedMacaroon(lib, rootKey, old(parent.Value()),
                                             Depth(lib, old(parent.caveats)).value, target, extra, d)
      ensures r.Ok? ==> Contents() == EnterDelegated(old(Contents()), old(parent.identifier), r.value.Value())
      ensures r.Err? ==> Contents() == old(Contents())
    {
      hide Signature, DelegatedId, NotOfKind, Depth, DelegatedCaveats, Minted;
      var identifier := DelegatedId(target, d.uuid);
      var m := Rebind(parent, target, d);
      ghost var cs := NotOfKind(parent.caveats, AgentId) + [Caveat(AgentId, target)];
      MintedFields(lib, parent.location, identifier, rootKey, cs, d.now);

      var depth := GetDelegationDepth(parent);
      if depth.None? {
        return Err(BadDepth);
      }
      var depthCaveat := Caveat(DelegationDepth, lib.intText(depth.value + 1));
      MintedSnoc(lib, parent.location, identifier, rootKey, cs, depthCaveat, d.now);
      m := m.AddCaveat(lib, depthCaveat, d.now);
      cs := cs + [depthCaveat];

      MintedFields(lib, parent.location, identifier, rootKey, cs, d.now);
      m := AddCaveats(m, extra, d.now);
      DelegatedCaveatsInSteps(lib, parent.caveats, depth.value, target, extra);
      MintedFields(lib, parent.location, identifier, rootKey, cs + extra, d.now);
      label stored:
      StoreUnder(parent.identifier, m);
      assert old@stored(Contents()) == old(Contents());
      return Ok(m);
    }

    method VerifyMacaroon(m: Macaroon, ctx: Context, now: real) returns (valid: bool, reason: string)
      ensures valid <==> Accepts(lib, m.Value(), rootKey, ctx, now)
      ensures reason == if valid then "Macaroon verified successfully" else "Caveat verification failed"
    {
      valid := m.Verify(lib, rootKey, ctx, now);
      if valid {
        reason := "Macaroon verified successfully";
      } else {
        reason := "Caveat verification failed";
      }
    }

    method GetDelegationChain(id: string) returns (chain: seq<string>)
      ensures chain == ChainOf(Contents(), id)
    {
      chain := if id in delegationChains then delegationChains[id] else [];
    }

    method MacaroonToJwtClaims(m: Macaroon, now: real) returns (c: Result<Claims, Failure>)
      ensures c.Ok? ==> ClaimsOf(lib, Contents(), m.Value(), now) == Some(c.value)
      ensures c.Err? ==> ClaimsOf(lib, Contents(), m.Value(), now) == None
    {
      var sub := None;
      for i := 0 to |m.caveats|
        invariant sub == None
        invariant FirstOf(m.caveats, AgentId) == FirstOf(m.caveats[i..], AgentId)
      {
        if m.caveats[i].kind == AgentId {
          sub := Some(m.caveats[i].value);
          break;
        }
      }
      var chain := GetDelegationChain(m.identifier);
      var claims := Claims(sub, m.identifier, LocationText(m.location), CaveatTexts(m.caveats), chain,
                           m.signature, m.parentSignature, Some(m.creationTime), Truncate(now), None);
      for i := 0 to |m.caveats|
        invariant FirstOf(m.caveats, TimeBefore) == FirstOf(m.caveats[i..], TimeBefore)
        invariant claims.exp == None
      {
        if m.caveats[i].kind == TimeBefore {
          var exp := WholeSeconds(lib, m.caveats[i].value);
          if exp.None? {
            return Err(BadTime);
          }
          return Ok(claims.(exp := exp));
        }
      }
      return Ok(claims);
    }

    method JwtClaimsToMacaroon(c: Claims, now: real) returns (r: Result<Macaroon, Failure>)
      modifies this
      ensures r.Ok? ==> fresh(r.value) && FromClaims(rootKey, c, now) == Some(r.value.Value())
      ensures r.Ok? ==> Contents() == EnterClaims(old(Contents()), c)
      ensures r.Err? ==> FromClaims(rootKey, c, now) == None && Contents() == old(Contents())
    {
      hide Signature, ParseCaveats, ParseLocation;
      var m := new Macaroon(lib, ParseLocation(c.macaroonLocation), c.macaroonId, rootKey, now);
      match ParseCaveats(c.caveats)
      case None => return Err(BadCaveat);
      case Some(cs) =>
        m.caveats := cs;
        m.signature := c.macaroonSignature;
        m.parentSignature := c.parentSignature;
        m.creationTime := c.macaroonCreated.GetOr(now);
        if c.macaroonId !in delegationChains {
          delegationChains := delegationChains[c.macaroonId := c.delegationChain];
        }
        return Ok(m);
    }
  }
}
