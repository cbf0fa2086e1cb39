/** Permissions only shrink: what one delegation does to the accepted requests. */
module Attenuation {
  import opened Text
  import opened Caveats
  import opened Macaroons
  import opened Delegation

  // ----- one delegation -----

  /** No two agent bindings of the list name different agents. */
  predicate AgentsAgree(cs: seq<Caveat>) {
    forall i, j :: 0 <= i < |cs| && 0 <= j < |cs| && cs[i].kind == AgentId && cs[j].kind == AgentId
      ==> cs[i].value == cs[j].value
  }

  function WithAgent(ctx: Context, agent: string): Context {
    ctx.(agentId := Some(agent))
  }

  lemma AllHoldAppend(lib: Library, a: seq<Caveat>, b: seq<Caveat>, ctx: Context, now: real)
    ensures AllHold(lib, a + b, ctx, now) <==> AllHold(lib, a, ctx, now) && AllHold(lib, b, ctx, now)
  {
    hide CaveatHolds;
    if AllHold(lib, a + b, ctx, now) {
      assert forall k :: 0 <= k < |a| ==> (a + b)[k] == a[k];
      assert forall k :: 0 <= k < |b| ==> (a + b)[|a| + k] == b[k];
    }
  }

  lemma {:induction false} AllHoldSplit(lib: Library, cs: seq<Caveat>, kind: CaveatType, ctx: Context, now: real)
    ensures AllHold(lib, cs, ctx, now) <==>
            AllHold(lib, NotOfKind(cs, kind), ctx, now) && AllHold(lib, OfKind(cs, kind), ctx, now)
    decreases |cs|
  {
    hide CaveatHolds, AllHold;
    if cs == [] {
      AllHoldAppend(lib, [], [], ctx, now);
    } else {
      assert cs == [cs[0]] + cs[1..];
      KindOfOne(cs[0], kind);
      NotOfKindAppend([cs[0]], cs[1..], kind);
      OfKindAppend([cs[0]], cs[1..], kind);
      AllHoldAppend(lib, [cs[0]], cs[1..], ctx, now);
      AllHoldAppend(lib, NotOfKind([cs[0]], kind), NotOfKind(cs[1..], kind), ctx, now);
      AllHoldAppend(lib, OfKind([cs[0]], kind), OfKind(cs[1..], kind), ctx, now);
      AllHoldSplit(lib, cs[1..], kind, ctx, now);
      AllHoldEmpty(lib, ctx, now);
    }
  }

  lemma AllHoldEmpty(lib: Library, ctx: Context, now: real)
    ensures AllHold(lib, [], ctx, now)
  {
  }

  lemma {:induction false} KindsKept(cs: seq<Caveat>, kind: CaveatType)
    ensures forall c :: c in NotOfKind(cs, kind) <==> c in cs && c.kind != kind
    ensures forall c :: c in OfKind(cs, kind) <==> c in cs && c.kind == kind
    decreases |cs|
  {
    if cs != [] {
      KindsKept(cs[1..], kind);
      assert forall c :: c in cs <==> c == cs[0] || c in cs[1..];
    }
  }

  /** Only agent bindings look at the agent of the request. */
  lemma AgentIsIrrelevant(lib: Library, cs: seq<Caveat>, ctx: Context, agent: string, now: real)
    ensures AllHold(lib, NotOfKind(cs, AgentId), ctx, now) <==> AllHold(lib, NotOfKind(cs, AgentId), WithAgent(ctx, agent), now)
  {
    KindsKept(cs, AgentId);
    var kept := NotOfKind(cs, AgentId);
    forall k | 0 <= k < |kept|
      ensures CaveatHolds(lib, kept[k], ctx, now) == CaveatHolds(lib, kept[k], WithAgent(ctx, agent), now)
    {
      assert kept[k] in kept;
    }
  }

  lemma BoundTo(lib: Library, cs: seq<Caveat>, ctx: Context, agent: string, now: real)
    ensures AllHold(lib, OfKind(cs, AgentId), WithAgent(ctx, agent), now)
       <==> forall c :: c in cs && c.kind == AgentId ==> c.value == agent
  {
    KindsKept(cs, AgentId);
    var bindings := OfKind(cs, AgentId);
    assert forall k :: 0 <= k < |bindings| ==> bindings[k] in bindings;
    if AllHold(lib, bindings, WithAgent(ctx, agent), now) {
      forall c | c in cs && c.kind == AgentId ensures c.value == agent {
        assert c in bindings;
      }
    }
  }

  /** The requests a delegated macaroon accepts: the target's, within every inherited restriction
      but the agent binding, within the depth limit and within the added restrictions. */
  lemma DelegatedAcceptsExactly(lib: Library, key: Key, parent: Fields, depth: int, target: string, extra: seq<Caveat>,
                                d: Draw, ctx: Context, now: real)
    ensures Accepts(lib, DelegatedMacaroon(lib, key, parent, depth, target, extra, d), key, ctx, now) <==>
            && AllHold(lib, NotOfKind(parent.caveats, AgentId), ctx, now)
            && ctx.agentId == Some(target)
            && WithinLimit(lib, ctx.delegationDepth, lib.intText(depth + 1))
            && AllHold(lib, extra, ctx, now)
  {
    hide Signature, WithinLimit;
    var kept := NotOfKind(parent.caveats, AgentId);
    var added := [Caveat(AgentId, target), Caveat(DelegationDepth, lib.intText(depth + 1))];
    AllHoldAppend(lib, kept + added, extra, ctx, now);
    AllHoldAppend(lib, kept, added, ctx, now);
    assert CaveatHolds(lib, added[0], ctx, now) <==> ctx.agentId == Some(target);
    assert CaveatHolds(lib, added[1], ctx, now) <==> WithinLimit(lib, ctx.delegationDepth, lib.intText(depth + 1));
    assert AllHold(lib, added, ctx, now) <==> CaveatHolds(lib, added[0], ctx, now) && CaveatHolds(lib, added[1], ctx, now);
  }

  /** When the other caveats hold, the whole list holds for some agent exactly when its agent
      bindings do not contradict each other. */
  lemma SomeAgentHolds(lib: Library, cs: seq<Caveat>, ctx: Context, now: real)
    requires AllHold(lib, NotOfKind(cs, AgentId), ctx, now)
    ensures (exists a: string :: AllHold(lib, cs, WithAgent(ctx, a), now)) <==> AgentsAgree(cs)
  {
    hide CaveatHolds;
    forall a: string
      ensures AllHold(lib, cs, WithAgent(ctx, a), now) <==> forall c :: c in cs && c.kind == AgentId ==> c.value == a
    {
      AllHoldSplit(lib, cs, AgentId, WithAgent(ctx, a), now);
      AgentIsIrrelevant(lib, cs, ctx, a, now);
      BoundTo(lib, cs, ctx, a, now);
    }
    if AgentsAgree(cs) {
      var a := if exists k :: 0 <= k < |cs| && cs[k].kind == AgentId
               then var k :| 0 <= k < |cs| && cs[k].kind == AgentId; cs[k].value else "";
      assert AllHold(lib, cs, WithAgent(ctx, a), now);
    }
  }

  /** A request accepted below is accepted by the parent for some agent exactly when the parent is
      signed under the root key and its agent bindings do not contradict each other. */
  lemma DelegationAttenuates(lib: Library, key: Key, parent: Fields, depth: int, target: string, extra: seq<Caveat>,
                             d: Draw, ctx: Context, now: real)
    requires Accepts(lib, DelegatedMacaroon(lib, key, parent, depth, target, extra, d), key, ctx, now)
    ensures (exists a: string :: Accepts(lib, parent, key, WithAgent(ctx, a), now)) <==>
            (Signature(lib, parent.location, parent.identifier, key, parent.caveats) == parent.signature
             && AgentsAgree(parent.caveats))
  {
    hide Signature, CaveatHolds, WithinLimit;
    DelegatedAcceptsExactly(lib, key, parent, depth, target, extra, d, ctx, now);
    SomeAgentHolds(lib, parent.caveats, ctx, now);
    if AgentsAgree(parent.caveats) {
      var a: string :| AllHold(lib, parent.caveats, WithAgent(ctx, a), now);
      assert Accepts(lib, parent, key, WithAgent(ctx, a), now) <==>
             Signature(lib, parent.location, parent.identifier, key, parent.caveats) == parent.signature;
    }
  }

  /** A parent that has travelled as a token delegates the same macaroon as the one that stayed. */
  lemma CopiesDelegateAlike(lib: Library, key: Key, m: Fields, copy: Fields, depth: int, target: string, extra: seq<Caveat>, d: Draw)
    requires SameMacaroon(m, copy)
    ensures SameMacaroon(DelegatedMacaroon(lib, key, m, depth, target, extra, d),
                         DelegatedMacaroon(lib, key, copy, depth, target, extra, d))
  {
  }

  // ----- caveats by kind -----

  lemma DelegatedKinds(lib: Library, parent: seq<Caveat>, depth: int, target: string, extra: seq<Caveat>, kind: CaveatType)
    ensures OfKind(DelegatedCaveats(lib, parent, depth, target, extra), kind)
         == OfKind(NotOfKind(parent, AgentId), kind)
            + OfKind([Caveat(AgentId, target)], kind)
            + OfKind([Caveat(DelegationDepth, lib.intText(depth + 1))], kind)
            + OfKind(extra, kind)
  {
    hide OfKind, NotOfKind;
    var kept := NotOfKind(parent, AgentId);
    var a, b := Caveat(AgentId, target), Caveat(DelegationDepth, lib.intText(depth + 1));
    OfKindAppend(kept + [a, b], extra, kind);
    assert kept + [a, b] == kept + [a] + [b];
    OfKindAppend(kept + [a], [b], kind);
    OfKindAppend(kept, [a], kind);
  }

  lemma {:induction false} NoneOfKind(cs: seq<Caveat>, kind: CaveatType)
    requires forall c :: c in cs ==> c.kind != kind
    ensures OfKind(cs, kind) == []
    decreases |cs|
  {
    if cs != [] {
      assert cs[0] in cs;
      NoneOfKind(cs[1..], kind);
    }
  }

  lemma {:induction false} AllOfKind(cs: seq<Caveat>, kind: CaveatType)
    requires forall c :: c in cs ==> c.kind == kind
    ensures NotOfKind(cs, kind) == []
    decreases |cs|
  {
    if cs != [] {
      assert cs[0] in cs;
      AllOfKind(cs[1..], kind);
    }
  }

  lemma DelegatedCarries(lib: Library, parent: seq<Caveat>, depth: int, target: string, extra: seq<Caveat>)
    ensures var cs := DelegatedCaveats(lib, parent, depth, target, extra);
            && NotOfKind(parent, AgentId) <= cs
            && OfKind(cs, AgentId) == [Caveat(AgentId, target)] + OfKind(extra, AgentId)
            && OfKind(cs, DelegationDepth)
                 == OfKind(parent, DelegationDepth) + [Caveat(DelegationDepth, lib.intText(depth + 1))] + OfKind(extra, DelegationDepth)
  {
    hide OfKind, NotOfKind;
    var a, b := Caveat(AgentId, target), Caveat(DelegationDepth, lib.intText(depth + 1));
    DelegatedKinds(lib, parent, depth, target, extra, AgentId);
    DelegatedKinds(lib, parent, depth, target, extra, DelegationDepth);
    KindOfOne(a, AgentId);
    KindOfOne(b, AgentId);
    KindOfOne(a, DelegationDepth);
    KindOfOne(b, DelegationDepth);
    KindsKept(parent, AgentId);
    NoneOfKind(NotOfKind(parent, AgentId), AgentId);
    OtherKindsKept(parent, AgentId, DelegationDepth);
  }

  lemma {:induction false} OtherKindsKept(cs: seq<Caveat>, dropped: CaveatType, kind: CaveatType)
    requires dropped != kind
    ensures OfKind(NotOfKind(cs, dropped), kind) == OfKind(cs, kind)
    decreases |cs|
  {
    if cs != [] {
      OtherKindsKept(cs[1..], dropped, kind);
      if cs[0].kind != dropped {
        assert ([cs[0]] + NotOfKind(cs[1..], dropped))[1..] == NotOfKind(cs[1..], dropped);
      } else {
        assert NotOfKind(cs, dropped) == NotOfKind(cs[1..], dropped);
        assert OfKind(cs, kind) == OfKind(cs[1..], kind);
      }
    }
  }

  lemma {:induction false} FirstOfKind(cs: seq<Caveat>, kind: CaveatType)
    ensures FirstOf(cs, kind) == if OfKind(cs, kind) == [] then None else Some(OfKind(cs, kind)[0].value)
    decreases |cs|
  {
    if cs != [] {
      FirstOfKind(cs[1..], kind);
    }
  }

  lemma {:induction false} NotOfKindTwice(cs: seq<Caveat>, kind: CaveatType)
    ensures NotOfKind(NotOfKind(cs, kind), kind) == NotOfKind(cs, kind)
    decreases |cs|
  {
    if cs != [] {
      NotOfKindTwice(cs[1..], kind);
      if cs[0].kind != kind {
        assert ([cs[0]] + NotOfKind(cs[1..], kind))[1..] == NotOfKind(cs[1..], kind);
      } else {
        assert NotOfKind(cs, kind) == NotOfKind(cs[1..], kind);
      }
    }
  }

  // ----- one delegation, further -----

  /** For every parent: the depth is read from the first depth caveat, which a delegation never
      changes once there is one; the first delegation writes 1. */
  lemma {:induction false} DelegatedDepth(lib: Library, parent: seq<Caveat>, target: string, extra: seq<Caveat>)
    requires IntsPrint(lib) && Depth(lib, parent).Some?
    ensures Depth(lib, DelegatedCaveats(lib, parent, Depth(lib, parent).value, target, extra))
         == if FirstOf(parent, DelegationDepth).Some? then Depth(lib, parent) else Some(1)
  {
    hide OfKind, NotOfKind, FirstOf, DelegatedCaveats;
    var depth := Depth(lib, parent).value;
    var cs := DelegatedCaveats(lib, parent, depth, target, extra);
    DelegatedCarries(lib, parent, depth, target, extra);
    FirstOfKind(parent, DelegationDepth);
    FirstOfKind(cs, DelegationDepth);
  }

  /** The depth caveats of a macaroon `n` delegations below its root. */
  function DepthTrail(lib: Library, n: nat): (cs: seq<Caveat>)
    ensures |cs| == n
    ensures n > 0 ==> cs[0] == Caveat(DelegationDepth, lib.intText(1))
    ensures forall k :: 1 <= k < n ==> cs[k] == Caveat(DelegationDepth, lib.intText(2))
  {
    if n == 0 then []
    else DepthTrail(lib, n - 1) + [Caveat(DelegationDepth, lib.intText(if n == 1 then 1 else 2))]
  }

  lemma DepthOfTrail(lib: Library, cs: seq<Caveat>, n: nat)
    requires IntsPrint(lib) && OfKind(cs, DelegationDepth) == DepthTrail(lib, n)
    ensures Depth(lib, cs) == Some(if n == 0 then 0 else 1)
  {
  }

  lemma SealedAccepts(lib: Library, m: Fields, ctx: Context, now: real)
    requires Sealed(lib, m)
    ensures Accepts(lib, m, m.key, ctx, now) <==> AllHold(lib, m.caveats, ctx, now)
  {
  }

  lemma AcceptsForSome(lib: Library, m: Fields, key: Key, ctx: Context, now: real)
    requires Sealed(lib, m) && m.key == key
    ensures (exists a: string :: Accepts(lib, m, key, WithAgent(ctx, a), now))
       <==> (exists a: string :: AllHold(lib, m.caveats, WithAgent(ctx, a), now))
  {
    hide AllHold;
    if a: string :| AllHold(lib, m.caveats, WithAgent(ctx, a), now) {
      assert Accepts(lib, m, key, WithAgent(ctx, a), now);
    }
  }
}
