/** What every run of root creations, delegations and imported claims keeps: signatures, chains, and
    the bounds that ancestors set. */
module DelegationRuns {
  import opened Text
  import opened Caveats
  import opened Macaroons
  import opened Delegation
  import opened Attenuation

  /** A delegation starts from any macaroon value: a stored one, one with added caveats, one read
      from a token, or one rebuilt from claims. */
  datatype Op =
    | NewRoot(agent: string, location: Location, initial: seq<Caveat>, d: Draw)
    | SubDelegate(parent: Fields, target: string, extra: seq<Caveat>, d: Draw)
    | Import(c: Claims, received: real)

  function IdOf(op: Op): string {
    match op
    case NewRoot(agent, _, _, d) => RootId(agent, d.uuid)
    case SubDelegate(_, target, _, d) => DelegatedId(target, d.uuid)
    case Import(c, _) => c.macaroonId
  }

  function CallerCaveats(op: Op): seq<Caveat> {
    match op
    case NewRoot(_, _, initial, _) => initial
    case SubDelegate(_, _, extra, _) => extra
    case Import(_, _) => []
  }

  /** UUIDs do not repeat: an identifier that no table mentions yet. */
  predicate New(l: Ledger, id: string) {
    id !in l.macaroons && id !in l.chains && forall x :: x in l.chains ==> id !in l.chains[x]
  }

  predicate Possible(l: Ledger, op: Op) {
    op.Import? || (New(l, IdOf(op)) && (op.SubDelegate? ==> op.parent.identifier != IdOf(op)))
  }

  /** The operation issues a delegated macaroon: the depth of the parent is readable. */
  predicate Delegates(lib: Library, l: Ledger, op: Op) {
    op.SubDelegate? && Possible(l, op) && Depth(lib, op.parent.caveats).Some?
  }

  function Child(lib: Library, key: Key, l: Ledger, op: Op): (m: Fields)
    requires Delegates(lib, l, op)
    ensures m.identifier == IdOf(op)
  {
    DelegatedMacaroon(lib, key, op.parent, Depth(lib, op.parent.caveats).value, op.target, op.extra, op.d)
  }

  function Perform(lib: Library, key: Key, l: Ledger, op: Op): Ledger {
    if !Possible(l, op) then l
    else
      match op
      case NewRoot(agent, location, initial, d) => EnterRoot(l, RootMacaroon(lib, key, agent, location, initial, d))
      case SubDelegate(parent, _, _, _) =>
        if Delegates(lib, l, op) then EnterDelegated(l, parent.identifier, Child(lib, key, l, op)) else l
      case Import(c, received) => if FromClaims(key, c, received).Some? then EnterClaims(l, c) else l
  }

  function Play(lib: Library, key: Key, ops: seq<Op>): Ledger {
    if ops == [] then EMPTY_LEDGER else Perform(lib, key, Play(lib, key, ops[..|ops| - 1]), ops[|ops| - 1])
  }

  /** A property of the table that each step keeps exactly under a condition is kept all over a run
      exactly when each step of the run meets the condition. */
  lemma {:induction false} RunsIff(lib: Library, key: Key, ops: seq<Op>, kept: Ledger -> bool, fits: (Ledger, Op) -> bool)
    requires kept(EMPTY_LEDGER)
    requires forall l, op {:trigger fits(l, op)} :: kept(l) ==> (kept(Perform(lib, key, l, op)) <==> fits(l, op))
    ensures (forall n: nat :: n <= |ops| ==> kept(Play(lib, key, ops[..n])))
       <==> (forall n: nat :: n < |ops| ==> fits(Play(lib, key, ops[..n]), ops[n]))
    decreases |ops|
  {
    hide Perform, Play;
    assert ops[..|ops|] == ops;
    PlayLast(lib, key, ops);
    if ops != [] {
      var m := |ops| - 1;
      assert forall n: nat :: n <= m ==> ops[..m][..n] == ops[..n];
      assert forall n: nat :: n < m ==> ops[..m][n] == ops[n];
      RunsIff(lib, key, ops[..m], kept, fits);
    }
  }

  lemma PlayLast(lib: Library, key: Key, ops: seq<Op>)
    ensures Play(lib, key, ops) == if ops == [] then EMPTY_LEDGER
                                   else Perform(lib, key, Play(lib, key, ops[..|ops| - 1]), ops[|ops| - 1])
  {
    hide Perform;
  }

  /** Every macaroon of the table is signed over all its caveats under the root key and remembers
      the signature over all but the last. */
  predicate AllSealed(lib: Library, key: Key, l: Ledger) {
    forall id :: id in l.macaroons ==>
      l.macaroons[id].identifier == id && l.macaroons[id].key == key && Sealed(lib, l.macaroons[id])
  }

  lemma {:induction false} RunsSeal(lib: Library, key: Key, ops: seq<Op>)
    ensures AllSealed(lib, key, Play(lib, key, ops))
    decreases |ops|
  {
    hide Signature, RootId, DelegatedId, DelegatedCaveats, Depth;
    if ops != [] {
      RunsSeal(lib, key, ops[..|ops| - 1]);
    }
  }

  /** In every run: the token of an issued macaroon reads back as that macaroon under the root key,
      when its location string survives transport. */
  lemma {:induction false} IssuedTokensRoundTrip(lib: Library, key: Key, ops: seq<Op>, id: string, now: real)
    requires id in Play(lib, key, ops).macaroons
    requires LocationSurvives(LocationText(Play(lib, key, ops).macaroons[id].location))
    ensures var m := Play(lib, key, ops).macaroons[id];
            && m.signature == Signature(lib, m.location, id, key, m.caveats)
            && m.parentSignature == (if m.caveats == [] then None
                                     else Some(Signature(lib, m.location, id, key, m.caveats[..|m.caveats| - 1])))
            && ReadToken(lib, TokenOf(m), key, now).Ok?
            && SameMacaroon(ReadToken(lib, TokenOf(m), key, now).value, m)
  {
    hide Signature, Play, ReadToken, TokenOf, LocationText;
    RunsSeal(lib, key, ops);
    TokenRoundTrip(lib, Play(lib, key, ops).macaroons[id], now);
  }

  /** Every issued macaroon is stored under its own identifier and has a stored chain that ends in it. */
  predicate LedgerOk(l: Ledger) {
    forall id :: id in l.macaroons ==>
      && l.macaroons[id].identifier == id && id in l.chains
      && l.chains[id] != [] && l.chains[id][|l.chains[id]| - 1] == id
  }

  lemma {:induction false} RunsKeepLedger(lib: Library, key: Key, ops: seq<Op>)
    ensures LedgerOk(Play(lib, key, ops))
    decreases |ops|
  {
    hide Signature, RootId, DelegatedId, DelegatedCaveats, Depth, FromClaims, New, ParentChain;
    if ops != [] {
      RunsKeepLedger(lib, key, ops[..|ops| - 1]);
    }
  }

  // ----- chains -----

  predicate Lineage(l: Ledger, id: string)
    requires id in l.chains
  {
    var chain := l.chains[id];
    && chain != [] && chain[|chain| - 1] == id
    && forall k :: 0 <= k < |chain| ==> chain[k] in l.chains && l.chains[chain[k]] == chain[..k + 1]
  }

  predicate AllLineages(l: Ledger) {
    forall id :: id in l.chains ==> Lineage(l, id)
  }

  /** The claims of a known identifier change nothing; others must bring a chain of their own
      identifier alone, or one that extends the stored chain of the identifier before it. */
  predicate ImportFits(l: Ledger, c: Claims) {
    c.macaroonId in l.chains ||
    var chain := c.delegationChain;
    && chain != [] && chain[|chain| - 1] == c.macaroonId
    && (|chain| == 1 || (chain[|chain| - 2] in l.chains && l.chains[chain[|chain| - 2]] == chain[..|chain| - 1]))
  }

  lemma {:induction false} EnterKeepsLineages(l: Ledger, id: string, chain: seq<string>)
    requires AllLineages(l) && id !in l.chains && chain != [] && chain[|chain| - 1] == id
    requires |chain| == 1 || (chain[|chain| - 2] in l.chains && l.chains[chain[|chain| - 2]] == chain[..|chain| - 1])
    ensures AllLineages(l.(chains := l.chains[id := chain]))
  {
    var l' := l.(chains := l.chains[id := chain]);
    forall x | x in l'.chains ensures Lineage(l', x) {
      if x != id {
        assert Lineage(l, x);
      } else {
        forall k | 0 <= k < |chain| ensures chain[k] in l'.chains && l'.chains[chain[k]] == chain[..k + 1] {
          if k == |chain| - 1 {
            assert chain[..k + 1] == chain;
          } else {
            assert Lineage(l, chain[|chain| - 2]);
            assert chain[..|chain| - 1][k] == chain[k] && chain[..|chain| - 1][..k + 1] == chain[..k + 1];
          }
        }
      }
    }
  }

  lemma {:induction false} ImportKeepsLineagesIff(l: Ledger, c: Claims)
    requires AllLineages(l)
    ensures AllLineages(EnterClaims(l, c)) <==> ImportFits(l, c)
  {
    var id, chain, l' := c.macaroonId, c.delegationChain, EnterClaims(l, c);
    if ImportFits(l, c) {
      if id !in l.chains {
        EnterKeepsLineages(l, id, chain);
      }
    }
    if AllLineages(l') && id !in l.chains {
      LineageExtends(l', id);
    }
  }

  lemma LineageExtends(l: Ledger, id: string)
    requires id in l.chains && Lineage(l, id)
    ensures var chain := l.chains[id];
            && chain != [] && chain[|chain| - 1] == id
            && (|chain| > 1 ==>
                  var up := chain[|chain| - 2];
                  up != id && up in l.chains && l.chains[up] == chain[..|chain| - 1])
  {
    var chain := l.chains[id];
    if |chain| > 1 {
      var k := |chain| - 2;
      assert l.chains[chain[k]] == chain[..k + 1];
      assert |chain[..k + 1]| < |chain|;
    }
  }

  /** What keeps all stored chains lineages: imports that fit, and delegations from known parents. */
  predicate FitsLineages(lib: Library, key: Key, l: Ledger, op: Op) {
    match op
    case NewRoot(_, _, _, _) => true
    case SubDelegate(parent, _, _, _) => Delegates(lib, l, op) ==> parent.identifier in l.chains
    case Import(c, received) => FromClaims(key, c, received).Some? ==> ImportFits(l, c)
  }

  lemma {:induction false} DelegationKeepsLineagesIff(l: Ledger, parentId: string, id: string)
    requires AllLineages(l) && id !in l.chains && id != parentId
    ensures AllLineages(l.(chains := l.chains[id := ParentChain(l, parentId) + [id]])) <==> parentId in l.chains
  {
    var chain := ParentChain(l, parentId) + [id];
    var l' := l.(chains := l.chains[id := chain]);
    if parentId in l.chains {
      assert Lineage(l, parentId);
      assert chain[..|chain| - 1] == l.chains[parentId];
      EnterKeepsLineages(l, id, chain);
    } else {
      assert chain[0] == parentId && parentId !in l'.chains;
      assert !Lineage(l', id);
    }
  }

  lemma {:induction false} StepKeepsLineagesIff(lib: Library, key: Key, l: Ledger, op: Op)
    requires AllLineages(l)
    ensures AllLineages(Perform(lib, key, l, op)) <==> FitsLineages(lib, key, l, op)
  {
    hide AllLineages, ImportFits, RootId, DelegatedId, Depth, FromClaims, Signature, DelegatedCaveats, ParentChain;
    if Possible(l, op) {
      match op {
        case NewRoot(_, _, _, _) =>
          EnterKeepsLineages(l, IdOf(op), [IdOf(op)]);
          MacaroonsDoNotMatter(Perform(lib, key, l, op), l.(chains := l.chains[IdOf(op) := [IdOf(op)]]));
        case SubDelegate(parent, _, _, _) =>
          if Delegates(lib, l, op) {
            DelegationKeepsLineagesIff(l, parent.identifier, IdOf(op));
            MacaroonsDoNotMatter(Perform(lib, key, l, op),
                                 l.(chains := l.chains[IdOf(op) := ParentChain(l, parent.identifier) + [IdOf(op)]]));
          }
        case Import(c, _) =>
          ImportKeepsLineagesIff(l, c);
      }
    }
  }

  lemma MacaroonsDoNotMatter(l: Ledger, k: Ledger)
    requires l.chains == k.chains
    ensures AllLineages(l) <==> AllLineages(k)
  {
    assert forall id :: id in l.chains ==> (Lineage(l, id) <==> Lineage(k, id));
  }

  lemma NoChains()
    ensures AllLineages(EMPTY_LEDGER) && IssuedLineages(EMPTY_LEDGER)
  {
  }

  /** Over every run, whatever is delegated from and imported: all stored chains stay lineages if and
      only if every import that is read brings a chain that fits, and every delegation starts from an
      identifier with a stored chain. */
  lemma {:induction false} LineagesExactly(lib: Library, key: Key, ops: seq<Op>)
    ensures (forall n: nat :: n <= |ops| ==> AllLineages(Play(lib, key, ops[..n])))
       <==> (forall n: nat :: n < |ops| ==> FitsLineages(lib, key, Play(lib, key, ops[..n]), ops[n]))
  {
    hide AllLineages, FitsLineages, Perform, Play;
    NoChains();
    forall l, op | AllLineages(l) ensures AllLineages(Perform(lib, key, l, op)) <==> FitsLineages(lib, key, l, op) {
      StepKeepsLineagesIff(lib, key, l, op);
    }
    RunsIff(lib, key, ops, l => AllLineages(l), (l, op) => FitsLineages(lib, key, l, op));
  }

  /** The chains of issued macaroons alone: lineages of issued macaroons. */
  predicate IssuedLineages(l: Ledger) {
    forall id :: id in l.macaroons ==>
      id in l.chains && Lineage(l, id) && forall k :: 0 <= k < |l.chains[id]| ==> l.chains[id][k] in l.macaroons
  }

  /** The parent's chain is empty or that of an issued macaroon. */
  predicate FollowsIssued(l: Ledger, parentId: string) {
    var chain := ParentChain(l, parentId);
    chain == [] || (chain[|chain| - 1] in l.macaroons && chain[|chain| - 1] in l.chains && l.chains[chain[|chain| - 1]] == chain)
  }

  lemma {:induction false} EnterKeepsIssued(l: Ledger, m: Fields, chain: seq<string>)
    requires IssuedLineages(l) && m.identifier !in l.chains && m.identifier !in chain
    ensures IssuedLineages(Enter(l, m, chain + [m.identifier])) <==>
              (chain == [] ||
               (chain[|chain| - 1] in l.macaroons && chain[|chain| - 1] in l.chains && l.chains[chain[|chain| - 1]] == chain))
  {
    var id, l' := m.identifier, Enter(l, m, chain + [m.identifier]);
    var whole := chain + [id];
    if IssuedLineages(l') && chain != [] {
      LineageExtends(l', id);
      assert whole[|whole| - 2] == chain[|chain| - 1] && whole[..|whole| - 1] == chain;
      assert whole[|whole| - 2] in l'.macaroons;
    }
    if chain == [] || (chain[|chain| - 1] in l.macaroons && chain[|chain| - 1] in l.chains && l.chains[chain[|chain| - 1]] == chain) {
      forall x | x in l'.macaroons
        ensures x in l'.chains && Lineage(l', x) && forall k :: 0 <= k < |l'.chains[x]| ==> l'.chains[x][k] in l'.macaroons
      {
        if x != id {
          assert Lineage(l, x);
        } else {
          forall k | 0 <= k < |whole|
            ensures whole[k] in l'.macaroons && whole[k] in l'.chains && l'.chains[whole[k]] == whole[..k + 1]
          {
            if k == |chain| {
              assert whole[..k + 1] == whole;
            } else {
              assert Lineage(l, chain[|chain| - 1]);
              assert whole[k] == chain[k] && whole[..k + 1] == chain[..k + 1];
            }
          }
        }
      }
    }
  }

  lemma {:induction false} ImportKeepsIssued(l: Ledger, c: Claims)
    requires IssuedLineages(l)
    ensures IssuedLineages(EnterClaims(l, c))
  {
    var l' := EnterClaims(l, c);
    forall x | x in l'.macaroons
      ensures x in l'.chains && Lineage(l', x) && forall k :: 0 <= k < |l'.chains[x]| ==> l'.chains[x][k] in l'.macaroons
    {
      assert Lineage(l, x);
    }
  }

  lemma {:induction false} StepKeepsIssuedIff(lib: Library, key: Key, l: Ledger, op: Op)
    requires IssuedLineages(l)
    ensures IssuedLineages(Perform(lib, key, l, op)) <==> (Delegates(lib, l, op) ==> FollowsIssued(l, op.parent.identifier))
  {
    hide IssuedLineages, RootId, DelegatedId, Depth, FromClaims, Signature, DelegatedCaveats;
    if Possible(l, op) {
      match op {
        case NewRoot(agent, location, initial, d) =>
          var m := RootMacaroon(lib, key, agent, location, initial, d);
          EnterKeepsIssued(l, m, []);
          assert [] + [m.identifier] == [m.identifier];
        case SubDelegate(parent, _, _, _) =>
          if Delegates(lib, l, op) {
            EnterKeepsIssued(l, Child(lib, key, l, op), ParentChain(l, parent.identifier));
          }
        case Import(c, _) =>
          ImportKeepsIssued(l, c);
      }
    }
  }

  /** Over every run, whatever is imported: the chain of each issued macaroon stays a lineage of
      issued macaroons if and only if every delegation starts from an identifier whose stored chain
      is empty or that of an issued macaroon. */
  lemma {:induction false} ChainsAreLineages(lib: Library, key: Key, ops: seq<Op>)
    ensures (forall n: nat :: n <= |ops| ==> IssuedLineages(Play(lib, key, ops[..n])))
       <==> (forall n: nat :: n < |ops| && Delegates(lib, Play(lib, key, ops[..n]), ops[n]) ==>
               FollowsIssued(Play(lib, key, ops[..n]), ops[n].parent.identifier))
  {
    hide IssuedLineages, FollowsIssued, Possible, Depth, Perform, Play;
    NoChains();
    forall l, op | IssuedLineages(l)
      ensures IssuedLineages(Perform(lib, key, l, op)) <==> (Delegates(lib, l, op) ==> FollowsIssued(l, op.parent.identifier))
    {
      StepKeepsIssuedIff(lib, key, l, op);
    }
    RunsIff(lib, key, ops, l => IssuedLineages(l), (l, op) => Delegates(lib, l, op) ==> FollowsIssued(l, op.parent.identifier));
  }

  /** A lineage repeats no identifier. */
  lemma LineageRepeatsNothing(l: Ledger, id: string, j: nat, k: nat)
    requires id in l.chains && Lineage(l, id) && j < k < |l.chains[id]|
    ensures l.chains[id][j] != l.chains[id][k]
  {
    var chain := l.chains[id];
    assert |chain[..j + 1]| != |chain[..k + 1]|;
  }

  // ----- ancestors over runs -----

  /** Apart from agent bindings, whatever the first list allows the second allows, too. */
  ghost predicate Implies(lib: Library, cs: seq<Caveat>, ds: seq<Caveat>) {
    forall ctx: Context, now: real ::
      AllHold(lib, NotOfKind(cs, AgentId), ctx, now) ==> AllHold(lib, NotOfKind(ds, AgentId), ctx, now)
  }

  /** For a macaroon whose own bindings agree, an ancestor whose bindings agree accepts all its requests,
      for some agent, exactly when its other caveats imply the ancestor's. */
  lemma {:induction false} BoundsIff(lib: Library, m: Fields, up: Fields)
    requires Sealed(lib, m) && Sealed(lib, up) && AgentsAgree(m.caveats) && AgentsAgree(up.caveats)
    ensures (forall ctx: Context, now: real :: Accepts(lib, m, m.key, ctx, now) ==>
               exists a: string :: Accepts(lib, up, up.key, WithAgent(ctx, a), now))
       <==> Implies(lib, m.caveats, up.caveats)
  {
    hide Sealed, AllHold, AgentsAgree, Accepts;
    if Implies(lib, m.caveats, up.caveats) {
      forall ctx: Context, now: real | Accepts(lib, m, m.key, ctx, now)
        ensures exists a: string :: Accepts(lib, up, up.key, WithAgent(ctx, a), now)
      {
        SealedAccepts(lib, m, ctx, now);
        AllHoldSplit(lib, m.caveats, AgentId, ctx, now);
        SomeAgentHolds(lib, up.caveats, ctx, now);
        AcceptsForSome(lib, up, up.key, ctx, now);
      }
    }
    if forall ctx: Context, now: real :: Accepts(lib, m, m.key, ctx, now) ==>
         exists a: string :: Accepts(lib, up, up.key, WithAgent(ctx, a), now)
    {
      forall ctx: Context, now: real | AllHold(lib, NotOfKind(m.caveats, AgentId), ctx, now)
        ensures AllHold(lib, NotOfKind(up.caveats, AgentId), ctx, now)
      {
        SomeAgentHolds(lib, m.caveats, ctx, now);
        AcceptsForSome(lib, m, m.key, ctx, now);
        var b: string :| Accepts(lib, m, m.key, WithAgent(ctx, b), now);
        var a: string :| Accepts(lib, up, up.key, WithAgent(WithAgent(ctx, b), a), now);
        SealedAccepts(lib, up, WithAgent(ctx, a), now);
        AllHoldSplit(lib, up.caveats, AgentId, WithAgent(ctx, a), now);
        AgentIsIrrelevant(lib, up.caveats, ctx, a, now);
      }
    }
  }

  /** What a holder can show of a macaroon: all of its caveats, or all but the last, for which the
      token carries the previous signature. */
  datatype Part = Whole | AllButLast

  function Kept(part: Part, cs: seq<Caveat>): seq<Caveat> {
    if part.Whole? then cs else Front(cs)
  }

  /** Every issued macaroon, or that part of it, is bounded by each issued macaroon its chain goes through. */
  ghost predicate Bounding(lib: Library, part: Part, l: Ledger) {
    l.macaroons.Keys <= l.chains.Keys &&
    forall y, k :: y in l.macaroons && 0 <= k < |l.chains[y]| - 1 && l.chains[y][k] in l.macaroons ==>
      Implies(lib, Kept(part, l.macaroons[y].caveats), l.macaroons[l.chains[y][k]].caveats)
  }

  /** The new macaroon is bounded by the issued ones of the chain it continues, whatever its parent carried. */
  ghost predicate FitsBounds(lib: Library, key: Key, part: Part, l: Ledger, op: Op) {
    Delegates(lib, l, op) ==>
      forall x :: x in ParentChain(l, op.parent.identifier) && x in l.macaroons ==>
        Implies(lib, Kept(part, Child(lib, key, l, op).caveats), l.macaroons[x].caveats)
  }

  lemma {:induction false} EnterKeepsBoundsIff(lib: Library, part: Part, l: Ledger, m: Fields, chain: seq<string>)
    requires Bounding(lib, part, l) && New(l, m.identifier) && m.identifier !in chain
    ensures Bounding(lib, part, Enter(l, m, chain + [m.identifier])) <==>
              forall x :: x in chain && x in l.macaroons ==> Implies(lib, Kept(part, m.caveats), l.macaroons[x].caveats)
  {
    hide Implies, Kept;
    var l' := Enter(l, m, chain + [m.identifier]);
    assert l'.chains[m.identifier][..|chain|] == chain;
    if Bounding(lib, part, l') {
      forall x | x in chain && x in l.macaroons ensures Implies(lib, Kept(part, m.caveats), l.macaroons[x].caveats) {
        var k :| 0 <= k < |chain| && chain[k] == x;
        assert l'.chains[m.identifier][k] == x;
      }
    }
  }

  lemma {:induction false} StepKeepsBoundsIff(lib: Library, key: Key, part: Part, l: Ledger, op: Op)
    requires Bounding(lib, part, l)
    ensures Bounding(lib, part, Perform(lib, key, l, op)) <==> FitsBounds(lib, key, part, l, op)
  {
    hide Implies, Kept, RootId, DelegatedId, Depth, FromClaims, Signature, DelegatedCaveats;
    if Possible(l, op) {
      match op {
        case NewRoot(agent, location, initial, d) =>
          var m := RootMacaroon(lib, key, agent, location, initial, d);
          EnterKeepsBoundsIff(lib, part, l, m, []);
          assert [] + [m.identifier] == [m.identifier];
        case SubDelegate(parent, _, _, _) =>
          if Delegates(lib, l, op) {
            EnterKeepsBoundsIff(lib, part, l, Child(lib, key, l, op), ParentChain(l, parent.identifier));
          }
        case Import(c, _) =>
      }
    }
  }

  lemma NothingToBound(lib: Library, part: Part)
    ensures Bounding(lib, part, EMPTY_LEDGER)
  {
  }

  /** Over every run, whatever is delegated from and imported: every issued macaroon stays bounded by
      the issued ones of its chain if and only if every new one is when it is made. */
  lemma {:induction false} AncestorsBoundExactly(lib: Library, key: Key, part: Part, ops: seq<Op>)
    ensures (forall n: nat :: n <= |ops| ==> Bounding(lib, part, Play(lib, key, ops[..n])))
       <==> (forall n: nat :: n < |ops| ==> FitsBounds(lib, key, part, Play(lib, key, ops[..n]), ops[n]))
  {
    hide Bounding, FitsBounds, Perform, Play;
    NothingToBound(lib, part);
    forall l, op | Bounding(lib, part, l) ensures Bounding(lib, part, Perform(lib, key, l, op)) <==> FitsBounds(lib, key, part, l, op) {
      StepKeepsBoundsIff(lib, key, part, l, op);
    }
    RunsIff(lib, key, ops, l => Bounding(lib, part, l), (l, op) => FitsBounds(lib, key, part, l, op));
  }

  /** A run whose delegations are all bounded when they are made. */
  ghost predicate BoundedRun(lib: Library, key: Key, part: Part, ops: seq<Op>) {
    ops == [] ||
    (var init := ops[..|ops| - 1];
     BoundedRun(lib, key, part, init) && FitsBounds(lib, key, part, Play(lib, key, init), ops[|ops| - 1]))
  }

  lemma {:induction false} BoundedRunMeans(lib: Library, key: Key, part: Part, ops: seq<Op>)
    ensures BoundedRun(lib, key, part, ops)
       <==> (forall n: nat :: n < |ops| ==> FitsBounds(lib, key, part, Play(lib, key, ops[..n]), ops[n]))
    decreases |ops|
  {
    hide FitsBounds, Play;
    if ops != [] {
      var m := |ops| - 1;
      assert forall n: nat :: n < m ==> ops[..m][..n] == ops[..n] && ops[..m][n] == ops[n];
      BoundedRunMeans(lib, key, part, ops[..m]);
    }
  }

  lemma {:induction false} BoundedRunBounds(lib: Library, key: Key, part: Part, ops: seq<Op>)
    requires BoundedRun(lib, key, part, ops)
    ensures Bounding(lib, part, Play(lib, key, ops))
  {
    hide Bounding, FitsBounds, Play, BoundedRun;
    BoundedRunMeans(lib, key, part, ops);
    AncestorsBoundExactly(lib, key, part, ops);
    assert ops[..|ops|] == ops;
  }

  /** The parent is the stored macaroon of its name, or that with caveats added. */
  predicate FromStored(l: Ledger, op: Op) {
    op.SubDelegate? ==>
      op.parent.identifier in l.macaroons && l.macaroons[op.parent.identifier].caveats <= op.parent.caveats
  }

  lemma {:induction false} PrefixImplied(lib: Library, cs: seq<Caveat>, ds: seq<Caveat>)
    requires NotOfKind(ds, AgentId) <= cs
    ensures Implies(lib, cs, ds)
  {
    hide NotOfKind, AllHold;
    var kept := NotOfKind(ds, AgentId);
    var rest := cs[|kept|..];
    assert cs == kept + rest;
    NotOfKindAppend(kept, rest, AgentId);
    NotOfKindTwice(ds, AgentId);
    forall ctx: Context, now: real | AllHold(lib, NotOfKind(cs, AgentId), ctx, now) ensures AllHold(lib, kept, ctx, now) {
      AllHoldAppend(lib, kept, NotOfKind(rest, AgentId), ctx, now);
    }
  }

  /** Whatever part of it is shown, a child of such a parent implies the stored macaroon. */
  lemma {:induction false} ChildImpliesStored(lib: Library, part: Part, stored: seq<Caveat>, parent: seq<Caveat>, depth: int,
                                              target: string, extra: seq<Caveat>)
    requires stored <= parent
    ensures Implies(lib, Kept(part, DelegatedCaveats(lib, parent, depth, target, extra)), stored)
  {
    hide NotOfKind, Implies;
    assert parent == stored + parent[|stored|..];
    NotOfKindAppend(stored, parent[|stored|..], AgentId);
    PrefixImplied(lib, Kept(part, DelegatedCaveats(lib, parent, depth, target, extra)), stored);
  }

  lemma {:induction false} StoredParentFits(lib: Library, key: Key, part: Part, l: Ledger, op: Op)
    requires LedgerOk(l) && Bounding(lib, Whole, l) && FromStored(l, op)
    ensures FitsBounds(lib, key, part, l, op)
  {
    hide DelegatedCaveats, Depth, New, NotOfKind, AllHold;
    if Delegates(lib, l, op) {
      var id := op.parent.identifier;
      var stored, child := l.macaroons[id].caveats, Kept(part, Child(lib, key, l, op).caveats);
      ChildImpliesStored(lib, part, stored, op.parent.caveats, Depth(lib, op.parent.caveats).value, op.target, op.extra);
      forall x | x in ParentChain(l, id) && x in l.macaroons ensures Implies(lib, child, l.macaroons[x].caveats) {
        var k :| 0 <= k < |l.chains[id]| && l.chains[id][k] == x;
        assert k < |l.chains[id]| - 1 ==> Implies(lib, Kept(Whole, stored), l.macaroons[x].caveats);
      }
    }
  }

  predicate StoredRun(lib: Library, key: Key, ops: seq<Op>) {
    ops == [] ||
    (var init := ops[..|ops| - 1]; StoredRun(lib, key, init) && FromStored(Play(lib, key, init), ops[|ops| - 1]))
  }

  /** In particular: when every delegation starts from a stored macaroon, with or without caveats added. */
  lemma {:induction false} StoredParentsBound(lib: Library, key: Key, part: Part, ops: seq<Op>)
    requires StoredRun(lib, key, ops)
    ensures BoundedRun(lib, key, part, ops)
    decreases |ops|
  {
    hide Bounding, FitsBounds, FromStored, Play, LedgerOk;
    if ops != [] {
      var init := ops[..|ops| - 1];
      StoredParentsBound(lib, key, part, init);
      StoredParentsBound(lib, key, Whole, init);
      BoundedRunBounds(lib, key, Whole, init);
      RunsKeepLedger(lib, key, init);
      StoredParentFits(lib, key, part, Play(lib, key, init), ops[|ops| - 1]);
    }
  }

  /** Permissions only shrink, over every such run: what the shown part of a macaroon allows now is
      accepted now, for some agent, by each issued macaroon its chain goes through whose agent
      bindings agree, and by those only. */
  lemma {:induction false} PartAttenuates(lib: Library, key: Key, part: Part, ops: seq<Op>, id: string, k: nat, ctx: Context, now: real)
    requires BoundedRun(lib, key, part, ops)
    requires var l := Play(lib, key, ops);
             && id in l.macaroons && id in l.chains && k + 1 < |l.chains[id]| && l.chains[id][k] in l.macaroons
             && AllHold(lib, Kept(part, l.macaroons[id].caveats), ctx, now)
    ensures var l := Play(lib, key, ops);
            var up := l.macaroons[l.chains[id][k]];
            (exists a: string :: Accepts(lib, up, key, WithAgent(ctx, a), now)) <==> AgentsAgree(up.caveats)
  {
    hide AllHold, NotOfKind, Sealed, Play, BoundedRun, Kept, AgentsAgree;
    BoundedRunBounds(lib, key, part, ops);
    RunsSeal(lib, key, ops);
    var l := Play(lib, key, ops);
    assert Bounding(lib, part, l);
    var shown, up := Kept(part, l.macaroons[id].caveats), l.macaroons[l.chains[id][k]];
    AllHoldSplit(lib, shown, AgentId, ctx, now);
    assert Implies(lib, shown, up.caveats);
    SomeAgentHolds(lib, up.caveats, ctx, now);
    AcceptsForSome(lib, up, key, ctx, now);
  }

  /** The same for the requests a macaroon accepts, itself included among its ancestors. */
  lemma {:induction false} RunsAttenuateExactly(lib: Library, key: Key, ops: seq<Op>, id: string, k: nat, ctx: Context, now: real)
    requires BoundedRun(lib, key, Whole, ops)
    requires var l := Play(lib, key, ops);
             && id in l.macaroons && id in l.chains && k < |l.chains[id]| && l.chains[id][k] in l.macaroons
             && Accepts(lib, l.macaroons[id], key, ctx, now)
    ensures var l := Play(lib, key, ops);
            var up := l.macaroons[l.chains[id][k]];
            (exists a: string :: Accepts(lib, up, key, WithAgent(ctx, a), now)) <==> AgentsAgree(up.caveats)
  {
    hide AllHold, NotOfKind, Sealed, Play, BoundedRun, AgentsAgree;
    RunsSeal(lib, key, ops);
    RunsKeepLedger(lib, key, ops);
    var m := Play(lib, key, ops).macaroons[id];
    SealedAccepts(lib, m, ctx, now);
    if k + 1 < |Play(lib, key, ops).chains[id]| {
      PartAttenuates(lib, key, Whole, ops, id, k, ctx, now);
    } else {
      AllHoldSplit(lib, m.caveats, AgentId, ctx, now);
      SomeAgentHolds(lib, m.caveats, ctx, now);
      AcceptsForSome(lib, m, key, ctx, now);
    }
  }

  /** A parent that only bears a name: delegating from a value without caveats continues the chain of
      the issued macaroon of that name, and is bounded by nothing but the target and the depth. */
  lemma {:induction false} NamesakeIsUnbounded(lib: Library, key: Key, l: Ledger, op: Op, ctx: Context, now: real)
    requires IntsPrint(lib) && LedgerOk(l) && op.SubDelegate? && Possible(l, op)
    requires op.parent.identifier in l.macaroons && op.parent.caveats == [] && op.extra == []
    ensures var l' := Perform(lib, key, l, op);
            && IdOf(op) in l'.macaroons && l'.chains[IdOf(op)] == l.chains[op.parent.identifier] + [IdOf(op)]
            && (Accepts(lib, l'.macaroons[IdOf(op)], key, ctx, now) <==>
                  ctx.agentId == Some(op.target) && WithinLimit(lib, ctx.delegationDepth, lib.intText(1)))
  {
    hide RootId, DelegatedId, Signature, DelegatedCaveats, WithinLimit, Accepts;
    assert Depth(lib, []) == Some(0);
    assert NotOfKind([], AgentId) == [];
    AllHoldEmpty(lib, ctx, now);
    DelegatedAcceptsExactly(lib, key, op.parent, 0, op.target, [], op.d, ctx, now);
  }

  /** Claims without caveats give such a parent under any name. */
  lemma ClaimsGiveNamesake(key: Key, c: Claims, received: real)
    requires c.caveats == []
    ensures FromClaims(key, c, received).Some?
    ensures var m := FromClaims(key, c, received).value; m.identifier == c.macaroonId && m.caveats == []
  {
  }

  // ----- tokens in the hands of their holders -----

  /** Over every such run, whatever a holder writes into a record: under either signature that the
      token of an issued unambiguous macaroon carries, an unambiguous record accepts no more than each
      issued macaroon its chain goes through whose agent bindings agree. */
  lemma {:induction false} HeldTokensAttenuate(lib: Library, key: Key, part: Part, ops: seq<Op>, id: string, k: nat,
                                               t: Token, read: real, ctx: Context, now: real)
    requires NoCollision(lib, key)
    requires BoundedRun(lib, key, part, ops)
    requires var l := Play(lib, key, ops);
             id in l.macaroons && id in l.chains && k + 1 < |l.chains[id]| && l.chains[id][k] in l.macaroons
    requires var m := Play(lib, key, ops).macaroons[id];
             && Unambiguous(m) && ReadToken(lib, t, key, read).Ok?
             && (if part.Whole? then t.signature == m.signature else m.parentSignature == Some(t.signature))
    requires var r := ReadToken(lib, t, key, read).value; Unambiguous(r) && Accepts(lib, r, key, ctx, now)
    ensures var l := Play(lib, key, ops);
            var up := l.macaroons[l.chains[id][k]];
            (exists a: string :: Accepts(lib, up, key, WithAgent(ctx, a), now)) <==> AgentsAgree(up.caveats)
  {
    hide Sealed, Play, ReadToken, Unambiguous, AgentsAgree, AllHold, BoundedRun, Signature;
    RunsSeal(lib, key, ops);
    var m := Play(lib, key, ops).macaroons[id];
    if part.Whole? {
      ReadTokenBindsCaveats(lib, m, t, read);
    } else {
      ReadUnderParentSignature(lib, m, t, read);
    }
    PartAttenuates(lib, key, part, ops, id, k, ctx, now);
  }

  /** Without that check nothing is kept: of every issued macaroon there is a record under its
      signature that is read and accepts every request. */
  lemma {:induction false} HeldTokensNeedTheCheck(lib: Library, key: Key, ops: seq<Op>, id: string, read: real, ctx: Context, now: real)
    requires id in Play(lib, key, ops).macaroons
    requires LocationSurvives(LocationText(Play(lib, key, ops).macaroons[id].location))
    ensures var m := Play(lib, key, ops).macaroons[id];
            var t := Regrouped(m, m.caveats, []);
            && ReadToken(lib, t, key, read).Ok? && t.signature == m.signature
            && Accepts(lib, ReadToken(lib, t, key, read).value, key, ctx, now)
  {
    hide Sealed, Play, ReadToken, Accepts;
    RunsSeal(lib, key, ops);
    var m := Play(lib, key, ops).macaroons[id];
    assert m.caveats + [] == m.caveats;
    RegroupedTokenReads(lib, m, m.caveats, [], read, ctx, now);
  }

  // ----- agent bindings -----

  /** The agent a macaroon with one binding is bound to. */
  function BoundAgent(m: Fields): string {
    FirstOf(m.caveats, AgentId).GetOr("")
  }

  lemma OneBinding(cs: seq<Caveat>, c: Caveat)
    requires |OfKind(cs, AgentId)| == 1
    requires c in cs && c.kind == AgentId
    ensures FirstOf(cs, AgentId) == Some(c.value)
  {
    KindsKept(cs, AgentId);
    FirstOfKind(cs, AgentId);
    assert c in OfKind(cs, AgentId);
  }

  /** Every macaroon carries exactly one agent binding. */
  predicate BoundOnce(l: Ledger) {
    forall id :: id in l.macaroons ==> |OfKind(l.macaroons[id].caveats, AgentId)| == 1
  }

  lemma {:induction false} RunsBindOnce(lib: Library, key: Key, ops: seq<Op>)
    requires forall op :: op in ops ==> OfKind(CallerCaveats(op), AgentId) == []
    ensures BoundOnce(Play(lib, key, ops))
    decreases |ops|
  {
    hide Signature, OfKind, NotOfKind, RootId, DelegatedId, DelegatedCaveats, Depth, New, FromClaims;
    if ops != [] {
      var op, l := ops[|ops| - 1], Play(lib, key, ops[..|ops| - 1]);
      assert op in ops;
      RunsBindOnce(lib, key, ops[..|ops| - 1]);
      match op {
        case NewRoot(agent, location, initial, d) =>
          OfKindAppend([Caveat(AgentId, agent)], initial, AgentId);
          KindOfOne(Caveat(AgentId, agent), AgentId);
        case SubDelegate(parent, target, extra, d) =>
          if Delegates(lib, l, op) {
            DelegatedCarries(lib, parent.caveats, Depth(lib, parent.caveats).value, target, extra);
          }
        case Import(_, _) =>
      }
    }
  }

  lemma OneBindingAgrees(cs: seq<Caveat>)
    requires |OfKind(cs, AgentId)| == 1
    ensures AgentsAgree(cs)
  {
    hide OfKind, FirstOf;
    forall i, j | 0 <= i < |cs| && 0 <= j < |cs| && cs[i].kind == AgentId && cs[j].kind == AgentId
      ensures cs[i].value == cs[j].value
    {
      OneBinding(cs, cs[i]);
      OneBinding(cs, cs[j]);
    }
  }

  /** When no caller passes an agent binding, every issued macaroon of the chain accepts, for the
      agent it is bound to. */
  lemma {:induction false} RunsAttenuate(lib: Library, key: Key, ops: seq<Op>, id: string, k: nat, ctx: Context, now: real)
    requires forall op :: op in ops ==> OfKind(CallerCaveats(op), AgentId) == []
    requires BoundedRun(lib, key, Whole, ops)
    requires var l := Play(lib, key, ops);
             && id in l.macaroons && id in l.chains && k < |l.chains[id]| && l.chains[id][k] in l.macaroons
             && Accepts(lib, l.macaroons[id], key, ctx, now)
    ensures var l := Play(lib, key, ops);
            var up := l.macaroons[l.chains[id][k]];
            Accepts(lib, up, key, WithAgent(ctx, BoundAgent(up)), now)
  {
    hide CaveatHolds, OfKind, AgentsAgree, Play, AllHold, FirstOf, BoundedRun;
    RunsAttenuateExactly(lib, key, ops, id, k, ctx, now);
    RunsBindOnce(lib, key, ops);
    var l := Play(lib, key, ops);
    var up := l.macaroons[l.chains[id][k]];
    OneBindingAgrees(up.caveats);
    var a: string :| Accepts(lib, up, key, WithAgent(ctx, a), now);
    HolderIsBoundAgent(lib, up.caveats, WithAgent(ctx, a), now);
  }

  lemma HolderIsBoundAgent(lib: Library, cs: seq<Caveat>, ctx: Context, now: real)
    requires |OfKind(cs, AgentId)| == 1 && AllHold(lib, cs, ctx, now)
    ensures ctx.agentId == FirstOf(cs, AgentId) && ctx.agentId.Some?
  {
  }

  /** With an agent binding among the caller's caveats the claim fails: this root accepts nothing
      at all, while the macaroon delegated from it accepts carol's requests. */
  lemma CallerBindingBreaksAttenuation(lib: Library, key: Key, location: Location, d: Draw, e: Draw, ctx: Context, now: real)
    requires IntsPrint(lib) && ctx.agentId == Some("carol") && ctx.delegationDepth == Absent
    ensures var root := RootMacaroon(lib, key, "alice", location, [Caveat(AgentId, "bob")], d);
            var child := DelegatedMacaroon(lib, key, root, 0, "carol", [], e);
            && Depth(lib, root.caveats) == Some(0)
            && Accepts(lib, child, key, ctx, now)
            && forall a: string :: !Accepts(lib, root, key, WithAgent(ctx, a), now)
  {
    hide Signature, OfKind, NotOfKind, FirstOf, CaveatHolds;
    var root := RootMacaroon(lib, key, "alice", location, [Caveat(AgentId, "bob")], d);
    var cs := root.caveats;
    assert cs == [Caveat(AgentId, "alice"), Caveat(AgentId, "bob")];
    AllOfKind(cs, AgentId);
    NoneOfKind(cs, DelegationDepth);
    FirstOfKind(cs, DelegationDepth);
    DelegatedAcceptsExactly(lib, key, root, 0, "carol", [], e, ctx, now);
    assert lib.intOf(lib.intText(1)) == Some(1);
    DelegationAttenuates(lib, key, root, 0, "carol", [], e, ctx, now);
    assert cs[0].value != cs[1].value by { assert |"alice"| != |"bob"|; }
  }

  // ----- delegation depth -----

  predicate DepthsOk(lib: Library, l: Ledger) {
    && l.macaroons.Keys <= l.chains.Keys
    && forall id :: id in l.macaroons ==>
         l.macaroons[id].identifier == id && |l.chains[id]| > 0 &&
         OfKind(l.macaroons[id].caveats, DelegationDepth) == DepthTrail(lib, |l.chains[id]| - 1)
  }

  /** The parent bears an issued name and has the depth caveats of the stored macaroon. */
  predicate KeepsDepth(l: Ledger, op: Op) {
    op.SubDelegate? ==>
      && op.parent.identifier in l.macaroons
      && OfKind(op.parent.caveats, DelegationDepth) == OfKind(l.macaroons[op.parent.identifier].caveats, DelegationDepth)
  }

  predicate DepthRun(lib: Library, key: Key, ops: seq<Op>) {
    ops == [] ||
    (var init := ops[..|ops| - 1]; DepthRun(lib, key, init) && KeepsDepth(Play(lib, key, init), ops[|ops| - 1]))
  }

  lemma {:induction false} RunsCountDepth(lib: Library, key: Key, ops: seq<Op>)
    requires IntsPrint(lib)
    requires forall op :: op in ops ==> OfKind(CallerCaveats(op), DelegationDepth) == []
    requires DepthRun(lib, key, ops)
    ensures DepthsOk(lib, Play(lib, key, ops))
    decreases |ops|
  {
    hide OfKind, DepthTrail, Perform, Play, KeepsDepth, DepthsOk;
    PlayLast(lib, key, ops);
    if ops != [] {
      var m := |ops| - 1;
      assert ops[m] in ops;
      assert forall op :: op in ops[..m] ==> op in ops;
      RunsCountDepth(lib, key, ops[..m]);
      StepCountsDepth(lib, key, Play(lib, key, ops[..m]), ops[m]);
    } else {
      assert DepthsOk(lib, EMPTY_LEDGER) by { NoDepths(lib); }
    }
  }

  lemma NoDepths(lib: Library)
    ensures DepthsOk(lib, EMPTY_LEDGER)
  {
  }

  lemma EnterCountsDepth(lib: Library, l: Ledger, m: Fields, chain: seq<string>)
    requires DepthsOk(lib, l) && m.identifier !in l.chains
    requires |chain| > 0 && OfKind(m.caveats, DelegationDepth) == DepthTrail(lib, |chain| - 1)
    ensures DepthsOk(lib, Enter(l, m, chain))
  {
    hide OfKind, DepthTrail;
  }

  lemma {:induction false} StepCountsDepth(lib: Library, key: Key, l: Ledger, op: Op)
    requires IntsPrint(lib) && DepthsOk(lib, l) && OfKind(CallerCaveats(op), DelegationDepth) == [] && KeepsDepth(l, op)
    ensures DepthsOk(lib, Perform(lib, key, l, op))
  {
    hide RootId, DelegatedId, Signature, OfKind, NotOfKind, DelegatedCaveats, Depth, FromClaims;
    if Possible(l, op) {
      match op {
        case NewRoot(agent, location, initial, d) =>
          var m := RootMacaroon(lib, key, agent, location, initial, d);
          OfKindAppend([Caveat(AgentId, agent)], initial, DelegationDepth);
          KindOfOne(Caveat(AgentId, agent), DelegationDepth);
          EnterCountsDepth(lib, l, m, [m.identifier]);
        case SubDelegate(parent, target, extra, d) =>
          var n := |l.chains[parent.identifier]| - 1;
          DepthOfTrail(lib, parent.caveats, n);
          var m := Child(lib, key, l, op);
          DelegatedCarries(lib, parent.caveats, Depth(lib, parent.caveats).value, target, extra);
          assert DepthTrail(lib, n + 1) + [] == DepthTrail(lib, n + 1);
          EnterCountsDepth(lib, l, m, l.chains[parent.identifier] + [m.identifier]);
        case Import(_, _) =>
      }
    }
  }

  /** In every run without caller depth caveats, each delegation starting from the depth caveats of
      the stored macaroon: chain length minus one counts the depth caveats; the first says 1 and all
      later ones 2, so the depth read back is 0 or 1, never more. */
  lemma {:induction false} DepthSaturates(lib: Library, key: Key, ops: seq<Op>, id: string)
    requires IntsPrint(lib)
    requires forall op :: op in ops ==> OfKind(CallerCaveats(op), DelegationDepth) == []
    requires DepthRun(lib, key, ops)
    requires id in Play(lib, key, ops).macaroons
    ensures var l := Play(lib, key, ops);
            && id in l.chains && |l.chains[id]| > 0
            && OfKind(l.macaroons[id].caveats, DelegationDepth) == DepthTrail(lib, |l.chains[id]| - 1)
            && Depth(lib, l.macaroons[id].caveats) == Some(if |l.chains[id]| == 1 then 0 else 1)
  {
    hide DepthRun;
    RunsCountDepth(lib, key, ops);
    var l := Play(lib, key, ops);
    DepthOfTrail(lib, l.macaroons[id].caveats, |l.chains[id]| - 1);
  }
}
