# DeepSecure delegation, token cache and step-up: a Dafny model

DeepSecure lets agents delegate narrowed permissions to other agents. This project models the parts
of its Python code whose correctness is a matter of whole runs rather than of one branch, and proves
what they keep:

- **Macaroon delegation** (`Caveats`, `Macaroons`, `Delegation`, `Attenuation`, `DelegationRuns`,
  `JwtClaims`, `DelegationClient`). A macaroon carries caveats and an HMAC over one flat string. The model has the
  printer and parser of caveats and locations, the signed string and the condition under which it can
  be read in one way only, the macaroon and manager objects, the token and JWT transports, and the
  client's `delegate_access`, `create_delegation_chain` and `verify_delegation`. "Permissions only
  shrink, never grow" is settled for every run, whatever macaroons are delegated from: with the exact
  condition on each delegation, the exact condition on an ancestor's own agent bindings, and, for
  tokens as their holders present them, what each of the two signatures in a token binds and what a
  receiver has to check. The accepted requests of a token are characterised exactly.
- **Token cache and proxy** (`JwtCache`, `Proxy`). `JWTManager` as atomic sections between awaits,
  under every interleaving of callers and invalidations; the proxy's 401 retry over whole runs.
- **Step-up authorization** (`ScopeMapper`, `StepUp`). The order-keeping merge and its algebra, the
  mapping between scopes and permissions, the challenge header, and the retry loop with its lifetime
  budget.
- **Smaller state machines** (`Approval`, `Migration`, `PromptFilter`). Multi-party approval, the
  split-key migration with failures at any step of any run and requests that arrive late, and the
  prompt filter that searches the JSON text of a permission list.

Code that updates objects is modelled by classes and loops; each method is proved against a pure
function of the old state, and the lemmas are about those functions. HMAC and the text forms of
numbers are function values in `Macaroons.Library`; what a lemma needs of them (`str` and `int` are
inverse, one `float` prints and parses back, the MAC has no collision) is an explicit hypothesis of
that lemma. Clock readings, UUIDs, network answers and exceptions are inputs, so a statement for all
inputs is a statement for all behaviours of the surroundings.

Where the code and its own words differ, the model follows the code:

- A macaroon is described as having cryptographic integrity. Two things about its token fall short of
  that.
  - The signature covers one flat string and does not fix where the name ends and the caveats begin.
    A record that has caveats written into its name is read under the same signature and is not held
    to them; with all of them there it accepts every request (`Macaroons.RegroupedTokenReads`,
    `DelegationRuns.HeldTokensNeedTheCheck`). Under the macaroon's own signature a receiver gets the
    issued caveats exactly when what it reads shows no caveat header in its location, name or values
    (`Macaroons.ReadTokenBindsCaveats`). The code does not make that check.
  - A caveat is described as something that is added and never removed, but the token also carries the
    signature over all caveats but the last. Under it a record without the last caveat is read, and no
    header shows (`Macaroons.ShorterTokenReads`). With no further restriction asked for, the last
    caveat of `delegate_access` is the expiry (`DelegationClient.ShorterAccessVerifies`).

  So even with that check a macaroon bounds its held tokens, for all requests, only under its own
  signature or when its last caveat follows from the others (`Macaroons.HeldTokenShrinksIff`). Its
  strict ancestors bound them under both signatures (`DelegationRuns.HeldTokensAttenuate`).
- The depth caveat is described as tracking the chain. The manager reads the first depth caveat back,
  so along a chain the values are 1, 2, 2, 2, and the depth it reads never exceeds 1
  (`DelegationRuns.DepthSaturates`). A token is usable at a claimed depth of at most 1 however long its chain.
- A rejection is commented as failing the whole approval process. Neither the status nor earlier
  rejections are looked at again (`Approval.RejectionIsNotFinal` says exactly when some continuation,
  of any number of submissions, still mints a token).
- The `exp` claim is the expiry of the oldest ancestor, not the tightest
  (`DelegationClient.ChainExpIsTheOldest`).
- Attenuation fails when a caller passes its own `agent_id` caveat
  (`DelegationRuns.CallerBindingBreaksAttenuation`); `DelegationRuns.RunsAttenuateExactly` has the exact
  condition over every run.
- A delegation starts from any macaroon object and does not look at its signature. One that only bears
  the name of an issued macaroon continues that macaroon's chain without its restrictions
  (`DelegationRuns.NamesakeIsUnbounded`). `DelegationRuns.AncestorsBoundExactly` has the exact condition
  under which issued macaroons stay bounded by those of their chain, and stored parents, with or
  without caveats added, meet it (`DelegationRuns.StoredParentsBound`).
- A location string whose first colon is its last character does not come back from transport
  (`Caveats.LocationRoundTrip`, `Macaroons.TokenReadsIff`).
- A token answer whose `expires_in` is no number leaves the new token beside the old expiry and the
  old delegation id. `JwtCache.ForeignTokenIffCrosses` says exactly which of these answers hand the
  token of one delegation to a caller of another, and `JwtCache.ForeignTokensExactly` carries it to runs.
  The old expiry can also outlive the new token, for the discovery token as well:
  `JwtCache.StaleTokensExactly` says exactly when a cached token is returned after its life.
- `invalidate` does not reach a fetch that is already under way (`JwtCache.InvalidateIsFinalIff`).
- A share request that timed out and arrives after a later successful migration run loses the secret,
  unless the two splits happen to fit (`Migration.LateShareLosesSecret`); `Migration.LateSharesExactly` and `Migration.HistoryExactly` say
  when secrets survive.
- Imported claims write the chain table unchecked, and delegations from unknown parents extend it
  (`DelegationRuns.LineagesExactly` and `DelegationRuns.ChainsAreLineages` have the exact conditions under
  which stored chains stay lineages).
- The prompt filter takes a service to be permitted when a permission shows it after a quote inside
  (`PromptFilter.QuoteFoolsTest`); `PromptFilter.PrintableServiceTest` has the exact test.

## Model

| member | source | states |
|---|---|---|
| Text.SplitJoin | deepsecure/_core/delegation.py:195-197 | splitting the comma-joined permissions yields the comma-separated pieces of all of them, in order |
| Text.JoinSplitMembers | deepsecure/client.py:577-579 | the join and split of the action caveat keep membership if and only if no permission contains a comma |
| Text.JoinSplit | deepsecure/_core/delegation.py:195-197 | joining the pieces of a string gives it back |
| Text.StripPadded | agents/gemini/entrypoint_sdk.py:294 | stripping takes the white space off both ends and nothing else |
| Text.SpacesListed | agents/gemini/entrypoint_sdk.py:294 | the characters that count as white space, one by one |
| Text.BlankIffAllSpace | deepsecure/client.py:550-553 | an argument is blank if and only if it is all white space |
| Caveats.CaveatRoundTrip | deepsecure/_core/delegation.py:47-59 | parsing a printed caveat gives it back, with colons in the value |
| Caveats.CaveatsRoundTrip | deepsecure/_core/delegation.py:224-246 | a whole printed caveat list parses back to the same list |
| Caveats.ParsedCaveatsPrint | deepsecure/_core/delegation.py:51-59 | whatever list of strings parses prints back to exactly those strings |
| Caveats.LocationRoundTrip | deepsecure/_core/delegation.py:67-79 | a location string survives parsing and printing if and only if its first colon is not its last character, and otherwise loses just that colon |
| Caveats.CaveatTailAppend | deepsecure/_core/delegation.py:98-103 | the signed text of a concatenated caveat list is the concatenation of the texts |
| Caveats.TailOfOne | deepsecure/_core/delegation.py:98-103 | one caveat adds its header and its value to the signed string |
| Caveats.HeaderTexts | deepsecure/_core/delegation.py:30-39 | the headers of all eight kinds, letter by letter |
| Caveats.DecodesIffClean | deepsecure/_core/delegation.py:98-112 | reading a signed string by its earliest headers returns the signed list if and only if no value, with the colon after it, shows a caveat header |
| Caveats.DecodedIsClean | deepsecure/_core/delegation.py:98-112 | whatever that reader returns is clean and has the string it was read from |
| Caveats.EveryListHasOneCleanReading | deepsecure/_core/delegation.py:98-112 | the reader succeeds on the signed string of every caveat list, and what it reads is the one and only clean list with that string |
| Caveats.SignedTextIsInjective | deepsecure/_core/delegation.py:98-112 | for a fixed location and identifier, two clean caveat lists with one signed string are equal |
| Caveats.OneWayIsUnique | deepsecure/_core/delegation.py:98-112 | one signed string has at most one head (location and identifier) and clean caveat list such that no caveat header shows in the head |
| Caveats.ReadingIsFaithfulIff | deepsecure/_core/delegation.py:98-112 | if the head and caveats that were signed are of that kind, another division of the string has the same caveats if and only if it is of that kind, too |
| Caveats.EveryStringHasOneWay | deepsecure/_core/delegation.py:98-112 | and every string has such a division |
| Caveats.HeaderIffKindPiece | deepsecure/_core/delegation.py:51-59 | what a receiver has to look for: a header shows in a text followed by a colon if and only if one of its colon-separated pieces, other than the first, is a caveat kind |
| Caveats.CleanIsNeeded | deepsecure/_core/delegation.py:98-112 | two different lists, one of them not clean, with the same signed string |
| Macaroons.CaveatMeaning | deepsecure/_core/delegation.py:184-213 | what each kind of caveat asks of the request, in terms of the number its value prints and of absent entries |
| Macaroons.UnreadableNeverHolds | deepsecure/_core/delegation.py:184-218 | a value that is no number never holds, and an infinite time bound on its open side only |
| Macaroons.Macaroon.ComputeSignature | deepsecure/_core/delegation.py:98-112 | the loop computes the MAC of location, identifier and all printed caveats |
| Macaroons.Macaroon.AddCaveat | deepsecure/_core/delegation.py:114-137 | a new macaroon with the caveat appended, signed over all caveats, remembering the previous signature; the old one is untouched |
| Macaroons.Macaroon.Verify | deepsecure/_core/delegation.py:139-218 | true if and only if the signature under the key matches and every caveat holds for the request at that time |
| Macaroons.Macaroon.Deserialize | deepsecure/_core/delegation.py:234-261 | succeeds exactly when the record parses and its recomputed signature matches, and then holds the record's values |
| Macaroons.TokenRoundTrip | deepsecure/_core/delegation.py:220-261 | reading the token of a sealed macaroon gives the same location string, identifier, caveats, signatures and time, when the location string survives |
| Macaroons.TokenReadsIff | deepsecure/_core/delegation.py:220-261 | and succeeds only then, unless the MAC collides on the two signed strings |
| Macaroons.ReadTokenIsAuthentic | deepsecure/_core/delegation.py:253-261 | a record is accepted only when the MAC of its own division of the signed string matches, and rewriting what was read gives the record back |
| Macaroons.ReadFailsExactly | deepsecure/_core/delegation.py:234-261 | a token is badly formatted if and only if it is no record or has a malformed caveat, and badly signed if and only if it is neither and its signature is not that of its text |
| Macaroons.RegroupedTokenReads | deepsecure/_core/delegation.py:98-112 | the failure, for every macaroon and every division of its caveats: a record with the first caveats written into its identifier is read and accepts exactly what the remaining ones allow |
| Macaroons.ReadsUnderSignature | deepsecure/_core/delegation.py:234-261 | with a collision-free MAC, exactly the records whose parts join to the signed string are read under a signature |
| Macaroons.ReadTokenBindsCaveats | deepsecure/_core/delegation.py:234-261 | with a collision-free MAC, any record read under the own signature of an unambiguous macaroon carries the issued caveats if and only if what is read is unambiguous, and then has the same head |
| Macaroons.ReadTokenBindsName | deepsecure/_core/delegation.py:234-261 | at the same location the identifier and caveats decide alone, and the identifier is the issued one |
| Macaroons.UnambiguousTokenAccepts | deepsecure/_core/delegation.py:139-261 | an unambiguous record under the own signature of an unambiguous macaroon accepts exactly what that macaroon accepts |
| Macaroons.ShorterTokenReads | deepsecure/_core/delegation.py:114-137 | the record without the last caveat, under the previous signature that the token carries, is read, shows a header only if the macaroon does, and accepts exactly what the remaining caveats allow |
| Macaroons.ReadUnderParentSignature | deepsecure/_core/delegation.py:220-261 | with a collision-free MAC, any record read under that signature carries all caveats but the last if and only if what is read is unambiguous |
| Macaroons.HeldTokenShrinksIff | deepsecure/_core/delegation.py:114-261 | an unambiguous record under one of the two signatures accepts no more than the macaroon, for all requests, if and only if it is the own signature or the last caveat follows from the others |
| Delegation.IssuedHeadShowsHeaderIff | deepsecure/_core/delegation.py:294-332 | the head of an issued macaroon shows a header if and only if a colon-separated piece of the agent, of the UUID or, after the first, of the location is a caveat kind |
| Delegation.IssuedFields | deepsecure/_core/delegation.py:295-345 | identifiers, locations, times and first caveats of what is issued |
| Delegation.TablesAfterIssue | deepsecure/_core/delegation.py:309-359 | the new macaroon and its chain are stored under its identifier, every other entry is as it was |
| Delegation.DelegationManager.CreateRootMacaroon | deepsecure/_core/delegation.py:281-314 | the root bound to its agent with the initial caveats, both tables extended by it alone |
| Delegation.DelegationManager.DelegateMacaroon | deepsecure/_core/delegation.py:316-362 | the parent's caveats without agent bindings, then target, depth and added caveats, entered after the parent's chain; nothing recorded when the depth does not parse |
| Delegation.DelegationManager.GetDelegationDepth | deepsecure/_core/delegation.py:364-369 | the loop returns the first depth caveat's value, 0 without one |
| Delegation.DelegationManager.VerifyMacaroon | deepsecure/_core/delegation.py:371-388 | acceptance under the root key, with one of the two reason texts |
| Delegation.DelegationManager.MacaroonToJwtClaims | deepsecure/_core/delegation.py:394-426 | first agent binding as subject, first time bound in whole seconds as exp, the stored chain; an error where that bound does not convert |
| Delegation.DelegationManager.JwtClaimsToMacaroon | deepsecure/_core/delegation.py:428-453 | rebuilds the macaroon without checking it and adopts the chain of an unknown identifier only |
| Attenuation.DelegatedAcceptsExactly | deepsecure/_core/delegation.py:316-354 | the exact set of requests a delegated macaroon accepts |
| Attenuation.DelegationAttenuates | deepsecure/_core/delegation.py:316-362 | a request accepted below is accepted by the parent for some agent if and only if the parent is well signed and its agent bindings agree |
| Attenuation.CopiesDelegateAlike | deepsecure/_core/delegation.py:336-354 | a parent that has travelled as a token delegates the same macaroon |
| Attenuation.AllHoldSplit | deepsecure/_core/delegation.py:158-162 | a caveat list holds exactly when its caveats of one kind and its other caveats hold |
| Attenuation.DelegatedDepth | deepsecure/_core/delegation.py:347-369 | for any parent, the depth read from its delegate is the one read from the parent, or 1 when the parent has no depth caveat |
| DelegationRuns.RunsSeal | deepsecure/_core/delegation.py:114-137 | in every run every issued macaroon is signed over all its caveats and remembers the signature over all but the last |
| DelegationRuns.IssuedTokensRoundTrip | deepsecure/_core/delegation.py:220-261 | in every run the token of an issued macaroon reads back as that macaroon |
| DelegationRuns.RunsKeepLedger | deepsecure/_core/delegation.py:309-359 | in every run, whatever is delegated from and imported, each issued macaroon is stored under its own identifier and has a chain that ends in it |
| DelegationRuns.ChainsAreLineages | deepsecure/_core/delegation.py:309-359 | over every run, whatever is imported: the chain of each issued macaroon stays a lineage of issued macaroons (ending in its identifier, each prefix the stored chain of its last one) if and only if every delegation starts from an identifier whose chain is empty or that of an issued macaroon |
| DelegationRuns.LineagesExactly | deepsecure/_core/delegation.py:316-453 | over every run: all stored chains, imported ones included, stay lineages if and only if each import that is read has a known identifier or brings a chain that extends a stored one, and each delegation starts from an identifier with a stored chain |
| DelegationRuns.LineageRepeatsNothing | deepsecure/_core/delegation.py:316-362 | a lineage repeats no identifier |
| DelegationRuns.AncestorsBoundExactly | deepsecure/_core/delegation.py:316-453 | over every run, whatever is delegated from and imported: each issued macaroon, or its part without the last caveat, stays bounded by every issued one of its chain if and only if each new one is bounded when it is made |
| DelegationRuns.BoundedRunMeans | deepsecure/_core/delegation.py:316-362 | the runs of the rows below, in which every delegation is bounded when it is made, are exactly those |
| DelegationRuns.BoundsIff | deepsecure/_core/delegation.py:139-218 | what being bounded means: of two macaroons whose own agent bindings agree, one accepts for some agent all requests of the other if and only if the other caveats of the latter imply those of the former |
| DelegationRuns.StoredParentsBound | deepsecure/_core/delegation.py:114-137 | delegations from stored macaroons, with or without caveats added, are bounded |
| DelegationRuns.RunsAttenuateExactly | deepsecure/_core/delegation.py:316-362 | permissions only shrink over every run whose delegations are bounded: a request verified under a macaroon verifies under an issued one of its chain for some agent if and only if the agent bindings of that one agree |
| DelegationRuns.PartAttenuates | deepsecure/_core/delegation.py:316-362 | the same for strict ancestors and whatever is allowed by the caveats, or by all of them but the last |
| DelegationRuns.NamesakeIsUnbounded | deepsecure/_core/delegation.py:316-362 | delegating from a macaroon value without caveats that bears an issued name continues the issued chain and accepts all of the target's requests within depth 1 |
| DelegationRuns.ClaimsGiveNamesake | deepsecure/_core/delegation.py:428-453 | imported claims rebuild such a value under any name |
| DelegationRuns.HeldTokensAttenuate | deepsecure/_core/delegation.py:220-261 | over every run whose delegations are bounded: an unambiguous record under either signature that the token of an issued unambiguous macaroon carries accepts no more than each strict ancestor of its chain whose agent bindings agree |
| DelegationRuns.HeldTokensNeedTheCheck | deepsecure/_core/delegation.py:98-112 | over every run, each issued macaroon has a record under its signature that is read and accepts every request |
| DelegationRuns.RunsBindOnce | deepsecure/_core/delegation.py:297-345 | in runs without caller agent bindings, whatever is delegated from, every macaroon carries exactly one |
| DelegationRuns.RunsAttenuate | deepsecure/_core/delegation.py:316-362 | in such runs without caller agent bindings every issued ancestor accepts, and the accepting agent is the one it is bound to |
| DelegationRuns.CallerBindingBreaksAttenuation | deepsecure/_core/delegation.py:338-345 | with a caller-supplied agent binding a root accepts nothing while its delegate accepts requests |
| DelegationRuns.DepthSaturates | deepsecure/_core/delegation.py:347-369 | where delegations start from the depth caveats of the stored macaroon: chain length minus one counts the depth caveats, the first saying 1 and all later ones 2, so the depth read is 0 on roots and 1 on everything else |
| JwtClaims.ImportedAccepts | deepsecure/_core/delegation.py:394-453 | the receiver's macaroon accepts exactly when the signature covers the location as read and all caveats hold |
| JwtClaims.ClaimsSay | deepsecure/_core/delegation.py:401-418 | the first agent binding is the subject, and only without one there is none; iat is the whole second of issuing; the other fields are the macaroon's and its stored chain |
| JwtClaims.ExpSays | deepsecure/_core/delegation.py:420-424 | exp is the whole part of the first time bound, missing without one, and there are no claims when that bound is no finite number |
| JwtClaims.ReceivedCreationTime | deepsecure/_core/delegation.py:441-446 | the received macaroon has the creation time of the claims, else that of receiving |
| JwtClaims.ClaimsRoundTrip | deepsecure/_core/delegation.py:394-453 | claims rebuild the same macaroon with the same accepted requests, and an unknown receiver adopts the issuer's chain |
| JwtClaims.ShorterClaimsAccept | deepsecure/_core/delegation.py:428-453 | claims with the previous signature and all caveats but the last are accepted for exactly what those allow |
| JwtClaims.ClaimsBound | deepsecure/_core/delegation.py:401-424 | every accepted request comes from the subject, which is there when the macaroon has an agent binding, and never later than the second that exp names |
| DelegationClient.RequestedCaveatsMean | deepsecure/client.py:569-594 | checking the printed caveats of a request means exactly what the caller asked for |
| DelegationClient.VerdictOnToken | deepsecure/client.py:742-759 | verifying the token of a sealed macaroon at any location that survives transport answers what that macaroon accepts, with the reason, and reports its data |
| DelegationClient.UnreadVerdict | deepsecure/client.py:742-762 | exactly the tokens that are not read give an error verdict |
| DelegationClient.RefusedExactly | deepsecure/client.py:550-557 | which arguments are refused and in which order |
| DelegationClient.AccessAcceptsExactly | deepsecure/client.py:562-601 | the macaroon of `delegate_access` accepts exactly the target's requests within everything that was asked for |
| DelegationClient.AccessEndToEnd | deepsecure/client.py:547-609 | the token of `delegate_access` verifies if and only if the request is the target's, within the requested resource, actions, address and count, before clock plus ttl seconds, at depth at most 1 |
| DelegationClient.ShorterAccessVerifies | deepsecure/_core/delegation.py:114-137 | the record of a `delegate_access` token without its last caveat verifies if and only if the request is the target's at depth at most 1 and keeps to all restrictions but the last: the count, else the address, else the time |
| DelegationClient.AccessSigns | deepsecure/client.py:562-605 | the string that the macaroon of `delegate_access` signs, letter by letter |
| DelegationClient.ClientRootSigns | deepsecure/client.py:562-567 | the string that the client's root macaroon signs, letter by letter |
| DelegationClient.AccessSubject | deepsecure/_core/delegation.py:401-409 | the subject of its claims is the target |
| DelegationClient.ActionsAreThePermissions | deepsecure/client.py:577-579 | the accepted actions are the listed permissions if and only if none contains a comma |
| DelegationClient.ChainAcceptsExactly | deepsecure/client.py:657-720 | the macaroon of level i accepts exactly its receiver's requests that all levels up to i allow, at depth at most 1 |
| DelegationClient.ChainShrinks | deepsecure/client.py:661-715 | each level shrinks the one before by exactly its own restrictions |
| DelegationClient.ChainDepth | deepsecure/_core/delegation.py:347-354 | the depth caveats of a chain macaroon, and the depth 1 read from each |
| DelegationClient.ChainTokenOf | deepsecure/client.py:710-712 | a receiver's token is the one of the last level naming it |
| DelegationClient.ChainEndToEnd | deepsecure/client.py:657-759 | a chain token of any length verifies exactly for the requests all its levels allow, each until its clock plus its ttl in seconds, 300 without one |
| DelegationClient.LongestPrefixDecides | deepsecure/client.py:677-679 | the resource prefixes of a chain hold together exactly when the longest holds and extends all others |
| DelegationClient.ChainExpIsTheOldest | deepsecure/_core/delegation.py:420-424 | the exp of every chain token is the whole second of the first level's clock plus ttl, while acceptance ends at the earliest one |
| DelegationClient.ChainSubject | deepsecure/_core/delegation.py:401-409 | the subject of a chain token's claims is the receiver of its level |
| DelegationClient.ChainIsStored | deepsecure/client.py:657-720 | after each level the tables hold its macaroon, with a chain from the root through all levels |
| DelegationClient.Client.DelegateAccess | deepsecure/client.py:515-612 | refuses exactly the blank or empty arguments and otherwise returns the token of the requested macaroon, both new macaroons recorded |
| DelegationClient.Client.VerifyDelegation | deepsecure/client.py:725-762 | the verdict, its reason and the chain the manager stores; an unreadable token is an error verdict |
| DelegationClient.Client.DelegateLevel | deepsecure/client.py:665-715 | one pass of the chain loop: the first creates and records the root, the others delegate from the current macaroon |
| DelegationClient.Client.CreateDelegationChain | deepsecure/client.py:614-723 | all tokens of a complete specification; fails at the first level with a missing agent, keeping the levels before it recorded |
| ScopeMapper.MappedText | deepsecure/_core/scope_mapper.py:30-48 | the two mappings on the wildcard, prefixed and unprefixed names, in plain text |
| ScopeMapper.ContributionText | deepsecure/_core/scope_mapper.py:63-81 | what each standard, category, prefixed and other scope stands for, in plain text |
| ScopeMapper.MergeMembers | deepsecure/_core/scope_mapper.py:84-92 | a merge keeps the first list as prefix, has the members of both and adds no duplicate |
| ScopeMapper.MergeNew | deepsecure/_core/scope_mapper.py:84-92 | new members come after the old ones in their own order |
| ScopeMapper.MergeAssociative | deepsecure/_core/scope_mapper.py:84-92 | merging is associative |
| ScopeMapper.MappingIsHomomorphic | deepsecure/_core/scope_mapper.py:63-92 | mapping merged scopes equals merging the mapped permissions |
| ScopeMapper.BackIffPlain | deepsecure/_core/scope_mapper.py:30-48 | one permission comes back from its scope if and only if it does not start with the prefix and is not `tools` |
| ScopeMapper.ScopesRoundTrip | deepsecure/_core/scope_mapper.py:30-81 | a permission list comes back, deduplicated by first occurrence, if and only if all its members are plain |
| ScopeMapper.PermissionsToScopes | deepsecure/_core/scope_mapper.py:51-60 | the loop yields the deduplicated scopes |
| ScopeMapper.ScopesToPermissions | deepsecure/_core/scope_mapper.py:63-81 | the nested loops yield the deduplicated contributions of the scopes |
| ScopeMapper.MergeScopes | deepsecure/_core/scope_mapper.py:84-92 | the loop computes the merge |
| StepUp.ParsesChallenge | deepsecure/_core/base_client.py:197-205 | a challenge listing scopes is read as that list, whatever stands before it without the field opening `scope="` and whatever comes after |
| StepUp.FieldExactly | deepsecure/_core/base_client.py:202 | the pattern matches exactly the field name, one or more characters without a quote, and a quote |
| StepUp.FirstFieldIsFound | deepsecure/_core/base_client.py:202 | the leftmost match is taken |
| StepUp.NoFieldIsFound | deepsecure/_core/base_client.py:200-204 | without a match there are no scopes |
| StepUp.WordsBetweenSpace | deepsecure/_core/base_client.py:205 | the scopes are the words between any amount of any white space |
| StepUp.ChallengeStepsUp | deepsecure/_core/base_client.py:207-266 | a 403 with `error="insufficient_scope"` and named scopes, budget left: the scopes are accepted and merged, a retry is used up, the client logs in, and, when that works, sends again |
| StepUp.OtherAnswersEnd | deepsecure/_core/base_client.py:251-266 | any other answer ends the call after one request with scopes and count unchanged, returned if and only if its status is in 200..299 |
| StepUp.CallCounts | deepsecure/_core/base_client.py:207-266 | accepted challenges, retries used and logins are equal in number, and one request more than logins that worked is sent |
| StepUp.CallIsBounded | deepsecure/_core/base_client.py:207-266 | one call sends at most one request more than the retries it uses up, which stay within the budget |
| StepUp.LastAnswerDecides | deepsecure/_core/base_client.py:251-266 | a call ends by the status of its last answer, which was no usable challenge or met a spent budget, or fails without an answer or in re-authentication |
| StepUp.CallsAreBounded | deepsecure/_core/base_client.py:207-266 | any n calls on one client send at most n requests plus the budget left, whatever is answered |
| StepUp.ScopesAccumulate | deepsecure/_core/base_client.py:221-274 | in every reachable state the cumulative scopes are duplicate-free, the deduplication of all accepted challenges, extend all earlier values, and imply the merged permissions of the challenges |
| StepUp.BaseClient.HandleInsufficientScope | deepsecure/_core/base_client.py:207-241 | gives up without a change when the budget is spent or no scope is named, else merges, counts and re-authenticates |
| StepUp.BaseClient.GatewayRequestWithStepUp | deepsecure/_core/base_client.py:243-266 | the endless loop terminates by the remaining budget and ends in the state and outcome of the call |
| StepUp.BaseClient.GetStepUpPermissions | deepsecure/_core/base_client.py:272-274 | the permissions the cumulative scopes imply |
| JwtCache.DelegationWindow | deepsecure-proxy/deepsecure_proxy/jwt_manager.py:47-52 | a recorded delegation token is a hit exactly for callers of its delegation before recording time plus announced lifetime, 3600 without one, less the margin |
| JwtCache.FetchedIsReturned | deepsecure-proxy/deepsecure_proxy/jwt_manager.py:86-89 | the caller it was fetched for gets it unless its lifetime is no number |
| JwtCache.DiscoveryWindow | deepsecure-proxy/deepsecure_proxy/jwt_manager.py:41-66 | the same for the discovery token, which has no default lifetime, and what a later caller gets otherwise |
| JwtCache.LeftOverWindow | deepsecure-proxy/deepsecure_proxy/jwt_manager.py:86-94 | a delegation token whose lifetime is no number is a hit exactly for the delegation still filed, until the expiry still filed less the margin, invalidation or not |
| JwtCache.LeftOverDiscoveryWindow | deepsecure-proxy/deepsecure_proxy/jwt_manager.py:64-66 | and a discovery token likewise |
| JwtCache.NothingAfterForget | deepsecure-proxy/deepsecure_proxy/jwt_manager.py:91-94 | right after an invalidation there is no hit |
| JwtCache.DiscoveryServes | deepsecure-proxy/deepsecure_proxy/jwt_manager.py:54-66 | the discovery token handed out was issued for the agent, and a cached one only before its expiry minus the margin |
| JwtCache.InterleavingsAreHonest | deepsecure-proxy/deepsecure_proxy/jwt_manager.py:47-94 | under every interleaving with readable lifetimes each caller gets a token issued for what it asked, and the cached triples come from one answer each |
| JwtCache.ForeignTokenIffCrosses | deepsecure-proxy/deepsecure_proxy/jwt_manager.py:68-89 | recording an answer lets some later caller hit a token of another delegation if and only if its lifetime is no number, its token is not empty, and the id left in place is another one whose expiry less the margin is still ahead |
| JwtCache.ForeignTokensExactly | deepsecure-proxy/deepsecure_proxy/jwt_manager.py:68-89 | over every run and whatever is announced: no possible next section after any part of it hands out a foreign token if and only if no answer of the run crosses in that way |
| JwtCache.CachedTokensAreFresh | deepsecure-proxy/deepsecure_proxy/jwt_manager.py:41-88 | the corollary for readable lifetimes: if each grant keeps within the margin, no cached token is returned after its real expiry |
| JwtCache.TruthfulAnswersStayFresh | deepsecure-proxy/deepsecure_proxy/jwt_manager.py:41-88 | over every run of answers that announce their real lifetime and are recorded within the margin of being minted, no token leaves a cache at or after the end of its life |
| JwtCache.MarginIsExact | deepsecure-proxy/deepsecure_proxy/jwt_manager.py:41-52 | whatever was announced, both caches are valid only while their tokens live, from a time on, if and only if each expiry less the margin is over by then or by the end of that token's life |
| JwtCache.TrackedLastsIff | deepsecure-proxy/deepsecure_proxy/jwt_manager.py:41-52 | where token and expiry come from one answer, that is the recorded lifetime, or the recording delay plus the lifetime announced in excess, being within the margin |
| JwtCache.StaleTokensExactly | deepsecure-proxy/deepsecure_proxy/jwt_manager.py:41-94 | over every run and whatever is announced: no possible next section after any part of it returns a cached token after its life if and only if no section records a usable token whose expiry beside it, its own or a left-over one, less the margin outlives both the recording and the token, with a delegation id filed |
| JwtCache.InvalidateIsFinalIff | deepsecure-proxy/deepsecure_proxy/jwt_manager.py:68-94 | after an invalidation in any state only newer tokens are handed out in all runs, whatever is announced, if and only if every fetch under way began no earlier |
| JwtCache.JWTManager.EnsureDiscoveryJwt | deepsecure-proxy/deepsecure_proxy/jwt_manager.py:54-66 | the new fields and the token, including the half-done update when the lifetime is no number |
| JwtCache.JWTManager.StartDelegation | deepsecure-proxy/deepsecure_proxy/jwt_manager.py:68-73 | the section before the await: the cached token, or the discovery token to ask with |
| JwtCache.JWTManager.FinishDelegation | deepsecure-proxy/deepsecure_proxy/jwt_manager.py:86-89 | the section after the await |
| JwtCache.JWTManager.Invalidate | deepsecure-proxy/deepsecure_proxy/jwt_manager.py:91-94 | both tokens forgotten, expiries and delegation id kept |
| Proxy.ForwardPosts | deepsecure-proxy/deepsecure_proxy/server.py:80-110 | one message causes one post, or two after a 401, with tokens of the selected delegation, the second minted after that 401 |
| Proxy.TokenIffAtHand | deepsecure-proxy/deepsecure_proxy/server.py:112-121 | when a token is to be had, in terms of the caches, the clock and the answers met |
| Proxy.ReplyIsLastAnswer | deepsecure-proxy/deepsecure_proxy/server.py:80-110 | which answer is the reply: none and no post without a token, the first answer unless it is a 401, after a 401 the second when a new token is to be had; anything but JSON aborts |
| Proxy.LoopForwardsEach | deepsecure-proxy/deepsecure_proxy/server.py:66-78 | the loop forwards the messages in order, each from the state the ones before left, stopping short of one only after an abort |
| Proxy.LoopPosts | deepsecure-proxy/deepsecure_proxy/server.py:66-78 | the same for every message of every run of the loop, whatever lifetimes are announced; only an exception, a reply that is no JSON or a line that does not decode included, ends it early |
| Proxy.RunPosts | deepsecure-proxy/deepsecure_proxy/server.py:54-121 | the same for the proxy started with an empty manager, the delegation being the fixed one, else the first listed one, else none |
| Proxy.DeepSecureProxy.GetCurrentJwt | deepsecure-proxy/deepsecure_proxy/server.py:112-121 | the token of the fixed delegation, else of the rotator's current one, else the discovery token |
| Proxy.DeepSecureProxy.ForwardOne | deepsecure-proxy/deepsecure_proxy/server.py:80-110 | the posts and the reply of one message, and the manager's new state |
| Proxy.DeepSecureProxy.Run | deepsecure-proxy/deepsecure_proxy/server.py:54-78 | the posts of a whole run |
| Approval.SubmitKeepsOrder | examples/11_advanced_delegation_patterns.py:517-588 | one submission keeps the voters distinct and authorized, what was recorded, called and minted, and every delegation call backed by a full quota |
| Approval.SubmissionsAreOrderly | examples/11_advanced_delegation_patterns.py:469-588 | the same over any sequence of submissions: each recorded entry is that of a submission checked before expiry, and there are at most distinct approvers minus quota plus one delegation calls, failing ones included |
| Approval.ApprovalsAreCounted | examples/11_advanced_delegation_patterns.py:548 | the count is the number of approving entries |
| Approval.RefusedExactly | examples/11_advanced_delegation_patterns.py:517-531 | who is refused and why, with nothing changed |
| Approval.AnswerTellsRecord | examples/11_advanced_delegation_patterns.py:533-588 | what the answer tells about the record: expiry, the entry, the count, the status and the token |
| Approval.TokenIffMinted | examples/11_advanced_delegation_patterns.py:469-588 | over any sequence of submissions a token is stored if and only if one was minted, and it is one that was given |
| Approval.RejectionIsNotFinal | examples/11_advanced_delegation_patterns.py:553-560 | whatever was rejected, some continuation from now on mints a token if and only if the expiry is ahead, an authorized person has not submitted, and the approvals recorded and still possible reach the quota |
| Approval.ApprovalRecord.CountApproved | examples/11_advanced_delegation_patterns.py:548 | the count of approving entries |
| Approval.ApprovalRecord.Submit | examples/11_advanced_delegation_patterns.py:522-594 | the record's new state and the answer |
| Approval.ApprovalDesk.Create | examples/11_advanced_delegation_patterns.py:469-491 | the new record under its id, replacing one created in the same second |
| Approval.ApprovalDesk.SubmitApproval | examples/11_advanced_delegation_patterns.py:493-594 | an unknown id is refused, a known one changes its own record only |
| Migration.WorkFrame | scripts/migrate_secrets_to_split_key.py:83-109 | the loop touches only the selected rows and the shares under their names, and only such requests are left under way |
| Migration.WorkSplits | scripts/migrate_secrets_to_split_key.py:83-109 | after a finished loop every selected secret's shares recombine |
| Migration.WorkSends | scripts/migrate_secrets_to_split_key.py:83-109 | by the row it ends at the loop has sent the second share of each row before and of that one, stored or under way, and nothing for later rows |
| Migration.RunLeaves | scripts/migrate_secrets_to_split_key.py:65-112 | a run leaves all rows as they were unless every row and the commit succeed, and then each selected row with its first share and no value; what was sent stays sent |
| Migration.MigrateKeepsSecrets | scripts/migrate_secrets_to_split_key.py:65-112 | one run failing anywhere loses no secret |
| Migration.HistoryKeepsSecrets | scripts/migrate_secrets_to_split_key.py:65-112 | nor does any number of runs, with secrets created and timed-out requests arriving in between, as long as no run succeeds with a split that a request under way does not fit |
| Migration.LateSharesExactly | scripts/migrate_secrets_to_split_key.py:83-109 | secrets survive whatever is under way, in any order of arrival, if and only if each such request is for a secret that keeps its value or fits the share held |
| Migration.HistoryExactly | scripts/migrate_secrets_to_split_key.py:65-112 | over every history: the secrets survive each part of it and whatever is then under way, if and only if no run in it succeeds with a split that a request under way does not fit |
| Migration.OneSuccessFinishes | scripts/migrate_secrets_to_split_key.py:65-112 | one later successful run leaves every secret with no value and two shares that recombine to it, and nothing that is under way undoes that |
| Migration.LateShareLosesSecret | scripts/migrate_secrets_to_split_key.py:83-109 | after the request of any failed run arrives behind a successful one, the secret can be had if and only if the two splits happen to fit |
| Migration.SplitsNeedNotFit | scripts/migrate_secrets_to_split_key.py:83-109 | a splitting whose every split recombines, with two splits of one value that do not fit |
| Migration.SharedNameLosesSecret | scripts/migrate_secrets_to_split_key.py:83-109 | a witness that unique names are needed: with two rows of one name, which the unique index on the column rules out, a run without failure loses a secret |
| Migration.MigrateSecrets | scripts/migrate_secrets_to_split_key.py:65-112 | the loop inside the transaction, with rollback on any failure and shares sent before it left behind |
| PromptFilter.DumpsText | agents/gemini/entrypoint_sdk.py:291 | the JSON text of a list in terms of its escaped items |
| PromptFilter.EscapeTexts | agents/gemini/entrypoint_sdk.py:291 | the escapes of all characters, surrogate pairs included |
| PromptFilter.Hex4Reads | agents/gemini/entrypoint_sdk.py:291 | the four hexadecimal digits are those of the number |
| PromptFilter.ServicesAreNames | agents/gemini/entrypoint_sdk.py:294 | the services of a prompt are the names between its commas without the white space around them |
| PromptFilter.SubstringTestExactly | agents/gemini/entrypoint_sdk.py:292-296 | for every permission list and every service without a comma, as all are, exactly when the quoted service is found in the JSON text |
| PromptFilter.PrintableServiceTest | agents/gemini/entrypoint_sdk.py:292-296 | for a printable service and every permission list it is found if and only if some permission starts with it and a colon, or has them after a quote |
| PromptFilter.SubstringTestSimply | agents/gemini/entrypoint_sdk.py:292-296 | for printable permissions and any such service it is found if and only if some permission starts with the service and a colon |
| PromptFilter.UnprintableServiceIsNeverFound | agents/gemini/entrypoint_sdk.py:292-296 | a service with a character outside printable ASCII is never found |
| PromptFilter.QuoteFoolsTest | agents/gemini/entrypoint_sdk.py:292-296 | a permission with a quote is found without starting with the service |
| PromptFilter.SelectionByParts | agents/gemini/entrypoint_sdk.py:293-297 | a prompt is taken if and only if all its quoted services are in the text, and a list is taken prompt by prompt |
| PromptFilter.TextSelectsCovered | agents/gemini/entrypoint_sdk.py:287-298 | for printable permissions and any prompts the text-based selection equals the selection of prompts whose services all have a permission |
| PromptFilter.SelectionIsMonotone | agents/gemini/entrypoint_sdk.py:287-298 | more permissions, of any content and in any order, never unselect a prompt of the text-based selection |
| PromptFilter.SelectionIsOrdered | agents/gemini/entrypoint_sdk.py:293-298 | the text-based selection is a subsequence of the prompts |
| PromptFilter.SelectPrompts | agents/gemini/entrypoint_sdk.py:287-298 | the loop computes the text-based selection, hence the simple one for printable permissions |

## Left out

- DelegationClient.Client.CreateDelegationChain: assumes that integers print and parse back, as `str` and `int` do.
- JwtCache.InterleavingsAreHonest: assumes answers whose lifetime is a number; without that, `JwtCache.ForeignTokensExactly` says exactly when a caller gets another delegation's token.
- JwtCache.CachedTokensAreFresh: assumes answers whose lifetime is a number; without that, `JwtCache.StaleTokensExactly` says exactly when a token outlives its life in a cache. Both are about cached tokens; one returned straight from the control plane is not checked for expiry by the code either.
- HMAC-SHA256, base64, JSON and UTF-8 of tokens: a token is the record its text decodes to, or undecodable.
- Floating-point rounding and number text: a time bound means what `float` reads from its text, and one value printing and parsing back is a hypothesis.
- The clock read once per time caveat: one `verify` uses one reading.
- Context entries of unexpected Python types beyond a number that does not convert.
- UUID generation: an identifier issued in a run is taken to be one that nothing stored or delegated from mentions; the model of a run skips other operations.
- Request counting across calls: the count is an entry of the request context, as in the code.
- Agent sessions: the client never finds a stored macaroon, so every delegation starts from a new root.
- The access-token cache of the base client: one authenticated request is one answer, an exception included.
- The rotator's `rotate`: the proxy never calls it.
- Extra await points on entering and leaving the HTTP client: they touch no field of the manager.
- Two migration runs that overlap and both succeed: an overlapping run that fails is one whose requests arrive late.
- The exact text of a verification error: it is an error verdict with its cause.
- Shamir's scheme: two shares that recombine are a hypothesis.
- Audit log, printed output and the other delegation patterns of the example manager, whose records have no approvers.
- Routes, identity providers, key storage, command line and placeholder clients.
- The control plane and gateway services: they appear as answers only.
