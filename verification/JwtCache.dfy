/** The proxy's token cache: its atomic sections between awaits, every interleaving of concurrent
    callers, and the manager object. */
module JwtCache {
  import opened Text

  // ----- what the control plane answers -----

  /** The `expires_in` of an answer: a number, no such key, or something `time.time() +` rejects. */
  datatype Announced = Seconds(seconds: real) | Missing | NotANumber

  /** A token with its mint time, its real lifetime and the lifetime it announces. */
  datatype Offer = Offer(token: string, minted: real, lifetime: real, announced: Announced)

  /** A token received for a subject (None for the agent itself) and recorded at `stored`. */
  datatype Grant = Grant(subject: Option<string>, offer: Offer, stored: real)

  /** The lifetime the manager records: only the delegation endpoint has a default. */
  function Recorded(subject: Option<string>, a: Announced): Option<real> {
    match a
    case Seconds(s) => Some(s)
    case Missing => if subject.Some? then Some(3600.0) else None
    case NotANumber => None
  }

  // ----- the cache by value -----

  /** The manager's fields, the tokens received so far, and which of them the two caches hold. */
  datatype Book = Book(
    discoveryJwt: Option<string>,
    discoveryExpiresAt: real,
    delegationJwt: Option<string>,
    delegationExpiresAt: real,
    currentDelegationId: Option<string>,
    log: seq<Grant>,
    discoveryFrom: nat,
    delegationFrom: nat
  )

  const EMPTY_BOOK := Book(None, 0.0, None, 0.0, None, [], 0, 0)

  /** A token handed to a caller: which grant it is, and whether it came from a cache. */
  datatype Issue = Issue(token: string, from: nat, cached: bool)

  /** The clock readings around a bootstrap, and its answer; None when it raises. */
  datatype Visit = Visit(now: real, boot: Option<Offer>, done: real)

  predicate Usable(jwt: Option<string>) {
    jwt.Some? && jwt.value != ""
  }

  predicate DiscoveryValid(b: Book, margin: real, now: real) {
    Usable(b.discoveryJwt) && now < b.discoveryExpiresAt - margin
  }

  predicate DelegationValid(b: Book, margin: real, d: string, now: real) {
    Usable(b.delegationJwt) && b.currentDelegationId == Some(d) && now < b.delegationExpiresAt - margin
  }

  /** The token is stored before its expiry is computed, so a lifetime that is no number leaves the
      new token beside the old expiry. */
  function KeepDiscovery(b: Book, offer: Offer, done: real): (Book, Option<Issue>) {
    var kept := b.(discoveryJwt := Some(offer.token), log := b.log + [Grant(None, offer, done)], discoveryFrom := |b.log|);
    match Recorded(None, offer.announced)
    case None => (kept, None)
    case Some(s) => (kept.(discoveryExpiresAt := done + s), Some(Issue(offer.token, |b.log|, false)))
  }

  /** Likewise; the delegation id is only updated after the expiry. */
  function KeepDelegation(b: Book, d: string, offer: Offer, done: real): (Book, Option<Issue>) {
    var kept := b.(delegationJwt := Some(offer.token), log := b.log + [Grant(Some(d), offer, done)], delegationFrom := |b.log|);
    match Recorded(Some(d), offer.announced)
    case None => (kept, None)
    case Some(s) =>
      (kept.(delegationExpiresAt := done + s, currentDelegationId := Some(d)), Some(Issue(offer.token, |b.log|, false)))
  }

  function EnsureDiscovery(b: Book, margin: real, v: Visit): (Book, Option<Issue>) {
    if DiscoveryValid(b, margin, v.now) then (b, Some(Issue(b.discoveryJwt.value, b.discoveryFrom, true)))
    else if v.boot.None? then (b, None)
    else KeepDiscovery(b, v.boot.value, v.done)
  }

  datatype Begun = Hit(issue: Issue) | Fetch | Raised

  /** `get_delegation_jwt` up to its first await. */
  function BeginDelegation(b: Book, margin: real, d: string, v: Visit): (Book, Begun) {
    if DelegationValid(b, margin, d, v.now) then (b, Hit(Issue(b.delegationJwt.value, b.delegationFrom, true)))
    else
      var (b', discovery) := EnsureDiscovery(b, margin, v);
      (b', if discovery.Some? then Fetch else Raised)
  }

  function Forget(b: Book): Book {
    b.(discoveryJwt := None, delegationJwt := None)
  }

  // ----- what the fields mean -----

  predicate Holds(b: Book, jwt: Option<string>, from: nat, subject: Option<string>, expiresAt: real) {
    jwt.Some? ==>
      && from < |b.log|
      && b.log[from].subject == subject
      && b.log[from].offer.token == jwt.value
      && Recorded(subject, b.log[from].offer.announced).Some?
      && expiresAt == b.log[from].stored + Recorded(subject, b.log[from].offer.announced).value
  }

  /** Each cached token, its expiry and, for a delegation, its id come from one answer. */
  predicate Tracked(b: Book) {
    && Holds(b, b.discoveryJwt, b.discoveryFrom, None, b.discoveryExpiresAt)
    && (b.delegationJwt.Some? ==> b.currentDelegationId.Some?)
    && Holds(b, b.delegationJwt, b.delegationFrom, b.currentDelegationId, b.delegationExpiresAt)
  }

  predicate Numeric(subject: Option<string>, offer: Offer) {
    Recorded(subject, offer.announced).Some?
  }

  /** Recording a delegation token keeps the triple of one answer exactly when its lifetime is a number. */
  lemma KeepDelegationTracks(b: Book, d: string, offer: Offer, done: real)
    requires Tracked(b)
    ensures Tracked(KeepDelegation(b, d, offer, done).0) <==> Numeric(Some(d), offer)
  {
  }

  /** A caller for `e` finds a cached token that was not issued for `e`. */
  predicate HitsForeign(b: Book, margin: real, e: string, v: Visit) {
    var (b', begun) := BeginDelegation(b, margin, e, v);
    begun.Hit? && !Serves(b', Some(e), begun.issue)
  }

  /** What makes an answer without a readable lifetime cross delegations: its token is usable, and
      the id and expiry it leaves in place are those of another delegation, not yet run out. */
  predicate Crosses(b: Book, margin: real, d: string, offer: Offer, done: real) {
    && offer.announced == NotANumber
    && offer.token != ""
    && b.currentDelegationId.Some? && b.currentDelegationId != Some(d)
    && done < b.delegationExpiresAt - margin
  }

  /** Recording an answer lets some later caller have a token of another delegation exactly when it crosses. */
  lemma ForeignTokenIffCrosses(b: Book, margin: real, d: string, offer: Offer, done: real)
    requires Tracked(b)
    ensures (exists e: string, v: Visit :: v.now >= done && HitsForeign(KeepDelegation(b, d, offer, done).0, margin, e, v))
       <==> Crosses(b, margin, d, offer, done)
  {
    var b' := KeepDelegation(b, d, offer, done).0;
    if Crosses(b, margin, d, offer, done) {
      var v := Visit(done, None, done);
      assert HitsForeign(b', margin, b.currentDelegationId.value, v) && v.now >= done;
    }
  }

  predicate Serves(b: Book, asked: Option<string>, issue: Issue) {
    issue.from < |b.log| && b.log[issue.from].subject == asked && b.log[issue.from].offer.token == issue.token
  }

  /** A cached token is returned only before its recorded expiry minus the margin. */
  predicate ServedEarly(b: Book, margin: real, issue: Issue, now: real)
    requires issue.from < |b.log|
  {
    var g := b.log[issue.from];
    issue.cached ==> Recorded(g.subject, g.offer.announced).Some?
                     && now < g.stored + Recorded(g.subject, g.offer.announced).value - margin
  }

  lemma DiscoveryServes(b: Book, margin: real, v: Visit)
    requires Tracked(b) && (v.boot.Some? ==> Numeric(None, v.boot.value))
    ensures var (b', issue) := EnsureDiscovery(b, margin, v);
            && Tracked(b') && b.log <= b'.log
            && (issue.Some? ==> Serves(b', None, issue.value) && ServedEarly(b', margin, issue.value, v.now))
            && (b'.log == b.log || (v.boot.Some? && b'.log == b.log + [Grant(None, v.boot.value, v.done)]))
  {
  }

  // ----- concurrent callers -----

  datatype Pending = Pending(delegation: string, since: real)
  datatype Served = Served(asked: Option<string>, issue: Issue, at: real)

  /** The cache, the clock, the callers waiting for the control plane, and the tokens handed out. */
  datatype System = System(book: Book, clock: real, pending: map<nat, Pending>, served: seq<Served>)

  /** The atomic sections: between two of them, any other may run. */
  datatype Event =
    | Discover(v: Visit)
    | Start(caller: nat, delegation: string, v: Visit)
    | Arrive(caller: nat, offer: Offer, at: real)
    | Abort(caller: nat)
    | Invalidate(at: real)

  predicate Causal(clock: real, v: Visit) {
    clock <= v.now <= v.done && (v.boot.Some? ==> v.now <= v.boot.value.minted <= v.done)
  }

  /** The clock never goes back, and a token is minted between its request and its arrival. */
  predicate Possible(s: System, e: Event) {
    match e
    case Discover(v) => Causal(s.clock, v)
    case Start(caller, _, v) => caller !in s.pending && Causal(s.clock, v)
    case Arrive(caller, offer, at) => caller in s.pending && s.clock <= at && s.pending[caller].since <= offer.minted <= at
    case Abort(caller) => caller in s.pending
    case Invalidate(at) => s.clock <= at
  }

  /** A cached token is returned at the validity check, a new one when it is recorded. */
  function ReturnedAt(v: Visit, issue: Option<Issue>): real {
    if issue.Some? && issue.value.cached then v.now else v.done
  }

  function Serve(s: System, asked: Option<string>, issue: Option<Issue>, at: real): System {
    if issue.None? then s else s.(served := s.served + [Served(asked, issue.value, at)])
  }

  function Step(margin: real, s: System, e: Event): System {
    if !Possible(s, e) then s
    else
      match e
      case Discover(v) =>
        var (b, issue) := EnsureDiscovery(s.book, margin, v);
        Serve(s.(book := b, clock := v.done), None, issue, ReturnedAt(v, issue))
      case Start(caller, d, v) =>
        var (b, begun) := BeginDelegation(s.book, margin, d, v);
        var s' := s.(book := b, clock := v.done);
        (match begun
         case Hit(issue) => Serve(s', Some(d), Some(issue), v.now)
         case Fetch => s'.(pending := s.pending[caller := Pending(d, v.done)])
         case Raised => s')
      case Arrive(caller, offer, at) =>
        var (b, issue) := KeepDelegation(s.book, s.pending[caller].delegation, offer, at);
        Serve(s.(book := b, clock := at, pending := s.pending - {caller}), Some(s.pending[caller].delegation), issue, at)
      case Abort(caller) => s.(pending := s.pending - {caller})
      case Invalidate(at) => s.(book := Forget(s.book), clock := at)
  }

  function Interleave(margin: real, s: System, es: seq<Event>): System {
    if es == [] then s else Step(margin, Interleave(margin, s, es[..|es| - 1]), es[|es| - 1])
  }

  const NEW_SYSTEM := System(EMPTY_BOOK, 0.0, map[], [])

  /** Every answer of the control plane announces its lifetime as a number, where one is needed. */
  predicate NumericAnswer(e: Event) {
    match e
    case Discover(v) => v.boot.Some? ==> Numeric(None, v.boot.value)
    case Start(_, _, v) => v.boot.Some? ==> Numeric(None, v.boot.value)
    case Arrive(_, offer, _) => offer.announced != NotANumber
    case _ => true
  }

  predicate RecordedBy(b: Book, clock: real) {
    forall k :: 0 <= k < |b.log| ==> b.log[k].stored <= clock
  }

  /** Issued for what was asked; from a cache, after its recording and before its recorded expiry minus the margin. */
  predicate ServedWell(b: Book, margin: real, r: Served) {
    && Serves(b, r.asked, r.issue)
    && ServedEarly(b, margin, r.issue, r.at)
    && (r.issue.cached ==> b.log[r.issue.from].stored <= r.at)
  }

  /** The cached triples come from one answer each, and every token handed out so far was issued
      for what its caller asked for. */
  predicate Honest(margin: real, s: System) {
    && Tracked(s.book)
    && RecordedBy(s.book, s.clock)
    && forall k :: 0 <= k < |s.served| ==> ServedWell(s.book, margin, s.served[k])
  }

  lemma ServeKeepsHonest(margin: real, s: System, b: Book, clock: real, pending: map<nat, Pending>,
                         asked: Option<string>, issue: Option<Issue>, at: real)
    requires Honest(margin, s) && Tracked(b) && s.book.log <= b.log && RecordedBy(b, clock)
    requires issue.Some? ==> ServedWell(b, margin, Served(asked, issue.value, at))
    ensures Honest(margin, Serve(System(b, clock, pending, s.served), asked, issue, at))
  {
  }

  lemma DiscoveryServesWell(b: Book, margin: real, clock: real, v: Visit)
    requires Tracked(b) && RecordedBy(b, clock) && Causal(clock, v) && (v.boot.Some? ==> Numeric(None, v.boot.value))
    ensures var (b', issue) := EnsureDiscovery(b, margin, v);
            && Tracked(b') && b.log <= b'.log && RecordedBy(b', v.done)
            && (issue.Some? ==> ServedWell(b', margin, Served(None, issue.value, ReturnedAt(v, issue))))
  {
    DiscoveryServes(b, margin, v);
  }

  lemma BeginServesWell(b: Book, margin: real, clock: real, d: string, v: Visit)
    requires Tracked(b) && RecordedBy(b, clock) && Causal(clock, v) && (v.boot.Some? ==> Numeric(None, v.boot.value))
    ensures var (b', begun) := BeginDelegation(b, margin, d, v);
            && Tracked(b') && b.log <= b'.log && RecordedBy(b', v.done)
            && (begun.Hit? ==> ServedWell(b', margin, Served(Some(d), begun.issue, v.now)))
  {
    DiscoveryServesWell(b, margin, clock, v);
  }

  lemma ArrivalServesWell(b: Book, margin: real, clock: real, d: string, offer: Offer, at: real)
    requires Tracked(b) && RecordedBy(b, clock) && clock <= at && Numeric(Some(d), offer)
    ensures var (b', issue) := KeepDelegation(b, d, offer, at);
            && Tracked(b') && b.log <= b'.log && RecordedBy(b', at)
            && (issue.Some? ==> ServedWell(b', margin, Served(Some(d), issue.value, at)))
  {
    KeepDelegationTracks(b, d, offer, at);
  }

  lemma StepKeepsHonest(margin: real, s: System, e: Event)
    requires Honest(margin, s) && NumericAnswer(e)
    ensures Honest(margin, Step(margin, s, e))
  {
    hide Tracked, ServedWell, KeepDelegation, EnsureDiscovery, DelegationValid;
    if Possible(s, e) {
      match e {
        case Discover(v) =>
          DiscoveryServesWell(s.book, margin, s.clock, v);
          var (b, issue) := EnsureDiscovery(s.book, margin, v);
          ServeKeepsHonest(margin, s, b, v.done, s.pending, None, issue, ReturnedAt(v, issue));
        case Start(caller, d, v) =>
          BeginServesWell(s.book, margin, s.clock, d, v);
          var (b, begun) := BeginDelegation(s.book, margin, d, v);
          var pending := if begun.Fetch? then s.pending[caller := Pending(d, v.done)] else s.pending;
          ServeKeepsHonest(margin, s, b, v.done, pending, Some(d), if begun.Hit? then Some(begun.issue) else None, v.now);
        case Arrive(caller, offer, at) =>
          var d := s.pending[caller].delegation;
          ArrivalServesWell(s.book, margin, s.clock, d, offer, at);
          var (b, issue) := KeepDelegation(s.book, d, offer, at);
          ServeKeepsHonest(margin, s, b, at, s.pending - {caller}, Some(d), issue, at);
        case Abort(caller) =>
        case Invalidate(at) =>
          ForgetTracks(s.book);
          ServeKeepsHonest(margin, s, Forget(s.book), at, s.pending, None, None, at);
      }
    }
  }

  lemma ForgetTracks(b: Book)
    requires Tracked(b)
    ensures Tracked(Forget(b))
  {
  }

  /** Under every interleaving of callers and invalidations: whoever asks for delegation d gets a
      token issued for d, and a cached token, its expiry and its delegation id come from one answer. */
  lemma {:induction false} InterleavingsAreHonest(margin: real, es: seq<Event>)
    requires forall e :: e in es ==> NumericAnswer(e)
    ensures Honest(margin, Interleave(margin, NEW_SYSTEM, es))
    decreases |es|
  {
    hide Step, NumericAnswer;
    if es != [] {
      InterleavingsAreHonest(margin, es[..|es| - 1]);
      assert es[|es| - 1] in es;
      StepKeepsHonest(margin, Interleave(margin, NEW_SYSTEM, es[..|es| - 1]), es[|es| - 1]);
    }
  }

  // ----- foreign tokens over runs -----

  /** Whatever the answers were, a cached token is the token of the grant it is recorded under. */
  predicate Traced(b: Book) {
    && (b.discoveryJwt.Some? ==> Serves(b, None, Issue(b.discoveryJwt.value, b.discoveryFrom, true)))
    && (b.delegationJwt.Some? ==>
          b.delegationFrom < |b.log| && b.log[b.delegationFrom].subject.Some?
          && b.log[b.delegationFrom].offer.token == b.delegationJwt.value)
  }

  /** The delegation cache belongs to the id it is filed under, or cannot be hit any more. */
  predicate Harmless(b: Book, margin: real, clock: real)
    requires Traced(b)
  {
    b.delegationJwt.Some? ==>
      || b.delegationJwt.value == ""
      || b.currentDelegationId == None
      || b.currentDelegationId == b.log[b.delegationFrom].subject
      || clock >= b.delegationExpiresAt - margin
  }

  predicate OwnServed(s: System) {
    forall k :: 0 <= k < |s.served| ==> Serves(s.book, s.served[k].asked, s.served[k].issue)
  }

  predicate Calm(margin: real, s: System) {
    Traced(s.book) && Harmless(s.book, margin, s.clock) && OwnServed(s)
  }

  /** The next section records an answer that crosses delegations. */
  predicate Crossing(margin: real, s: System, e: Event) {
    e.Arrive? && Possible(s, e) && Crosses(s.book, margin, s.pending[e.caller].delegation, e.offer, e.at)
  }

  lemma ServeOwn(s: System, b: Book, clock: real, pending: map<nat, Pending>, asked: Option<string>, issue: Option<Issue>, at: real)
    requires OwnServed(s) && s.book.log <= b.log && (issue.Some? ==> Serves(b, asked, issue.value))
    ensures OwnServed(Serve(System(b, clock, pending, s.served), asked, issue, at))
  {
  }

  lemma DiscoveryStaysCalm(b: Book, margin: real, clock: real, v: Visit)
    requires Traced(b) && Harmless(b, margin, clock) && clock <= v.now <= v.done
    ensures var (b', issue) := EnsureDiscovery(b, margin, v);
            && Traced(b') && Harmless(b', margin, v.done) && b.log <= b'.log
            && (issue.Some? ==> Serves(b', None, issue.value))
  {
  }

  lemma BeginStaysCalm(b: Book, margin: real, clock: real, d: string, v: Visit)
    requires Traced(b) && Harmless(b, margin, clock) && clock <= v.now <= v.done
    ensures var (b', begun) := BeginDelegation(b, margin, d, v);
            && Traced(b') && Harmless(b', margin, v.done) && b.log <= b'.log
            && (begun.Hit? ==> Serves(b', Some(d), begun.issue))
  {
    DiscoveryStaysCalm(b, margin, clock, v);
  }

  lemma ArrivalStaysCalm(b: Book, margin: real, d: string, offer: Offer, at: real)
    requires Traced(b)
    ensures var (b', issue) := KeepDelegation(b, d, offer, at);
            && Traced(b') && b.log <= b'.log
            && (Harmless(b', margin, at) <==> !Crosses(b, margin, d, offer, at))
            && (issue.Some? ==> Serves(b', Some(d), issue.value))
  {
  }

  /** From a calm state every section hands out own tokens, and leaves a calm state unless it is crossing. */
  lemma StepStaysCalm(margin: real, s: System, e: Event)
    requires Calm(margin, s)
    ensures OwnServed(Step(margin, s, e))
    ensures !Crossing(margin, s, e) ==> Calm(margin, Step(margin, s, e))
  {
    hide Traced, Harmless, Serves, KeepDelegation, EnsureDiscovery, DelegationValid, Crosses;
    if Possible(s, e) {
      match e {
        case Discover(v) =>
          DiscoveryStaysCalm(s.book, margin, s.clock, v);
          var (b, issue) := EnsureDiscovery(s.book, margin, v);
          ServeOwn(s, b, v.done, s.pending, None, issue, ReturnedAt(v, issue));
        case Start(caller, d, v) =>
          BeginStaysCalm(s.book, margin, s.clock, d, v);
          var (b, begun) := BeginDelegation(s.book, margin, d, v);
          var pending := if begun.Fetch? then s.pending[caller := Pending(d, v.done)] else s.pending;
          ServeOwn(s, b, v.done, pending, Some(d), if begun.Hit? then Some(begun.issue) else None, v.now);
        case Arrive(caller, offer, at) =>
          var d := s.pending[caller].delegation;
          ArrivalStaysCalm(s.book, margin, d, offer, at);
          var (b, issue) := KeepDelegation(s.book, d, offer, at);
          ServeOwn(s, b, at, s.pending - {caller}, Some(d), issue, at);
        case Abort(caller) =>
          ServeOwn(s, s.book, s.clock, s.pending - {caller}, None, None, s.clock);
        case Invalidate(at) =>
          ForgetIsCalm(s.book, margin, at);
          ServeOwn(s, Forget(s.book), at, s.pending, None, None, at);
      }
    }
  }

  lemma ForgetIsCalm(b: Book, margin: real, at: real)
    requires Traced(b)
    ensures Traced(Forget(b)) && Harmless(Forget(b), margin, at)
  {
  }

  /** After a crossing section, the caller that just got no token can ask for the delegation whose
      id is still filed, and is handed the other delegation's token. */
  lemma CrossingServesForeign(margin: real, s: System, e: Event)
    requires Traced(s.book) && Crossing(margin, s, e)
    ensures var ask := Start(e.caller, s.book.currentDelegationId.value, Visit(e.at, None, e.at));
            !OwnServed(Step(margin, Step(margin, s, e), ask))
  {
    hide Serves;
    var d, ask := s.pending[e.caller].delegation, Start(e.caller, s.book.currentDelegationId.value, Visit(e.at, None, e.at));
    var s1 := Step(margin, s, e);
    var s2 := Step(margin, s1, ask);
    assert s1.book == KeepDelegation(s.book, d, e.offer, e.at).0 && s1.served == s.served;
    var n := |s.served|;
    assert |s2.served| == n + 1 && s2.served[n] == Served(s.book.currentDelegationId, Issue(e.offer.token, |s.book.log|, true), e.at);
    assert s2.book.log[|s.book.log|].subject == Some(d);
    NotServed(s2.book, s.book.currentDelegationId, s2.served[n].issue);
  }

  lemma NotServed(b: Book, asked: Option<string>, issue: Issue)
    requires issue.from < |b.log| && b.log[issue.from].subject != asked
    ensures !Serves(b, asked, issue)
  {
  }

  lemma {:induction false} RunStaysCalm(margin: real, es: seq<Event>)
    requires forall n :: 0 <= n < |es| ==> !Crossing(margin, Interleave(margin, NEW_SYSTEM, es[..n]), es[n])
    ensures Calm(margin, Interleave(margin, NEW_SYSTEM, es))
    decreases |es|
  {
    hide Step, Calm, Crossing;
    if es == [] {
      NewSystemIsCalm(margin);
    } else {
      var init := es[..|es| - 1];
      assert forall n :: 0 <= n < |init| ==> init[..n] == es[..n] && init[n] == es[n];
      RunStaysCalm(margin, init);
      StepStaysCalm(margin, Interleave(margin, NEW_SYSTEM, init), es[|es| - 1]);
    }
  }

  lemma NewSystemIsCalm(margin: real)
    ensures Calm(margin, NEW_SYSTEM)
  {
  }

  lemma StepStaysTraced(margin: real, s: System, e: Event)
    requires Traced(s.book)
    ensures Traced(Step(margin, s, e).book)
  {
    hide DelegationValid, DiscoveryValid;
  }

  lemma {:induction false} RunStaysTraced(margin: real, es: seq<Event>)
    ensures Traced(Interleave(margin, NEW_SYSTEM, es).book)
    decreases |es|
  {
    hide Step;
    if es != [] {
      RunStaysTraced(margin, es[..|es| - 1]);
      StepStaysTraced(margin, Interleave(margin, NEW_SYSTEM, es[..|es| - 1]), es[|es| - 1]);
    }
  }

  /** Over every run, whatever lifetimes are announced: no section that could come next after any
      part of the run hands out another delegation's token, if and only if no answer of the run crosses. */
  lemma {:induction false} ForeignTokensExactly(margin: real, es: seq<Event>)
    ensures (forall n: nat, e: Event :: n <= |es| ==> OwnServed(Step(margin, Interleave(margin, NEW_SYSTEM, es[..n]), e)))
       <==> (forall n :: 0 <= n < |es| ==> !Crossing(margin, Interleave(margin, NEW_SYSTEM, es[..n]), es[n]))
  {
    hide Step, Calm, Crossing, Interleave, OwnServed;
    if forall n :: 0 <= n < |es| ==> !Crossing(margin, Interleave(margin, NEW_SYSTEM, es[..n]), es[n]) {
      forall n: nat, e: Event | n <= |es| ensures OwnServed(Step(margin, Interleave(margin, NEW_SYSTEM, es[..n]), e)) {
        assert forall k :: 0 <= k < n ==> es[..n][..k] == es[..k] && es[..n][k] == es[k];
        RunStaysCalm(margin, es[..n]);
        StepStaysCalm(margin, Interleave(margin, NEW_SYSTEM, es[..n]), e);
      }
    } else {
      var n :| 0 <= n < |es| && Crossing(margin, Interleave(margin, NEW_SYSTEM, es[..n]), es[n]);
      var s := Interleave(margin, NEW_SYSTEM, es[..n]);
      RunStaysTraced(margin, es[..n]);
      CrossingIsArrival(margin, s, es[n]);
      CrossingServesForeign(margin, s, es[n]);
      NextSection(margin, es, n);
      assert !OwnServed(Step(margin, Interleave(margin, NEW_SYSTEM, es[..n + 1]),
                             Start(es[n].caller, s.book.currentDelegationId.value, Visit(es[n].at, None, es[n].at))));
    }
  }

  lemma CrossingIsArrival(margin: real, s: System, e: Event)
    requires Crossing(margin, s, e)
    ensures e.Arrive? && s.book.currentDelegationId.Some?
  {
  }

  lemma NextSection(margin: real, es: seq<Event>, m: nat)
    requires m < |es|
    ensures Interleave(margin, NEW_SYSTEM, es[..m + 1]) == Step(margin, Interleave(margin, NEW_SYSTEM, es[..m]), es[m])
  {
    hide Step;
    assert es[..m + 1][..m] == es[..m];
  }

  // ----- freshness -----

  predicate Alive(g: Grant, now: real) {
    now < g.offer.minted + g.offer.lifetime
  }

  /** A token cached at `done` until `expiresAt` less the margin is never returned after its life. */
  predicate Lasts(margin: real, offer: Offer, expiresAt: real, done: real) {
    expiresAt - margin <= done || expiresAt - margin <= offer.minted + offer.lifetime
  }

  /** From the time `since` on, neither cache can be hit after the life of its token. */
  predicate Fresh(b: Book, margin: real, since: real)
    requires Traced(b)
  {
    && (Usable(b.discoveryJwt) ==> Lasts(margin, b.log[b.discoveryFrom].offer, b.discoveryExpiresAt, since))
    && (Usable(b.delegationJwt) && b.currentDelegationId.Some? ==>
          Lasts(margin, b.log[b.delegationFrom].offer, b.delegationExpiresAt, since))
  }

  /** Exactly: whatever is filed is valid only while it lives. */
  lemma {:induction false} MarginIsExact(b: Book, margin: real, since: real)
    requires Traced(b)
    ensures Fresh(b, margin, since) <==>
              && (forall now: real :: now >= since && DiscoveryValid(b, margin, now) ==> Alive(b.log[b.discoveryFrom], now))
              && (forall now: real, d: string :: now >= since && DelegationValid(b, margin, d, now) ==> Alive(b.log[b.delegationFrom], now))
  {
    if Usable(b.discoveryJwt) && !Lasts(margin, b.log[b.discoveryFrom].offer, b.discoveryExpiresAt, since) {
      var late := AfterLife(b.log[b.discoveryFrom].offer, since);
      assert late >= since && DiscoveryValid(b, margin, late) && !Alive(b.log[b.discoveryFrom], late);
    }
    if Usable(b.delegationJwt) && b.currentDelegationId.Some?
       && !Lasts(margin, b.log[b.delegationFrom].offer, b.delegationExpiresAt, since) {
      var late := AfterLife(b.log[b.delegationFrom].offer, since);
      assert late >= since && DelegationValid(b, margin, b.currentDelegationId.value, late) && !Alive(b.log[b.delegationFrom], late);
    }
  }

  /** Where each triple comes from one answer, a cache lasts exactly when its grant keeps within the margin. */
  lemma TrackedLastsIff(b: Book, margin: real)
    requires Tracked(b) && Traced(b)
    ensures Usable(b.discoveryJwt) ==>
              var g := b.log[b.discoveryFrom];
              Lasts(margin, g.offer, b.discoveryExpiresAt, g.stored) <==> WithinMargin(margin, g)
    ensures Usable(b.delegationJwt) ==>
              var g := b.log[b.delegationFrom];
              Lasts(margin, g.offer, b.delegationExpiresAt, g.stored) <==> WithinMargin(margin, g)
  {
  }

  /** The first moment from `done` on at which the token is not alive. */
  function AfterLife(offer: Offer, done: real): (late: real)
    ensures late >= done && late >= offer.minted + offer.lifetime
  {
    if offer.minted + offer.lifetime >= done then offer.minted + offer.lifetime else done
  }

  /** The expiry that stands beside a new token: its own, or the old one when its lifetime is no number. */
  function ExpiryBeside(subject: Option<string>, offer: Offer, before: real, done: real): real {
    if Recorded(subject, offer.announced).Some? then done + Recorded(subject, offer.announced).value else before
  }

  /** The section records a discovery token that outlives the expiry beside it. */
  predicate BootStales(b: Book, margin: real, v: Visit) {
    && !DiscoveryValid(b, margin, v.now) && v.boot.Some? && v.boot.value.token != ""
    && !Lasts(margin, v.boot.value, ExpiryBeside(None, v.boot.value, b.discoveryExpiresAt, v.done), v.done)
  }

  /** The section records a delegation token that can be hit after its life: some id is filed, its
      own or an old one, and the expiry beside it lies too late. */
  predicate ArrivalStales(b: Book, margin: real, d: string, offer: Offer, done: real) {
    && offer.token != "" && (Numeric(Some(d), offer) || b.currentDelegationId.Some?)
    && !Lasts(margin, offer, ExpiryBeside(Some(d), offer, b.delegationExpiresAt, done), done)
  }

  predicate Staling(margin: real, s: System, e: Event) {
    Possible(s, e) &&
    match e
    case Discover(v) => BootStales(s.book, margin, v)
    case Start(_, d, v) => !DelegationValid(s.book, margin, d, v.now) && BootStales(s.book, margin, v)
    case Arrive(caller, offer, at) => ArrivalStales(s.book, margin, s.pending[caller].delegation, offer, at)
    case _ => false
  }

  /** Every token returned from a cache was alive then. */
  predicate AliveServed(s: System) {
    forall k :: 0 <= k < |s.served| && s.served[k].issue.cached ==>
      s.served[k].issue.from < |s.book.log| && Alive(s.book.log[s.served[k].issue.from], s.served[k].at)
  }

  predicate Lively(margin: real, s: System) {
    Traced(s.book) && Fresh(s.book, margin, s.clock) && AliveServed(s)
  }

  lemma ServeAlive(s: System, b: Book, clock: real, pending: map<nat, Pending>, asked: Option<string>, issue: Option<Issue>, at: real)
    requires AliveServed(s) && s.book.log <= b.log
    requires issue.Some? && issue.value.cached ==> issue.value.from < |b.log| && Alive(b.log[issue.value.from], at)
    ensures AliveServed(Serve(System(b, clock, pending, s.served), asked, issue, at))
  {
  }

  lemma DiscoveryStaysFresh(b: Book, margin: real, clock: real, v: Visit)
    requires Traced(b) && Fresh(b, margin, clock) && clock <= v.now <= v.done
    ensures var (b', issue) := EnsureDiscovery(b, margin, v);
            && Traced(b') && b.log <= b'.log
            && (Fresh(b', margin, v.done) <==> !BootStales(b, margin, v))
            && (issue.Some? && issue.value.cached ==>
                  issue.value.from == b'.discoveryFrom < |b'.log| && Alive(b'.log[b'.discoveryFrom], v.now))
  {
  }

  lemma BeginStaysFresh(b: Book, margin: real, clock: real, d: string, v: Visit)
    requires Traced(b) && Fresh(b, margin, clock) && clock <= v.now <= v.done
    ensures var (b', begun) := BeginDelegation(b, margin, d, v);
            && Traced(b') && b.log <= b'.log
            && (Fresh(b', margin, v.done) <==> DelegationValid(b, margin, d, v.now) || !BootStales(b, margin, v))
            && (begun.Hit? ==> begun.issue.from < |b'.log| && Alive(b'.log[begun.issue.from], v.now))
  {
    DiscoveryStaysFresh(b, margin, clock, v);
  }

  lemma ArrivalStaysFresh(b: Book, margin: real, clock: real, d: string, offer: Offer, at: real)
    requires Traced(b) && Fresh(b, margin, clock) && clock <= at
    ensures var (b', issue) := KeepDelegation(b, d, offer, at);
            && Traced(b') && b.log <= b'.log
            && (Fresh(b', margin, at) <==> !ArrivalStales(b, margin, d, offer, at))
            && (issue.Some? ==> !issue.value.cached)
  {
  }

  lemma ForgetIsFresh(b: Book, margin: real, at: real)
    requires Traced(b)
    ensures Traced(Forget(b)) && Fresh(Forget(b), margin, at)
  {
  }

  /** From a lively state every section returns living tokens, and it leaves a fresh state exactly
      when it is not staling. */
  lemma {:induction false} StepStaysLively(margin: real, s: System, e: Event)
    requires Lively(margin, s)
    ensures var s' := Step(margin, s, e);
            AliveServed(s') && Traced(s'.book) && (Fresh(s'.book, margin, s'.clock) <==> !Staling(margin, s, e))
  {
    hide Traced, Fresh, Alive, KeepDelegation, EnsureDiscovery, DelegationValid, BootStales, ArrivalStales;
    if Possible(s, e) {
      match e {
        case Discover(v) =>
          DiscoveryStaysFresh(s.book, margin, s.clock, v);
          var (b, issue) := EnsureDiscovery(s.book, margin, v);
          ServeAlive(s, b, v.done, s.pending, None, issue, ReturnedAt(v, issue));
        case Start(caller, d, v) =>
          BeginStaysFresh(s.book, margin, s.clock, d, v);
          var (b, begun) := BeginDelegation(s.book, margin, d, v);
          var pending := if begun.Fetch? then s.pending[caller := Pending(d, v.done)] else s.pending;
          ServeAlive(s, b, v.done, pending, Some(d), if begun.Hit? then Some(begun.issue) else None, v.now);
        case Arrive(caller, offer, at) =>
          var d := s.pending[caller].delegation;
          ArrivalStaysFresh(s.book, margin, s.clock, d, offer, at);
          var (b, issue) := KeepDelegation(s.book, d, offer, at);
          ServeAlive(s, b, at, s.pending - {caller}, Some(d), issue, at);
        case Abort(caller) =>
          ServeAlive(s, s.book, s.clock, s.pending - {caller}, None, None, s.clock);
        case Invalidate(at) =>
          ForgetIsFresh(s.book, margin, at);
          ServeAlive(s, Forget(s.book), at, s.pending, None, None, at);
      }
    }
  }

  lemma {:induction false} RunStaysLively(margin: real, es: seq<Event>)
    requires forall n :: 0 <= n < |es| ==> !Staling(margin, Interleave(margin, NEW_SYSTEM, es[..n]), es[n])
    ensures Lively(margin, Interleave(margin, NEW_SYSTEM, es))
    decreases |es|
  {
    hide Step, Fresh, Traced, AliveServed, Staling;
    if es == [] {
      NewSystemIsLively(margin);
    } else {
      var init := es[..|es| - 1];
      assert forall n :: 0 <= n < |init| ==> init[..n] == es[..n] && init[n] == es[n];
      RunStaysLively(margin, init);
      StepStaysLively(margin, Interleave(margin, NEW_SYSTEM, init), es[|es| - 1]);
    }
  }

  lemma NewSystemIsLively(margin: real)
    ensures Lively(margin, NEW_SYSTEM)
  {
  }

  /** The section that asks again once the token just recorded has run out. */
  function AskLate(s: System, e: Event): Event
    requires Possible(s, e)
  {
    match e
    case Discover(v) => DiscoverLate(v)
    case Start(_, _, v) => DiscoverLate(v)
    case Arrive(caller, offer, at) =>
      var late := AfterLife(offer, at);
      var filed := if Numeric(Some(s.pending[caller].delegation), offer) then s.pending[caller].delegation
                   else s.book.currentDelegationId.GetOr("");
      Start(caller, filed, Visit(late, None, late))
    case _ => e
  }

  function DiscoverLate(v: Visit): Event {
    var late := if v.boot.Some? then AfterLife(v.boot.value, v.done) else v.done;
    Discover(Visit(late, None, late))
  }

  /** After a staling section, whatever the state, some next section returns a token after its life. */
  lemma {:induction false} StalingServesDead(margin: real, s: System, e: Event)
    requires Staling(margin, s, e)
    ensures !AliveServed(Step(margin, Step(margin, s, e), AskLate(s, e)))
  {
    hide Serves, AliveServed;
    var s1 := Step(margin, s, e);
    var s2 := Step(margin, s1, AskLate(s, e));
    var n := |s1.served|;
    assert |s2.served| == n + 1;
    assert s2.served[n].issue.from == |s.book.log| && s2.served[n].issue.cached;
    assert s2.book.log == s1.book.log && !Alive(s2.book.log[|s.book.log|], s2.served[n].at);
    DeadIsServed(s2, n);
  }

  lemma DeadIsServed(s: System, k: nat)
    requires k < |s.served| && s.served[k].issue.cached
    requires s.served[k].issue.from < |s.book.log| && !Alive(s.book.log[s.served[k].issue.from], s.served[k].at)
    ensures !AliveServed(s)
  {
  }

  /** Over every run, whatever lifetimes are announced: no section that could come next after any
      part of the run returns a cached token after its life, if and only if no section of the run
      records a token with an expiry beside it, its own or a left-over one, that outlives it by more
      than the margin. */
  lemma {:induction false} StaleTokensExactly(margin: real, es: seq<Event>)
    ensures (forall n: nat, e: Event :: n <= |es| ==> AliveServed(Step(margin, Interleave(margin, NEW_SYSTEM, es[..n]), e)))
       <==> (forall n :: 0 <= n < |es| ==> !Staling(margin, Interleave(margin, NEW_SYSTEM, es[..n]), es[n]))
  {
    hide Step, Lively, Staling, Interleave, AliveServed, AskLate;
    if forall n :: 0 <= n < |es| ==> !Staling(margin, Interleave(margin, NEW_SYSTEM, es[..n]), es[n]) {
      forall n: nat, e: Event | n <= |es| ensures AliveServed(Step(margin, Interleave(margin, NEW_SYSTEM, es[..n]), e)) {
        assert forall k :: 0 <= k < n ==> es[..n][..k] == es[..k] && es[..n][k] == es[k];
        RunStaysLively(margin, es[..n]);
        StepStaysLively(margin, Interleave(margin, NEW_SYSTEM, es[..n]), e);
      }
    } else {
      var n :| 0 <= n < |es| && Staling(margin, Interleave(margin, NEW_SYSTEM, es[..n]), es[n]);
      var s := Interleave(margin, NEW_SYSTEM, es[..n]);
      StalingIsPossible(margin, s, es[n]);
      StalingServesDead(margin, s, es[n]);
      NextSection(margin, es, n);
      assert !AliveServed(Step(margin, Interleave(margin, NEW_SYSTEM, es[..n + 1]), AskLate(s, es[n])));
    }
  }

  lemma StalingIsPossible(margin: real, s: System, e: Event)
    requires Staling(margin, s, e)
    ensures Possible(s, e)
  {
  }

  /** Either the token is never returned from a cache, its lifetime lying within the margin, or the
      recording delay plus what it announces beyond its life does. */
  predicate WithinMargin(margin: real, g: Grant) {
    Recorded(g.subject, g.offer.announced).Some? ==>
      var announced := Recorded(g.subject, g.offer.announced).value;
      announced <= margin || (g.stored - g.offer.minted) + (announced - g.offer.lifetime) <= margin
  }

  /** Over whole runs: if every grant keeps within the refresh margin, every token returned from a
      cache is still before its real expiry, although the recorded expiry counts from the recording. */
  lemma {:induction false} CachedTokensAreFresh(margin: real, es: seq<Event>, k: nat)
    requires forall e :: e in es ==> NumericAnswer(e)
    requires var s := Interleave(margin, NEW_SYSTEM, es);
             && (forall i :: 0 <= i < |s.book.log| ==> WithinMargin(margin, s.book.log[i]))
             && k < |s.served| && s.served[k].issue.cached
    ensures var s := Interleave(margin, NEW_SYSTEM, es);
            var r := s.served[k];
            r.issue.from < |s.book.log| && Alive(s.book.log[r.issue.from], r.at)
  {
    hide Interleave;
    InterleavingsAreHonest(margin, es);
    var s := Interleave(margin, NEW_SYSTEM, es);
    assert ServedWell(s.book, margin, s.served[k]);
    assert WithinMargin(margin, s.book.log[s.served[k].issue.from]);
  }

  // ----- the recorded times in plain numbers -----

  /** A recorded delegation token is handed out of the cache until the margin before the announced
      lifetime is over, one hour when none is announced, and to callers for its delegation only. */
  lemma DelegationWindow(b: Book, margin: real, d: string, e: string, offer: Offer, done: real, v: Visit)
    requires !offer.announced.NotANumber?
    ensures var lifetime := if offer.announced.Seconds? then offer.announced.seconds else 3600.0;
            BeginDelegation(KeepDelegation(b, d, offer, done).0, margin, e, v).1
              == Hit(Issue(offer.token, |b.log|, true))
            <==> e == d && offer.token != "" && v.now < done + lifetime - margin
  {
  }

  /** The caller the token was fetched for gets it in any case. */
  lemma FetchedIsReturned(b: Book, d: string, offer: Offer, done: real)
    ensures KeepDelegation(b, d, offer, done).1
         == if offer.announced.NotANumber? then None else Some(Issue(offer.token, |b.log|, false))
    ensures KeepDelegation(b, d, offer, done).0.log == b.log + [Grant(Some(d), offer, done)]
  {
  }

  /** The same for the discovery token, which has no default lifetime: a later caller gets it, or a
      new one, or nothing when the bootstrap raises or announces no number. */
  lemma DiscoveryWindow(b: Book, margin: real, offer: Offer, done: real, v: Visit)
    requires offer.announced.Seconds?
    ensures var kept := KeepDiscovery(b, offer, done);
            && kept.1 == Some(Issue(offer.token, |b.log|, false))
            && kept.0.log == b.log + [Grant(None, offer, done)]
            && EnsureDiscovery(kept.0, margin, v).1 ==
                 if offer.token != "" && v.now < done + offer.announced.seconds - margin then Some(Issue(offer.token, |b.log|, true))
                 else if v.boot.Some? && v.boot.value.announced.Seconds? then Some(Issue(v.boot.value.token, |b.log| + 1, false))
                 else None
  {
  }

  /** An answer whose lifetime is no number leaves its token to whoever asks for the delegation that
      is still filed, until the margin before the expiry that is still filed; invalidating keeps both. */
  lemma LeftOverWindow(b: Book, margin: real, d: string, e: string, offer: Offer, done: real, v: Visit, forgets: bool)
    requires offer.announced.NotANumber?
    ensures var before := if forgets then Forget(b) else b;
            BeginDelegation(KeepDelegation(before, d, offer, done).0, margin, e, v).1 == Hit(Issue(offer.token, |b.log|, true))
            <==> b.currentDelegationId == Some(e) && offer.token != "" && v.now < b.delegationExpiresAt - margin
  {
  }

  /** A bootstrap without a readable lifetime likewise. */
  lemma LeftOverDiscoveryWindow(b: Book, margin: real, offer: Offer, done: real, v: Visit, forgets: bool)
    requires !offer.announced.Seconds?
    ensures var kept := KeepDiscovery(if forgets then Forget(b) else b, offer, done);
            && kept.1 == None
            && (EnsureDiscovery(kept.0, margin, v).1 == Some(Issue(offer.token, |b.log|, true))
                <==> offer.token != "" && v.now < b.discoveryExpiresAt - margin)
  {
  }

  /** Right after an invalidation nothing is cached. */
  lemma NothingAfterForget(b: Book, margin: real, d: string, v: Visit)
    ensures !BeginDelegation(Forget(b), margin, d, v).1.Hit?
    ensures EnsureDiscovery(Forget(b), margin, v).1.Some? ==>
              v.boot.Some? && EnsureDiscovery(Forget(b), margin, v).1.value == Issue(v.boot.value.token, |b.log|, false)
  {
  }

  /** An answer that tells the real lifetime and is recorded within the margin of being minted. */
  predicate Truthful(margin: real, offer: Offer, done: real) {
    offer.announced == Seconds(offer.lifetime) && done - offer.minted <= margin
  }

  predicate TruthfulAnswer(margin: real, e: Event) {
    match e
    case Discover(v) => v.boot.Some? ==> Truthful(margin, v.boot.value, v.done)
    case Start(_, _, v) => v.boot.Some? ==> Truthful(margin, v.boot.value, v.done)
    case Arrive(_, offer, at) => Truthful(margin, offer, at)
    case _ => true
  }

  /** Over every run of such answers no token leaves a cache at or after the end of its life. */
  lemma {:induction false} TruthfulAnswersStayFresh(margin: real, es: seq<Event>, k: nat)
    requires forall e :: e in es ==> TruthfulAnswer(margin, e)
    requires k < |Interleave(margin, NEW_SYSTEM, es).served| && Interleave(margin, NEW_SYSTEM, es).served[k].issue.cached
    ensures var s := Interleave(margin, NEW_SYSTEM, es);
            var r := s.served[k];
            r.issue.from < |s.book.log|
            && r.at < s.book.log[r.issue.from].offer.minted + s.book.log[r.issue.from].offer.lifetime
  {
    hide Interleave, Staling, TruthfulAnswer;
    forall n | 0 <= n < |es| ensures !Staling(margin, Interleave(margin, NEW_SYSTEM, es[..n]), es[n]) {
      assert es[n] in es;
      TruthfulNeverStales(margin, Interleave(margin, NEW_SYSTEM, es[..n]), es[n]);
    }
    RunStaysLively(margin, es);
    var s := Interleave(margin, NEW_SYSTEM, es);
    assert AliveServed(s);
  }

  lemma TruthfulNeverStales(margin: real, s: System, e: Event)
    requires TruthfulAnswer(margin, e)
    ensures !Staling(margin, s, e)
  {
    hide DiscoveryValid, DelegationValid;
  }

  // ----- after an invalidation -----

  predicate MintedSince(b: Book, from: nat, since: real) {
    from < |b.log| && b.log[from].offer.minted >= since
  }

  predicate FreshBook(b: Book, since: real) {
    && (b.discoveryJwt.Some? ==> MintedSince(b, b.discoveryFrom, since))
    && (b.delegationJwt.Some? ==> MintedSince(b, b.delegationFrom, since))
  }

  /** Everything the caches and the waiting callers can still hand out is minted at `since` or later. */
  predicate FreshSince(s: System, since: real, known: nat) {
    && known <= |s.served|
    && s.clock >= since
    && FreshBook(s.book, since)
    && (forall c :: c in s.pending ==> s.pending[c].since >= since)
    && NewerThan(s, known, since)
  }

  predicate NewerThan(s: System, known: nat, at: real) {
    forall k :: known <= k < |s.served| ==> MintedSince(s.book, s.served[k].issue.from, at)
  }

  lemma DiscoveryKeepsFresh(b: Book, margin: real, v: Visit, since: real)
    requires FreshBook(b, since) && (v.boot.Some? ==> v.boot.value.minted >= since)
    ensures var (b', issue) := EnsureDiscovery(b, margin, v);
            FreshBook(b', since) && b.log <= b'.log && (issue.Some? ==> MintedSince(b', issue.value.from, since))
  {
  }

  lemma ArrivalKeepsFresh(b: Book, d: string, offer: Offer, at: real, since: real)
    requires FreshBook(b, since) && offer.minted >= since
    ensures var (b', issue) := KeepDelegation(b, d, offer, at);
            FreshBook(b', since) && b.log <= b'.log && (issue.Some? ==> MintedSince(b', issue.value.from, since))
  {
  }

  lemma ServeKeepsFresh(s: System, since: real, known: nat, b: Book, clock: real, pending: map<nat, Pending>,
                        asked: Option<string>, issue: Option<Issue>, at: real)
    requires FreshSince(s, since, known) && FreshBook(b, since) && s.book.log <= b.log && clock >= since
    requires forall c :: c in pending ==> pending[c].since >= since
    requires issue.Some? ==> MintedSince(b, issue.value.from, since)
    ensures FreshSince(Serve(System(b, clock, pending, s.served), asked, issue, at), since, known)
  {
  }

  lemma StepKeepsFresh(margin: real, s: System, e: Event, since: real, known: nat)
    requires FreshSince(s, since, known)
    ensures FreshSince(Step(margin, s, e), since, known)
  {
    hide FreshBook, MintedSince, KeepDelegation, EnsureDiscovery, DelegationValid;
    if Possible(s, e) {
      match e {
        case Discover(v) =>
          DiscoveryKeepsFresh(s.book, margin, v, since);
          var (b, issue) := EnsureDiscovery(s.book, margin, v);
          ServeKeepsFresh(s, since, known, b, v.done, s.pending, None, issue, ReturnedAt(v, issue));
        case Start(caller, d, v) =>
          DiscoveryKeepsFresh(s.book, margin, v, since);
          var (b, begun) := BeginDelegation(s.book, margin, d, v);
          var pending := if begun.Fetch? then s.pending[caller := Pending(d, v.done)] else s.pending;
          var issue := if begun.Hit? then Some(begun.issue) else None;
          HitIsFresh(s.book, margin, d, v, since);
          ServeKeepsFresh(s, since, known, b, v.done, pending, Some(d), issue, v.now);
        case Arrive(caller, offer, at) =>
          var d := s.pending[caller].delegation;
          ArrivalKeepsFresh(s.book, d, offer, at, since);
          var (b, issue) := KeepDelegation(s.book, d, offer, at);
          ServeKeepsFresh(s, since, known, b, at, s.pending - {caller}, Some(d), issue, at);
        case Abort(caller) =>
          ServeKeepsFresh(s, since, known, s.book, s.clock, s.pending - {caller}, None, None, s.clock);
        case Invalidate(at) =>
          ForgetKeepsFresh(s.book, since);
          ServeKeepsFresh(s, since, known, Forget(s.book), at, s.pending, None, None, at);
      }
    }
  }

  lemma HitIsFresh(b: Book, margin: real, d: string, v: Visit, since: real)
    requires FreshBook(b, since)
    ensures var (b', begun) := BeginDelegation(b, margin, d, v);
            begun.Hit? ==> b' == b && MintedSince(b, begun.issue.from, since)
  {
  }

  lemma ForgetKeepsFresh(b: Book, since: real)
    requires FreshBook(b, since)
    ensures FreshBook(Forget(b), since)
  {
  }

  lemma {:induction false} RunKeepsFresh(margin: real, s: System, es: seq<Event>, since: real, known: nat)
    requires FreshSince(s, since, known)
    ensures FreshSince(Interleave(margin, s, es), since, known)
    decreases |es|
  {
    hide Step, FreshSince;
    if es != [] {
      RunKeepsFresh(margin, s, es[..|es| - 1], since, known);
      StepKeepsFresh(margin, Interleave(margin, s, es[..|es| - 1]), es[|es| - 1], since, known);
    }
  }

  /** After an invalidation, every run hands out only tokens minted since, exactly when every caller
      still waiting asked the control plane no earlier. */
  lemma {:induction false} InvalidateIsFinalIff(margin: real, s: System, at: real)
    requires s.clock <= at
    ensures (forall es: seq<Event> :: NewerThan(Interleave(margin, Step(margin, s, Invalidate(at)), es), |s.served|, at))
       <==> (forall c :: c in s.pending ==> s.pending[c].since >= at)
  {
    hide Interleave;
    var s' := Step(margin, s, Invalidate(at));
    if forall c :: c in s.pending ==> s.pending[c].since >= at {
      forall es: seq<Event> ensures NewerThan(Interleave(margin, s', es), |s.served|, at) {
        RunKeepsFresh(margin, s', es, at, |s.served|);
      }
    } else {
      var c :| c in s.pending && s.pending[c].since < at;
      LateArrival(margin, s', c, Arrive(c, Offer("late", s.pending[c].since, 3600.0, Seconds(3600.0)), at), |s.served|, at);
    }
  }

  lemma LateArrival(margin: real, s: System, c: nat, late: Event, known: nat, at: real)
    requires c in s.pending && s.pending[c].since < at && s.clock == at && known == |s.served|
    requires late == Arrive(c, Offer("late", s.pending[c].since, 3600.0, Seconds(3600.0)), at)
    ensures !NewerThan(Interleave(margin, s, [late]), known, at)
  {
    assert [late][..0] == [];
    assert Interleave(margin, s, []) == s;
    var s' := Step(margin, s, late);
    assert Interleave(margin, s, [late]) == s';
    assert s'.served[known].issue.from == |s.book.log| && s'.book.log[|s.book.log|].offer.minted < at;
  }

  // ----- the manager object -----

  class JWTManager {
    const refreshMargin: real
    var discoveryJwt: Option<string>
    var discoveryExpiresAt: real
    var delegationJwt: Option<string>
    var delegationExpiresAt: real
    var currentDelegationId: Option<string>
    ghost var log: seq<Grant>
    ghost var discoveryFrom: nat
    ghost var delegationFrom: nat

    ghost function Contents(): Book
      reads this
    {
      Book(discoveryJwt, discoveryExpiresAt, delegationJwt, delegationExpiresAt, currentDelegationId,
           log, discoveryFrom, delegationFrom)
    }

    constructor (refreshMargin: real)
      ensures this.refreshMargin == refreshMargin && Contents() == EMPTY_BOOK
    {
      this.refreshMargin := refreshMargin;
      discoveryJwt, discoveryExpiresAt := None, 0.0;
      delegationJwt, delegationExpiresAt, currentDelegationId := None, 0.0, None;
      log, discoveryFrom, delegationFrom := [], 0, 0;
    }

    /** Has no await inside: one atomic section. */
    method EnsureDiscoveryJwt(v: Visit) returns (jwt: Option<string>)
      modifies this
      ensures Contents() == EnsureDiscovery(old(Contents()), refreshMargin, v).0
      ensures jwt == (var issue := EnsureDiscovery(old(Contents()), refreshMargin, v).1;
                      if issue.Some? then Some(issue.value.token) else None)
    {
      if discoveryJwt.Some? && discoveryJwt.value != "" && v.now < discoveryExpiresAt - refreshMargin {
        return discoveryJwt;
      }
      if v.boot.None? {
        return None;
      }
      var offer := v.boot.value;
      discoveryJwt := Some(offer.token);
      discoveryFrom, log := |log|, log + [Grant(None, offer, v.done)];
      var lifetime := Recorded(None, offer.announced);
      if lifetime.None? {
        return None;
      }
      discoveryExpiresAt := v.done + lifetime.value;
      return discoveryJwt;
    }

    /** `get_delegation_jwt` before the await: the cached token, or the discovery token to ask with. */
    method StartDelegation(d: string, v: Visit) returns (jwt: Option<string>, discovery: Option<string>)
      modifies this
      ensures Contents() == BeginDelegation(old(Contents()), refreshMargin, d, v).0
      ensures match BeginDelegation(old(Contents()), refreshMargin, d, v).1
              case Hit(issue) => jwt == Some(issue.token) && discovery == None
              case Fetch => jwt == None && discovery.Some?
              case Raised => jwt == None && discovery == None
    {
      if delegationJwt.Some? && delegationJwt.value != "" && currentDelegationId == Some(d)
         && v.now < delegationExpiresAt - refreshMargin {
        return delegationJwt, None;
      }
      jwt := None;
      discovery := EnsureDiscoveryJwt(v);
    }

    /** `get_delegation_jwt` after the await. */
    method FinishDelegation(d: string, offer: Offer, now: real) returns (jwt: Option<string>)
      modifies this
      ensures Contents() == KeepDelegation(old(Contents()), d, offer, now).0
      ensures jwt == (var issue := KeepDelegation(old(Contents()), d, offer, now).1;
                      if issue.Some? then Some(issue.value.token) else None)
    {
      delegationJwt := Some(offer.token);
      delegationFrom, log := |log|, log + [Grant(Some(d), offer, now)];
      var lifetime := Recorded(Some(d), offer.announced);
      if lifetime.None? {
        return None;
      }
      delegationExpiresAt := now + lifetime.value;
      currentDelegationId := Some(d);
      return delegationJwt;
    }

    method Invalidate()
      modifies this
      ensures Contents() == Forget(old(Contents()))
    {
      discoveryJwt := None;
      delegationJwt := None;
    }
  }
}
