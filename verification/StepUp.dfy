/** Step-up authorization: the challenge header, the retry loop and the scopes it accumulates. */
module StepUp {
  import opened Text
  import opened ScopeMapper

  // ----- the challenge header -----

  const SCOPE_FIELD := "scope=\""
  const INSUFFICIENT := "error=\"insufficient_scope\""

  /** A match of `scope="([^"]+)"` at the start of `h`. */
  function ScopeFieldAt(h: string): Option<string> {
    if !StartsWith(h, SCOPE_FIELD) then None
    else
      var rest := h[|SCOPE_FIELD|..];
      var j := IndexOf(rest, '"');
      if 0 < j < |rest| then Some(rest[..j]) else None
  }

  /** `re.search`: the leftmost match. */
  function FindScopeField(h: string): Option<string>
    decreases |h|
  {
    if ScopeFieldAt(h).Some? then ScopeFieldAt(h)
    else if h == "" then None
    else FindScopeField(h[1..])
  }

  function WordEnd(s: string): (i: nat)
    ensures i <= |s|
    ensures forall k :: 0 <= k < i ==> !IsSpace(s[k])
    ensures i < |s| ==> IsSpace(s[i])
  {
    if s == "" || IsSpace(s[0]) then 0 else 1 + WordEnd(s[1..])
  }

  /** `str.split()` */
  function Words(s: string): seq<string>
    decreases |s|
  {
    if s == "" then []
    else if IsSpace(s[0]) then Words(s[1..])
    else [s[..WordEnd(s)]] + Words(s[WordEnd(s)..])
  }

  function ParseScopes(h: string): seq<string> {
    match FindScopeField(h)
    case None => []
    case Some(text) => Words(text)
  }

  /** What the pattern matches: the field name, at least one character and no quote, then a quote. */
  lemma {:induction false} FieldExactly(h: string, text: string)
    ensures ScopeFieldAt(h) == Some(text) <==>
              text != "" && '"' !in text && exists after: string :: h == "scope=\"" + (text + ['"'] + after)
  {
    if ScopeFieldAt(h) == Some(text) {
      var rest := h[|SCOPE_FIELD|..];
      IndexOfIsFirst(rest, '"');
      var after := rest[|text| + 1..];
      assert rest == text + ['"'] + after;
      assert h == SCOPE_FIELD + rest;
    }
    if text != "" && '"' !in text {
      forall after: string ensures ScopeFieldAt("scope=\"" + (text + ['"'] + after)) == Some(text) {
        FieldMatches(text, after);
      }
    }
  }

  /** And the first match in the header is the one taken. */
  lemma {:induction false} FirstFieldIsFound(h: string, k: nat)
    requires k <= |h| && (forall j :: 0 <= j < k ==> ScopeFieldAt(h[j..]) == None) && ScopeFieldAt(h[k..]).Some?
    ensures FindScopeField(h) == ScopeFieldAt(h[k..])
    decreases k
  {
    hide ScopeFieldAt;
    assert h[0..] == h;
    if k > 0 {
      assert forall j :: 0 <= j < k - 1 ==> h[1..][j..] == h[j + 1..];
      assert h[1..][k - 1..] == h[k..];
      FirstFieldIsFound(h[1..], k - 1);
    }
  }

  lemma {:induction false} NoFieldIsFound(h: string)
    requires forall j :: 0 <= j <= |h| ==> ScopeFieldAt(h[j..]) == None
    ensures FindScopeField(h) == None && ParseScopes(h) == []
    decreases |h|
  {
    hide ScopeFieldAt;
    assert h[0..] == h;
    if h != "" {
      assert forall j :: 0 <= j <= |h| - 1 ==> h[1..][j..] == h[j + 1..];
      NoFieldIsFound(h[1..]);
    }
  }

  /** Words are the stretches without white space, any amount of any white space between them. */
  lemma {:induction false} WordsBetweenSpace(space: string, word: string, rest: string)
    requires AllSpace(space)
    ensures Words("") == [] && Words(space + rest) == Words(rest)
    ensures word != "" && (forall c :: c in word ==> !IsSpace(c)) ==>
              Words(word) == [word] && (space != "" ==> Words(word + (space + rest)) == [word] + Words(rest))
    decreases |space|
  {
    if space == "" {
      assert space + rest == rest;
    } else {
      assert space[0] in space && forall c :: c in space[1..] ==> c in space;
      assert (space + rest)[1..] == space[1..] + rest;
      WordsBetweenSpace(space[1..], "", rest);
    }
    if word != "" && forall c :: c in word ==> !IsSpace(c) {
      assert forall k :: 0 <= k < |word| ==> word[k] in word;
      assert WordEnd(word) == |word| && word[..|word|] == word && word[|word|..] == "";
      if space != "" {
        var s := word + (space + rest);
        assert s[|word|] == space[0] && forall k :: 0 <= k < |word| ==> s[k] == word[k];
        assert WordEnd(s) == |word| && s[..|word|] == word && s[|word|..] == space + rest;
      }
    }
  }

  predicate IsScope(s: string) {
    s != "" && forall c :: c in s ==> !IsSpace(c) && c != '"'
  }

  lemma {:induction false} WordsOfJoined(ws: seq<string>)
    requires forall w :: w in ws ==> IsScope(w)
    ensures Words(Join(ws, ' ')) == ws
    ensures forall c :: c in Join(ws, ' ') ==> c != '"'
    ensures ws != [] ==> Join(ws, ' ') != ""
    decreases |ws|
  {
    if ws != [] {
      var w, s := ws[0], Join(ws, ' ');
      assert w in ws;
      assert forall v :: v in ws[1..] ==> v in ws;
      WordsOfJoined(ws[1..]);
      assert forall k :: 0 <= k < |w| ==> s[k] == w[k] && w[k] in w;
      assert |ws| > 1 ==> s[|w|] == ' ' && IsSpace(' ');
      assert WordEnd(s) == |w|;
      assert s[..|w|] == w;
      if |ws| > 1 {
        assert s[|w|..] == [' '] + Join(ws[1..], ' ');
        assert s[|w|..][1..] == Join(ws[1..], ' ');
      } else {
        assert s[|w|..] == "";
      }
      assert Words(s) == [w] + ws[1..];
    }
  }

  lemma FieldMatches(text: string, after: string)
    requires text != "" && '"' !in text
    ensures ScopeFieldAt(SCOPE_FIELD + (text + ['"'] + after)) == Some(text)
  {
    var rest := text + ['"'] + after;
    assert (SCOPE_FIELD + rest)[|SCOPE_FIELD|..] == rest;
    IndexOfAppend(text, '"', after);
    assert rest[..|text|] == text;
  }

  /** The field name cannot begin before the position it is written at: its first letter does not
      occur in it again. */
  lemma NoEarlierField(before: string, tail: string)
    requires before != "" && !StartsWith(before, SCOPE_FIELD) && tail != "" && tail[0] == 's'
    ensures !StartsWith(before + tail, SCOPE_FIELD)
  {
    assert |before| >= 7 ==> (before + tail)[..7] == before[..7];
    assert |before| < 7 ==> (before + tail)[|before|] == 's' && SCOPE_FIELD[|before|] != 's';
  }

  lemma {:induction false} FieldIsFound(before: string, tail: string, text: string)
    requires !Contains(before, SCOPE_FIELD)
    requires tail != "" && tail[0] == 's' && ScopeFieldAt(tail) == Some(text)
    ensures FindScopeField(before + tail) == Some(text)
    decreases |before|
  {
    hide ScopeFieldAt;
    if before == "" {
      assert before + tail == tail;
    } else {
      assert (before + tail)[1..] == before[1..] + tail;
      NoEarlierField(before, tail);
      assert ScopeFieldAt(before + tail) == None by { NoFieldHere(before + tail); }
      FieldIsFound(before[1..], tail, text);
    }
  }

  lemma NoFieldHere(h: string)
    requires !StartsWith(h, SCOPE_FIELD)
    ensures ScopeFieldAt(h) == None
  {
  }

  /** A challenge listing scopes, with any text before and after the field, is read as that list. */
  lemma ParsesChallenge(before: string, scopes: seq<string>, after: string)
    requires !Contains(before, "scope=\"")
    requires scopes != [] && forall s :: s in scopes ==> IsScope(s)
    ensures ParseScopes(before + ("scope=\"" + (Join(scopes, ' ') + "\"" + after))) == scopes
  {
    hide ScopeFieldAt, Words;
    var text := Join(scopes, ' ');
    WordsOfJoined(scopes);
    FieldMatches(text, after);
    FieldIsFound(before, SCOPE_FIELD + (text + ['"'] + after), text);
  }

  // ----- the loop -----

  /** One authenticated request: no response at all, or a status and its WWW-Authenticate header. */
  datatype Answer = NoResponse | Response(status: int, wwwAuthenticate: string)

  /** What the gateway answers to the n-th request, and whether the n-th re-authentication works. */
  datatype World = World(answers: nat -> Answer, logins: nat -> bool)

  datatype Outcome = Returned(status: int) | HttpError(status: int) | Failed

  /** The client's counters and scopes; how much of the world it has used; the challenges it accepted. */
  datatype Session = Session(retries: int, scopes: seq<string>, sent: nat, logins: nat, accepted: seq<seq<string>>)

  const NEW_SESSION := Session(0, [], 0, 0, [])

  function Settle(status: int): Outcome {
    if 200 <= status < 300 then Returned(status) else HttpError(status)
  }

  /** The scopes of a challenge the client acts on; none otherwise. */
  function Challenge(a: Answer): seq<string> {
    if a.Response? && a.status == 403 && Contains(a.wwwAuthenticate, INSUFFICIENT) then ParseScopes(a.wwwAuthenticate) else []
  }

  function Ask(s: Session): Session {
    s.(sent := s.sent + 1)
  }

  function Accept(s: Session, scopes: seq<string>): Session {
    s.(retries := s.retries + 1, scopes := Merge(s.scopes, scopes), logins := s.logins + 1, accepted := s.accepted + [scopes])
  }

  /** One call of `gateway_request_with_step_up`. */
  function Call(w: World, max: int, s: Session): (Session, Outcome)
    decreases max - s.retries
  {
    var a := w.answers(s.sent);
    var scopes := Challenge(a);
    if a.NoResponse? then (Ask(s), Failed)
    else if s.retries >= max || scopes == [] then (Ask(s), Settle(a.status))
    else if !w.logins(s.logins) then (Accept(Ask(s), scopes), Failed)
    else Call(w, max, Accept(Ask(s), scopes))
  }

  /** A 403 that names missing scopes, budget left: the scopes are accepted and merged, one retry is
      used up, the client logs in again, and, if that works, sends the request again. */
  lemma {:induction false} ChallengeStepsUp(w: World, max: int, s: Session)
    requires s.retries < max
    requires var a := w.answers(s.sent);
             && a.Response? && a.status == 403 && Contains(a.wwwAuthenticate, "error=\"insufficient_scope\"")
             && ParseScopes(a.wwwAuthenticate) != []
    ensures var named := ParseScopes(w.answers(s.sent).wwwAuthenticate);
            var (s', o) := Call(w, max, s);
            && s.accepted + [named] <= s'.accepted && s.retries < s'.retries && s.logins < s'.logins
            && s.scopes <= s'.scopes && (forall x :: x in named ==> x in s'.scopes)
            && (w.logins(s.logins) ==> s'.sent >= s.sent + 2)
            && (!w.logins(s.logins) ==> o == Failed && s'.sent == s.sent + 1 && s'.accepted == s.accepted + [named])
  {
    hide ParseScopes, Contains, Call, Merge;
    var named := ParseScopes(w.answers(s.sent).wwwAuthenticate);
    var next := Accept(Ask(s), named);
    CallOnce(w, max, s);
    MergeMembers(s.scopes, named);
    assert next.scopes == Merge(s.scopes, named);
    if w.logins(s.logins) {
      CallGrows(w, max, next);
      CallIsBounded(w, max, next);
    }
  }

  /** Any other answer ends the call after this one request, with the scopes and the count as they
      were: a response is returned if and only if its status is in 200..299. */
  lemma {:induction false} OtherAnswersEnd(w: World, max: int, s: Session)
    requires var a := w.answers(s.sent);
             a.Response? && a.status == 403 && s.retries < max ==>
               !Contains(a.wwwAuthenticate, "error=\"insufficient_scope\"") || ParseScopes(a.wwwAuthenticate) == []
    ensures var a := w.answers(s.sent);
            && Call(w, max, s).0 == Session(s.retries, s.scopes, s.sent + 1, s.logins, s.accepted)
            && (a.NoResponse? ==> Call(w, max, s).1 == Failed)
            && (a.Response? && 200 <= a.status <= 299 ==> Call(w, max, s).1 == Returned(a.status))
            && (a.Response? && !(200 <= a.status <= 299) ==> Call(w, max, s).1 == HttpError(a.status))
  {
    hide ParseScopes, Contains, Call;
    CallOnce(w, max, s);
  }

  lemma CallOnce(w: World, max: int, s: Session)
    ensures var a := w.answers(s.sent);
            Call(w, max, s) ==
              if a.NoResponse? then (Ask(s), Failed)
              else if s.retries >= max || Challenge(a) == [] then (Ask(s), Settle(a.status))
              else if !w.logins(s.logins) then (Accept(Ask(s), Challenge(a)), Failed)
              else Call(w, max, Accept(Ask(s), Challenge(a)))
  {
    hide Challenge, Settle;
  }

  /** A call only adds. */
  lemma {:induction false} CallGrows(w: World, max: int, s: Session)
    ensures var s' := Call(w, max, s).0;
            s.scopes <= s'.scopes && s.accepted <= s'.accepted && s.logins <= s'.logins && s.retries <= s'.retries
    decreases max - s.retries
  {
    hide Challenge, Merge, Call;
    CallOnce(w, max, s);
    var scopes := Challenge(w.answers(s.sent));
    MergeMembers(s.scopes, scopes);
    if w.answers(s.sent).Response? && s.retries < max && scopes != [] && w.logins(s.logins) {
      CallGrows(w, max, Accept(Ask(s), scopes));
    }
  }

  /** One accepted challenge is one retry, one merge and one login; one request more than logins that
      worked is sent. */
  lemma {:induction false} CallCounts(w: World, max: int, s: Session)
    ensures var (s', o) := Call(w, max, s);
            && s.accepted <= s'.accepted
            && s'.retries - s.retries == s'.logins - s.logins == |s'.accepted| - |s.accepted|
            && (s'.sent - s.sent == 1 + (s'.logins - s.logins)
                || (o == Failed && s'.logins > s.logins && !w.logins(s'.logins - 1) && s'.sent - s.sent == s'.logins - s.logins))
    decreases max - s.retries
  {
    hide Challenge, Merge, Call;
    CallOnce(w, max, s);
    var scopes := Challenge(w.answers(s.sent));
    if w.answers(s.sent).Response? && s.retries < max && scopes != [] && w.logins(s.logins) {
      CallCounts(w, max, Accept(Ask(s), scopes));
    }
  }

  function Calls(w: World, max: int, s: Session, n: nat): Session {
    if n == 0 then s else Call(w, max, Calls(w, max, s, n - 1)).0
  }

  function Larger(a: int, b: int): int {
    if a >= b then a else b
  }

  /** Every request but the last answers to one more unit of the retry budget. */
  lemma {:induction false} CallIsBounded(w: World, max: int, s: Session)
    ensures var s' := Call(w, max, s).0;
            && s.sent < s'.sent <= s.sent + 1 + (s'.retries - s.retries)
            && s.retries <= s'.retries <= Larger(s.retries, max)
    decreases max - s.retries
  {
    hide Challenge;
    var a := w.answers(s.sent);
    if a.Response? && s.retries < max && Challenge(a) != [] && w.logins(s.logins) {
      CallIsBounded(w, max, Accept(Ask(s), Challenge(a)));
    }
  }

  /** A 403 that names missing scopes. */
  predicate NamesScopes(a: Answer) {
    a.Response? && a.status == 403 && Contains(a.wwwAuthenticate, "error=\"insufficient_scope\"")
    && ParseScopes(a.wwwAuthenticate) != []
  }

  /** A call ends with its last answer: returned when its status is in 200..299 and raised otherwise,
      and then either it names no missing scopes or the budget is spent; or failed, without an answer
      or in re-authentication. */
  lemma {:induction false} LastAnswerDecides(w: World, max: int, s: Session)
    ensures var (s', o) := Call(w, max, s);
            && s'.sent > 0
            && var last := w.answers(s'.sent - 1);
            && (o == Failed || (last.Response? && (!NamesScopes(last) || s'.retries >= max)
                                && o == if 200 <= last.status <= 299 then Returned(last.status) else HttpError(last.status)))
            && (o == Failed ==> last.NoResponse? || (NamesScopes(last) && s'.logins > 0 && !w.logins(s'.logins - 1)))
    decreases max - s.retries
  {
    hide Contains, ParseScopes, Merge, Call;
    CallOnce(w, max, s);
    var a := w.answers(s.sent);
    if a.Response? && s.retries < max && Challenge(a) != [] && w.logins(s.logins) {
      LastAnswerDecides(w, max, Accept(Ask(s), Challenge(a)));
    }
  }

  /** Whatever the gateway answers, n calls on one client send at most n requests plus the retry
      budget left at the start: the counter never resets. One call sends at most the budget plus one. */
  lemma {:induction false} CallsAreBounded(w: World, max: int, s: Session, n: nat)
    ensures var s' := Calls(w, max, s, n);
            && s'.sent <= s.sent + n + (s'.retries - s.retries)
            && s.retries <= s'.retries <= Larger(s.retries, max)
            && s'.sent <= s.sent + n + Larger(max - s.retries, 0)
    decreases n
  {
    if n > 0 {
      CallsAreBounded(w, max, s, n - 1);
      CallIsBounded(w, max, Calls(w, max, s, n - 1));
    }
  }

  function MergeAll(start: seq<string>, batches: seq<seq<string>>): seq<string> {
    if batches == [] then start else Merge(MergeAll(start, batches[..|batches| - 1]), batches[|batches| - 1])
  }

  function PermissionBatches(batches: seq<seq<string>>): (ps: seq<seq<string>>)
    ensures |ps| == |batches|
  {
    seq(|batches|, k requires 0 <= k < |batches| => PermissionsFor(batches[k]))
  }

  function Concat(batches: seq<seq<string>>): seq<string> {
    if batches == [] then [] else Concat(batches[..|batches| - 1]) + batches[|batches| - 1]
  }

  lemma AcceptKeeps(s: Session, scopes: seq<string>)
    requires s.scopes == MergeAll([], s.accepted)
    ensures Accept(Ask(s), scopes).scopes == MergeAll([], Accept(Ask(s), scopes).accepted)
    ensures s.scopes <= Accept(Ask(s), scopes).scopes && s.accepted <= Accept(Ask(s), scopes).accepted
  {
    var accepted := s.accepted + [scopes];
    assert accepted[..|accepted| - 1] == s.accepted;
    MergeMembers(s.scopes, scopes);
  }

  lemma {:induction false} CallAccumulates(w: World, max: int, s: Session)
    requires s.scopes == MergeAll([], s.accepted)
    ensures var s' := Call(w, max, s).0;
            s'.scopes == MergeAll([], s'.accepted) && s.scopes <= s'.scopes && s.accepted <= s'.accepted
    decreases max - s.retries
  {
    hide Challenge, MergeAll, Merge;
    var a := w.answers(s.sent);
    if a.Response? && s.retries < max && Challenge(a) != [] {
      AcceptKeeps(s, Challenge(a));
      if w.logins(s.logins) {
        CallAccumulates(w, max, Accept(Ask(s), Challenge(a)));
      }
    }
  }

  lemma {:induction false} MergeAllIsDedup(batches: seq<seq<string>>)
    ensures MergeAll([], batches) == Dedup(Concat(batches))
    decreases |batches|
  {
    if batches != [] {
      MergeAllIsDedup(batches[..|batches| - 1]);
      MergeAppend([], Concat(batches[..|batches| - 1]), batches[|batches| - 1]);
    }
  }

  lemma {:induction false} MergeAllPermissions(batches: seq<seq<string>>)
    ensures PermissionsFor(MergeAll([], batches)) == MergeAll([], PermissionBatches(batches))
    decreases |batches|
  {
    hide Merge, PermissionsOf;
    if batches == [] {
      NoScopesNoPermissions();
    } else {
      var n := |batches| - 1;
      MergeAllPermissions(batches[..n]);
      MappingIsHomomorphic(MergeAll([], batches[..n]), batches[n]);
      assert PermissionBatches(batches)[..n] == PermissionBatches(batches[..n]);
      assert PermissionBatches(batches)[n] == PermissionsFor(batches[n]);
    }
  }

  lemma NoScopesNoPermissions()
    ensures PermissionsFor([]) == []
  {
  }

  /** In every reachable state of a new client: the cumulative scopes are duplicate-free, are the
      first-occurrence deduplication of all accepted challenges in order, extend every earlier
      value, and imply exactly the merged permissions of the single challenges. */
  lemma {:induction false} ScopesAccumulate(w: World, max: int, m: nat, n: nat)
    requires m <= n
    ensures var s, s' := Calls(w, max, NEW_SESSION, m), Calls(w, max, NEW_SESSION, n);
            && NoDup(s'.scopes)
            && s'.scopes == Dedup(Concat(s'.accepted))
            && s.scopes <= s'.scopes && s.accepted <= s'.accepted
            && PermissionsFor(s'.scopes) == MergeAll([], PermissionBatches(s'.accepted))
    decreases n
  {
    hide Call, Merge, MergeAll, Concat, PermissionsFor, PermissionBatches;
    Reached(w, max, n);
    var s' := Calls(w, max, NEW_SESSION, n);
    MergeAllIsDedup(s'.accepted);
    MergeMembers([], Concat(s'.accepted));
    MergeAllPermissions(s'.accepted);
    if m < n {
      ScopesAccumulate(w, max, m, n - 1);
      Reached(w, max, n - 1);
      CallAccumulates(w, max, Calls(w, max, NEW_SESSION, n - 1));
    }
  }

  lemma {:induction false} Reached(w: World, max: int, n: nat)
    ensures Calls(w, max, NEW_SESSION, n).scopes == MergeAll([], Calls(w, max, NEW_SESSION, n).accepted)
    decreases n
  {
    hide Call;
    if n > 0 {
      Reached(w, max, n - 1);
      CallAccumulates(w, max, Calls(w, max, NEW_SESSION, n - 1));
    }
  }

  // ----- the client object -----

  /** The world as the client meets it: each request and each login consumes one answer. */
  class Gateway {
    const world: World
    var sent: nat
    var logins: nat

    constructor (world: World)
      ensures this.world == world && sent == 0 && logins == 0
    {
      this.world := world;
      sent, logins := 0, 0;
    }

    method AuthenticatedRequest() returns (a: Answer)
      modifies this
      ensures a == world.answers(old(sent)) && sent == old(sent) + 1 && logins == old(logins)
    {
      a := world.answers(sent);
      sent := sent + 1;
    }

    method GetAccessToken() returns (ok: bool)
      modifies this
      ensures ok == world.logins(old(logins)) && logins == old(logins) + 1 && sent == old(sent)
    {
      ok := world.logins(logins);
      logins := logins + 1;
    }
  }

  class BaseClient {
    const gateway: Gateway
    const maxStepUpRetries: int
    var stepUpRetryCount: int
    var cumulativeOauthScopes: seq<string>
    ghost var accepted: seq<seq<string>>

    ghost function State(): Session
      reads this, gateway
    {
      Session(stepUpRetryCount, cumulativeOauthScopes, gateway.sent, gateway.logins, accepted)
    }

    constructor (gateway: Gateway, maxStepUpRetries: int)
      requires gateway.sent == 0 && gateway.logins == 0
      ensures this.gateway == gateway && this.maxStepUpRetries == maxStepUpRetries
      ensures State() == NEW_SESSION
    {
      this.gateway, this.maxStepUpRetries := gateway, maxStepUpRetries;
      stepUpRetryCount, cumulativeOauthScopes, accepted := 0, [], [];
    }

    /** Whether the request is to be repeated; `failed` when re-authentication raised. */
    method HandleInsufficientScope(wwwAuthenticate: string) returns (again: bool, failed: bool)
      modifies this, gateway
      ensures !again && !failed <==> old(stepUpRetryCount) >= maxStepUpRetries || ParseScopes(wwwAuthenticate) == []
      ensures !again && !failed ==> State() == old(State())
      ensures again || failed ==> State() == Accept(old(State()), ParseScopes(wwwAuthenticate))
      ensures again || failed ==> again == gateway.world.logins(old(gateway.logins)) == !failed
    {
      hide ParseScopes, Merge;
      if stepUpRetryCount >= maxStepUpRetries {
        return false, false;
      }
      var newScopes := ParseScopes(wwwAuthenticate);
      if newScopes == [] {
        return false, false;
      }
      cumulativeOauthScopes := MergeScopes(cumulativeOauthScopes, newScopes);
      stepUpRetryCount := stepUpRetryCount + 1;
      accepted := accepted + [newScopes];
      var ok := gateway.GetAccessToken();
      return ok, !ok;
    }

    method GatewayRequestWithStepUp() returns (o: Outcome)
      modifies this, gateway
      ensures (State(), o) == Call(gateway.world, maxStepUpRetries, old(State()))
    {
      hide ParseScopes, Merge, Contains;
      while true
        invariant Call(gateway.world, maxStepUpRetries, State()) == Call(gateway.world, maxStepUpRetries, old(State()))
        decreases maxStepUpRetries - stepUpRetryCount
      {
        var response := gateway.AuthenticatedRequest();
        if response.NoResponse? {
          return Failed;
        }
        if response.status != 403 {
          return Settle(response.status);
        }
        if !Contains(response.wwwAuthenticate, INSUFFICIENT) {
          return Settle(response.status);
        }
        var again, failed := HandleInsufficientScope(response.wwwAuthenticate);
        if failed {
          return Failed;
        }
        if !again {
          return Settle(response.status);
        }
      }
    }

    method GetStepUpPermissions() returns (permissions: seq<string>)
      ensures permissions == PermissionsFor(cumulativeOauthScopes)
    {
      permissions := ScopesToPermissions(cumulativeOauthScopes);
    }
  }
}
