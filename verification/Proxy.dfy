/** The stdio proxy: one message at a time, a retry after a 401, and the run loop. */
module Proxy {
  import opened Text
  import opened JwtCache

  /** What one request for a token may meet outside: the bootstrap, the delegation endpoint (None
      when it raises) and the clock when its answer is recorded. */
  datatype Errand = Errand(visit: Visit, fetch: Option<Offer>, fetched: real)

  /** The gateway's answer to a post: none, or a status and whether the body is JSON. */
  datatype Heard = Silence | Heard(status: int, isJson: bool)

  /** What forwarding one message may meet; `answeredAt` is the time of the first answer. */
  datatype Exchange = Exchange(first: Errand, heard: Heard, answeredAt: real, second: Errand, retryHeard: Heard)

  datatype Reply = Aborted | Answered(status: int)

  /** One forwarded message: the first answer and its time, the token of each post, and the reply. */
  datatype Forwarded = Forwarded(heard: Heard, answeredAt: real, posts: seq<Issue>, reply: Reply)

  /** `_get_current_jwt` run to its end; no issue when it raises. */
  function CurrentJwt(b: Book, margin: real, selected: Option<string>, x: Errand): (Book, Option<Issue>) {
    match selected
    case None => EnsureDiscovery(b, margin, x.visit)
    case Some(d) =>
      var (b', begun) := BeginDelegation(b, margin, d, x.visit);
      match begun
      case Hit(issue) => (b', Some(issue))
      case Raised => (b', None)
      case Fetch => if x.fetch.None? then (b', None) else KeepDelegation(b', d, x.fetch.value, x.fetched)
  }

  /** `resp.json()` raises on any other body. */
  function ReplyOf(h: Heard): Reply {
    if h.Silence? || !h.isJson then Aborted else Answered(h.status)
  }

  predicate Rejected(h: Heard) {
    h.Heard? && h.status == 401
  }

  function Forward(b: Book, margin: real, selected: Option<string>, x: Exchange): (Book, Forwarded) {
    var (b1, first) := CurrentJwt(b, margin, selected, x.first);
    if first.None? then (b1, Forwarded(Silence, x.answeredAt, [], Aborted))
    else if !Rejected(x.heard) then (b1, Forwarded(x.heard, x.answeredAt, [first.value], ReplyOf(x.heard)))
    else
      var (b2, second) := CurrentJwt(Forget(b1), margin, selected, x.second);
      if second.None? then (b2, Forwarded(x.heard, x.answeredAt, [first.value], Aborted))
      else (b2, Forwarded(x.heard, x.answeredAt, [first.value, second.value], ReplyOf(x.retryHeard)))
  }

  /** Bytes that do not decode, text that is no JSON, or a message. */
  datatype Line = Undecodable | NotJson | Message(x: Exchange)

  /** The run loop: only a line that decodes and is no JSON is skipped, an exception ends it. */
  function Loop(b: Book, margin: real, selected: Option<string>, lines: seq<Line>): (Book, seq<Forwarded>)
    decreases |lines|
  {
    if lines == [] || lines[0].Undecodable? then (b, [])
    else if lines[0].NotJson? then Loop(b, margin, selected, lines[1..])
    else
      var (b1, f) := Forward(b, margin, selected, lines[0].x);
      if f.reply.Aborted? then (b1, [f])
      else
        var (b2, rest) := Loop(b1, margin, selected, lines[1..]);
        (b2, [f] + rest)
  }

  /** The delegation whose token is used: the fixed one, else the rotator's current, else none. */
  function Selected(fixed: Option<string>, delegations: seq<string>): Option<string> {
    if fixed.Some? && fixed.value != "" then fixed
    else if delegations != [] then Some(delegations[0])
    else None
  }

  /** The retry's errand comes after the first answer: the clock does not go back, and a token is
      minted between its request and its arrival. */
  predicate CausalLine(line: Line) {
    line.Message? ==>
      && Causal(line.x.answeredAt, line.x.second.visit)
      && (line.x.second.fetch.Some? ==>
            line.x.second.visit.done <= line.x.second.fetch.value.minted <= line.x.second.fetched)
  }

  /** The caches hold tokens of the agent and of the selected delegation only. */
  predicate OwnCaches(b: Book, selected: Option<string>) {
    Traced(b) && (b.delegationJwt.Some? ==> b.log[b.delegationFrom].subject == selected)
  }

  lemma DiscoveryKeepsOwn(b: Book, margin: real, selected: Option<string>, v: Visit)
    requires OwnCaches(b, selected)
    ensures var (b', issue) := EnsureDiscovery(b, margin, v);
            OwnCaches(b', selected) && b.log <= b'.log && (issue.Some? ==> Serves(b', None, issue.value))
  {
  }

  lemma RecordingKeepsOwn(b: Book, d: string, offer: Offer, done: real)
    requires OwnCaches(b, Some(d))
    ensures var (b', issue) := KeepDelegation(b, d, offer, done);
            OwnCaches(b', Some(d)) && b.log <= b'.log && (issue.Some? ==> Serves(b', Some(d), issue.value))
  {
  }

  lemma CurrentJwtServes(b: Book, margin: real, selected: Option<string>, x: Errand)
    requires OwnCaches(b, selected)
    ensures var (b', issue) := CurrentJwt(b, margin, selected, x);
            OwnCaches(b', selected) && b.log <= b'.log && (issue.Some? ==> Serves(b', selected, issue.value))
  {
    hide EnsureDiscovery, KeepDelegation;
    DiscoveryKeepsOwn(b, margin, selected, x.visit);
    if selected.Some? && x.fetch.Some? {
      RecordingKeepsOwn(BeginDelegation(b, margin, selected.value, x.visit).0, selected.value, x.fetch.value, x.fetched);
    }
  }

  /** Right after `invalidate` every token comes from the errand itself. */
  lemma NothingCached(b: Book, margin: real, selected: Option<string>, x: Errand, since: real)
    requires b.discoveryJwt == None && b.delegationJwt == None
    requires Causal(since, x.visit) && (x.fetch.Some? ==> x.visit.done <= x.fetch.value.minted)
    ensures var (b', issue) := CurrentJwt(b, margin, selected, x);
            issue.Some? ==> MintedSince(b', issue.value.from, since)
  {
  }

  /** One or two posts unless no token was to be had; the second only after a 401; every post with a
      token issued for the selected delegation, the second with one minted after that 401. */
  predicate PostsOk(b: Book, selected: Option<string>, f: Forwarded) {
    && |f.posts| <= 2
    && (f.reply.Answered? ==> |f.posts| == if Rejected(f.heard) then 2 else 1)
    && (|f.posts| == 2 ==> Rejected(f.heard) && MintedSince(b, f.posts[1].from, f.answeredAt))
    && forall k :: 0 <= k < |f.posts| ==> Serves(b, selected, f.posts[k])
  }

  lemma ServesLater(b: Book, b': Book, selected: Option<string>, issue: Issue)
    requires Serves(b, selected, issue) && b.log <= b'.log
    ensures Serves(b', selected, issue)
  {
  }

  lemma ForgetKeepsOwn(b: Book, selected: Option<string>)
    requires OwnCaches(b, selected)
    ensures OwnCaches(Forget(b), selected)
  {
  }

  lemma {:induction false} ForwardPosts(b: Book, margin: real, selected: Option<string>, x: Exchange)
    requires OwnCaches(b, selected) && CausalLine(Message(x))
    ensures var (b', f) := Forward(b, margin, selected, x);
            OwnCaches(b', selected) && b.log <= b'.log && PostsOk(b', selected, f)
  {
    hide CurrentJwt, OwnCaches, Serves, MintedSince;
    CurrentJwtServes(b, margin, selected, x.first);
    var (b1, first) := CurrentJwt(b, margin, selected, x.first);
    if first.Some? && Rejected(x.heard) {
      ForgetKeepsOwn(b1, selected);
      CurrentJwtServes(Forget(b1), margin, selected, x.second);
      NothingCached(Forget(b1), margin, selected, x.second, x.answeredAt);
      ServesLater(b1, CurrentJwt(Forget(b1), margin, selected, x.second).0, selected, first.value);
    }
  }

  lemma PostsOkLater(b: Book, b': Book, selected: Option<string>, f: Forwarded)
    requires PostsOk(b, selected, f) && b.log <= b'.log
    ensures PostsOk(b', selected, f)
  {
  }

  /** Over every run of the loop, whatever the gateway and the control plane answer. */
  lemma {:induction false} LoopPosts(b: Book, margin: real, selected: Option<string>, lines: seq<Line>)
    requires OwnCaches(b, selected) && forall l :: l in lines ==> CausalLine(l)
    ensures var (b', fs) := Loop(b, margin, selected, lines);
            && OwnCaches(b', selected) && b.log <= b'.log
            && (forall k :: 0 <= k < |fs| ==> PostsOk(b', selected, fs[k]))
            && (forall k :: 0 <= k < |fs| - 1 ==> fs[k].reply.Answered?)
    decreases |lines|
  {
    hide Forward, OwnCaches, PostsOk, CausalLine;
    if lines != [] && !lines[0].Undecodable? {
      assert lines[0] in lines;
      assert forall l :: l in lines[1..] ==> l in lines;
      if lines[0].NotJson? {
        LoopPosts(b, margin, selected, lines[1..]);
      } else {
        assert CausalLine(Message(lines[0].x));
        ForwardPosts(b, margin, selected, lines[0].x);
        var (b1, f) := Forward(b, margin, selected, lines[0].x);
        LoopPosts(b1, margin, selected, lines[1..]);
        PostsOkLater(b1, Loop(b1, margin, selected, lines[1..]).0, selected, f);
      }
    }
  }

  // ----- which answer is the reply -----

  /** The agent's own token is to be had: cached and in time, or from a bootstrap that announces a number. */
  predicate DiscoveryAtHand(b: Book, margin: real, v: Visit) {
    || (b.discoveryJwt.Some? && b.discoveryJwt.value != "" && v.now < b.discoveryExpiresAt - margin)
    || (v.boot.Some? && v.boot.value.announced.Seconds?)
  }

  /** The selected token is to be had: for a delegation, cached for it and in time, or fetched with the
      agent's own token, any answer but one whose lifetime is no number. */
  predicate TokenAtHand(b: Book, margin: real, selected: Option<string>, x: Errand) {
    if selected.None? then DiscoveryAtHand(b, margin, x.visit)
    else
      || (b.delegationJwt.Some? && b.delegationJwt.value != "" && b.currentDelegationId == selected
          && x.visit.now < b.delegationExpiresAt - margin)
      || (DiscoveryAtHand(b, margin, x.visit) && x.fetch.Some? && !x.fetch.value.announced.NotANumber?)
  }

  /** Right after an invalidation only the bootstrap and the endpoint can give one. */
  predicate FreshTokenAtHand(selected: Option<string>, x: Errand) {
    && x.visit.boot.Some? && x.visit.boot.value.announced.Seconds?
    && (selected.Some? ==> x.fetch.Some? && !x.fetch.value.announced.NotANumber?)
  }

  lemma TokenIffAtHand(b: Book, margin: real, selected: Option<string>, x: Errand)
    ensures CurrentJwt(b, margin, selected, x).1.Some? <==> TokenAtHand(b, margin, selected, x)
    ensures b.discoveryJwt == None && b.delegationJwt == None ==>
              (CurrentJwt(b, margin, selected, x).1.Some? <==> FreshTokenAtHand(selected, x))
  {
  }

  /** The reply to one message: with no token there is no post and none; the first answer is the
      reply unless it is a 401; after a 401 the message is posted again if a new token is to be had,
      and the reply is the second answer. An answer that is missing or no JSON aborts. */
  lemma {:induction false} ReplyIsLastAnswer(b: Book, margin: real, selected: Option<string>, x: Exchange)
    ensures var f := Forward(b, margin, selected, x).1;
            && (!TokenAtHand(b, margin, selected, x.first) ==> f.posts == [] && f.reply == Aborted)
            && (TokenAtHand(b, margin, selected, x.first) ==>
                  match x.heard
                  case Silence => |f.posts| == 1 && f.reply == Aborted
                  case Heard(status, isJson) =>
                    if status != 401 then |f.posts| == 1 && f.reply == if isJson then Answered(status) else Aborted
                    else if !FreshTokenAtHand(selected, x.second) then |f.posts| == 1 && f.reply == Aborted
                    else |f.posts| == 2
                         && f.reply == if x.retryHeard.Heard? && x.retryHeard.isJson then Answered(x.retryHeard.status) else Aborted)
  {
    hide CurrentJwt, TokenAtHand, FreshTokenAtHand;
    TokenIffAtHand(b, margin, selected, x.first);
    TokenIffAtHand(Forget(CurrentJwt(b, margin, selected, x.first).0), margin, selected, x.second);
  }

  // ----- one forward per message -----

  /** The messages before the first line that does not decode. */
  function Messages(lines: seq<Line>): seq<Exchange> {
    if lines == [] || lines[0].Undecodable? then []
    else (if lines[0].Message? then [lines[0].x] else []) + Messages(lines[1..])
  }

  function BookAfter(b: Book, margin: real, selected: Option<string>, xs: seq<Exchange>): Book
    decreases |xs|
  {
    if xs == [] then b else BookAfter(Forward(b, margin, selected, xs[0]).0, margin, selected, xs[1..])
  }

  /** The messages are forwarded in order, each from the state the ones before left, stopping short of
      one only after an abort. */
  predicate ForwardedInTurn(b: Book, margin: real, selected: Option<string>, xs: seq<Exchange>, b': Book, fs: seq<Forwarded>) {
    && |fs| <= |xs| && b' == BookAfter(b, margin, selected, xs[..|fs|])
    && (forall k :: 0 <= k < |fs| ==> fs[k] == Forward(BookAfter(b, margin, selected, xs[..k]), margin, selected, xs[k]).1)
    && (|fs| < |xs| ==> fs != [] && fs[|fs| - 1].reply == Aborted)
  }

  lemma {:induction false} LoopForwardsEach(b: Book, margin: real, selected: Option<string>, lines: seq<Line>)
    ensures var (b', fs) := Loop(b, margin, selected, lines);
            ForwardedInTurn(b, margin, selected, Messages(lines), b', fs)
    decreases |lines|
  {
    hide Forward, ForwardedInTurn;
    if lines == [] || lines[0].Undecodable? {
      NothingForwarded(b, margin, selected);
    } else if lines[0].NotJson? {
      LoopForwardsEach(b, margin, selected, lines[1..]);
      assert Messages(lines) == Messages(lines[1..]);
    } else {
      var (b1, f) := Forward(b, margin, selected, lines[0].x);
      if f.reply.Aborted? {
        OneForwarded(b, margin, selected, lines[0].x, Messages(lines[1..]));
      } else {
        var (b2, rest) := Loop(b1, margin, selected, lines[1..]);
        LoopForwardsEach(b1, margin, selected, lines[1..]);
        OneMoreForwarded(b, margin, selected, lines[0].x, Messages(lines[1..]), b2, rest);
      }
    }
  }

  lemma NothingForwarded(b: Book, margin: real, selected: Option<string>)
    ensures ForwardedInTurn(b, margin, selected, [], b, [])
  {
  }

  lemma FirstForwarded(b: Book, margin: real, selected: Option<string>, x: Exchange, xs: seq<Exchange>, k: nat)
    requires k <= |xs|
    ensures BookAfter(b, margin, selected, ([x] + xs)[..k + 1])
         == BookAfter(Forward(b, margin, selected, x).0, margin, selected, xs[..k])
  {
    hide Forward;
    assert ([x] + xs)[..k + 1] == [x] + xs[..k];
    assert ([x] + xs[..k])[1..] == xs[..k];
  }

  lemma OneForwarded(b: Book, margin: real, selected: Option<string>, x: Exchange, xs: seq<Exchange>)
    requires Forward(b, margin, selected, x).1.reply.Aborted?
    ensures var (b1, f) := Forward(b, margin, selected, x); ForwardedInTurn(b, margin, selected, [x] + xs, b1, [f])
  {
    hide Forward;
    FirstForwarded(b, margin, selected, x, xs, 0);
    assert ([x] + xs)[..0] == [] && xs[..0] == [];
  }

  lemma {:induction false} OneMoreForwarded(b: Book, margin: real, selected: Option<string>, x: Exchange, xs: seq<Exchange>,
                                            b': Book, fs: seq<Forwarded>)
    requires ForwardedInTurn(Forward(b, margin, selected, x).0, margin, selected, xs, b', fs)
    requires !Forward(b, margin, selected, x).1.reply.Aborted?
    ensures ForwardedInTurn(b, margin, selected, [x] + xs, b', [Forward(b, margin, selected, x).1] + fs)
  {
    hide Forward, BookAfter;
    var f := Forward(b, margin, selected, x).1;
    FirstForwarded(b, margin, selected, x, xs, |fs|);
    forall k | 0 <= k < |fs| + 1
      ensures ([f] + fs)[k] == Forward(BookAfter(b, margin, selected, ([x] + xs)[..k]), margin, selected, ([x] + xs)[k]).1
    {
      if k == 0 {
        assert ([x] + xs)[..0] == [];
        assert BookAfter(b, margin, selected, []) == b by { NoneAfter(b, margin, selected); }
      } else {
        FirstForwarded(b, margin, selected, x, xs, k - 1);
      }
    }
  }

  lemma NoneAfter(b: Book, margin: real, selected: Option<string>)
    ensures BookAfter(b, margin, selected, []) == b
  {
  }

  /** From a fresh manager, with the first bootstrap and the rotator's list as `run` gets them: the
      tokens are those of the fixed delegation, else of the first listed one, else the agent's own. */
  lemma {:induction false} RunPosts(margin: real, fixed: Option<string>, listed: seq<string>, start: Visit, lines: seq<Line>)
    requires forall l :: l in lines ==> CausalLine(l)
    ensures var selected := if fixed.Some? && fixed.value != "" then fixed else if listed != [] then Some(listed[0]) else None;
            var (b', fs) := Loop(EnsureDiscovery(EMPTY_BOOK, margin, start).0, margin, Selected(fixed, listed), lines);
            forall k :: 0 <= k < |fs| ==> PostsOk(b', selected, fs[k])
  {
    hide CausalLine, PostsOk, Loop;
    DiscoveryKeepsOwn(EMPTY_BOOK, margin, Selected(fixed, listed), start);
    LoopPosts(EnsureDiscovery(EMPTY_BOOK, margin, start).0, margin, Selected(fixed, listed), lines);
  }

  // ----- the proxy object -----

  function TokensOf(posts: seq<Issue>): (tokens: seq<string>)
    ensures |tokens| == |posts|
  {
    seq(|posts|, k requires 0 <= k < |posts| => posts[k].token)
  }

  function AllTokens(fs: seq<Forwarded>): seq<seq<string>> {
    if fs == [] then [] else [TokensOf(fs[0].posts)] + AllTokens(fs[1..])
  }

  class DeepSecureProxy {
    const jwtMgr: JWTManager
    const fixedDelegationId: Option<string>
    const roundRobin: bool
    var delegations: seq<string>

    constructor (jwtMgr: JWTManager, fixedDelegationId: Option<string>, roundRobin: bool)
      ensures this.jwtMgr == jwtMgr && this.fixedDelegationId == fixedDelegationId && this.roundRobin == roundRobin
      ensures delegations == []
    {
      this.jwtMgr, this.fixedDelegationId, this.roundRobin := jwtMgr, fixedDelegationId, roundRobin;
      delegations := [];
    }

    method GetCurrentJwt(x: Errand) returns (jwt: Option<string>)
      modifies jwtMgr
      ensures jwtMgr.Contents() == CurrentJwt(old(jwtMgr.Contents()), jwtMgr.refreshMargin, Selected(fixedDelegationId, delegations), x).0
      ensures jwt == (var issue := CurrentJwt(old(jwtMgr.Contents()), jwtMgr.refreshMargin, Selected(fixedDelegationId, delegations), x).1;
                      if issue.Some? then Some(issue.value.token) else None)
    {
      var d;
      if fixedDelegationId.Some? && fixedDelegationId.value != "" {
        d := fixedDelegationId.value;
      } else if delegations != [] {
        d := delegations[0];
      } else {
        jwt := jwtMgr.EnsureDiscoveryJwt(x.visit);
        return;
      }
      var discovery;
      jwt, discovery := jwtMgr.StartDelegation(d, x.visit);
      if jwt.None? && discovery.Some? && x.fetch.Some? {
        jwt := jwtMgr.FinishDelegation(d, x.fetch.value, x.fetched);
      }
    }

    method ForwardOne(x: Exchange) returns (reply: Reply, posts: seq<string>)
      modifies jwtMgr
      ensures var (b, f) := Forward(old(jwtMgr.Contents()), jwtMgr.refreshMargin, Selected(fixedDelegationId, delegations), x);
              jwtMgr.Contents() == b && reply == f.reply && posts == TokensOf(f.posts)
    {
      hide CurrentJwt, Selected;
      var jwt := GetCurrentJwt(x.first);
      if jwt.None? {
        return Aborted, [];
      }
      posts := [jwt.value];
      if Rejected(x.heard) {
        jwtMgr.Invalidate();
        jwt := GetCurrentJwt(x.second);
        if jwt.None? {
          return Aborted, posts;
        }
        posts := posts + [jwt.value];
        return ReplyOf(x.retryHeard), posts;
      }
      return ReplyOf(x.heard), posts;
    }

    /** `start` is met by the first bootstrap; `listed` is the control plane's delegation list,
        None when fetching it raises. */
    method Run(start: Visit, listed: Option<seq<string>>, lines: seq<Line>) returns (posts: seq<seq<string>>)
      requires delegations == []
      modifies this, jwtMgr
      ensures var margin := jwtMgr.refreshMargin;
              var (b0, discovery) := EnsureDiscovery(old(jwtMgr.Contents()), margin, start);
              if discovery.None? || (roundRobin && listed.None?) then jwtMgr.Contents() == b0 && posts == []
              else
                var (b, fs) := Loop(b0, margin, Selected(fixedDelegationId, if roundRobin then listed.value else []), lines);
                jwtMgr.Contents() == b && posts == AllTokens(fs)
    {
      hide Forward, Selected, EnsureDiscovery;
      posts := [];
      var discovery := jwtMgr.EnsureDiscoveryJwt(start);
      if discovery.None? {
        return;
      }
      if roundRobin {
        if listed.None? {
          return;
        }
        delegations := listed.value;
      }
      ghost var margin, selected, b0 := jwtMgr.refreshMargin, Selected(fixedDelegationId, delegations), jwtMgr.Contents();
      for i := 0 to |lines|
        invariant delegations == (if roundRobin then listed.value else [])
        invariant Loop(b0, margin, selected, lines).0 == Loop(jwtMgr.Contents(), margin, selected, lines[i..]).0
        invariant AllTokens(Loop(b0, margin, selected, lines).1)
               == posts + AllTokens(Loop(jwtMgr.Contents(), margin, selected, lines[i..]).1)
      {
        assert lines[i..][0] == lines[i] && lines[i..][1..] == lines[i + 1..];
        if lines[i].Undecodable? {
          return;
        }
        if lines[i].Message? {
          ghost var b := jwtMgr.Contents();
          var reply, tokens := ForwardOne(lines[i].x);
          ghost var f := Forward(b, margin, selected, lines[i].x).1;
          assert AllTokens([f]) == [tokens];
          posts := posts + [tokens];
          if reply.Aborted? {
            return;
          }
          assert AllTokens([f] + Loop(jwtMgr.Contents(), margin, selected, lines[i + 1..]).1)
              == [tokens] + AllTokens(Loop(jwtMgr.Contents(), margin, selected, lines[i + 1..]).1);
        }
      }
    }
  }
}
