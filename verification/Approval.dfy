/** Multi-party approval of a delegation: the record, the submissions and what they can mint. */
module Approval {
  import opened Text

  datatype Entry = Entry(approver: string, approved: bool, justification: string, timestamp: real)

  datatype Status = Pending | Expired | Rejected | Approved | DelegationFailed

  /** An approval record. `calls` lists, for each `delegate_access` call made for it, how many
      approvals were recorded at that moment, and `mints` the same for the calls that succeeded. */
  datatype Process = Process(
    approvers: seq<string>,
    required: int,
    received: seq<Entry>,
    status: Status,
    expiresAt: real,
    token: Option<string>,
    calls: seq<nat>,
    mints: seq<nat>
  )

  /** A submission, the clock at its expiry check and when its entry is made, and the token
      `delegate_access` would give; None when it raises. */
  datatype Submission = Submission(approver: string, approved: bool, justification: string, now: real, stamped: real,
                                   offered: Option<string>)

  function EntryOf(s: Submission): Entry {
    Entry(s.approver, s.approved, s.justification, s.stamped)
  }

  datatype Refusal = UnknownProcess | NotAuthorized | AlreadySubmitted

  datatype Answer =
    | Refused(why: Refusal)
    | TooLate
    | Recorded(status: Status, approvedCount: nat, required: int, token: Option<string>)

  function Approvals(entries: seq<Entry>): nat {
    if entries == [] then 0 else Approvals(entries[..|entries| - 1]) + (if entries[|entries| - 1].approved then 1 else 0)
  }

  function Submitters(entries: seq<Entry>): set<string> {
    set e | e in entries :: e.approver
  }

  function Submitted(p: Process, s: Submission): (Process, Answer) {
    if s.approver !in p.approvers then (p, Refused(NotAuthorized))
    else if s.approver in Submitters(p.received) then (p, Refused(AlreadySubmitted))
    else if s.now > p.expiresAt then (p.(status := Expired), TooLate)
    else
      var received := p.received + [EntryOf(s)];
      var count := Approvals(received);
      var q := p.(received := received);
      if !s.approved then (q.(status := Rejected), Recorded(Rejected, count, p.required, None))
      else if count < p.required then (q, Recorded(Pending, count, p.required, None))
      else if s.offered.None? then
        (q.(status := DelegationFailed, calls := p.calls + [count]), Recorded(DelegationFailed, count, p.required, None))
      else
        (q.(status := Approved, token := s.offered, calls := p.calls + [count], mints := p.mints + [count]),
         Recorded(Approved, count, p.required, s.offered))
  }

  function Open(approvers: seq<string>, required: int, now: real, timeoutMinutes: int): Process {
    Process(approvers, required, [], Pending, now + 60.0 * timeoutMinutes as real, None, [], [])
  }

  function Submissions(p: Process, ss: seq<Submission>): Process {
    if ss == [] then p else Submitted(Submissions(p, ss[..|ss| - 1]), ss[|ss| - 1]).0
  }

  /** How many recorded approvals met the quota when they were recorded. */
  function Past(count: nat, required: int): nat {
    if count < required then 0 else if required < 1 then count else count - required + 1
  }

  /** Distinct, authorized approvers. */
  predicate VotesOk(p: Process) {
    && (forall i, j :: 0 <= i < j < |p.received| ==> p.received[i].approver != p.received[j].approver)
    && (forall k :: 0 <= k < |p.received| ==> p.received[k].approver in p.approvers)
  }

  /** Each approval that led to a call raised the count to at least the quota, and no two to the same count. */
  predicate MintsOk(mints: seq<nat>, approvals: nat, required: int) {
    && |mints| <= Past(approvals, required)
    && (forall k :: 0 <= k < |mints| ==> required <= mints[k] <= approvals)
    && (forall i, j :: 0 <= i < j < |mints| ==> mints[i] < mints[j])
  }

  predicate Orderly(p: Process) {
    && VotesOk(p)
    && MintsOk(p.calls, Approvals(p.received), p.required) && MintsOk(p.mints, Approvals(p.received), p.required)
    && (forall n :: n in p.mints ==> n in p.calls)
  }

  lemma ApprovalsSnoc(entries: seq<Entry>, e: Entry)
    ensures Approvals(entries + [e]) == Approvals(entries) + (if e.approved then 1 else 0)
  {
  }

  lemma VoteKeepsVotes(p: Process, e: Entry)
    requires VotesOk(p) && e.approver in p.approvers && e.approver !in Submitters(p.received)
    ensures VotesOk(p.(received := p.received + [e]))
  {
  }

  lemma MintsGrow(mints: seq<nat>, approvals: nat, required: int)
    requires MintsOk(mints, approvals, required)
    ensures MintsOk(mints, approvals + 1, required)
    ensures approvals + 1 >= required ==> MintsOk(mints + [approvals + 1], approvals + 1, required)
  {
  }

  lemma {:induction false} SubmitKeepsOrder(p: Process, s: Submission)
    requires Orderly(p)
    ensures var p' := Submitted(p, s).0;
            && Orderly(p') && p.received <= p'.received && p.calls <= p'.calls && p.mints <= p'.mints
            && p'.approvers == p.approvers && p'.required == p.required && p'.expiresAt == p.expiresAt
  {
    hide MintsOk, Approvals, Submitters;
    var e := EntryOf(s);
    ApprovalsSnoc(p.received, e);
    MintsGrow(p.calls, Approvals(p.received), p.required);
    MintsGrow(p.mints, Approvals(p.received), p.required);
    if s.approver in p.approvers && s.approver !in Submitters(p.received) && s.now <= p.expiresAt {
      VoteKeepsVotes(p, e);
    }
  }

  /** One person, one vote: there are no more approvals than authorized persons. */
  lemma {:induction false} ApprovalsWithin(entries: seq<Entry>, approvers: set<string>)
    requires forall i, j :: 0 <= i < j < |entries| ==> entries[i].approver != entries[j].approver
    requires forall k :: 0 <= k < |entries| ==> entries[k].approver in approvers
    ensures Approvals(entries) <= |entries| <= |approvers|
    decreases |entries|
  {
    if entries != [] {
      var n := |entries| - 1;
      var x := entries[n].approver;
      ApprovalsWithin(entries[..n], approvers - {x});
      assert |approvers - {x}| == |approvers| - 1;
    }
  }

  /** Over any sequence of submissions: the recorded approvers are distinct and authorized, nothing
      is recorded that was not checked before expiry, every `delegate_access` call, failing or not, is
      made with at least the required approvals recorded, and with a quota of at least one there are
      at most (distinct approvers - quota + 1) of them. */
  lemma {:induction false} SubmissionsAreOrderly(approvers: seq<string>, required: int, now: real, timeout: int, ss: seq<Submission>)
    ensures var p := Submissions(Open(approvers, required, now, timeout), ss);
            && Orderly(p)
            && p.approvers == approvers && p.required == required
            && (forall e :: e in p.received ==>
                  exists s :: s in ss && e == EntryOf(s) && s.now <= now + 60.0 * timeout as real)
            && (required >= 1 ==>
                  var bound := if |set a | a in approvers| >= required then |set a | a in approvers| - required + 1 else 0;
                  |p.calls| <= bound && |p.mints| <= bound)
    decreases |ss|
  {
    RunIsOrderly(approvers, required, now, timeout, ss);
    var p := Submissions(Open(approvers, required, now, timeout), ss);
    ApprovalsWithin(p.received, set a | a in approvers);
  }

  lemma {:induction false} RunIsOrderly(approvers: seq<string>, required: int, now: real, timeout: int, ss: seq<Submission>)
    ensures var p := Submissions(Open(approvers, required, now, timeout), ss);
            && Orderly(p) && p.approvers == approvers && p.required == required && p.expiresAt == now + 60.0 * timeout as real
            && (forall e :: e in p.received ==> exists s :: s in ss && e == EntryOf(s) && s.now <= p.expiresAt)
    decreases |ss|
  {
    hide Submitted, Orderly;
    if ss != [] {
      var n := |ss| - 1;
      var before := Submissions(Open(approvers, required, now, timeout), ss[..n]);
      RunIsOrderly(approvers, required, now, timeout, ss[..n]);
      SubmitKeepsOrder(before, ss[n]);
      RecordedInTime(before, ss[n]);
      forall e | e in Submitted(before, ss[n]).0.received
        ensures exists s :: s in ss && e == EntryOf(s) && s.now <= before.expiresAt
      {
        if e in before.received {
          var s :| s in ss[..n] && e == EntryOf(s) && s.now <= before.expiresAt;
          assert s in ss;
        } else {
          assert ss[n] in ss;
        }
      }
    } else {
      OpenIsOrderly(approvers, required, now, timeout);
    }
  }

  lemma OpenIsOrderly(approvers: seq<string>, required: int, now: real, timeout: int)
    ensures Orderly(Open(approvers, required, now, timeout))
  {
  }

  lemma RecordedInTime(p: Process, s: Submission)
    ensures forall e :: e in Submitted(p, s).0.received ==> e in p.received || (e == EntryOf(s) && s.now <= p.expiresAt)
  {
  }

  // ----- what a submission is answered -----

  /** The count is the number of approving entries. */
  lemma {:induction false} ApprovalsAreCounted(entries: seq<Entry>)
    ensures Approvals(entries) == |set k | 0 <= k < |entries| && entries[k].approved|
    decreases |entries|
  {
    if entries != [] {
      var n := |entries| - 1;
      ApprovalsAreCounted(entries[..n]);
      var before := set k | 0 <= k < |entries[..n]| && entries[..n][k].approved;
      var all := set k | 0 <= k < |entries| && entries[k].approved;
      assert all == if entries[n].approved then before + {n} else before;
    }
  }

  /** Who is turned away, and why; nothing changes then. */
  lemma RefusedExactly(p: Process, s: Submission)
    ensures var (p', a) := Submitted(p, s);
            && (a == Refused(NotAuthorized) <==> s.approver !in p.approvers)
            && (a == Refused(AlreadySubmitted) <==>
                  s.approver in p.approvers && exists k :: 0 <= k < |p.received| && p.received[k].approver == s.approver)
            && (a.Refused? ==> p' == p && a != Refused(UnknownProcess))
  {
  }

  /** What the answer tells about the record: too late is exactly after the expiry and records nothing
      but that; otherwise the entry is recorded as submitted, the answer counts the approvals with it,
      and its status is the record's, unless the quota is still open, which leaves the record's status alone. */
  lemma AnswerTellsRecord(p: Process, s: Submission)
    ensures var (p', a) := Submitted(p, s);
            && (a == TooLate <==> !a.Refused? && s.now > p.expiresAt)
            && (a == TooLate ==> p' == p.(status := Expired))
            && (a.Recorded? ==>
                  && p'.received == p.received + [Entry(s.approver, s.approved, s.justification, s.stamped)]
                  && a.approvedCount == Approvals(p'.received) && a.required == p.required
                  && p'.status == (if a.status == Pending then p.status else a.status)
                  && (a.status == Rejected <==> !s.approved)
                  && (a.status == Pending <==> s.approved && a.approvedCount < p.required)
                  && (a.status == Approved <==> s.approved && a.approvedCount >= p.required && s.offered.Some?)
                  && (a.status == DelegationFailed <==> s.approved && a.approvedCount >= p.required && s.offered.None?)
                  && (a.status == Approved ==> a.token == p'.token == s.offered)
                  && (a.status != Approved ==> a.token == None && p'.token == p.token))
  {
  }

  /** Over any sequence of submissions: there is a token exactly when one was minted, and it is one
      that `delegate_access` gave. */
  lemma {:induction false} TokenIffMinted(approvers: seq<string>, required: int, now: real, timeout: int, ss: seq<Submission>)
    ensures var p := Submissions(Open(approvers, required, now, timeout), ss);
            && (p.token.Some? <==> p.mints != [])
            && (p.token.Some? ==> exists s :: s in ss && s.offered == p.token)
            && p.approvers == approvers && p.required == required && p.expiresAt == now + 60.0 * timeout as real
            && |p.received| <= |ss| && (p.status == Pending ==> p.mints == [] && p.calls == [])
    decreases |ss|
  {
    hide Approvals, Submitters, EntryOf;
    if ss != [] {
      TokenIffMinted(approvers, required, now, timeout, ss[..|ss| - 1]);
      assert ss[|ss| - 1] in ss && forall s :: s in ss[..|ss| - 1] ==> s in ss;
    }
  }

  // ----- what a rejection leaves possible -----

  /** The authorized persons who have not submitted yet. */
  function Left(p: Process): set<string> {
    (set a | a in p.approvers) - Submitters(p.received)
  }

  /** A submission mints exactly when it is an admissible, timely approval that meets the quota and
      the delegation succeeds: neither the status nor earlier rejections count. */
  lemma MintsExactlyWhen(p: Process, s: Submission)
    ensures Submitted(p, s).0.mints != p.mints <==>
            && s.approver in p.approvers && s.approver !in Submitters(p.received) && s.now <= p.expiresAt
            && s.approved && Approvals(p.received) + 1 >= p.required && s.offered.Some?
  {
    ApprovalsSnoc(p.received, EntryOf(s));
  }

  lemma RecordsOrNot(p: Process, s: Submission)
    ensures var p' := Submitted(p, s).0;
            && p'.approvers == p.approvers && p'.required == p.required && p'.expiresAt == p.expiresAt
            && (p'.received == p.received || (p'.received == p.received + [EntryOf(s)] && s.approver in Left(p)))
  {
  }

  /** Each submission uses up a person for at most one approval. */
  lemma {:induction false} PotentialFalls(p: Process, s: Submission)
    ensures var p' := Submitted(p, s).0;
            && Left(p') <= Left(p) && Approvals(p'.received) + |Left(p')| <= Approvals(p.received) + |Left(p)|
            && p'.required == p.required && p'.expiresAt == p.expiresAt
  {
    hide Submitted, Approvals, Submitters;
    RecordsOrNot(p, s);
    ApprovalsSnoc(p.received, EntryOf(s));
    SubmittersSnoc(p.received, EntryOf(s));
    var p' := Submitted(p, s).0;
    if p'.received != p.received {
      assert Left(p') == Left(p) - {s.approver};
    }
  }

  lemma SubmittersSnoc(entries: seq<Entry>, e: Entry)
    ensures Submitters(entries + [e]) == Submitters(entries) + {e.approver}
  {
    assert forall x :: x in entries + [e] <==> x in entries || x == e;
  }

  predicate NotBefore(ss: seq<Submission>, now: real) {
    forall s :: s in ss ==> s.now >= now
  }

  lemma {:induction false} PotentialFallsOver(p: Process, ss: seq<Submission>)
    ensures var p' := Submissions(p, ss);
            && Left(p') <= Left(p) && Approvals(p'.received) + |Left(p')| <= Approvals(p.received) + |Left(p)|
            && p'.required == p.required && p'.expiresAt == p.expiresAt
    decreases |ss|
  {
    hide Submitted, Left, Approvals;
    if ss != [] {
      PotentialFallsOver(p, ss[..|ss| - 1]);
      PotentialFalls(Submissions(p, ss[..|ss| - 1]), ss[|ss| - 1]);
    }
  }

  /** A run that mints had persons left, time left and approvals within reach at its start. */
  lemma {:induction false} MintingNeeds(p: Process, ss: seq<Submission>, now: real)
    requires NotBefore(ss, now) && Submissions(p, ss).mints != p.mints
    ensures now <= p.expiresAt && Left(p) != {} && Approvals(p.received) + |Left(p)| >= p.required
    decreases |ss|
  {
    hide Submitted, Approvals;
    var n := |ss| - 1;
    var q := Submissions(p, ss[..n]);
    assert forall s :: s in ss[..n] ==> s in ss;
    if q.mints != p.mints {
      MintingNeeds(p, ss[..n], now);
    } else {
      assert ss[n] in ss;
      MintsExactlyWhen(q, ss[n]);
      PotentialFallsOver(p, ss[..n]);
      assert ss[n].approver in Left(q);
      assert Left(q) != {};
    }
  }

  lemma {:induction false} SubmissionsFirst(p: Process, s: Submission, ss: seq<Submission>)
    ensures Submissions(p, [s] + ss) == Submissions(Submitted(p, s).0, ss)
    decreases |ss|
  {
    hide Submitted;
    if ss == [] {
      assert [s] + ss == [s] && [s][..0] == [];
      assert Submissions(p, []) == p;
    } else {
      var n := |ss| - 1;
      assert ([s] + ss)[..n + 1] == [s] + ss[..n];
      SubmissionsFirst(p, s, ss[..n]);
    }
  }

  function Approving(a: string, now: real): Submission {
    Submission(a, true, "", now, now, Some("token"))
  }

  lemma ApprovingCounts(p: Process, a: string, now: real)
    requires a in Left(p) && now <= p.expiresAt
    ensures var q := Submitted(p, Approving(a, now)).0;
            && q.required == p.required && q.expiresAt == p.expiresAt
            && Left(q) == Left(p) - {a} && Approvals(q.received) == Approvals(p.received) + 1
            && if Approvals(p.received) + 1 >= p.required then q.mints != p.mints else q.mints == p.mints
  {
    var s := Approving(a, now);
    ApprovalsSnoc(p.received, EntryOf(s));
    SubmittersSnoc(p.received, EntryOf(s));
    MintsExactlyWhen(p, s);
    hide Approvals, Submitters;
    var q := Submitted(p, s).0;
    assert q.received == p.received + [EntryOf(s)] && q.approvers == p.approvers;
  }

  /** Letting everybody who is left approve, one after the other, mints. */
  lemma {:induction false} EverybodyApproves(p: Process, now: real) returns (ss: seq<Submission>)
    requires now <= p.expiresAt && Left(p) != {} && Approvals(p.received) + |Left(p)| >= p.required
    ensures NotBefore(ss, now) && Submissions(p, ss).mints != p.mints
    decreases |Left(p)|
  {
    hide Submitted, Approvals, Submitters, Left;
    var a :| a in Left(p);
    var s := Approving(a, now);
    var q := Submitted(p, s).0;
    ApprovingCounts(p, a, now);
    if Approvals(p.received) + 1 >= p.required {
      ss := [s];
      assert [s][..0] == [];
      assert Submissions(p, []) == p;
    } else {
      assert |Left(q)| == |Left(p)| - 1;
      var rest := EverybodyApproves(q, now);
      SubmissionsFirst(p, s, rest);
      ss := [s] + rest;
    }
  }

  /** A rejection does not end the process: whatever was rejected before, some continuation mints a
      token if and only if the expiry is not over, somebody authorized has not submitted, and the
      approvals recorded and those still possible reach the quota. */
  lemma {:induction false} RejectionIsNotFinal(p: Process, now: real)
    ensures (exists ss :: NotBefore(ss, now) && Submissions(p, ss).mints != p.mints) <==>
            now <= p.expiresAt && Left(p) != {} && Approvals(p.received) + |Left(p)| >= p.required
  {
    if ss :| NotBefore(ss, now) && Submissions(p, ss).mints != p.mints {
      MintingNeeds(p, ss, now);
    }
    if now <= p.expiresAt && Left(p) != {} && Approvals(p.received) + |Left(p)| >= p.required {
      var ss := EverybodyApproves(p, now);
    }
  }

  // ----- the objects -----

  class ApprovalRecord {
    const approvers: seq<string>
    const requiredApprovals: int
    const expiresAt: real
    var receivedApprovals: seq<Entry>
    var status: Status
    var delegationToken: Option<string>
    ghost var calls: seq<nat>
    ghost var mints: seq<nat>

    ghost function Contents(): Process
      reads this
    {
      Process(approvers, requiredApprovals, receivedApprovals, status, expiresAt, delegationToken, calls, mints)
    }

    constructor (approvers: seq<string>, requiredApprovals: int, now: real, timeoutMinutes: int)
      ensures Contents() == Open(approvers, requiredApprovals, now, timeoutMinutes)
    {
      this.approvers, this.requiredApprovals := approvers, requiredApprovals;
      this.expiresAt := now + 60.0 * timeoutMinutes as real;
      receivedApprovals, status, delegationToken, calls, mints := [], Pending, None, [], [];
    }

    method CountApproved() returns (count: nat)
      ensures count == Approvals(receivedApprovals)
    {
      count := 0;
      for i := 0 to |receivedApprovals|
        invariant count == Approvals(receivedApprovals[..i])
      {
        assert receivedApprovals[..i + 1] == receivedApprovals[..i] + [receivedApprovals[i]];
        ApprovalsSnoc(receivedApprovals[..i], receivedApprovals[i]);
        if receivedApprovals[i].approved {
          count := count + 1;
        }
      }
      assert receivedApprovals[..|receivedApprovals|] == receivedApprovals;
    }

    method Submit(s: Submission) returns (a: Answer)
      modifies this
      ensures (Contents(), a) == Submitted(old(Contents()), s)
    {
      if s.approver !in approvers {
        return Refused(NotAuthorized);
      }
      var existing := set e | e in receivedApprovals :: e.approver;
      if s.approver in existing {
        return Refused(AlreadySubmitted);
      }
      if s.now > expiresAt {
        status := Expired;
        return TooLate;
      }
      receivedApprovals := receivedApprovals + [EntryOf(s)];
      var approvedCount := CountApproved();
      var answer := Recorded(Pending, approvedCount, requiredApprovals, None);
      if !s.approved {
        status := Rejected;
        return answer.(status := Rejected);
      } else if approvedCount >= requiredApprovals {
        calls := calls + [approvedCount];
        if s.offered.None? {
          status := DelegationFailed;
          return answer.(status := DelegationFailed);
        }
        status, delegationToken, mints := Approved, s.offered, mints + [approvedCount];
        return answer.(status := Approved, token := s.offered);
      }
      return answer;
    }
  }

  class ApprovalDesk {
    var active: map<string, ApprovalRecord>

    constructor ()
      ensures active == map[]
    {
      active := map[];
    }

    /** Two processes created in the same second share an id: the later replaces the earlier. */
    method Create(id: string, approvers: seq<string>, requiredApprovals: int, now: real, timeoutMinutes: int)
      modifies this
      ensures id in active && fresh(active[id]) && active == old(active)[id := active[id]]
      ensures active[id].Contents() == Open(approvers, requiredApprovals, now, timeoutMinutes)
    {
      var record := new ApprovalRecord(approvers, requiredApprovals, now, timeoutMinutes);
      active := active[id := record];
    }

    method SubmitApproval(id: string, s: Submission) returns (a: Answer)
      modifies if id in active then {active[id]} else {}
      ensures active == old(active)
      ensures id !in active ==> a == Refused(UnknownProcess)
      ensures id in active ==> (active[id].Contents(), a) == Submitted(old(active[id].Contents()), s)
    {
      if id !in active {
        return Refused(UnknownProcess);
      }
      a := active[id].Submit(s);
    }
  }
}
