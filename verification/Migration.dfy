/** The split-key migration: a database transaction beside an external share store, with a failure
    possible at every step of every run. */
module Migration {
  import opened Text

  /** Splitting with its randomness, and recombining. */
  datatype Splitter = Splitter(split: (string, nat) -> (string, string), combine: (string, string) -> string)

  ghost predicate Recombines(sp: Splitter) {
    forall value: string, rnd: nat :: sp.combine(sp.split(value, rnd).0, sp.split(value, rnd).1) == value
  }

  datatype Row = Row(name: string, value: Option<string>, share1: Option<string>)

  type Rows = map<int, Row>
  type Shares = map<string, string>

  /** A share on its way to the gateway. */
  datatype Request = Request(name: string, share: string)

  /** What happens to one row of a run: it fails before its share leaves (split error, crash), its
      request times out and may still arrive later, it fails after the share is stored (lost
      answer, database error, crash), or it is done. */
  datatype Fate = FailsEarly | TimesOut(rnd: nat) | FailsAfterStore(rnd: nat) | Done(rnd: nat)

  function ShareFor(sp: Splitter, row: Row, rnd: nat): string
    requires row.value.Some?
  {
    sp.split(row.value.value, rnd).1
  }

  function UpdateRow(sp: Splitter, row: Row, rnd: nat): Row
    requires row.value.Some?
  {
    row.(share1 := Some(sp.split(row.value.value, rnd).0), value := None)
  }

  /** `ids` are rows that still have their value, each once, in some order. */
  predicate Unmigrated(db: Rows, ids: seq<int>) {
    && (forall i :: 0 <= i < |ids| ==> ids[i] in db && db[ids[i]].value.Some?)
    && (forall i, j :: 0 <= i < j < |ids| ==> ids[i] != ids[j])
  }

  /** The rows as the transaction sees them, the shares stored, a request left under way, and
      whether every row was done. */
  datatype Pass = Pass(rows: Rows, shares: Shares, late: set<Request>, done: bool)

  /** The loop inside the transaction. */
  function Work(sp: Splitter, txn: Rows, gw: Shares, ids: seq<int>, fates: seq<Fate>): Pass
    requires |ids| == |fates| && Unmigrated(txn, ids)
    decreases |ids|
  {
    if ids == [] then Pass(txn, gw, {}, true)
    else
      var row := txn[ids[0]];
      match fates[0]
      case FailsEarly => Pass(txn, gw, {}, false)
      case TimesOut(rnd) => Pass(txn, gw, {Request(row.name, ShareFor(sp, row, rnd))}, false)
      case FailsAfterStore(rnd) => Pass(txn, gw[row.name := ShareFor(sp, row, rnd)], {}, false)
      case Done(rnd) =>
        Work(sp, txn[ids[0] := UpdateRow(sp, row, rnd)], gw[row.name := ShareFor(sp, row, rnd)], ids[1..], fates[1..])
  }

  /** A run that fails anywhere, or whose commit fails, leaves the database as it was. */
  function Migrate(sp: Splitter, db: Rows, gw: Shares, ids: seq<int>, fates: seq<Fate>, commits: bool): Pass
    requires |ids| == |fates| && Unmigrated(db, ids)
  {
    var w := Work(sp, db, gw, ids, fates);
    if w.done && commits then w else w.(rows := db, done := false)
  }

  // ----- safety -----

  predicate UniqueNames(db: Rows) {
    forall a, b :: a in db && b in db && db[a].name == db[b].name ==> a == b
  }

  /** The share held in the row and the given one recombine to the secret. */
  predicate Fits(sp: Splitter, row: Row, share: string, secret: string) {
    row.share1.Some? && sp.combine(row.share1.value, share) == secret
  }

  /** The secret can be had: its value is still there, or its two shares recombine to it. */
  predicate Recoverable(sp: Splitter, row: Row, gw: Shares, secret: string) {
    || row.value == Some(secret)
    || (row.value == None && row.name in gw && Fits(sp, row, gw[row.name], secret))
  }

  predicate AllRecoverable(sp: Splitter, db: Rows, gw: Shares, secrets: map<int, string>) {
    && db.Keys == secrets.Keys
    && forall id :: id in db ==> Recoverable(sp, db[id], gw, secrets[id])
  }

  predicate Named(db: Rows, ids: seq<int>, name: string) {
    exists i :: 0 <= i < |ids| && ids[i] in db && db[ids[i]].name == name
  }

  /** The loop writes only the listed rows and the shares under their names; names never change; a
      request left under way is for a listed row, and none is left when the loop finishes. */
  lemma {:induction false} WorkFrame(sp: Splitter, txn: Rows, gw: Shares, ids: seq<int>, fates: seq<Fate>)
    requires |ids| == |fates| && Unmigrated(txn, ids)
    ensures var w := Work(sp, txn, gw, ids, fates);
            && w.rows.Keys == txn.Keys
            && (forall id :: id in txn ==> w.rows[id].name == txn[id].name)
            && (forall id :: id in txn && id !in ids ==> w.rows[id] == txn[id])
            && (forall name :: !Named(txn, ids, name) ==>
                  (name in w.shares <==> name in gw) && (name in gw ==> w.shares[name] == gw[name]))
            && (forall r :: r in w.late ==> Named(txn, ids, r.name))
            && (w.done ==> w.late == {} && forall id :: id in ids ==> w.rows[id].value == None)
    decreases |ids|
  {
    if ids != [] {
      var row := txn[ids[0]];
      assert Named(txn, ids, row.name);
      if fates[0].Done? {
        var rnd := fates[0].rnd;
        var next := txn[ids[0] := UpdateRow(sp, row, rnd)];
        Rest(sp, txn, ids, rnd);
        WorkFrame(sp, next, gw[row.name := ShareFor(sp, row, rnd)], ids[1..], fates[1..]);
        forall name { NamedRest(sp, txn, ids, rnd, name); }
      }
    }
  }

  lemma NamedRest(sp: Splitter, txn: Rows, ids: seq<int>, rnd: nat, name: string)
    requires ids != [] && Unmigrated(txn, ids)
    ensures Named(txn[ids[0] := UpdateRow(sp, txn[ids[0]], rnd)], ids[1..], name) ==> Named(txn, ids, name)
  {
  }

  lemma Rest(sp: Splitter, txn: Rows, ids: seq<int>, rnd: nat)
    requires ids != [] && Unmigrated(txn, ids)
    ensures Unmigrated(txn[ids[0] := UpdateRow(sp, txn[ids[0]], rnd)], ids[1..])
    ensures ids[0] !in ids[1..] && forall id :: id in ids <==> id == ids[0] || id in ids[1..]
  {
  }

  /** When the loop finishes, every listed secret's two shares recombine, since no later row of the
      run stores under the same name. */
  lemma {:induction false} WorkSplits(sp: Splitter, txn: Rows, gw: Shares, ids: seq<int>, fates: seq<Fate>, id: int)
    requires Recombines(sp) && UniqueNames(txn)
    requires |ids| == |fates| && Unmigrated(txn, ids) && id in ids
    requires Work(sp, txn, gw, ids, fates).done
    ensures var w := Work(sp, txn, gw, ids, fates);
            id in txn && id in w.rows && Recoverable(sp, w.rows[id], w.shares, txn[id].value.value)
    decreases |ids|
  {
    var row, rnd := txn[ids[0]], fates[0].rnd;
    var next, gw1 := txn[ids[0] := UpdateRow(sp, row, rnd)], gw[row.name := ShareFor(sp, row, rnd)];
    Rest(sp, txn, ids, rnd);
    WorkFrame(sp, next, gw1, ids[1..], fates[1..]);
    if id == ids[0] {
      assert !Named(next, ids[1..], row.name);
      assert sp.combine(sp.split(row.value.value, rnd).0, sp.split(row.value.value, rnd).1) == row.value.value;
    } else {
      WorkSplits(sp, next, gw1, ids[1..], fates[1..], id);
    }
  }

  /** When the loop finishes, each listed row holds the first share of its own split. */
  lemma {:induction false} WorkUpdates(sp: Splitter, txn: Rows, gw: Shares, ids: seq<int>, fates: seq<Fate>, i: nat)
    requires |ids| == |fates| && Unmigrated(txn, ids) && i < |ids|
    requires Work(sp, txn, gw, ids, fates).done
    ensures var w := Work(sp, txn, gw, ids, fates);
            fates[i].Done? && ids[i] in w.rows && w.rows[ids[i]] == UpdateRow(sp, txn[ids[i]], fates[i].rnd)
    decreases |ids|
  {
    var row, rnd := txn[ids[0]], fates[0].rnd;
    var next, gw1 := txn[ids[0] := UpdateRow(sp, row, rnd)], gw[row.name := ShareFor(sp, row, rnd)];
    Rest(sp, txn, ids, rnd);
    WorkFrame(sp, next, gw1, ids[1..], fates[1..]);
    if i > 0 {
      WorkUpdates(sp, next, gw1, ids[1..], fates[1..], i - 1);
    }
  }

  predicate DoneBefore(fates: seq<Fate>, i: nat) {
    i < |fates| && forall k :: 0 <= k < i ==> fates[k].Done?
  }

  /** What the loop has sent by the row it ends at: the second share of each row before and of that
      row, stored or under way, and nothing for the rows after it. */
  lemma {:induction false} WorkSends(sp: Splitter, txn: Rows, gw: Shares, ids: seq<int>, fates: seq<Fate>, i: nat, j: nat)
    requires |ids| == |fates| && Unmigrated(txn, ids) && UniqueNames(txn) && DoneBefore(fates, i)
    ensures var w := Work(sp, txn, gw, ids, fates);
            var row := txn[ids[i]];
            && ((fates[i].Done? || fates[i].FailsAfterStore?) ==>
                  row.name in w.shares && w.shares[row.name] == sp.split(row.value.value, fates[i].rnd).1)
            && (fates[i].TimesOut? ==> w.late == {Request(row.name, sp.split(row.value.value, fates[i].rnd).1)})
            && (!fates[i].Done? ==> !w.done)
            && (!fates[i].Done? && i < j < |ids| ==>
                  (txn[ids[j]].name in w.shares <==> txn[ids[j]].name in gw)
                  && (txn[ids[j]].name in gw ==> w.shares[txn[ids[j]].name] == gw[txn[ids[j]].name]))
            && ((fates[i].FailsEarly? || fates[i].TimesOut?) ==>
                  (row.name in w.shares <==> row.name in gw) && (row.name in gw ==> w.shares[row.name] == gw[row.name]))
    decreases |ids|
  {
    hide UniqueNames, Unmigrated;
    FirstNames(txn, ids, i, j);
    FirstNames(txn, ids, 0, j);
    var row := txn[ids[0]];
    if fates[0].Done? {
      var rnd := fates[0].rnd;
      var next, gw1 := txn[ids[0] := UpdateRow(sp, row, rnd)], gw[row.name := ShareFor(sp, row, rnd)];
      Rest(sp, txn, ids, rnd);
      NextNames(sp, txn, ids, rnd);
      if i == 0 {
        WorkFrame(sp, next, gw1, ids[1..], fates[1..]);
        assert !Named(next, ids[1..], row.name);
      } else {
        WorkSends(sp, next, gw1, ids[1..], fates[1..], i - 1, if j > 0 then j - 1 else 0);
      }
    }
  }

  lemma FirstNames(txn: Rows, ids: seq<int>, i: nat, j: nat)
    requires Unmigrated(txn, ids) && UniqueNames(txn) && i < |ids|
    ensures ids[0] in txn && ids[i] in txn && txn[ids[i]].value.Some?
    ensures i > 0 ==> txn[ids[i]].name != txn[ids[0]].name
    ensures j < |ids| ==> ids[j] in txn && txn[ids[j]].value.Some?
    ensures j < |ids| && i != j ==> txn[ids[i]].name != txn[ids[j]].name
    ensures 0 < j < |ids| ==> txn[ids[0]].name != txn[ids[j]].name
  {
  }

  lemma NextNames(sp: Splitter, txn: Rows, ids: seq<int>, rnd: nat)
    requires ids != [] && Unmigrated(txn, ids) && UniqueNames(txn)
    ensures var next := txn[ids[0] := UpdateRow(sp, txn[ids[0]], rnd)];
            && UniqueNames(next) && (forall k :: 1 <= k < |ids| ==> ids[k] in txn && next[ids[k]] == txn[ids[k]])
            && !Named(next, ids[1..], txn[ids[0]].name)
  {
    Rest(sp, txn, ids, rnd);
  }

  /** What a run leaves: rolled back rows when any row or the commit fails, otherwise each listed row
      with the first share of its split and no value. What was sent stays sent. */
  lemma {:induction false} RunLeaves(sp: Splitter, db: Rows, gw: Shares, ids: seq<int>, fates: seq<Fate>, commits: bool, i: nat)
    requires |ids| == |fates| && Unmigrated(db, ids)
    ensures var w, pass := Work(sp, db, gw, ids, fates), Migrate(sp, db, gw, ids, fates, commits);
            && pass.shares == w.shares && pass.late == w.late
            && (pass.done <==> commits && forall k :: 0 <= k < |fates| ==> fates[k].Done?)
            && (!pass.done ==> pass.rows == db)
            && (pass.done && i < |ids| ==>
                  ids[i] in pass.rows
                  && pass.rows[ids[i]] == Row(db[ids[i]].name, None, Some(sp.split(db[ids[i]].value.value, fates[i].rnd).0)))
  {
    hide Work;
    WorkCompletes(sp, db, gw, ids, fates);
    if Work(sp, db, gw, ids, fates).done && i < |ids| {
      WorkUpdates(sp, db, gw, ids, fates, i);
    }
  }

  /** One run, failing or not, loses no secret. */
  lemma {:induction false} MigrateKeepsSecrets(sp: Splitter, db: Rows, gw: Shares, secrets: map<int, string>,
                                               ids: seq<int>, fates: seq<Fate>, commits: bool)
    requires Recombines(sp) && UniqueNames(db) && AllRecoverable(sp, db, gw, secrets)
    requires |ids| == |fates| && Unmigrated(db, ids)
    ensures var w := Migrate(sp, db, gw, ids, fates, commits);
            UniqueNames(w.rows) && AllRecoverable(sp, w.rows, w.shares, secrets)
  {
    hide Work, Fits, Recombines;
    WorkFrame(sp, db, gw, ids, fates);
    var w := Migrate(sp, db, gw, ids, fates, commits);
    forall id | id in db ensures Recoverable(sp, w.rows[id], w.shares, secrets[id]) {
      assert Recoverable(sp, db[id], gw, secrets[id]);
      if id in ids {
        if w.done {
          WorkSplits(sp, db, gw, ids, fates, id);
        }
      } else if db[id].value == None {
        assert !Named(db, ids, db[id].name);
      }
    }
  }

  // ----- any number of runs -----

  /** Between runs, new secrets may be created under new ids and names, and requests of failed runs
      (also of one that overlaps and fails) may arrive. */
  datatype Op =
    | Run(ids: seq<int>, fates: seq<Fate>, commits: bool)
    | Create(id: int, name: string, secret: string)
    | Deliver(r: Request)

  datatype World = World(db: Rows, gw: Shares, secrets: map<int, string>, inFlight: set<Request>)

  /** The SELECT returns every row that still has its value. */
  predicate Selects(db: Rows, ids: seq<int>) {
    Unmigrated(db, ids) && forall id :: id in db && db[id].value.Some? ==> id in ids
  }

  predicate Possible(w: World, op: Op) {
    match op
    case Run(ids, fates, _) => |ids| == |fates| && Selects(w.db, ids)
    case Create(id, name, _) => id !in w.db && id !in w.secrets && forall x :: x in w.db ==> w.db[x].name != name
    case Deliver(r) => r in w.inFlight
  }

  function Perform(sp: Splitter, w: World, op: Op): World {
    if !Possible(w, op) then w
    else
      match op
      case Run(ids, fates, commits) =>
        var pass := Migrate(sp, w.db, w.gw, ids, fates, commits);
        World(pass.rows, pass.shares, w.secrets, w.inFlight + pass.late)
      case Create(id, name, secret) =>
        w.(db := w.db[id := Row(name, Some(secret), None)], secrets := w.secrets[id := secret])
      case Deliver(r) =>
        w.(gw := w.gw[r.name := r.share], inFlight := w.inFlight - {r})
  }

  function History(sp: Splitter, w: World, ops: seq<Op>): World {
    if ops == [] then w else Perform(sp, History(sp, w, ops[..|ops| - 1]), ops[|ops| - 1])
  }

  predicate Safe(sp: Splitter, w: World) {
    UniqueNames(w.db) && AllRecoverable(sp, w.db, w.gw, w.secrets)
  }

  /** Whatever is under way is for a secret that still has its value, or fits the share held here. */
  predicate LateSharesFit(sp: Splitter, w: World) {
    forall r, id :: r in w.inFlight && id in w.db && id in w.secrets && w.db[id].name == r.name ==>
      w.db[id].value.Some? || Fits(sp, w.db[id], r.share, w.secrets[id])
  }

  /** A run that succeeds splits each row so that the requests under way for it fit the new split, too. */
  predicate FitsLate(sp: Splitter, w: World, op: Op) {
    op.Run? && Possible(w, op) && Migrate(sp, w.db, w.gw, op.ids, op.fates, op.commits).done ==>
      forall r, i :: (r in w.inFlight && 0 <= i < |op.ids| && w.db[op.ids[i]].name == r.name && op.ids[i] in w.secrets
                      && op.fates[i].Done?) ==>
        sp.combine(sp.split(w.secrets[op.ids[i]], op.fates[i].rnd).0, r.share) == w.secrets[op.ids[i]]
  }

  lemma {:induction false} RunKeepsSafe(sp: Splitter, w: World, op: Op)
    requires Recombines(sp) && Safe(sp, w) && op.Run? && Possible(w, op)
    ensures Safe(sp, Perform(sp, w, op))
  {
    hide Work, Fits, Recombines;
    MigrateKeepsSecrets(sp, w.db, w.gw, w.secrets, op.ids, op.fates, op.commits);
  }

  /** A run that fails leaves at most requests for rows that keep their value. */
  lemma {:induction false} FailedRunKeepsFit(sp: Splitter, w: World, op: Op)
    requires Safe(sp, w) && LateSharesFit(sp, w) && op.Run? && Possible(w, op)
    requires !Migrate(sp, w.db, w.gw, op.ids, op.fates, op.commits).done
    ensures LateSharesFit(sp, Perform(sp, w, op))
  {
    hide Work, Fits;
    WorkFrame(sp, w.db, w.gw, op.ids, op.fates);
    var w' := Perform(sp, w, op);
    forall r, id | r in w'.inFlight && id in w'.db && id in w'.secrets && w'.db[id].name == r.name
      ensures w'.db[id].value.Some? || Fits(sp, w'.db[id], r.share, w'.secrets[id])
    {
      if r !in w.inFlight {
        var i :| 0 <= i < |op.ids| && op.ids[i] in w.db && w.db[op.ids[i]].name == r.name;
        assert op.ids[i] == id;
      }
    }
  }

  /** One row of a run that succeeds. */
  lemma SplitFitsIff(sp: Splitter, w: World, op: Op, r: Request, i: nat)
    requires Safe(sp, w) && op.Run? && Possible(w, op) && i < |op.ids|
    requires Migrate(sp, w.db, w.gw, op.ids, op.fates, op.commits).done
    ensures var w', id := Perform(sp, w, op), op.ids[i];
            && op.fates[i].Done? && id in w'.db && id in w.secrets && w'.db[id].value == None
            && w'.inFlight == w.inFlight && w'.secrets == w.secrets
            && (Fits(sp, w'.db[id], r.share, w.secrets[id]) <==>
                  sp.combine(sp.split(w.secrets[id], op.fates[i].rnd).0, r.share) == w.secrets[id])
  {
    hide Work;
    WorkFrame(sp, w.db, w.gw, op.ids, op.fates);
    WorkUpdates(sp, w.db, w.gw, op.ids, op.fates, i);
    assert Recoverable(sp, w.db[op.ids[i]], w.gw, w.secrets[op.ids[i]]);
  }

  lemma {:induction false} SuccessfulRunKeepsFitIff(sp: Splitter, w: World, op: Op)
    requires Safe(sp, w) && LateSharesFit(sp, w) && op.Run? && Possible(w, op)
    requires Migrate(sp, w.db, w.gw, op.ids, op.fates, op.commits).done
    ensures LateSharesFit(sp, Perform(sp, w, op)) <==> FitsLate(sp, w, op)
  {
    hide Work, Fits;
    WorkFrame(sp, w.db, w.gw, op.ids, op.fates);
    var w' := Perform(sp, w, op);
    assert w'.inFlight == w.inFlight;
    if FitsLate(sp, w, op) {
      forall r, id | r in w'.inFlight && id in w'.db && id in w'.secrets && w'.db[id].name == r.name
        ensures w'.db[id].value.Some? || Fits(sp, w'.db[id], r.share, w'.secrets[id])
      {
        if i :| 0 <= i < |op.ids| && op.ids[i] == id {
          SplitFitsIff(sp, w, op, r, i);
        } else {
          assert w'.db[id] == w.db[id];
        }
      }
    }
    if LateSharesFit(sp, w') {
      forall r, i | r in w.inFlight && 0 <= i < |op.ids| && w.db[op.ids[i]].name == r.name && op.ids[i] in w.secrets
                    && op.fates[i].Done?
        ensures sp.combine(sp.split(w.secrets[op.ids[i]], op.fates[i].rnd).0, r.share) == w.secrets[op.ids[i]]
      {
        SplitFitsIff(sp, w, op, r, i);
        assert w'.db[op.ids[i]].name == r.name;
      }
    }
  }

  lemma DeliveryKeepsFit(sp: Splitter, w: World, r: Request)
    requires Safe(sp, w) && LateSharesFit(sp, w) && r in w.inFlight
    ensures Safe(sp, Perform(sp, w, Deliver(r))) && LateSharesFit(sp, Perform(sp, w, Deliver(r)))
  {
    hide Fits;
  }

  lemma CreationKeepsFit(sp: Splitter, w: World, op: Op)
    requires Safe(sp, w) && LateSharesFit(sp, w) && op.Create? && Possible(w, op)
    ensures Safe(sp, Perform(sp, w, op)) && LateSharesFit(sp, Perform(sp, w, op))
  {
    hide Fits;
  }

  /** One step keeps what is under way fitting exactly when it does not split a row against it. */
  lemma {:induction false} StepKeepsFitIff(sp: Splitter, w: World, op: Op)
    requires Recombines(sp) && Safe(sp, w) && LateSharesFit(sp, w)
    ensures Safe(sp, Perform(sp, w, op))
    ensures LateSharesFit(sp, Perform(sp, w, op)) <==> FitsLate(sp, w, op)
  {
    hide Recombines, Safe, LateSharesFit, Work, Fits;
    if Possible(w, op) {
      match op {
        case Run(ids, fates, commits) =>
          RunKeepsSafe(sp, w, op);
          if Migrate(sp, w.db, w.gw, ids, fates, commits).done {
            SuccessfulRunKeepsFitIff(sp, w, op);
          } else {
            FailedRunKeepsFit(sp, w, op);
          }
        case Create(_, _, _) => CreationKeepsFit(sp, w, op);
        case Deliver(r) => DeliveryKeepsFit(sp, w, r);
      }
    }
  }

  /** After any number of runs, each failing at any point or not at all, secrets created in between
      and late requests arriving: every secret still has its value, or its two shares recombine to
      it, as long as no run succeeds with a split that a request under way does not fit. */
  lemma {:induction false} HistoryKeepsSecrets(sp: Splitter, w: World, ops: seq<Op>)
    requires Recombines(sp) && Safe(sp, w) && LateSharesFit(sp, w)
    requires forall n :: 0 <= n < |ops| ==> FitsLate(sp, History(sp, w, ops[..n]), ops[n])
    ensures Safe(sp, History(sp, w, ops)) && LateSharesFit(sp, History(sp, w, ops))
    ensures forall id :: id in w.secrets ==> id in History(sp, w, ops).secrets && History(sp, w, ops).secrets[id] == w.secrets[id]
    decreases |ops|
  {
    hide Recombines, Perform, Safe, LateSharesFit, FitsLate;
    if ops != [] {
      var init, op := ops[..|ops| - 1], ops[|ops| - 1];
      assert forall n :: 0 <= n < |init| ==> init[..n] == ops[..n] && init[n] == ops[n];
      HistoryKeepsSecrets(sp, w, init);
      SecretsStay(sp, History(sp, w, init), op);
      StepKeepsFitIff(sp, History(sp, w, init), op);
    }
  }

  lemma SecretsStay(sp: Splitter, w: World, op: Op)
    ensures forall id :: id in w.secrets ==> id in Perform(sp, w, op).secrets && Perform(sp, w, op).secrets[id] == w.secrets[id]
  {
  }

  lemma Impossible(sp: Splitter, w: World, op: Op)
    requires !Possible(w, op)
    ensures Perform(sp, w, op) == w
  {
  }

  predicate OnlyDeliveries(ops: seq<Op>) {
    forall op :: op in ops ==> op.Deliver?
  }

  /** The secrets survive everything that is under way, in whatever order it arrives, exactly when it fits. */
  lemma {:induction false} LateSharesExactly(sp: Splitter, w: World)
    requires Safe(sp, w)
    ensures (forall ops :: OnlyDeliveries(ops) ==> Safe(sp, History(sp, w, ops))) <==> LateSharesFit(sp, w)
  {
    hide Fits, History;
    if LateSharesFit(sp, w) {
      forall ops | OnlyDeliveries(ops) ensures Safe(sp, History(sp, w, ops)) {
        DeliveriesKeepFit(sp, w, ops);
      }
    } else {
      var r, id :| r in w.inFlight && id in w.db && id in w.secrets && w.db[id].name == r.name
                   && !(w.db[id].value.Some? || Fits(sp, w.db[id], r.share, w.secrets[id]));
      OneDelivery(sp, w, r);
      assert OnlyDeliveries([Deliver(r)]);
      assert !Recoverable(sp, w.db[id], w.gw[r.name := r.share], w.secrets[id]);
    }
  }

  lemma OneDelivery(sp: Splitter, w: World, r: Request)
    requires r in w.inFlight
    ensures History(sp, w, [Deliver(r)]) == w.(gw := w.gw[r.name := r.share], inFlight := w.inFlight - {r})
  {
    assert [Deliver(r)][..0] == [];
    assert History(sp, w, []) == w;
  }

  lemma {:induction false} DeliveriesKeepFit(sp: Splitter, w: World, ops: seq<Op>)
    requires Safe(sp, w) && LateSharesFit(sp, w) && OnlyDeliveries(ops)
    ensures Safe(sp, History(sp, w, ops)) && LateSharesFit(sp, History(sp, w, ops))
    decreases |ops|
  {
    hide Perform, Safe, LateSharesFit;
    if ops != [] {
      var init, op := ops[..|ops| - 1], ops[|ops| - 1];
      assert op in ops && forall x :: x in init ==> x in ops;
      DeliveriesKeepFit(sp, w, init);
      if Possible(History(sp, w, init), op) {
        DeliveryKeepsFit(sp, History(sp, w, init), op.r);
      } else {
        Impossible(sp, History(sp, w, init), op);
      }
    }
  }

  /** Over every history: the secrets survive each part of it followed by any requests then under
      way, if and only if no run in it succeeds with a split that a request under way does not fit. */
  lemma {:induction false} HistoryExactly(sp: Splitter, w: World, ops: seq<Op>)
    requires Recombines(sp) && Safe(sp, w) && LateSharesFit(sp, w)
    ensures (forall n: nat, late :: n <= |ops| && OnlyDeliveries(late) ==> Safe(sp, History(sp, History(sp, w, ops[..n]), late)))
       <==> (forall n: nat :: n < |ops| ==> FitsLate(sp, History(sp, w, ops[..n]), ops[n]))
    decreases |ops|
  {
    hide Recombines, Perform, Safe, LateSharesFit, FitsLate, OnlyDeliveries, History;
    assert ops[..|ops|] == ops;
    if ops == [] {
      assert History(sp, w, ops[..0]) == w by { EmptyHistory(sp, w, ops[..0]); }
      LateSharesExactly(sp, w);
    } else {
      var m := |ops| - 1;
      var init, op := ops[..m], ops[m];
      assert forall n: nat :: n <= m ==> init[..n] == ops[..n];
      assert forall n: nat :: n < m ==> init[n] == ops[n];
      HistoryExactly(sp, w, init);
      if forall n: nat :: n < m ==> FitsLate(sp, History(sp, w, init[..n]), init[n]) {
        HistoryKeepsSecrets(sp, w, init);
        StepKeepsFitIff(sp, History(sp, w, init), op);
        LastStep(sp, w, ops);
        LateSharesExactly(sp, History(sp, w, ops));
      }
    }
  }

  lemma EmptyHistory(sp: Splitter, w: World, ops: seq<Op>)
    requires ops == []
    ensures History(sp, w, ops) == w
  {
  }

  lemma LastStep(sp: Splitter, w: World, ops: seq<Op>)
    requires ops != []
    ensures History(sp, w, ops) == Perform(sp, History(sp, w, ops[..|ops| - 1]), ops[|ops| - 1])
  {
    hide Perform;
  }

  predicate Succeeds(op: Op) {
    op.Run? && op.commits && forall k :: 0 <= k < |op.fates| ==> op.fates[k].Done?
  }

  lemma {:induction false} WorkCompletes(sp: Splitter, txn: Rows, gw: Shares, ids: seq<int>, fates: seq<Fate>)
    requires |ids| == |fates| && Unmigrated(txn, ids)
    ensures Work(sp, txn, gw, ids, fates).done <==> forall k :: 0 <= k < |fates| ==> fates[k].Done?
    decreases |ids|
  {
    if ids != [] && fates[0].Done? {
      Rest(sp, txn, ids, fates[0].rnd);
      WorkCompletes(sp, txn[ids[0] := UpdateRow(sp, txn[ids[0]], fates[0].rnd)],
                    gw[txn[ids[0]].name := ShareFor(sp, txn[ids[0]], fates[0].rnd)], ids[1..], fates[1..]);
      assert forall k :: 1 <= k < |fates| ==> fates[k] == fates[1..][k - 1];
    }
  }

  /** Whatever failed before, one successful run leaves no value behind and every secret in two
      shares that recombine to it; and no request that then arrives undoes that. */
  lemma {:induction false} OneSuccessFinishes(sp: Splitter, w: World, ops: seq<Op>, last: Op)
    requires Recombines(sp) && Safe(sp, w) && LateSharesFit(sp, w)
    requires forall n :: 0 <= n < |ops| ==> FitsLate(sp, History(sp, w, ops[..n]), ops[n])
    requires FitsLate(sp, History(sp, w, ops), last)
    requires Possible(History(sp, w, ops), last) && Succeeds(last)
    ensures var w' := Perform(sp, History(sp, w, ops), last);
            && (forall id :: id in w'.secrets ==>
                  id in w'.db && w'.db[id].value == None && w'.db[id].name in w'.gw
                  && Fits(sp, w'.db[id], w'.gw[w'.db[id].name], w'.secrets[id]))
            && LateSharesFit(sp, w')
  {
    hide Work, History, Recombines, FitsLate, LateSharesFit;
    HistoryKeepsSecrets(sp, w, ops);
    var h := History(sp, w, ops);
    StepKeepsFitIff(sp, h, last);
    WorkFrame(sp, h.db, h.gw, last.ids, last.fates);
    WorkCompletes(sp, h.db, h.gw, last.ids, last.fates);
    var w' := Perform(sp, h, last);
    forall id | id in w'.secrets ensures w'.db[id].value == None {
      if id !in last.ids {
        assert w'.db[id] == h.db[id];
      }
    }
  }

  /** The condition is needed: the request of a failed run that arrives after a successful one leaves
      a secret that can be had exactly when the two splits happen to fit. */
  lemma {:induction false} LateShareLosesSecret(sp: Splitter, db: Rows, gw: Shares, id: int, late: nat, rnd: nat)
    requires id in db && db[id].value.Some?
    ensures var secret, name := db[id].value.value, db[id].name;
            var share := sp.split(secret, late).1;
            var failed := Migrate(sp, db, gw, [id], [TimesOut(late)], true);
            var succeeded := Migrate(sp, db, failed.shares, [id], [Done(rnd)], true);
            && failed.rows == db && failed.late == {Request(name, share)} && succeeded.done && id in succeeded.rows
            && (Recoverable(sp, succeeded.rows[id], succeeded.shares[name := share], secret) <==>
                  sp.combine(sp.split(secret, rnd).0, share) == secret)
  {
    OneRow(sp, db, gw, id, rnd);
  }

  lemma OneRow(sp: Splitter, db: Rows, gw: Shares, id: int, rnd: nat)
    requires id in db && db[id].value.Some?
    ensures Work(sp, db, gw, [id], [Done(rnd)])
         == Pass(db[id := UpdateRow(sp, db[id], rnd)], gw[db[id].name := ShareFor(sp, db[id], rnd)], {}, true)
  {
    hide UpdateRow, ShareFor;
    var next, gw1 := db[id := UpdateRow(sp, db[id], rnd)], gw[db[id].name := ShareFor(sp, db[id], rnd)];
    assert [id][1..] == [] && [Done(rnd)][1..] == [];
    assert Work(sp, next, gw1, [], []) == Pass(next, gw1, {}, true);
  }

  /** And splits that recombine each with itself need not fit each other. */
  lemma SplitsNeedNotFit()
    ensures exists sp: Splitter :: Recombines(sp) && sp.combine(sp.split("x", 0).0, sp.split("x", 1).1) != "x"
  {
    var sp := Splitter((value, rnd) => (if rnd == 0 then "" else "k", value + (if rnd == 0 then "" else "k")),
                       (a, b) => if a == "" || b == "" then b else b[..|b| - 1]);
    forall value: string, rnd: nat ensures sp.combine(sp.split(value, rnd).0, sp.split(value, rnd).1) == value {
      assert rnd != 0 ==> (value + "k")[..|value|] == value;
      assert value + "" == value;
    }
    assert |sp.combine(sp.split("x", 0).0, sp.split("x", 1).1)| == 2;
  }

  /** Unique names are needed: with two rows of one name, a run without any failure loses the first.
      The unique index on the name column rules this out, so it is a witness only. */
  lemma SharedNameLosesSecret()
    ensures var sp := Splitter((value, rnd) => ("", value), (a, b) => b);
            var db: Rows := map[1 := Row("n", Some("x"), None), 2 := Row("n", Some("yy"), None)];
            var pass := Migrate(sp, db, map[], [1, 2], [Done(0), Done(0)], true);
            && Recombines(sp) && Unmigrated(db, [1, 2])
            && AllRecoverable(sp, db, map[], map[1 := "x", 2 := "yy"])
            && !Recoverable(sp, pass.rows[1], pass.shares, "x")
  {
  }

  // ----- the script -----

  class Database {
    var rows: Rows

    constructor (rows: Rows)
      ensures this.rows == rows
    {
      this.rows := rows;
    }
  }

  class ShareStore {
    var shares: Shares
    var inFlight: set<Request>

    constructor (shares: Shares)
      ensures this.shares == shares && inFlight == {}
    {
      this.shares, inFlight := shares, {};
    }

    method Put(name: string, share: string)
      modifies this
      ensures shares == old(shares)[name := share] && inFlight == old(inFlight)
    {
      shares := shares[name := share];
    }

    /** The sender gives up on a request that may still arrive. */
    method TimeOut(name: string, share: string)
      modifies this
      ensures shares == old(shares) && inFlight == old(inFlight) + {Request(name, share)}
    {
      inFlight := inFlight + {Request(name, share)};
    }
  }

  method MigrateSecrets(sp: Splitter, db: Database, gw: ShareStore, ids: seq<int>, fates: seq<Fate>, commits: bool) returns (ok: bool)
    requires |ids| == |fates| && Unmigrated(db.rows, ids)
    modifies db, gw
    ensures var pass := Migrate(sp, old(db.rows), old(gw.shares), ids, fates, commits);
            && db.rows == pass.rows && gw.shares == pass.shares && gw.inFlight == old(gw.inFlight) + pass.late
            && ok == pass.done
  {
    hide ShareFor, UpdateRow;
    var txn := db.rows;
    ghost var start := gw.shares;
    for i := 0 to |ids|
      invariant Unmigrated(txn, ids[i..]) && db.rows == old(db.rows) && gw.inFlight == old(gw.inFlight)
      invariant Work(sp, txn, gw.shares, ids[i..], fates[i..]) == Work(sp, db.rows, start, ids, fates)
    {
      assert ids[i..][0] == ids[i] && ids[i..][1..] == ids[i + 1..] && fates[i..][1..] == fates[i + 1..];
      var row := txn[ids[i]];
      if fates[i].FailsEarly? {
        return false;
      }
      var (share1, share2) := sp.split(row.value.value, fates[i].rnd);
      Rest(sp, txn, ids[i..], fates[i].rnd);
      StepShapes(sp, row, fates[i].rnd);
      if fates[i].TimesOut? {
        gw.TimeOut(row.name, share2);
        return false;
      }
      gw.Put(row.name, share2);
      if fates[i].FailsAfterStore? {
        return false;
      }
      txn := txn[ids[i] := row.(share1 := Some(share1), value := None)];
    }
    if !commits {
      return false;
    }
    db.rows := txn;
    return true;
  }

  lemma StepShapes(sp: Splitter, row: Row, rnd: nat)
    requires row.value.Some?
    ensures ShareFor(sp, row, rnd) == sp.split(row.value.value, rnd).1
    ensures UpdateRow(sp, row, rnd) == row.(share1 := Some(sp.split(row.value.value, rnd).0), value := None)
  {
  }
}
