/** What the other sessions do while a transaction is between two of its statements. */
module Schedules {
  import opened Basics
  import opened PgRows
  import opened TxJoin
  import opened TxJoinProofs

  /** The action is a statement of transaction id. */
  predicate Acts(a: Action, id: nat) {
    match a
    case BeginTx(i) => i == id
    case Update(i, _, _, _, _) => i == id
    case Classify(i) => i == id
    case CommitTx(i) => i == id
    case RollbackTx(i) => i == id
    case _ => false
  }

  ghost predicate ByOthers(run: seq<Action>, id: nat) {
    forall i :: 0 <= i < |run| ==> !Acts(run[i], id)
  }

  lemma {:induction false} OthersLeaveTransaction(w: World, run: seq<Action>, id: nat)
    requires Possible(w, run) && ByOthers(run, id) && id in w.txs
    ensures id in After(w, run).txs && After(w, run).txs[id] == w.txs[id]
    decreases |run|
  {
    hide Apply;
    if |run| > 0 {
      assert !Acts(run[0], id);
      OtherStep(w, run[0], id);
      assert forall i :: 0 <= i < |run| - 1 ==> run[1..][i] == run[i + 1];
      OthersLeaveTransaction(Apply(w, run[0]), run[1..], id);
    }
  }

  lemma OtherStep(w: World, a: Action, id: nat)
    requires Enabled(w, a) && !Acts(a, id) && id in w.txs
    ensures id in Apply(w, a).txs && Apply(w, a).txs[id] == w.txs[id]
  {
  }

  /** A run of the others: it is possible, and transaction id does nothing in it. */
  ghost predicate Schedule(w: World, run: seq<Action>, id: nat) {
    Possible(w, run) && ByOthers(run, id)
  }

  /** The update found the caller's live reservation and made the row the transaction's own. */
  predicate Won(at: World, id: nat, key: Bytes, token: Bytes)
    requires id in at.txs
  {
    !LockedByOther(at, id, key) && Matches(Visible(at, id, key), token, at.txs[id].start)
  }

  // ---------------------------------------------------------------- a reservation nobody else ends

  /** The action completes, releases or commits the key under the token. */
  predicate EndsReservation(w: World, a: Action, key: Bytes, token: Bytes)
    requires Enabled(w, a)
  {
    match a
    case Execute(i) =>
      (match w.running[i].statement
       case Complete(k, t, _, _) => k == key && t == token
       case Release(k, t) => k == key && t == token
       case _ => false)
    case CommitTx(i) => key in w.txs[i].pending && w.txs[i].pending[key].token == token
    case _ => false
  }

  /** Nobody uses the token on the key all along the run. */
  ghost predicate LeftToOwner(w: World, run: seq<Action>, key: Bytes, token: Bytes)
    requires Possible(w, run)
    decreases |run|
  {
    |run| == 0
    || (!EndsReservation(w, run[0], key, token) && LeftToOwner(Apply(w, run[0]), run[1..], key, token))
  }

  predicate HoldsReserved(w: World, key: Bytes, r: Row) {
    CommittedRow(w, key) == Some(r) && r.state == RESERVED
  }

  lemma ReservationStep(w: World, a: Action, key: Bytes, r: Row)
    requires Inv(w) && Enabled(w, a) && HoldsReserved(w, key, r) && w.now < r.leaseExpiresAt
    requires !EndsReservation(w, a, key, r.token)
    ensures HoldsReserved(Apply(w, a), key, r)
  {
    if a.CommitTx? {
      OwnPendingIsGood(w, a.id);
    }
  }

  lemma ClockStep(w: World, a: Action)
    requires Enabled(w, a)
    ensures w.now <= Apply(w, a).now
  {
  }

  lemma {:induction false} ClockRuns(w: World, run: seq<Action>)
    requires Possible(w, run)
    ensures w.now <= After(w, run).now
    decreases |run|
  {
    hide Apply, Enabled;
    if |run| > 0 {
      ClockStep(w, run[0]);
      ClockRuns(Apply(w, run[0]), run[1..]);
    }
  }

  /** Until its deadline such a reservation stays exactly as it is, whatever the others do. */
  lemma {:induction false} ReservationStays(w: World, run: seq<Action>, key: Bytes, r: Row)
    requires Inv(w) && Possible(w, run) && HoldsReserved(w, key, r)
    requires LeftToOwner(w, run, key, r.token) && After(w, run).now < r.leaseExpiresAt
    ensures HoldsReserved(After(w, run), key, r)
    decreases |run|
  {
    hide Inv, Apply, Enabled, EndsReservation, HoldsReserved;
    if |run| > 0 {
      ClockRuns(w, run);
      ReservationStep(w, run[0], key, r);
      StepKeepsInv(w, run[0]);
      ReservationStays(Apply(w, run[0]), run[1..], key, r);
    }
  }

  // ---------------------------------------------------------------- who joined

  /** The row is what the join asked for: completed under its token, with its payload, until its record
      TTL, in whole milliseconds, has passed since the start of the transaction. */
  predicate Fulfils(row: Row, m: Event)
    requires m.Join?
  {
    && row.token == m.token && row.state == COMPLETED && row.payload == Some(m.payload)
    && row.recordExpiresAt == Some(m.start + MILLI * Millis(m.ttl))
  }

  /** The transaction was told that it joined the key. */
  ghost predicate ToldJoined(log: seq<Event>, id: nat, key: Bytes, token: Bytes) {
    exists m :: m in log && m.Join? && m.tx == id && m.key == key && m.token == token
  }

  /** An open transaction has its own version of a row exactly if it was told so, and it is the one it
      asked for; and so is every row that was committed. */
  ghost predicate JoinsAreTold(w: World) {
    && (forall e :: e in w.log ==> e.tx in w.txs)
    && (forall e :: e in w.log && e.Commit? ==> w.txs[e.tx].status.Committed?)
    && (forall id, key, token :: IsOpen(w, id) ==> TellsPending(w, id, key, token))
    && (forall m :: m in w.log && m.Join? ==> JoinKept(w, m))
    && (forall e, m :: e in w.log && m in w.log && e.Commit? && m.Join? && m.tx == e.tx ==> JoinCommitted(e, m))
  }

  ghost predicate TellsPending(w: World, id: nat, key: Bytes, token: Bytes)
    requires id in w.txs
  {
    ToldJoined(w.log, id, key, token) <==> key in w.txs[id].pending && w.txs[id].pending[key].token == token
  }

  ghost predicate JoinKept(w: World, m: Event)
    requires m.Join?
  {
    IsOpen(w, m.tx) ==>
      && m.start == w.txs[m.tx].start
      && m.key in w.txs[m.tx].pending && Fulfils(w.txs[m.tx].pending[m.key], m)
  }

  ghost predicate JoinCommitted(e: Event, m: Event)
    requires e.Commit? && m.Join?
  {
    m.key in e.joined && Fulfils(e.joined[m.key], m)
  }

  lemma StepKeepsTold(w: World, a: Action)
    requires Inv(w) && JoinsAreTold(w) && Enabled(w, a)
    ensures JoinsAreTold(Apply(w, a))
  {
    hide Inv, DoUpdate, DoCommit, DoExecute, Fulfils;
    match a
    case Update(id, key, token, payload, ttl) => UpdateKeepsTold(w, id, key, token, payload, ttl);
    case CommitTx(id) => CommitKeepsTold(w, id);
    case Execute(id) =>
      ExecuteKeepsTxs(w, id);
      SameTold(w, Apply(w, a));
    case _ =>
      OtherKeepsTold(w, a);
  }

  lemma ExecuteKeepsTxs(w: World, id: nat)
    requires Enabled(w, Execute(id))
    ensures DoExecute(w, id).txs == w.txs && DoExecute(w, id).log == w.log
  {
  }

  lemma SameTold(w: World, w': World)
    requires JoinsAreTold(w) && w'.txs == w.txs && w'.log == w.log
    ensures JoinsAreTold(w')
  {
    hide Fulfils;
    forall id, key, token | IsOpen(w', id) ensures TellsPending(w', id, key, token) {
      assert TellsPending(w, id, key, token);
    }
    forall m | m in w'.log && m.Join? ensures JoinKept(w', m) {
      assert JoinKept(w, m);
    }
  }

  lemma OtherKeepsTold(w: World, a: Action)
    requires JoinsAreTold(w) && Enabled(w, a) && !a.Update? && !a.CommitTx? && !a.Execute?
    ensures JoinsAreTold(Apply(w, a))
  {
    hide Fulfils;
    var w' := Apply(w, a);
    forall id, key, token | IsOpen(w', id) ensures TellsPending(w', id, key, token) {
      assert IsOpen(w, id) ==> TellsPending(w, id, key, token);
    }
    forall m | m in w'.log && m.Join? ensures JoinKept(w', m) {
      assert m in w.log && JoinKept(w, m);
    }
    forall e, m | e in w'.log && m in w'.log && e.Commit? && m.Join? && m.tx == e.tx ensures JoinCommitted(e, m) {
      assert e in w.log && m in w.log;
    }
  }

  lemma CommitKeepsTold(w: World, id: nat)
    requires JoinsAreTold(w) && Enabled(w, CommitTx(id))
    ensures JoinsAreTold(DoCommit(w, id))
  {
    hide Fulfils;
    var w' := DoCommit(w, id);
    forall i, key, token | IsOpen(w', i) ensures TellsPending(w', i, key, token) {
      assert TellsPending(w, i, key, token);
    }
    forall m | m in w'.log && m.Join? ensures JoinKept(w', m) {
      assert m in w.log && JoinKept(w, m);
    }
    forall e, m | e in w'.log && m in w'.log && e.Commit? && m.Join? && m.tx == e.tx ensures JoinCommitted(e, m) {
      assert m in w.log && JoinKept(w, m);
      if e in w.log {
        assert JoinCommitted(e, m);
      }
    }
  }

  lemma UpdateKeepsTold(w: World, id: nat, key: Bytes, token: Bytes, payload: Bytes, ttl: Time)
    requires Inv(w) && JoinsAreTold(w) && Enabled(w, Update(id, key, token, payload, ttl))
    ensures JoinsAreTold(DoUpdate(w, id, key, token, payload, ttl))
  {
    hide Inv, Fulfils;
    OwnPendingIsGood(w, id);
    var w' := DoUpdate(w, id, key, token, payload, ttl);
    assert w'.log != w.log ==> key !in w.txs[id].pending;
    if Won(w, id, key, token) {
      UpdateFulfils(w, id, key, token, payload, ttl);
    }
    forall i, k, t | IsOpen(w', i) ensures TellsPending(w', i, k, t) {
      assert TellsPending(w, i, k, t);
    }
    forall m | m in w'.log && m.Join? ensures JoinKept(w', m) {
      assert m in w.log ==> JoinKept(w, m);
    }
    forall e, m | e in w'.log && m in w'.log && e.Commit? && m.Join? && m.tx == e.tx ensures JoinCommitted(e, m) {
      assert e in w.log && w.txs[e.tx].status.Committed?;
      assert m in w.log;
    }
  }

  /** An update that won has made the row what was asked for. */
  lemma UpdateFulfils(w: World, id: nat, key: Bytes, token: Bytes, payload: Bytes, ttl: Time)
    requires Enabled(w, Update(id, key, token, payload, ttl)) && Won(w, id, key, token)
    ensures var w' := DoUpdate(w, id, key, token, payload, ttl);
            var m := Join(id, key, token, w.txs[id].start, payload, ttl);
            && w'.log == w.log + [m]
            && w'.txs == w.txs[id := w.txs[id].(pending := w'.txs[id].pending)]
            && key in w'.txs[id].pending && Fulfils(w'.txs[id].pending[key], m)
  {
  }

  lemma {:induction false} RunKeepsTold(w: World, run: seq<Action>)
    requires Inv(w) && JoinsAreTold(w) && Possible(w, run)
    ensures JoinsAreTold(After(w, run))
    decreases |run|
  {
    hide Inv, Apply, JoinsAreTold;
    if |run| > 0 {
      StepKeepsInv(w, run[0]);
      StepKeepsTold(w, run[0]);
      RunKeepsTold(Apply(w, run[0]), run[1..]);
    }
  }
}
