/** The transactional join keeps its invariant, and what follows from it. */
module TxJoinProofs {
  import opened Basics
  import opened PgRows
  import opened TxJoin

  lemma TickKeepsInv(w: World, d: nat)
    requires Inv(w)
    ensures Inv(Apply(w, Tick(d)))
  {
    hide GoodPending, StillUnmatched, KnownTokens, Spaced;
    var w' := Apply(w, Tick(d));
    assert AwaitingInv(w') by {
      forall t | IsOpen(w', t) && w'.txs[t].awaiting.Some? ensures StillUnmatched(w', t) {
        StaysUnmatched(w, w', t);
      }
    }
  }

  lemma StaysUnmatched(w: World, w': World, t: nat)
    requires t in w.txs && t in w'.txs && w'.txs[t] == w.txs[t] && w.txs[t].awaiting.Some? && StillUnmatched(w, t)
    requires var (key, token) := w.txs[t].awaiting.value; CommittedRow(w', key) == CommittedRow(w, key)
    requires w.claimed <= w'.claimed
    ensures StillUnmatched(w', t)
  {
  }

  /** Only the transactions moved: what that needs to keep the invariant. */
  lemma TxsMoved(w: World, w': World, id: nat)
    requires Inv(w)
    requires w'.now == w.now && w'.rows == w.rows && w'.running == w.running && w'.claimed == w.claimed
    requires id in w'.txs && w'.txs == w.txs[id := w'.txs[id]]
    requires w'.txs[id].start <= w.now
    requires forall key :: IsOpen(w', id) && key in w'.txs[id].pending ==>
               GoodPending(w.rows, key, w'.txs[id].start, w'.txs[id].pending[key]) && !LockedByOther(w, id, key)
    requires IsOpen(w', id) && w'.txs[id].awaiting.Some? ==> StillUnmatched(w', id)
    requires w'.log == w.log || (w.log < w'.log && |w'.log| == |w.log| + 1 && !w'.log[|w.log|].Commit?)
    ensures Inv(w')
  {
    hide GoodPending, StillUnmatched, KnownTokens;
    assert PendingInv(w') by { hide LockedByOther; }
    assert OneLock(w');
    assert AwaitingInv(w') by {
      forall t | IsOpen(w', t) && w'.txs[t].awaiting.Some? ensures StillUnmatched(w', t) {
        if t != id {
          StaysUnmatched(w, w', t);
        }
      }
    }
    LogAnswered(w, w');
  }

  lemma LogAnswered(w: World, w': World)
    requires Protected(w) && Spaced(w.log) && w'.now == w.now && w'.rows == w.rows
    requires w'.log == w.log || (w.log < w'.log && |w'.log| == |w.log| + 1 && !w'.log[|w.log|].Commit?)
    ensures Protected(w') && Spaced(w'.log)
  {
    if w'.log != w.log {
      var last := w'.log[|w.log|];
      assert w'.log == w.log + [last];
      assert forall key :: !JoinedKey(last, key);
      assert forall e :: e in w'.log <==> e in w.log || e == last;
    }
  }

  lemma UpdateKeepsInv(w: World, id: nat, key: Bytes, token: Bytes, payload: Bytes, ttl: Time)
    requires Inv(w) && Enabled(w, Update(id, key, token, payload, ttl))
    ensures Inv(Apply(w, Update(id, key, token, payload, ttl)))
  {
    hide Started, KnownTokens, AwaitingInv, Protected, Spaced;
    var w' := DoUpdate(w, id, key, token, payload, ttl);
    assert w.txs[id].start <= w.now by { OpenStarted(w, id); }
    forall k | IsOpen(w', id) && k in w'.txs[id].pending
      ensures GoodPending(w.rows, k, w'.txs[id].start, w'.txs[id].pending[k]) && !LockedByOther(w, id, k)
    {
    }
    TxsMoved(w, w', id);
  }

  lemma OpenStarted(w: World, id: nat)
    requires Inv(w) && id in w.txs
    ensures w.txs[id].start <= w.now
  {
  }

  lemma OwnPendingIsGood(w: World, id: nat)
    requires Inv(w) && IsOpen(w, id)
    ensures forall key :: key in w.txs[id].pending ==>
              GoodPending(w.rows, key, w.txs[id].start, w.txs[id].pending[key]) && !LockedByOther(w, id, key)
  {
  }

  lemma ClassifyKeepsInv(w: World, id: nat)
    requires Inv(w) && Enabled(w, Classify(id))
    ensures Inv(Apply(w, Classify(id)))
  {
    hide Inv, GoodPending, LockedByOther;
    OpenStarted(w, id);
    OwnPendingIsGood(w, id);
    TxsMoved(w, DoClassify(w, id), id);
  }

  lemma RollbackKeepsInv(w: World, id: nat)
    requires Inv(w) && Enabled(w, RollbackTx(id))
    ensures Inv(Apply(w, RollbackTx(id)))
  {
    hide Inv;
    OpenStarted(w, id);
    TxsMoved(w, DoRollback(w, id), id);
  }

  lemma BeginKeepsInv(w: World, id: nat)
    requires Inv(w) && Enabled(w, BeginTx(id))
    ensures Inv(Apply(w, BeginTx(id)))
  {
    hide Inv;
    TxsMoved(w, Apply(w, BeginTx(id)), id);
  }

  lemma IssueKeepsInv(w: World, id: nat, s: Statement)
    requires Inv(w) && Enabled(w, Issue(id, s))
    ensures Inv(Apply(w, Issue(id, s)))
  {
    hide GoodPending, StillUnmatched, KnownTokens, Spaced;
    var w' := Apply(w, Issue(id, s));
    forall t | IsOpen(w', t) && w'.txs[t].awaiting.Some? ensures StillUnmatched(w', t) {
      StaysUnmatched(w, w', t);
    }
  }

  // ---------------------------------------------------------------- commits

  /** A transaction that joined a key commits only when no earlier join of it is still valid: its
      lock has kept the committed row in the reserved state. */
  lemma CommitIsLate(w: World, id: nat)
    requires Inv(w) && Enabled(w, CommitTx(id))
    ensures forall e, key :: e in w.log && JoinedKey(e, key) && key in w.txs[id].pending ==>
              e.joined[key].recordExpiresAt.value <= w.now
  {
    forall e, key | e in w.log && JoinedKey(e, key) && key in w.txs[id].pending
      ensures e.joined[key].recordExpiresAt.value <= w.now
    {
      assert GoodPending(w.rows, key, w.txs[id].start, w.txs[id].pending[key]);
    }
  }

  lemma CommitKeepsInv(w: World, id: nat)
    requires Inv(w) && Enabled(w, CommitTx(id))
    ensures Inv(Apply(w, CommitTx(id)))
  {
    var w' := DoCommit(w, id);
    CommitIsLate(w, id);
    CommitKeepsLog(w, id);
    CommitKeepsRows(w, id);
    CommitKeepsAwaiting(w, id);
  }

  lemma CommitKeepsLog(w: World, id: nat)
    requires Inv(w) && Enabled(w, CommitTx(id))
    requires forall e, key :: e in w.log && JoinedKey(e, key) && key in w.txs[id].pending ==>
               e.joined[key].recordExpiresAt.value <= w.now
    ensures Protected(DoCommit(w, id)) && Spaced(DoCommit(w, id).log)
  {
    hide StillUnmatched, KnownTokens, OneLock, Started;
    var w' := DoCommit(w, id);
    var last := Commit(id, w.now, w.txs[id].pending);
    forall e, key | e in w'.log && JoinedKey(e, key) && w'.now < e.joined[key].recordExpiresAt.value
      ensures key in w'.rows && w'.rows[key] == e.joined[key] && w'.rows[key].state == COMPLETED
    {
      if e in w.log {
        assert key !in w.txs[id].pending;
      } else {
        assert e == last;
        assert GoodPending(w.rows, key, w.txs[id].start, w.txs[id].pending[key]);
      }
    }
    forall i, j, key | 0 <= i < j < |w'.log| && JoinedKey(w'.log[i], key) && JoinedKey(w'.log[j], key)
      ensures w'.log[j].at >= w'.log[i].joined[key].recordExpiresAt.value
    {
      assert w'.log[i] == w.log[i] && w.log[i] in w.log;
    }
  }

  lemma CommitKeepsRows(w: World, id: nat)
    requires Inv(w) && Enabled(w, CommitTx(id))
    ensures var w' := DoCommit(w, id);
            Started(w') && KnownTokens(w'.rows, w'.claimed) && PendingInv(w') && OneLock(w')
  {
    hide StillUnmatched, Protected, Spaced;
    var w' := DoCommit(w, id);
    forall t, key | IsOpen(w', t) && key in w'.txs[t].pending
      ensures GoodPending(w'.rows, key, w'.txs[t].start, w'.txs[t].pending[key])
    {
      assert IsOpen(w, t) && key !in w.txs[id].pending;
    }
    forall key | key in w'.rows ensures w'.rows[key].token in w'.claimed && WellFormedRow(w'.rows[key]) {
      if key in w.txs[id].pending {
        assert GoodPending(w.rows, key, w.txs[id].start, w.txs[id].pending[key]);
      }
    }
  }

  lemma CommitKeepsAwaiting(w: World, id: nat)
    requires Inv(w) && Enabled(w, CommitTx(id))
    ensures AwaitingInv(DoCommit(w, id))
  {
    hide Protected, Spaced, KnownTokens, Started, OneLock;
    var w' := DoCommit(w, id);
    forall t | IsOpen(w', t) && w'.txs[t].awaiting.Some? ensures StillUnmatched(w', t) {
      assert StillUnmatched(w, t);
      var (key, token) := w.txs[t].awaiting.value;
      if key in w.txs[id].pending {
        assert GoodPending(w.rows, key, w.txs[id].start, w.txs[id].pending[key]);
      }
    }
  }

  // ---------------------------------------------------------------- autocommit statements

  /** A statement rewrote or removed one unlocked row, or none. */
  ghost predicate Rewrites(w: World, w': World, key: Bytes) {
    && w'.now == w.now && w'.txs == w.txs && w'.log == w.log && w.claimed <= w'.claimed
    && (forall id :: id in w'.running ==> id in w.running && w'.running[id] == w.running[id])
    && (forall k :: k != key ==> CommittedRow(w', k) == CommittedRow(w, k))
    && !Locked(w, key)
    // what was there was no valid result
    && (key in w.rows && w.rows[key].state == COMPLETED ==> ExpiredRow(w.rows[key], w.now))
    // what is there now is complete, or belongs to a token new to everybody
    && (key in w'.rows ==>
          && w'.rows[key].token in w'.claimed && WellFormedRow(w'.rows[key])
          && (w'.rows[key].state == COMPLETED || w'.rows[key].token !in w.claimed))
  }

  lemma RewriteKeepsInv(w: World, w': World, key: Bytes)
    requires Inv(w) && Rewrites(w, w', key)
    ensures Inv(w')
  {
    RewriteKeepsRows(w, w', key);
    RewriteKeepsAwaiting(w, w', key);
    RewriteKeepsProtected(w, w', key);
  }

  lemma RewriteKeepsRows(w: World, w': World, key: Bytes)
    requires Inv(w) && Rewrites(w, w', key)
    ensures Started(w') && KnownTokens(w'.rows, w'.claimed) && PendingInv(w') && OneLock(w')
  {
    hide StillUnmatched, Protected, Spaced;
    forall k | k in w'.rows ensures w'.rows[k].token in w'.claimed && WellFormedRow(w'.rows[k]) {
      if k != key {
        assert CommittedRow(w', k) == CommittedRow(w, k);
      }
    }
    forall t, k | IsOpen(w', t) && k in w'.txs[t].pending
      ensures GoodPending(w'.rows, k, w'.txs[t].start, w'.txs[t].pending[k])
    {
      assert IsOpen(w, t) && k != key;
      assert CommittedRow(w', k) == CommittedRow(w, k);
    }
  }

  lemma RewriteKeepsAwaiting(w: World, w': World, key: Bytes)
    requires Inv(w) && Rewrites(w, w', key)
    ensures AwaitingInv(w')
  {
    hide Started, KnownTokens, PendingInv, OneLock, Protected, Spaced;
    forall t | IsOpen(w', t) && w'.txs[t].awaiting.Some? ensures StillUnmatched(w', t) {
      assert IsOpen(w, t) && StillUnmatched(w, t);
      var (k, token) := w.txs[t].awaiting.value;
      if k != key {
        assert CommittedRow(w', k) == CommittedRow(w, k);
      }
    }
  }

  lemma RewriteKeepsProtected(w: World, w': World, key: Bytes)
    requires Protected(w) && Rewrites(w, w', key)
    ensures Protected(w')
  {
    forall e, k | e in w'.log && JoinedKey(e, k) && w'.now < e.joined[k].recordExpiresAt.value
      ensures k in w'.rows && w'.rows[k] == e.joined[k] && w'.rows[k].state == COMPLETED
    {
      assert k in w.rows && w.rows[k] == e.joined[k] && w.rows[k].state == COMPLETED;
      assert k != key;
      assert CommittedRow(w', k) == CommittedRow(w, k);
    }
  }

  lemma ExecuteKeepsInv(w: World, id: nat)
    requires Inv(w) && Enabled(w, Execute(id))
    ensures Inv(Apply(w, Execute(id)))
  {
    hide PendingInv, OneLock, AwaitingInv, Protected, Spaced, Locked;
    var w', key := DoExecute(w, id), w.running[id].statement.key;
    assert w.running[id].start <= w.now;
    if w'.rows == w.rows && w'.claimed == w.claimed {
      NothingRewritten(w, w');
    } else {
      RewriteKeepsInv(w, w', key);
    }
  }

  lemma NothingRewritten(w: World, w': World)
    requires Inv(w)
    requires w' == w.(running := w'.running)
    requires forall id :: id in w'.running ==> id in w.running && w'.running[id] == w.running[id]
    ensures Inv(w')
  {
    hide GoodPending, StillUnmatched, KnownTokens, Spaced;
    forall t | IsOpen(w', t) && w'.txs[t].awaiting.Some? ensures StillUnmatched(w', t) {
      StaysUnmatched(w, w', t);
    }
  }

  lemma StepKeepsInv(w: World, a: Action)
    requires Inv(w) && Enabled(w, a)
    ensures Inv(Apply(w, a))
  {
    hide Inv, Apply;
    match a
    case Tick(d) => TickKeepsInv(w, d);
    case BeginTx(id) => BeginKeepsInv(w, id);
    case Update(id, key, token, payload, ttl) => UpdateKeepsInv(w, id, key, token, payload, ttl);
    case Classify(id) => ClassifyKeepsInv(w, id);
    case CommitTx(id) => CommitKeepsInv(w, id);
    case RollbackTx(id) => RollbackKeepsInv(w, id);
    case Issue(id, s) => IssueKeepsInv(w, id, s);
    case Execute(id) => ExecuteKeepsInv(w, id);
  }

  lemma {:induction false} RunKeepsInv(w: World, run: seq<Action>)
    requires Inv(w) && Possible(w, run)
    ensures Inv(After(w, run))
    decreases |run|
  {
    hide Inv, Apply;
    if |run| > 0 {
      StepKeepsInv(w, run[0]);
      RunKeepsInv(Apply(w, run[0]), run[1..]);
    }
  }
}
