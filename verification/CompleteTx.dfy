/** `CompleteTx` as its caller meets it: two statements in an open transaction, with every other
    session free to act before each of them. */
module CompleteTx {
  import opened Basics
  import opened PgRows
  import opened TxJoin
  import opened TxJoinProofs
  import opened Schedules
  import T = TxJoinTheorems

  lemma UnmatchedStays(w: World, id: nat)
    requires Inv(w) && IsOpen(w, id) && w.txs[id].awaiting.Some?
    ensures StillUnmatched(w, id)
  {
  }

  /** The database, which other sessions use as well. */
  class Database {
    var w: World

    /** Everybody else runs for a while. */
    method Others(run: seq<Action>)
      requires Possible(w, run)
      modifies this
      ensures w == After(old(w), run)
      decreases |run|
    {
      hide Enabled, Apply;
      if |run| > 0 {
        w := Apply(w, run[0]);
        Others(run[1..]);
      }
    }

    /** `CompleteTx`, under every schedule: others run before the update, at least until it need not
        wait, and again before the classification. With `at` and `seen` the database as the two
        statements find it, the answer is (false, nil) exactly when the update won the row, which is
        then the transaction's own, completed with the payload; otherwise it is "already completed"
        exactly when the caller's token holds the row live at the transaction's frozen clock, and
        "lease lost" in all other cases. */
    method CompleteTx(id: nat, key: Bytes, token: Bytes, payload: Bytes, recordTTL: Time,
                      before: seq<Action>, between: seq<Action>)
      returns (leaseLost: bool, alreadyCompleted: bool)
      requires Inv(w) && IsOpen(w, id) && Schedule(w, before, id)
      requires Enabled(After(w, before), Update(id, key, token, payload, recordTTL))
      requires Schedule(DoUpdate(After(w, before), id, key, token, payload, recordTTL), between, id)
      modifies this
      ensures Inv(w)
      ensures var at := After(old(w), before);
              IsOpen(at, id) && at.txs[id] == old(w.txs[id])
              && (Won(at, id, key, token) <==> !leaseLost && !alreadyCompleted)
      ensures var at := After(old(w), before);
              Won(at, id, key, token) ==> Joins(at, w, id, key, token, payload, recordTTL)
      ensures var at := After(old(w), before);
              var seen := After(DoUpdate(at, id, key, token, payload, recordTTL), between);
              !Won(at, id, key, token) ==> Answers(at, seen, w, id, key, token, leaseLost, alreadyCompleted)
    {
      hide Inv, Possible, After;
      RunKeepsInv(w, before);
      OthersLeaveTransaction(w, before, id);
      Others(before);
      ghost var at := w;
      StepKeepsInv(w, Update(id, key, token, payload, recordTTL));
      w := DoUpdate(w, id, key, token, payload, recordTTL);
      if w.txs[id].awaiting.None? {
        return false, false;
      }
      RunKeepsInv(w, between);
      OthersLeaveTransaction(w, between, id);
      Others(between);
      UnmatchedStays(w, id);
      StepKeepsInv(w, Classify(id));
      var verdict := VerdictOn(Visible(w, id, key), token, w.txs[id].start);
      w := DoClassify(w, id);
      leaseLost, alreadyCompleted := verdict.LeaseLost?, verdict.AlreadyCompleted?;
    }
  }

  /** The row is the transaction's own, completed with the payload until the record TTL asked for has
      passed since the transaction's start; nothing committed has changed. */
  ghost predicate Joins(at: World, w: World, id: nat, key: Bytes, token: Bytes, payload: Bytes, recordTTL: Time) {
    && w.rows == at.rows && IsOpen(w, id) && key in w.txs[id].pending
    && w.txs[id].pending[key].token == token && w.txs[id].pending[key].state == COMPLETED
    && w.txs[id].pending[key].payload == Some(payload)
    && IsOpen(at, id) && w.txs[id].start == at.txs[id].start
    && w.txs[id].pending[key].recordExpiresAt == Some(at.txs[id].start + MILLI * Millis(recordTTL))
    && w.log == at.log + [Join(id, key, token, at.txs[id].start, payload, recordTTL)]
  }

  /** The transaction wrote nothing, and the answer is right about the row it sees. */
  ghost predicate Answers(at: World, seen: World, w: World, id: nat, key: Bytes, token: Bytes,
                          leaseLost: bool, alreadyCompleted: bool)
  {
    && IsOpen(at, id) && IsOpen(seen, id) && IsOpen(w, id)
    && w.rows == seen.rows && w.txs[id].pending == at.txs[id].pending
    && (leaseLost <==> !T.OwnLive(Visible(seen, id, key), token, at.txs[id].start))
    && (alreadyCompleted <==> T.OwnLive(Visible(seen, id, key), token, at.txs[id].start))
  }
}
