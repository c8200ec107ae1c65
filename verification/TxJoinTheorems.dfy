/** What CompleteTx guarantees in every interleaving. */
module TxJoinTheorems {
  import opened Basics
  import opened PgRows
  import opened TxJoin
  import opened TxJoinProofs
  import opened Schedules
  import Pg = PgStore

  lemma InvAlways(w: World, run: seq<Action>)
    requires Initial(w) && Possible(w, run)
    ensures Inv(After(w, run))
  {
    RunKeepsInv(w, run);
  }

  // ---------------------------------------------------------------- at most one commit per valid record

  /** If two transactions for which CompleteTx answered (false, nil) on the same key both commit, the
      second one commits no earlier than the first one's start plus the record TTL it asked for, in whole
      milliseconds. It does not matter whether the first one's lease ran out while its transaction was
      open. */
  lemma AtMostOneCommitWhileValid(w: World, run: seq<Action>, m: Event, m': Event, i: nat, j: nat)
    requires Initial(w) && Possible(w, run)
    ensures var log := After(w, run).log;
            && m in log && m' in log && m.Join? && m'.Join? && m.key == m'.key
            && i < j < |log| && log[i].Commit? && log[j].Commit? && log[i].tx == m.tx && log[j].tx == m'.tx ==>
              log[j].at >= m.start + MILLI * Millis(m.ttl)
  {
    hide Inv, JoinsAreTold;
    var log := After(w, run).log;
    if && m in log && m' in log && m.Join? && m'.Join? && m.key == m'.key
       && i < j < |log| && log[i].Commit? && log[j].Commit? && log[i].tx == m.tx && log[j].tx == m'.tx
    {
      ToldAlways(w, run);
      CommittedAsTold(After(w, run), log[i], m);
      CommittedAsTold(After(w, run), log[j], m');
      JoinedCommitsAreSpaced(w, run, i, j, m.key);
    }
  }

  lemma ToldAlways(w: World, run: seq<Action>)
    requires Initial(w) && Possible(w, run)
    ensures JoinsAreTold(After(w, run))
  {
    InvAtStart(w);
    assert JoinsAreTold(w);
    RunKeepsTold(w, run);
  }

  lemma CommittedAsTold(w: World, e: Event, m: Event)
    requires JoinsAreTold(w) && e in w.log && m in w.log && e.Commit? && m.Join? && e.tx == m.tx
    ensures m.key in e.joined && Fulfils(e.joined[m.key], m)
  {
    assert JoinCommitted(e, m);
  }

  /** The same by the rows that were committed. */
  lemma JoinedCommitsAreSpaced(w: World, run: seq<Action>, i: nat, j: nat, key: Bytes)
    requires Initial(w) && Possible(w, run)
    ensures var log := After(w, run).log;
            i < j < |log| && log[i].Commit? && log[j].Commit? && key in log[i].joined && key in log[j].joined ==>
              log[i].joined[key].recordExpiresAt.Some? && log[j].at >= log[i].joined[key].recordExpiresAt.value
  {
    InvAlways(w, run);
    RunKeepsDeadlines(w, run);
  }

  /** Every joined row carries its record deadline. */
  ghost predicate Dated(log: seq<Event>) {
    forall e, key :: e in log && e.Commit? && key in e.joined ==> e.joined[key].recordExpiresAt.Some?
  }

  lemma {:induction false} RunKeepsDeadlines(w: World, run: seq<Action>)
    requires Inv(w) && Dated(w.log) && Possible(w, run)
    ensures Dated(After(w, run).log)
    decreases |run|
  {
    hide Inv, Apply;
    if |run| > 0 {
      StepKeepsInv(w, run[0]);
      StepKeepsDeadlines(w, run[0]);
      RunKeepsDeadlines(Apply(w, run[0]), run[1..]);
    }
  }

  lemma StepKeepsDeadlines(w: World, a: Action)
    requires Inv(w) && Dated(w.log) && Enabled(w, a)
    ensures Dated(Apply(w, a).log)
  {
    hide Inv;
    if a.CommitTx? {
      assert forall key :: key in w.txs[a.id].pending ==>
        GoodPending(w.rows, key, w.txs[a.id].start, w.txs[a.id].pending[key]) by { OwnPendingIsGood(w, a.id); }
    }
  }

  /** While the record of a committed join is valid, it is what every other session reads. */
  lemma JoinedRecordIsShown(w: World, run: seq<Action>, i: nat, key: Bytes)
    requires Initial(w) && Possible(w, run)
    ensures var w' := After(w, run);
            i < |w'.log| && JoinedKey(w'.log[i], key)
            && w'.now < w'.log[i].joined[key].recordExpiresAt.value ==>
              CommittedRow(w', key) == Some(w'.log[i].joined[key]) && !Locked(w', key)
  {
    InvAlways(w, run);
    var w' := After(w, run);
    if i < |w'.log| && JoinedKey(w'.log[i], key) && w'.now < w'.log[i].joined[key].recordExpiresAt.value {
      assert w'.log[i] in w'.log;
      assert w'.rows[key].state == COMPLETED;
    }
  }

  /** And by what was asked for: once a transaction that was told it joined has committed, every other
      session reads the result it stored, until its start plus the record TTL it asked for. */
  lemma JoinedResultIsShown(w: World, run: seq<Action>, m: Event, i: nat)
    requires Initial(w) && Possible(w, run)
    ensures var w' := After(w, run);
            && m in w'.log && m.Join? && i < |w'.log| && w'.log[i].Commit? && w'.log[i].tx == m.tx
            && w'.now < m.start + MILLI * Millis(m.ttl) ==>
              && CommittedRow(w', m.key).Some? && Fulfils(CommittedRow(w', m.key).value, m)
              && !Locked(w', m.key)
  {
    hide Inv, JoinsAreTold, Millis;
    var w' := After(w, run);
    if && m in w'.log && m.Join? && i < |w'.log| && w'.log[i].Commit? && w'.log[i].tx == m.tx
       && w'.now < m.start + MILLI * Millis(m.ttl)
    {
      ToldAlways(w, run);
      CommittedAsTold(w', w'.log[i], m);
      JoinedRecordIsShown(w, run, i, m.key);
    }
  }

  /** How transactions end: a commit publishes exactly the transaction's own versions, a rollback
      nothing at all. */
  lemma TransactionsEnd(w: World, id: nat, key: Bytes)
    ensures IsOpen(w, id) ==> Enabled(w, RollbackTx(id)) && (Enabled(w, CommitTx(id)) || Enabled(w, Classify(id)))
    ensures Enabled(w, CommitTx(id)) ==>
              CommittedRow(Apply(w, CommitTx(id)), key) == Visible(w, id, key)
    ensures Enabled(w, RollbackTx(id)) ==>
              && CommittedRow(Apply(w, RollbackTx(id)), key) == CommittedRow(w, key)
              && Apply(w, RollbackTx(id)).log == w.log && !IsOpen(Apply(w, RollbackTx(id)), id)
  {
  }

  // ---------------------------------------------------------------- the three answers

  /** The caller's token holds the row, reserved or completed, live at the caller's frozen clock. */
  predicate OwnLive(row: Option<Row>, token: Bytes, start: Time) {
    row.Some? && row.value.token == token && LiveRow(row.value, start)
  }

  /** In every reachable state, an unmatched CompleteTx answers "lease lost" exactly when the caller's
      token no longer holds the row live at its transaction start, and "already completed" exactly
      when it does; between its two statements nothing can make the answer wrong. */
  lemma VerdictIsRight(w: World, run: seq<Action>, id: nat)
    requires Initial(w) && Possible(w, run)
    ensures var w' := After(w, run);
            IsOpen(w', id) && w'.txs[id].awaiting.Some? ==>
              var (key, token) := w'.txs[id].awaiting.value;
              var row := Visible(w', id, key);
              var verdict := VerdictOn(row, token, w'.txs[id].start);
              && (verdict == LeaseLost <==> !OwnLive(row, token, w'.txs[id].start))
              && (verdict == AlreadyCompleted <==> OwnLive(row, token, w'.txs[id].start))
  {
    InvAlways(w, run);
    var w' := After(w, run);
    if IsOpen(w', id) && w'.txs[id].awaiting.Some? {
      assert StillUnmatched(w', id);
    }
  }

  /** A transaction that already joined the key under this token gets "already completed" from any
      further CompleteTx, however long it has been open and whatever others do between its two
      statements: the repeated update matches nothing and does not wait, and the row it then sees
      outlives its frozen clock. */
  lemma SecondCallIsDetected(w: World, run: seq<Action>, id: nat, key: Bytes, payload: Bytes, ttl: Time,
                             between: seq<Action>)
    requires Initial(w) && Possible(w, run)
    requires var w' := After(w, run);
             IsOpen(w', id) && key in w'.txs[id].pending && w'.txs[id].awaiting.None?
    ensures var w' := After(w, run);
            var token := w'.txs[id].pending[key].token;
            && Enabled(w', Update(id, key, token, payload, ttl))
            && var unmatched := DoUpdate(w', id, key, token, payload, ttl);
               && unmatched == w'.(txs := w'.txs[id := w'.txs[id].(awaiting := Some((key, token)))])
               && (Schedule(unmatched, between, id) ==>
                     var seen := After(unmatched, between);
                     && Enabled(seen, Classify(id))
                     && DoClassify(seen, id).log == seen.log + [Answered(id, key, token, AlreadyCompleted)])
  {
    hide Inv, Possible, After, Initial;
    InvAlways(w, run);
    var w' := After(w, run);
    var tx := w'.txs[id];
    var token := tx.pending[key].token;
    OwnPendingIsGood(w', id);
    assert GoodPending(w'.rows, key, tx.start, tx.pending[key]);
    assert token in w'.claimed by { RowsAreClaimed(w', key); }
    var unmatched := DoUpdate(w', id, key, token, payload, ttl);
    if Schedule(unmatched, between, id) {
      OthersLeaveTransaction(unmatched, between, id);
    }
  }

  lemma RowsAreClaimed(w: World, key: Bytes)
    requires Inv(w) && key in w.rows
    ensures w.rows[key].token in w.claimed
  {
  }

  /** What a caller can know beforehand: its token holds the key reserved, and nobody else uses that
      token. Then a CompleteTx whose update comes before the lease deadline joins, whatever others do
      until then. */
  lemma JoinsInTime(w0: World, run: seq<Action>, id: nat, key: Bytes, r: Row, before: seq<Action>,
                    payload: Bytes, ttl: Time)
    requires Initial(w0) && Possible(w0, run)
    requires var w := After(w0, run);
             && IsOpen(w, id) && w.txs[id].awaiting.None? && key !in w.txs[id].pending
             && HoldsReserved(w, key, r)
             && Schedule(w, before, id) && LeftToOwner(w, before, key, r.token)
             && After(w, before).now < r.leaseExpiresAt
    ensures var at := After(After(w0, run), before);
            && IsOpen(at, id) && HoldsReserved(at, key, r) && r.token in at.claimed
            && (Enabled(at, Update(id, key, r.token, payload, ttl)) ==> Won(at, id, key, r.token))
  {
    hide Inv, Possible, After, Initial, LeftToOwner, LockedByOther;
    InvAlways(w0, run);
    var w := After(w0, run);
    ReservationStays(w, before, key, r);
    OthersLeaveTransaction(w, before, id);
    RunKeepsInv(w, before);
    var at := After(w, before);
    OpenStarted(at, id);
    RowsAreClaimed(at, key);
  }

  /** That deadline is exact: whenever the row is not locked, others can let the clock reach it and
      claim the key, without ever using the caller's token, and then the update loses. */
  lemma DeadlineIsExact(w: World, id: nat, key: Bytes, r: Row, other: Bytes, session: nat)
    requires Inv(w) && IsOpen(w, id) && HoldsReserved(w, key, r) && w.now < r.leaseExpiresAt && !Locked(w, key)
    requires other !in w.claimed && session !in w.running
    ensures exists before :: Schedule(w, before, id) && LeftToOwner(w, before, key, r.token)
              && After(w, before).now == r.leaseExpiresAt && id in After(w, before).txs
              && !Won(After(w, before), id, key, r.token)
  {
    hide Inv, Possible, After, LeftToOwner, ByOthers, LockedByOther, Locked;
    RowsAreClaimed(w, key);
    var tick, reserve := Tick(r.leaseExpiresAt - w.now), Reserve(key, other, [], 1);
    var w1 := w.(now := r.leaseExpiresAt);
    var w2 := w1.(running := w.running[session := Issued(w1.now, reserve)]);
    assert Locked(w2, key) == Locked(w, key) by { SameLocks(w, w2, key); }
    var w3 := Apply(w2, Execute(session));
    assert CommittedRow(w3, key).value.token == other;
    assert key !in w.txs[id].pending by { NotMine(w, id, key); }
    EmptyRun(w3);
    OneStep(w2, Execute(session), w3, []);
    OneStep(w1, Issue(session, reserve), w2, [Execute(session)] + []);
    OneStep(w, tick, w1, [Issue(session, reserve)] + ([Execute(session)] + []));
    LeftNothing(w3, key, r.token);
    LeftStep(w2, Execute(session), w3, [], key, r.token);
    LeftStep(w1, Issue(session, reserve), w2, [Execute(session)] + [], key, r.token);
    LeftStep(w, tick, w1, [Issue(session, reserve)] + ([Execute(session)] + []), key, r.token);
    assert ByOthers([tick] + ([Issue(session, reserve)] + ([Execute(session)] + [])), id) by {
      ThreeByOthers(tick, Issue(session, reserve), Execute(session), id);
    }
  }

  lemma ThreeByOthers(a: Action, b: Action, c: Action, id: nat)
    requires !Acts(a, id) && !Acts(b, id) && !Acts(c, id)
    ensures ByOthers([a] + ([b] + ([c] + [])), id)
  {
    var run := [a] + ([b] + ([c] + []));
    assert run[0] == a && run[1] == b && run[2] == c;
  }

  lemma SameLocks(w: World, w': World, key: Bytes)
    requires w.txs == w'.txs
    ensures Locked(w', key) == Locked(w, key)
  {
  }

  lemma NotMine(w: World, id: nat, key: Bytes)
    requires IsOpen(w, id) && !Locked(w, key)
    ensures key !in w.txs[id].pending
  {
  }

  lemma LeftNothing(w: World, key: Bytes, token: Bytes)
    ensures Possible(w, []) && LeftToOwner(w, [], key, token)
  {
  }

  lemma LeftStep(w: World, a: Action, w': World, rest: seq<Action>, key: Bytes, token: Bytes)
    requires Enabled(w, a) && Apply(w, a) == w' && Possible(w', rest) && LeftToOwner(w', rest, key, token)
    requires !EndsReservation(w, a, key, token)
    ensures Possible(w, [a] + rest) && LeftToOwner(w, [a] + rest, key, token)
  {
    assert ([a] + rest)[1..] == rest;
  }

  /** The two things "already completed" can mean. If the transaction was told before that it joined,
      the call is a repeated one. If not, the record was completed under the same token by somebody
      else and has been committed, and the transaction holds no version of the row. */
  lemma AlreadyCompletedMeans(w: World, run: seq<Action>, id: nat)
    requires Initial(w) && Possible(w, run)
    requires IsOpen(After(w, run), id) && After(w, run).txs[id].awaiting.Some?
    ensures var w' := After(w, run);
            var tx := w'.txs[id];
            var (key, token) := tx.awaiting.value;
            var committed := CommittedRow(w', key);
            VerdictOn(Visible(w', id, key), token, tx.start) == AlreadyCompleted ==>
              if ToldJoined(w'.log, id, key, token) then
                key in tx.pending && tx.pending[key].token == token
                && committed.Some? && committed.value.state == RESERVED
              else
                key !in tx.pending && committed.Some? && committed.value.state == COMPLETED
                && OwnLive(committed, token, tx.start)
  {
    hide Inv, Possible, After;
    InvAlways(w, run);
    ToldAlways(w, run);
    var w' := After(w, run);
    var (key, token) := w'.txs[id].awaiting.value;
    assert TellsPending(w', id, key, token);
    OwnPendingIsGood(w', id);
  }

  lemma InvAtStart(w: World)
    requires Initial(w)
    ensures Inv(w)
  {
  }

  /** now() is frozen: whatever happens later, a transaction keeps the instant it began at. */
  lemma StartIsFrozen(w: World, id: nat, run: seq<Action>)
    requires Enabled(w, BeginTx(id)) && Possible(Apply(w, BeginTx(id)), run)
    ensures var w' := After(Apply(w, BeginTx(id)), run);
            id in w'.txs && w'.txs[id].start == w.now
  {
    RunKeepsStart(Apply(w, BeginTx(id)), id, run);
  }

  lemma {:induction false} RunKeepsStart(w: World, id: nat, run: seq<Action>)
    requires id in w.txs && Possible(w, run)
    ensures id in After(w, run).txs && After(w, run).txs[id].start == w.txs[id].start
    decreases |run|
  {
    hide Apply, Enabled;
    if |run| > 0 {
      StepKeepsStart(w, id, run[0]);
      RunKeepsStart(Apply(w, run[0]), id, run[1..]);
    }
  }

  lemma StepKeepsStart(w: World, id: nat, a: Action)
    requires id in w.txs && Enabled(w, a)
    ensures id in Apply(w, a).txs && Apply(w, a).txs[id].start == w.txs[id].start
  {
  }

  /** An autocommit statement, issued at one instant and executed later on the rows it then finds, does
      what that statement of the store does at the instant it was issued. */
  lemma ExecuteIsTheStatement(w: World, id: nat)
    requires Enabled(w, Execute(id))
    ensures var Issued(start, s) := w.running[id];
            var rows := Apply(w, Execute(id)).rows;
            match s
            case Reserve(key, token, fp, ttl) => rows == Pg.ReserveStmt(w.rows, key, token, fp, Millis(ttl), start).0
            case Complete(key, token, payload, ttl) =>
              rows == Pg.CompleteStmt(w.rows, key, token, payload, Millis(ttl), start).0
            case Release(key, token) => rows == Pg.ReleaseStmt(w.rows, key, token, start).0
            case Sweep(key) => rows == if key in w.rows && !LiveRow(w.rows[key], start)
                                          && ExpiredRow(w.rows[key], start) then w.rows - {key} else w.rows
  {
    hide Millis;
  }

  /** A statement's now() is the instant it was issued at. */
  lemma IssuedNow(w: World, id: nat, s: Statement)
    requires Enabled(w, Issue(id, s))
    ensures Apply(w, Issue(id, s)).running[id].start == w.now
  {
  }

  // ---------------------------------------------------------------- runs worth knowing

  lemma OneStep(w: World, a: Action, w': World, rest: seq<Action>)
    requires Enabled(w, a) && Apply(w, a) == w' && Possible(w', rest)
    ensures Possible(w, [a] + rest) && After(w, [a] + rest) == After(w', rest)
  {
    assert ([a] + rest)[1..] == rest;
  }

  const EMPTY: World := World(0, map[], map[], map[], {}, [])

  /** Transaction 1 began at instant 0, while its token holds the key for ten milliseconds. */
  function HeldFor10Ms(key: Bytes, token: Bytes): World {
    World(0, map[key := ReservedRow(token, [], 10 * MILLI)], map[1 := Tx(0, Open, map[], None)], map[], {token}, [])
  }

  lemma HeldIsReachable(key: Bytes, token: Bytes)
    ensures exists run :: Possible(EMPTY, run) && After(EMPTY, run) == HeldFor10Ms(key, token)
  {
    hide Possible, After;
    var reserve := Reserve(key, token, [], 10 * MILLI);
    var w1 := EMPTY.(running := map[1 := Issued(0, reserve)]);
    var w2 := EMPTY.(rows := map[key := ReservedRow(token, [], 10 * MILLI)], claimed := {token});
    var w3 := HeldFor10Ms(key, token);
    EmptyRun(w3);
    assert Apply(w1, Execute(1)) == w2;
    OneStep(w2, BeginTx(1), w3, []);
    OneStep(w1, Execute(1), w2, [BeginTx(1)] + []);
    OneStep(EMPTY, Issue(1, reserve), w1, [Execute(1)] + ([BeginTx(1)] + []));
  }

  lemma EmptyRun(w: World)
    ensures Possible(w, []) && After(w, []) == w
  {
  }

  /** The key went to another token while transaction 1 was open. */
  function TakenAway(key: Bytes, t1: Bytes, t2: Bytes): World {
    World(10 * MILLI, map[key := ReservedRow(t2, [], 20 * MILLI)], map[1 := Tx(0, Open, map[], None)], map[],
          {t1, t2}, [])
  }

  lemma LostAfterTakenAway(key: Bytes, t1: Bytes, t2: Bytes)
    requires t1 != t2
    ensures var w := TakenAway(key, t1, t2);
            var run := [Update(1, key, t1, [], 1)] + ([Classify(1)] + []);
            Possible(w, run) && After(w, run).log == [Answered(1, key, t1, LeaseLost)]
  {
    hide Possible, After;
    var w := TakenAway(key, t1, t2);
    var w1 := w.(txs := map[1 := Tx(0, Open, map[], Some((key, t1)))]);
    var w2 := w.(log := [Answered(1, key, t1, LeaseLost)]);
    EmptyRun(w2);
    assert Apply(w, Update(1, key, t1, [], 1)) == w1;
    assert Apply(w1, Classify(1)) == w2;
    OneStep(w1, Classify(1), w2, []);
    OneStep(w, Update(1, key, t1, [], 1), w1, [Classify(1)] + []);
  }

  /** Holding the row live when the transaction starts is not enough: the lease can run out and the
      key be claimed again before CompleteTx is called, and then the answer is "lease lost". */
  lemma HeldAtStartIsNotEnough(key: Bytes, t1: Bytes, t2: Bytes)
    requires t1 != t2
    ensures var w := HeldFor10Ms(key, t1);
            && OwnLive(CommittedRow(w, key), t1, w.txs[1].start)
            && exists run :: Possible(w, run) && After(w, run).log == [Answered(1, key, t1, LeaseLost)]
  {
    hide Possible, After;
    var reserve := Reserve(key, t2, [], 10 * MILLI);
    var w0 := HeldFor10Ms(key, t1);
    var w1 := w0.(now := 10 * MILLI);
    var w2 := w1.(running := map[2 := Issued(10 * MILLI, reserve)]);
    var w3 := TakenAway(key, t1, t2);
    var rest := [Update(1, key, t1, [], 1)] + ([Classify(1)] + []);
    LostAfterTakenAway(key, t1, t2);
    assert Apply(w2, Execute(2)) == w3;
    OneStep(w2, Execute(2), w3, rest);
    OneStep(w1, Issue(2, reserve), w2, [Execute(2)] + rest);
    OneStep(w0, Tick(10 * MILLI), w1, [Issue(2, reserve)] + ([Execute(2)] + rest));
  }

  /** A join can outlive its lease: once the update has the row, the transaction commits even after
      the lease deadline, because nobody could take the key away in between. */
  lemma CommitMayOutliveLease(key: Bytes, token: Bytes, payload: Bytes)
    ensures var w := HeldFor10Ms(key, token);
            exists run :: Possible(w, run) && |After(w, run).log| == 2
              && var last := After(w, run).log[1];
                 last.Commit? && key in last.joined && last.at > last.joined[key].leaseExpiresAt
  {
    hide Possible, After;
    var update := Update(1, key, token, payload, 1000 * MILLI);
    var mine := CompletedRow(ReservedRow(token, [], 10 * MILLI), payload, 1000 * MILLI);
    var w0 := HeldFor10Ms(key, token);
    var w1 := w0.(txs := map[1 := Tx(0, Open, map[key := mine], None)],
                  log := [Join(1, key, token, 0, payload, 1000 * MILLI)]);
    var w2 := w1.(now := 50 * MILLI);
    var w3 := World(50 * MILLI, map[key := mine], map[1 := Tx(0, Committed, map[], None)], map[], {token},
                    [Join(1, key, token, 0, payload, 1000 * MILLI), Commit(1, 50 * MILLI, map[key := mine])]);
    EmptyRun(w3);
    assert Apply(w0, update) == w1;
    assert Apply(w2, CommitTx(1)) == w3;
    OneStep(w2, CommitTx(1), w3, []);
    OneStep(w1, Tick(50 * MILLI), w2, [CommitTx(1)] + []);
    OneStep(w0, update, w1, [Tick(50 * MILLI)] + ([CommitTx(1)] + []));
  }

  /** The record was completed under the token of transaction 1, which never joined. */
  function CompletedByOther(key: Bytes, token: Bytes): World {
    HeldFor10Ms(key, token).(rows := map[key := CompletedRow(ReservedRow(token, [], 10 * MILLI), [], 1000 * MILLI)])
  }

  lemma AnsweredAfterCompletedByOther(key: Bytes, token: Bytes)
    ensures var w := CompletedByOther(key, token);
            var run := [Update(1, key, token, [], 1)] + ([Classify(1)] + []);
            Possible(w, run) && After(w, run).log == [Answered(1, key, token, AlreadyCompleted)]
  {
    hide Possible, After;
    var w := CompletedByOther(key, token);
    var w1 := w.(txs := map[1 := Tx(0, Open, map[], Some((key, token)))]);
    var w2 := w.(log := [Answered(1, key, token, AlreadyCompleted)]);
    EmptyRun(w2);
    assert Apply(w, Update(1, key, token, [], 1)) == w1;
    assert Apply(w1, Classify(1)) == w2;
    OneStep(w1, Classify(1), w2, []);
    OneStep(w, Update(1, key, token, [], 1), w1, [Classify(1)] + []);
  }

  /** "Already completed" without a double call: another session completes the record under the
      caller's token, outside any transaction; then the caller, which never joined, gets that answer. */
  lemma AlreadyCompletedWithoutJoining(key: Bytes, token: Bytes)
    ensures exists run :: Possible(HeldFor10Ms(key, token), run)
              && After(HeldFor10Ms(key, token), run).log == [Answered(1, key, token, AlreadyCompleted)]
  {
    hide Possible, After;
    var complete := Complete(key, token, [], 1000 * MILLI);
    var w := HeldFor10Ms(key, token);
    var w1 := w.(running := map[2 := Issued(0, complete)]);
    var w2 := CompletedByOther(key, token);
    var rest := [Update(1, key, token, [], 1)] + ([Classify(1)] + []);
    AnsweredAfterCompletedByOther(key, token);
    assert Apply(w1, Execute(2)) == w2;
    OneStep(w1, Execute(2), w2, rest);
    OneStep(w, Issue(2, complete), w1, [Execute(2)] + rest);
  }
}
