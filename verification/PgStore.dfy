/** The PostgreSQL store outside transactions: atomic statements over one table, with other sessions
    free to act between two statements of the same call. */
module PgStore {
  import opened Basics
  import opened Records
  import opened Lease
  import opened PgRows
  import A = AbstractStore

  // ---------------------------------------------------------------- the statements, with TTLs in whole milliseconds

  /** `qReserve`; the flag says whether a row came back. */
  function ReserveStmt(rows: Rows, key: Bytes, token: Bytes, fp: Bytes, leaseMs: Time, now: Time): (Rows, bool) {
    if key in rows && !ExpiredRow(rows[key], now) then (rows, false)
    else (rows[key := ReservedRow(token, fp, now + MILLI * leaseMs)], true)
  }

  /** `qReserveExists` and `qGet`. */
  function SelectLive(rows: Rows, key: Bytes, now: Time): Option<Row> {
    if key in rows && LiveRow(rows[key], now) then Some(rows[key]) else None
  }

  /** `qComplete`; the flag is RowsAffected() == 1. */
  function CompleteStmt(rows: Rows, key: Bytes, token: Bytes, payload: Bytes, recordMs: Time, now: Time): (Rows, bool) {
    if key in rows && CasMatches(rows[key], token, now) then
      (rows[key := CompletedRow(rows[key], payload, now + MILLI * recordMs)], true)
    else (rows, false)
  }

  /** `qRelease`. */
  function ReleaseStmt(rows: Rows, key: Bytes, token: Bytes, now: Time): (Rows, bool) {
    if key in rows && CasMatches(rows[key], token, now) then (rows - {key}, true) else (rows, false)
  }

  /** `qClassify` and the switch of `classifyFailure`. */
  function Classify(rows: Rows, key: Bytes, token: Bytes, now: Time): StoreAnswer {
    if key in rows && rows[key].state == RESERVED && rows[key].leaseExpiresAt > now then
      if rows[key].token != token then TokenMismatch else NotFound
    else NotFound
  }

  /** `scanRecord`: the remaining times, rounded to whole milliseconds by the database, put back on the
      reader's clock. */
  function ScanRecord(key: Bytes, r: Row, dbNow: Time, now: Time): Option<Record> {
    var payload := if r.payload.Some? then r.payload.value else [];
    if r.state == RESERVED then
      Some(Record(key, r.fingerprint, Reserved, r.token, now + NearestMs(r.leaseExpiresAt - dbNow), UNSET, payload))
    else if r.state == COMPLETED then
      Some(Record(key, r.fingerprint, Completed, r.token, UNSET,
                  if r.recordExpiresAt.Some? then now + NearestMs(r.recordExpiresAt.value - dbNow) else UNSET, payload))
    else None
  }

  // ---------------------------------------------------------------- calls without interference

  function ReserveAt(rows: Rows, rec: Record, leaseMs: Time, now: Time): (Rows, ReserveReply) {
    var (rows', claimed) := ReserveStmt(rows, rec.key, rec.token, rec.fingerprint, leaseMs, now);
    if claimed then (rows', Claimed)
    else
      match SelectLive(rows', rec.key, now)
      case None => (rows', Failed)
      case Some(row) =>
        match ScanRecord(rec.key, row, now, now)
        case None => (rows', Failed)
        case Some(existing) => (rows', Exists(Some(existing)))
  }

  function ReserveSpec(rows: Rows, rec: Record, now: Time): (Rows, ReserveReply) {
    ReserveAt(rows, rec, Millis(rec.leaseExpiresAt - now), now)
  }

  function CompleteSpec(rows: Rows, key: Bytes, token: Bytes, payload: Bytes, recordTTL: Time, now: Time)
    : (Rows, StoreAnswer)
  {
    var (rows', one) := CompleteStmt(rows, key, token, payload, Millis(recordTTL), now);
    (rows', if one then Accepted else Classify(rows', key, token, now))
  }

  function ReleaseSpec(rows: Rows, key: Bytes, token: Bytes, now: Time): (Rows, StoreAnswer) {
    var (rows', one) := ReleaseStmt(rows, key, token, now);
    (rows', if one then Accepted else Classify(rows', key, token, now))
  }

  // ---------------------------------------------------------------- the store

  /** An attempt of Reserve that lost: a record blocked the claim, and was gone when it was read. */
  datatype Lost = Lost(blocked: Rows, blockedAt: Time, gone: Rows, goneAt: Time)

  ghost predicate Vanished(l: Lost, key: Bytes) {
    && key in l.blocked && !ExpiredRow(l.blocked[key], l.blockedAt)
    && SelectLive(l.gone, key, l.goneAt).None? && l.blockedAt <= l.goneAt
  }

  /** The row is reserved, live and under another token. */
  predicate HeldByOther(rows: Rows, key: Bytes, token: Bytes, now: Time) {
    key in rows && rows[key].state == 1 && rows[key].leaseExpiresAt > now && rows[key].token != token
  }

  /** What becomes of one statement on its way: done and answered, done but reported as a driver
      error, or not done and a driver error. */
  datatype Trip = Works | LostAfter | LostBefore

  /** `Store`: the table and the database clock, both shared with other sessions. */
  class Store {
    var rows: Rows
    var now: Time

    /** Other sessions run for a while: they may leave any well-formed table behind. */
    method Interfere()
      modifies this
      ensures WellFormed(rows) && now >= old(now)
    {
      var rows': Rows, later: Time :| WellFormed(rows') && later >= now by {
        assert WellFormed(map[]) && now >= now;
      }
      rows, now := rows', later;
    }

    /** `Reserve` with its attempt loop. `at` is the table as the deciding statement found it:
        whenever the call claims the key or reports a holder, it does exactly what one atomic
        Reserve on that table would have done. It gives up only when three times in a row the
        blocking record vanished before it could be read, or on a driver error; it has then changed
        nothing, unless it was the answer to a claim that got lost. */
    method Reserve(rec: Record, trips: seq<(Trip, Trip)>)
      returns (reply: ReserveReply, ghost at: Rows, ghost leaseMs: Time, ghost lost: seq<Lost>)
      requires WellFormed(rows) && |trips| >= 3
      modifies this
      ensures WellFormed(rows) && WellFormed(at) && now >= old(now)
      ensures 1 <= leaseMs <= Millis(rec.leaseExpiresAt - old(now))
      ensures !reply.Failed? ==> (rows, reply) == ReserveAt(at, rec, leaseMs, now)
      ensures |lost| <= 3 && forall i :: 0 <= i < |lost| ==> Vanished(lost[i], rec.key)
      ensures reply.Failed? ==> |lost| == 3 || trips[|lost|].0 != Works || trips[|lost|].1 != Works
      ensures reply.Failed? ==>
                || rows == at
                || (|lost| < 3 && trips[|lost|].0.LostAfter? && (rows, Claimed) == ReserveAt(at, rec, leaseMs, now))
      ensures reply.Claimed? ==> |lost| < 3 && trips[|lost|].0.Works?
      ensures reply.Exists? ==> |lost| < 3 && trips[|lost|] == (Works, Works) && reply.existing.Some?
    {
      at, leaseMs, lost := rows, 1, [];
      for attempt := 0 to 3
        invariant WellFormed(rows) && WellFormed(at) && now >= old(now)
        invariant rows == at
        invariant |lost| == attempt && forall i :: 0 <= i < |lost| ==> Vanished(lost[i], rec.key)
        invariant 1 <= leaseMs <= Millis(rec.leaseExpiresAt - old(now))
      {
        var ms := Millis(rec.leaseExpiresAt - now);
        MillisShrink(rec.leaseExpiresAt - now, rec.leaseExpiresAt - old(now));
        leaseMs := ms;
        Interfere();
        at := rows;
        var claimed := false;
        if trips[attempt].0 != LostBefore {
          var (rows', one) := ReserveStmt(rows, rec.key, rec.token, rec.fingerprint, ms, now);
          rows, claimed := rows', one;
        }
        if trips[attempt].0 != Works {
          return Failed, at, leaseMs, lost;
        }
        if claimed {
          return Claimed, at, leaseMs, lost;
        }
        ghost var blocked, blockedAt := rows, now;
        Interfere();
        at := rows;
        if trips[attempt].1 != Works {
          return Failed, at, leaseMs, lost;
        }
        var row := SelectLive(rows, rec.key, now);
        if row.None? {
          lost := lost + [Lost(blocked, blockedAt, rows, now)];
          continue;
        }
        ExpiredIsNotLive(row.value, now);
        var existing := ScanRecord(rec.key, row.value, now, now);
        if existing.None? {
          return Failed, at, leaseMs, lost;
        }
        return Exists(existing), at, leaseMs, lost;
      }
      return Failed, at, leaseMs, lost;
    }

    /** `Complete`: the update decides. Whatever happens before the classification is read, and
        whatever becomes of it, its answers mean that the update touched no row; a driver error on
        the update leaves that open. */
    method Complete(key: Bytes, token: Bytes, payload: Bytes, recordTTL: Time, update: Trip, classify: Trip)
      returns (answer: StoreAnswer, ghost at: Rows, ghost after: Rows, ghost when: Time)
      requires WellFormed(rows)
      modifies this
      ensures WellFormed(rows) && WellFormed(at) && old(now) <= when <= now
      ensures var (rows', one) := CompleteStmt(at, key, token, payload, Millis(recordTTL), when);
              && after == (if update.LostBefore? then at else rows')
              && (answer.Accepted? <==> update.Works? && one)
              && (answer.OtherError? <==> !update.Works? || (!one && !classify.Works?))
      ensures answer.Accepted? || !update.Works? ==> rows == after && when == now
      ensures update.Works? && !CompleteStmt(at, key, token, payload, Millis(recordTTL), when).1 && classify.Works? ==>
                (answer == if HeldByOther(rows, key, token, now) then TokenMismatch else NotFound)
    {
      Interfere();
      at, when := rows, now;
      var one := false;
      if update != LostBefore {
        var (rows', touched) := CompleteStmt(rows, key, token, payload, Millis(recordTTL), now);
        rows, one := rows', touched;
      }
      after := rows;
      if update != Works {
        return OtherError, at, after, when;
      }
      if one {
        return Accepted, at, after, when;
      }
      Interfere();
      if classify != Works {
        return OtherError, at, after, when;
      }
      answer := Classify(rows, key, token, now);
    }

    /** `Release`, in the same way. */
    method Release(key: Bytes, token: Bytes, delete: Trip, classify: Trip)
      returns (answer: StoreAnswer, ghost at: Rows, ghost after: Rows, ghost when: Time)
      requires WellFormed(rows)
      modifies this
      ensures WellFormed(rows) && WellFormed(at) && old(now) <= when <= now
      ensures var (rows', one) := ReleaseStmt(at, key, token, when);
              && after == (if delete.LostBefore? then at else rows')
              && (answer.Accepted? <==> delete.Works? && one)
              && (answer.OtherError? <==> !delete.Works? || (!one && !classify.Works?))
      ensures answer.Accepted? || !delete.Works? ==> rows == after && when == now
      ensures delete.Works? && !ReleaseStmt(at, key, token, when).1 && classify.Works? ==>
                (answer == if HeldByOther(rows, key, token, now) then TokenMismatch else NotFound)
    {
      Interfere();
      at, when := rows, now;
      var one := false;
      if delete != LostBefore {
        var (rows', touched) := ReleaseStmt(rows, key, token, now);
        rows, one := rows', touched;
      }
      after := rows;
      if delete != Works {
        return OtherError, at, after, when;
      }
      if one {
        return Accepted, at, after, when;
      }
      Interfere();
      if classify != Works {
        return OtherError, at, after, when;
      }
      answer := Classify(rows, key, token, now);
    }
  }

  lemma MillisShrink(d: Time, longer: Time)
    requires d <= longer
    ensures Millis(d) <= Millis(longer)
  {
  }

  // ---------------------------------------------------------------- refinement

  lemma ViewLater(rows: Rows, now: Time, later: Time)
    requires WellFormed(rows) && now <= later
    ensures View(rows, later) == A.Prune(View(rows, now), later)
  {
    hide WellFormedRow;
    forall key | key in rows ensures LiveRow(rows[key], later)
        <==> LiveRow(rows[key], now) && EntryOf(rows[key]).until > later {
      LiveUntil(rows[key], now, later);
    }
  }

  lemma LiveUntil(r: Row, now: Time, later: Time)
    requires WellFormedRow(r) && now <= later
    ensures LiveRow(r, later) <==> LiveRow(r, now) && EntryOf(r).until > later
  {
  }

  /** Reserve is the abstract claim for a lease of whole milliseconds, at least one, and an existing
      record reads back with its remaining time rounded to whole milliseconds. */
  lemma ReserveRefines(rows: Rows, rec: Record, leaseMs: Time, now: Time)
    requires WellFormed(rows) && leaseMs >= 1
    ensures var (rows', reply) := ReserveAt(rows, rec, leaseMs, now);
            var (s', holder) := A.Claim(View(rows, now), rec.key, rec.token, rec.fingerprint, now + MILLI * leaseMs);
            && WellFormed(rows') && View(rows', now) == s'
            && (holder.None? <==> reply.Claimed?)
            && (holder.Some? ==> reply.Exists? && reply.existing.Some?)
            && (holder.Some? ==>
                  A.Reports(reply.existing.value, holder.value, now + NearestMs(holder.value.until - now)))
  {
    hide ScanRecord, A.Reports, NearestMs;
    if rec.key in rows {
      ExpiredIsNotLive(rows[rec.key], now);
      if LiveRow(rows[rec.key], now) {
        ScanReadsBack(rec.key, rows[rec.key], now);
      }
    }
  }

  lemma ScanReadsBack(key: Bytes, r: Row, now: Time)
    requires WellFormedRow(r) && LiveRow(r, now)
    ensures var rec := ScanRecord(key, r, now, now);
            rec.Some? && A.Reports(rec.value, EntryOf(r), now + NearestMs(EntryOf(r).until - now))
  {
  }

  /** Complete is the abstract compare-and-set. Its sentinel differs from the other stores' for a
      record completed under another token: not found instead of token mismatch. */
  lemma CompleteRefines(rows: Rows, key: Bytes, token: Bytes, payload: Bytes, recordTTL: Time, now: Time)
    requires WellFormed(rows)
    ensures var (rows', answer) := CompleteSpec(rows, key, token, payload, recordTTL, now);
            var (s', effect) := A.Complete(View(rows, now), key, token, payload, now + MILLI * Millis(recordTTL));
            && WellFormed(rows') && View(rows', now) == s'
            && Normalise(answer) == Ok(!effect)
            && (answer.TokenMismatch? <==>
                  key in View(rows, now) && View(rows, now)[key].Held? && View(rows, now)[key].token != token)
  {
  }

  lemma ReleaseRefines(rows: Rows, key: Bytes, token: Bytes, now: Time)
    requires WellFormed(rows)
    ensures var (rows', answer) := ReleaseSpec(rows, key, token, now);
            var (s', effect) := A.Release(View(rows, now), key, token);
            && WellFormed(rows') && View(rows', now) == s'
            && Normalise(answer) == Ok(!effect)
            && (answer.TokenMismatch? <==>
                  key in View(rows, now) && View(rows, now)[key].Held? && View(rows, now)[key].token != token)
  {
  }

  // ---------------------------------------------------------------- Begin with nobody else at the key

  predicate Present(rows: Rows, key: Bytes, now: Time)
    requires WellFormed(rows)
  {
    key in rows && LiveRow(rows[key], now)
  }

  /** The client takes the record for expired although the row is still live. */
  predicate SeenExpired(rows: Rows, key: Bytes, asked: Time, read: Time)
    requires WellFormed(rows)
  {
    Present(rows, key, asked) && asked + NearestMs(EntryOf(rows[key]).until - asked) <= read
  }

  /** As for Redis, except that the remaining time is rounded: the attempts that come too early for
      the database and too late for the client are those of the last half millisecond. */
  lemma UndisturbedBegin(rows: Rows, key: Bytes, fp: Bytes, token: Bytes, until1: Time, until2: Time, until3: Time,
                         t1: Time, u1: Time, t2: Time, u2: Time, t3: Time, u3: Time)
    requires WellFormed(rows) && t1 <= u1 <= t2 <= u2 <= t3 <= u3
    ensures var (rows1, reply1) := ReserveSpec(rows, Request(key, fp, token, until1), t1);
            var (rows2, reply2) := ReserveSpec(rows1, Request(key, fp, token, until2), t2);
            var (_, reply3) := ReserveSpec(rows2, Request(key, fp, token, until3), t3);
            var next1 := Judge(1, reply1, u1, fp, token);
            && !next1.Broken? && (next1.Again? <==> SeenExpired(rows, key, t1, u1))
            && (next1.Again? ==>
                  var next2 := Judge(2, reply2, u2, fp, token);
                  && (Present(rows, key, t2) ==> next2 == Again && EntryOf(rows[key]).until < u1 + MILLI / 2)
                  && (!Present(rows, key, t2) ==> next2 == Settled(Proceed(token)))
                  && (next2.Again? ==>
                        Judge(3, reply3, u3, fp, token)
                          == if Present(rows, key, t3) then Broken(KeepsReturningExpired) else Settled(Proceed(token))))
  {
    hide ReserveSpec, NearestMs, WellFormedRow;
    UndisturbedAttempt(rows, key, fp, token, until1, 1, t1, u1);
    UndisturbedAttempt(rows, key, fp, token, until2, 2, t2, u2);
    UndisturbedAttempt(rows, key, fp, token, until3, 3, t3, u3);
    if key in rows {
      LiveUntil(rows[key], t1, t2);
      LiveUntil(rows[key], t2, t3);
    }
    if Present(rows, key, t2) {
      AlmostOver(EntryOf(rows[key]).until - t2);
    }
    if Present(rows, key, t3) {
      AlmostOver(EntryOf(rows[key]).until - t3);
    }
  }

  lemma AlmostOver(d: Time)
    ensures 0 < d < MILLI / 2 ==> NearestMs(d) == 0
  {
  }

  lemma UndisturbedAttempt(rows: Rows, key: Bytes, fp: Bytes, token: Bytes, until: Time, attempt: nat, t: Time, u: Time)
    requires WellFormed(rows) && t <= u
    ensures var (rows', reply) := ReserveSpec(rows, Request(key, fp, token, until), t);
            var next := Judge(attempt, reply, u, fp, token);
            && (!Present(rows, key, t) ==> next == Settled(Proceed(token)))
            && (Present(rows, key, t) ==> rows' == rows)
            && (Present(rows, key, t) && !SeenExpired(rows, key, t, u) ==>
                  next.Settled? && !next.outcome.Proceed?)
            && (SeenExpired(rows, key, t, u) ==>
                  next == if attempt < MAX_ATTEMPTS then Again else Broken(KeepsReturningExpired))
  {
    hide NearestMs, ScanRecord;
    if key in rows {
      ExpiredIsNotLive(rows[key], t);
      if LiveRow(rows[key], t) {
        ScanReadsBack(key, rows[key], t);
      }
    }
  }

  /** Such a run, with three attempts 100 microseconds apart in the last half of a lease of one
      millisecond granted at 0. */
  lemma BeginMayBlameTheDatabase(key: Bytes, fp: Bytes, first: Bytes, second: Bytes)
    ensures var (rows, _) := ReserveSpec(map[], Request(key, fp, first, MILLI), 0);
            var (rows1, reply1) := ReserveSpec(rows, Request(key, fp, second, 2 * MILLI), 510_000);
            var (rows2, reply2) := ReserveSpec(rows1, Request(key, fp, second, 2 * MILLI), 610_000);
            var (_, reply3) := ReserveSpec(rows2, Request(key, fp, second, 2 * MILLI), 710_000);
            && Judge(1, reply1, 600_000, fp, second) == Again
            && Judge(2, reply2, 700_000, fp, second) == Again
            && Judge(3, reply3, 800_000, fp, second) == Broken(KeepsReturningExpired)
  {
    var (rows, _) := ReserveSpec(map[], Request(key, fp, first, MILLI), 0);
    assert rows[key] == ReservedRow(first, fp, MILLI);
    assert SeenExpired(rows, key, 510_000, 600_000);
    UndisturbedBegin(rows, key, fp, second, 2 * MILLI, 2 * MILLI, 2 * MILLI,
                     510_000, 600_000, 610_000, 700_000, 710_000, 800_000);
  }

  /** And rounding up lets a client replay a record that has just expired. */
  lemma ReplayMayOutliveRecord(rows: Rows, key: Bytes, fp: Bytes, token: Bytes, lease: Time, now: Time)
    requires key in rows && WellFormedRow(rows[key]) && rows[key].state == COMPLETED && rows[key].fingerprint == fp
    requires rows[key].recordExpiresAt == Some(now + MILLI / 2)
    ensures var (_, reply) := ReserveSpec(rows, Request(key, fp, token, lease), now);
            Judge(1, reply, now + MILLI / 2, fp, token) == Settled(Replay(rows[key].payload.value))
  {
    assert NearestMs(MILLI / 2) == MILLI;
  }
}
