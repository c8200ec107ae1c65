/** Rows of the records table and the predicates of the SQL statements. Times are instants of
    the database clock; `now` is the statement's now(). */
module PgRows {
  import opened Basics
  import A = AbstractStore

  const RESERVED: int := 1
  const COMPLETED: int := 2

  datatype Row = Row(
    state: int,
    token: Bytes,
    fingerprint: Bytes,
    payload: Option<Bytes>,
    leaseExpiresAt: Time,
    recordExpiresAt: Option<Time>)

  type Rows = map<Bytes, Row>

  /** The `live` predicate; comparing NULL is not true. */
  predicate LiveRow(r: Row, now: Time) {
    || (r.state == RESERVED && r.leaseExpiresAt > now)
    || (r.state == COMPLETED && r.recordExpiresAt.Some? && r.recordExpiresAt.value > now)
  }

  /** The `expired` predicate. */
  predicate ExpiredRow(r: Row, now: Time) {
    || (r.state == RESERVED && r.leaseExpiresAt <= now)
    || (r.state == COMPLETED && r.recordExpiresAt.Some? && r.recordExpiresAt.value <= now)
  }

  /** The WHERE clause of the two compare-and-set statements. */
  predicate CasMatches(r: Row, token: Bytes, now: Time) {
    r.token == token && r.state == RESERVED && r.leaseExpiresAt > now
  }

  function ReservedRow(token: Bytes, fp: Bytes, until: Time): Row {
    Row(RESERVED, token, fp, None, until, None)
  }

  function CompletedRow(r: Row, payload: Bytes, until: Time): Row {
    r.(state := COMPLETED, payload := Some(payload), recordExpiresAt := Some(until))
  }

  /** Every row the statements write is reserved, or completed with its deadline and payload. */
  predicate WellFormedRow(r: Row) {
    r.state == RESERVED || (r.state == COMPLETED && r.recordExpiresAt.Some? && r.payload.Some?)
  }

  predicate WellFormed(rows: Rows) {
    forall key | key in rows :: WellFormedRow(rows[key])
  }

  /** The two hand-written predicates are each other's complement on such rows, so Reserve's
      overwrite and its read never both apply nor both fail. */
  lemma ExpiredIsNotLive(r: Row, now: Time)
    requires WellFormedRow(r)
    ensures ExpiredRow(r, now) <==> !LiveRow(r, now)
  {
  }

  function EntryOf(r: Row): A.Entry
    requires WellFormedRow(r)
  {
    if r.state == RESERVED then A.Held(r.token, r.fingerprint, r.leaseExpiresAt)
    else A.Done(r.token, r.fingerprint, r.payload.value, r.recordExpiresAt.value)
  }

  /** The abstract store the table stands for at now; stale rows stay in place unseen. */
  function View(rows: Rows, now: Time): A.Entries
    requires WellFormed(rows)
  {
    map key | key in rows && LiveRow(rows[key], now) :: EntryOf(rows[key])
  }
}
