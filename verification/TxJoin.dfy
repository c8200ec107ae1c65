/** The transactional join: CompleteTx inside business transactions of PostgreSQL at READ COMMITTED.
    now() is frozen when a transaction or an autocommit statement starts; a successful update keeps
    its row locked, and its new version private, until the transaction ends; a statement that had to
    wait judges the latest committed row. Times are nanoseconds; TTLs are cut to whole milliseconds. */
module TxJoin {
  import opened Basics
  import opened PgRows

  datatype Status = Open | Committed | RolledBack

  /** (false, ErrAlreadyCompleted) and (true, nil): what an update that matched nothing leads to. */
  datatype Verdict = AlreadyCompleted | LeaseLost

  datatype Tx = Tx(
    start: Time,
    status: Status,
    pending: map<Bytes, Row>,                // row versions only this transaction sees
    awaiting: Option<(Bytes, Bytes)>)        // key and token of an update that matched no row

  /** Autocommit statements of other sessions. */
  datatype Statement =
    | Reserve(key: Bytes, token: Bytes, fingerprint: Bytes, leaseTTL: Time)
    | Complete(key: Bytes, token: Bytes, payload: Bytes, recordTTL: Time)
    | Release(key: Bytes, token: Bytes)
    | Sweep(key: Bytes)

  datatype Issued = Issued(start: Time, statement: Statement)

  /** Calls answered (false, nil), with the transaction's start and what was asked for; calls answered
      otherwise; and commits. */
  datatype Event =
    | Join(tx: nat, key: Bytes, token: Bytes, start: Time, payload: Bytes, ttl: Time)
    | Answered(tx: nat, key: Bytes, token: Bytes, verdict: Verdict)
    | Commit(tx: nat, at: Time, joined: map<Bytes, Row>)

  datatype World = World(
    now: Time,
    rows: Rows,                              // the latest committed version of every row
    txs: map<nat, Tx>,
    running: map<nat, Issued>,
    claimed: set<Bytes>,                     // tokens whose Reserve claimed a key
    log: seq<Event>)

  datatype Action =
    | Tick(d: nat)
    | BeginTx(id: nat)
    | Update(id: nat, key: Bytes, token: Bytes, payload: Bytes, recordTTL: Time)
    | Classify(id: nat)
    | CommitTx(id: nat)
    | RollbackTx(id: nat)
    | Issue(id: nat, statement: Statement)
    | Execute(id: nat)

  predicate IsOpen(w: World, id: nat) {
    id in w.txs && w.txs[id].status.Open?
  }

  /** The row is locked by an open transaction other than id. */
  predicate LockedByOther(w: World, id: nat, key: Bytes) {
    exists t | t in w.txs :: t != id && w.txs[t].status.Open? && key in w.txs[t].pending
  }

  predicate Locked(w: World, key: Bytes) {
    exists t | t in w.txs :: w.txs[t].status.Open? && key in w.txs[t].pending
  }

  /** What a statement of transaction id sees under the key. */
  function Visible(w: World, id: nat, key: Bytes): Option<Row>
    requires id in w.txs
  {
    if key in w.txs[id].pending then Some(w.txs[id].pending[key])
    else if key in w.rows then Some(w.rows[key])
    else None
  }

  predicate Matches(r: Option<Row>, token: Bytes, start: Time) {
    r.Some? && CasMatches(r.value, token, start)
  }

  function CommittedRow(w: World, key: Bytes): Option<Row> {
    if key in w.rows then Some(w.rows[key]) else None
  }

  predicate Enabled(w: World, a: Action) {
    match a
    case Tick(_) => true
    case BeginTx(id) => id !in w.txs
    case Update(id, key, token, _, _) =>
      // Callers hold a token from Begin; the update waits while another transaction has the row.
      && IsOpen(w, id) && w.txs[id].awaiting.None? && token in w.claimed
      && (LockedByOther(w, id, key) ==> !Matches(CommittedRow(w, key), token, w.txs[id].start))
    case Classify(id) => IsOpen(w, id) && w.txs[id].awaiting.Some?
    case CommitTx(id) => IsOpen(w, id) && w.txs[id].awaiting.None?
    case RollbackTx(id) => IsOpen(w, id)
    case Issue(id, _) => id !in w.running
    case Execute(id) => id in w.running && CanExecute(w, w.running[id])
  }

  predicate CanExecute(w: World, s: Issued) {
    match s.statement
    case Reserve(key, token, _, _) => !Locked(w, key) && token !in w.claimed
    case Complete(key, token, _, _) => Locked(w, key) ==> !Matches(CommittedRow(w, key), token, s.start)
    case Release(key, token) => Locked(w, key) ==> !Matches(CommittedRow(w, key), token, s.start)
    case Sweep(key) => !Locked(w, key)
  }

  /** The first statement of CompleteTx. */
  function DoUpdate(w: World, id: nat, key: Bytes, token: Bytes, payload: Bytes, recordTTL: Time): World
    requires Enabled(w, Update(id, key, token, payload, recordTTL))
  {
    var tx := w.txs[id];
    var row := Visible(w, id, key);
    if !LockedByOther(w, id, key) && Matches(row, token, tx.start) then
      var mine := CompletedRow(row.value, payload, tx.start + MILLI * Millis(recordTTL));
      w.(txs := w.txs[id := tx.(pending := tx.pending[key := mine])],
         log := w.log + [Join(id, key, token, tx.start, payload, recordTTL)])
    else w.(txs := w.txs[id := tx.(awaiting := Some((key, token)))])
  }

  /** What the second statement of CompleteTx concludes from the row it sees. */
  function VerdictOn(row: Option<Row>, token: Bytes, start: Time): Verdict {
    if row.Some? && LiveRow(row.value, start) && row.value.state == COMPLETED && row.value.token == token
    then AlreadyCompleted else LeaseLost
  }

  function DoClassify(w: World, id: nat): World
    requires Enabled(w, Classify(id))
  {
    var tx := w.txs[id];
    var (key, token) := tx.awaiting.value;
    w.(txs := w.txs[id := tx.(awaiting := None)],
       log := w.log + [Answered(id, key, token, VerdictOn(Visible(w, id, key), token, tx.start))])
  }

  function DoCommit(w: World, id: nat): World
    requires Enabled(w, CommitTx(id))
  {
    var tx := w.txs[id];
    w.(rows := w.rows + tx.pending,
       txs := w.txs[id := tx.(status := Committed, pending := map[])],
       log := w.log + [Commit(id, w.now, tx.pending)])
  }

  function DoRollback(w: World, id: nat): World
    requires Enabled(w, RollbackTx(id))
  {
    w.(txs := w.txs[id := w.txs[id].(status := RolledBack, pending := map[], awaiting := None)])
  }

  function DoExecute(w: World, id: nat): World
    requires Enabled(w, Execute(id))
  {
    var Issued(start, statement) := w.running[id];
    var w' := w.(running := w.running - {id});
    match statement
    case Reserve(key, token, fp, ms) =>
      if key in w.rows && !ExpiredRow(w.rows[key], start) then w'
      else
        w'.(rows := w.rows[key := ReservedRow(token, fp, start + MILLI * Millis(ms))], claimed := w.claimed + {token})
    case Complete(key, token, payload, ms) =>
      if Matches(CommittedRow(w, key), token, start) then
        w'.(rows := w.rows[key := CompletedRow(w.rows[key], payload, start + MILLI * Millis(ms))])
      else w'
    case Release(key, token) =>
      if Matches(CommittedRow(w, key), token, start) then w'.(rows := w.rows - {key}) else w'
    case Sweep(key) =>
      if key in w.rows && ExpiredRow(w.rows[key], start) then w'.(rows := w.rows - {key}) else w'
  }

  function Apply(w: World, a: Action): World
    requires Enabled(w, a)
  {
    match a
    case Tick(d) => w.(now := w.now + d)
    case BeginTx(id) => w.(txs := w.txs[id := Tx(w.now, Open, map[], None)])
    case Update(id, key, token, payload, ttl) => DoUpdate(w, id, key, token, payload, ttl)
    case Classify(id) => DoClassify(w, id)
    case CommitTx(id) => DoCommit(w, id)
    case RollbackTx(id) => DoRollback(w, id)
    case Issue(id, statement) => w.(running := w.running[id := Issued(w.now, statement)])
    case Execute(id) => DoExecute(w, id)
  }

  ghost predicate Possible(w: World, run: seq<Action>)
    decreases |run|
  {
    |run| == 0 || (Enabled(w, run[0]) && Possible(Apply(w, run[0]), run[1..]))
  }

  ghost function After(w: World, run: seq<Action>): World
    requires Possible(w, run)
    decreases |run|
  {
    if |run| == 0 then w else After(Apply(w, run[0]), run[1..])
  }

  ghost predicate Initial(w: World) {
    w.rows == map[] && w.txs == map[] && w.running == map[] && w.claimed == {} && w.log == []
  }

  // ---------------------------------------------------------------- the invariant

  ghost predicate Started(w: World) {
    && (forall id :: id in w.txs ==> w.txs[id].start <= w.now)
    && (forall id :: id in w.running ==> w.running[id].start <= w.now)
  }

  ghost predicate KnownTokens(rows: Rows, claimed: set<Bytes>) {
    forall key :: key in rows ==> rows[key].token in claimed && WellFormedRow(rows[key])
  }

  /** A pending version completes the committed row it was made from, which stays put while the
      lock is held, and it outlives the transaction's frozen clock. */
  ghost predicate GoodPending(rows: Rows, key: Bytes, start: Time, mine: Row) {
    && key in rows && rows[key].state == RESERVED && rows[key].token == mine.token
    && mine.state == COMPLETED && mine.payload.Some?
    && mine.recordExpiresAt.Some? && mine.recordExpiresAt.value > start
  }

  ghost predicate PendingInv(w: World) {
    forall id, key :: IsOpen(w, id) && key in w.txs[id].pending ==>
      GoodPending(w.rows, key, w.txs[id].start, w.txs[id].pending[key])
  }

  /** At most one open transaction has a row. */
  ghost predicate OneLock(w: World) {
    forall id, id', key :: IsOpen(w, id) && IsOpen(w, id') && key in w.txs[id].pending && key in w.txs[id'].pending ==>
      id == id'
  }

  /** An update that matched nothing would still match nothing. */
  ghost predicate AwaitingInv(w: World) {
    forall id :: IsOpen(w, id) && w.txs[id].awaiting.Some? ==> StillUnmatched(w, id)
  }

  ghost predicate StillUnmatched(w: World, id: nat)
    requires id in w.txs && w.txs[id].awaiting.Some?
  {
    var (key, token) := w.txs[id].awaiting.value;
    token in w.claimed && !Matches(Visible(w, id, key), token, w.txs[id].start)
  }

  predicate JoinedKey(e: Event, key: Bytes) {
    e.Commit? && key in e.joined && e.joined[key].recordExpiresAt.Some?
  }

  /** While a joined record is valid it is the committed row of its key. */
  ghost predicate Protected(w: World) {
    forall e, key :: e in w.log && JoinedKey(e, key) && w.now < e.joined[key].recordExpiresAt.value ==>
      key in w.rows && w.rows[key] == e.joined[key] && w.rows[key].state == COMPLETED
  }

  /** Commits of the same key are at least a record lifetime apart. */
  ghost predicate Spaced(log: seq<Event>) {
    forall i, j, key :: 0 <= i < j < |log| && JoinedKey(log[i], key) && JoinedKey(log[j], key) ==>
      log[j].at >= log[i].joined[key].recordExpiresAt.value
  }

  ghost predicate Inv(w: World) {
    && Started(w) && KnownTokens(w.rows, w.claimed) && PendingInv(w) && OneLock(w) && AwaitingInv(w)
    && Protected(w) && Spaced(w.log)
  }
}
