/** The Redis store: one hash per record whose key TTL is the only expiry authority. Times are
    nanoseconds of one clock; TTLs go to the server, and come back, in whole milliseconds. */
module RediStore {
  import opened Basics
  import opened Records
  import opened Lease
  import A = AbstractStore

  datatype Field = STATE | TOKEN | FP | PAYLOAD | LEASE_EXP_MS | REC_EXP_MS

  /** A hash field value. Decimal numbers are kept as the numbers they denote; any other text is no
      number. */
  datatype Value = Text(text: Bytes) | Number(ms: Time)

  type Hash = map<Field, Value>

  datatype Keyed = Keyed(hash: Hash, expireAt: Time)

  type Db = map<Bytes, Keyed>

  const RESERVED: Value := Text([0x31])
  const COMPLETED: Value := Text([0x32])

  /** EXISTS: Redis drops a key when its TTL runs out. */
  predicate Present(db: Db, key: Bytes, now: Time) {
    key in db && db[key].expireAt > now
  }

  // ---------------------------------------------------------------- the Lua scripts, each one atomic step

  /** PTTL: the whole milliseconds that are left. */
  function Pttl(k: Keyed, now: Time): Time {
    (k.expireAt - now) / MILLI
  }

  /** `reserveScript`: None is "OK", otherwise {PTTL, HGETALL}. */
  function ReserveScript(db: Db, key: Bytes, state: Value, token: Bytes, fp: Bytes,
                         leaseMs: Time, ttl: Time, now: Time): (Db, Option<(Time, Hash)>)
  {
    if Present(db, key, now) then (db, Some((Pttl(db[key], now), db[key].hash)))
    else
      (db[key := Keyed(map[STATE := state, TOKEN := Text(token), FP := Text(fp),
                           LEASE_EXP_MS := Number(leaseMs)], now + MILLI * ttl)], None)
  }

  datatype Status = OK | NOT_FOUND | TOKEN_MISMATCH

  /** `completeScript`. */
  function CompleteScript(db: Db, key: Bytes, token: Bytes, payload: Bytes, recMs: Time, ttl: Time, now: Time)
    : (Db, Status)
  {
    if !Present(db, key, now) || TOKEN !in db[key].hash then (db, NOT_FOUND)
    else if db[key].hash[TOKEN] != Text(token) then (db, TOKEN_MISMATCH)
    else if STATE !in db[key].hash || db[key].hash[STATE] != RESERVED then (db, NOT_FOUND)
    else
      (db[key := Keyed(db[key].hash[STATE := COMPLETED][PAYLOAD := Text(payload)][REC_EXP_MS := Number(recMs)],
                       now + MILLI * ttl)], OK)
  }

  /** `releaseScript`. */
  function ReleaseScript(db: Db, key: Bytes, token: Bytes, now: Time): (Db, Status) {
    if !Present(db, key, now) || TOKEN !in db[key].hash then (db, NOT_FOUND)
    else if db[key].hash[TOKEN] != Text(token) then (db, TOKEN_MISMATCH)
    else if STATE !in db[key].hash || db[key].hash[STATE] != RESERVED then (db, NOT_FOUND)
    else (db - {key}, OK)
  }

  // ---------------------------------------------------------------- decoding replies

  function TextOf(hash: Hash, field: Field): Bytes {
    if field in hash && hash[field].Text? then hash[field].text else []
  }

  /** A deadline field: absent, a number of milliseconds, or unparsable. */
  predicate Parses(hash: Hash, field: Field) {
    field in hash ==> hash[field].Number?
  }

  function DeadlineOf(hash: Hash, field: Field): Time
    requires Parses(hash, field)
  {
    if field in hash then hash[field].ms * MILLI else UNSET
  }

  /** `recordFromFields`; None is the corrupted-record error. */
  function RecordFromFields(key: Bytes, hash: Hash): Option<Record> {
    if STATE !in hash || (hash[STATE] != RESERVED && hash[STATE] != COMPLETED) then None
    else if !Parses(hash, LEASE_EXP_MS) || !Parses(hash, REC_EXP_MS) then None
    else
      Some(Record(key, TextOf(hash, FP), if hash[STATE] == RESERVED then Reserved else Completed,
                  TextOf(hash, TOKEN), DeadlineOf(hash, LEASE_EXP_MS), DeadlineOf(hash, REC_EXP_MS),
                  TextOf(hash, PAYLOAD)))
  }

  /** The record a reply stands for: its deadline is rebuilt from PTTL on the reader's clock. */
  function RecordOfReply(key: Bytes, pttl: Time, hash: Hash, now: Time): Option<Record> {
    match RecordFromFields(key, hash)
    case None => None
    case Some(rec) =>
      if pttl < 0 then None
      else if rec.state.Reserved? then Some(rec.(leaseExpiresAt := now + pttl * MILLI))
      else Some(rec.(recordExpiresAt := now + pttl * MILLI))
  }

  /** The flat HGETALL reply lists every field of the hash once, in some order. */
  ghost predicate Flattens(fields: seq<(Field, Value)>, hash: Hash) {
    && (forall i :: 0 <= i < |fields| ==> fields[i].0 in hash && hash[fields[i].0] == fields[i].1)
    && (forall f :: f in hash ==> (f, hash[f]) in fields)
  }

  /** `recordFromReply`: the loop that rebuilds the field map undoes HGETALL's flattening. */
  method RecordFromReply(key: Bytes, pttl: Time, rawFields: seq<(Field, Value)>, now: Time, ghost hash: Hash)
    returns (rec: Option<Record>)
    requires Flattens(rawFields, hash)
    ensures rec == RecordOfReply(key, pttl, hash, now)
  {
    var fields: Hash := map[];
    for i := 0 to |rawFields|
      invariant forall j :: 0 <= j < i ==> rawFields[j].0 in fields
      invariant forall f :: f in fields ==> f in hash && fields[f] == hash[f]
    {
      fields := fields[rawFields[i].0 := rawFields[i].1];
    }
    forall f | f in hash ensures f in fields {
      var j :| 0 <= j < |rawFields| && rawFields[j] == (f, hash[f]);
    }
    assert fields == hash;
    rec := RecordFromFields(key, fields);
    if rec.None? {
      return None;
    }
    if pttl < 0 {
      return None;
    }
    var deadline := now + pttl * MILLI;
    match rec.value.state {
      case Reserved => rec := Some(rec.value.(leaseExpiresAt := deadline));
      case Completed => rec := Some(rec.value.(recordExpiresAt := deadline));
      case Invalid(_) =>
    }
  }

  /** `statusToErr`. */
  function StatusToErr(status: Status): StoreAnswer {
    match status
    case OK => Accepted
    case NOT_FOUND => NotFound
    case TOKEN_MISMATCH => TokenMismatch
  }

  // ---------------------------------------------------------------- the store

  function ReserveSpec(db: Db, rec: Record, now: Time): (Db, ReserveReply) {
    match ReserveScript(db, rec.key, RESERVED, rec.token, rec.fingerprint, rec.leaseExpiresAt / MILLI,
                        Millis(rec.leaseExpiresAt - now), now)
    case (db', None) => (db', Claimed)
    case (db', Some((pttl, hash))) =>
      match RecordOfReply(rec.key, pttl, hash, now)
      case None => (db', Failed)
      case Some(existing) => (db', Exists(Some(existing)))
  }

  function CompleteSpec(db: Db, key: Bytes, token: Bytes, payload: Bytes, recordTTL: Time, now: Time)
    : (Db, StoreAnswer)
  {
    var (db', status) := CompleteScript(db, key, token, payload, (now + recordTTL) / MILLI, Millis(recordTTL), now);
    (db', StatusToErr(status))
  }

  function ReleaseSpec(db: Db, key: Bytes, token: Bytes, now: Time): (Db, StoreAnswer) {
    var (db', status) := ReleaseScript(db, key, token, now);
    (db', StatusToErr(status))
  }

  /** `Store`, with the server's keyspace in place of the client connection. The prefix every key
      gets is left out: it is the same for all. */
  class Store {
    var db: Db

    constructor ()
      ensures db == map[]
    {
      db := map[];
    }

    method Reserve(rec: Record, now: Time) returns (reply: ReserveReply)
      modifies this
      ensures (db, reply) == ReserveSpec(old(db), rec, now)
    {
      var (db', res) := ReserveScript(db, rec.key, RESERVED, rec.token, rec.fingerprint,
                                      rec.leaseExpiresAt / MILLI, Millis(rec.leaseExpiresAt - now), now);
      db := db';
      if res.None? {
        return Claimed;
      }
      var raw := HGetAll(res.value.1);
      var existing := RecordFromReply(rec.key, res.value.0, raw, now, res.value.1);
      if existing.None? {
        return Failed;
      }
      return Exists(existing);
    }

    method Complete(key: Bytes, token: Bytes, payload: Bytes, recordTTL: Time, now: Time) returns (answer: StoreAnswer)
      modifies this
      ensures (db, answer) == CompleteSpec(old(db), key, token, payload, recordTTL, now)
    {
      var px := recordTTL / MILLI;
      if px < 1 {
        px := 1;
      }
      var (db', status) := CompleteScript(db, key, token, payload, (now + recordTTL) / MILLI, px, now);
      db := db';
      answer := StatusToErr(status);
    }

    method Release(key: Bytes, token: Bytes, now: Time) returns (answer: StoreAnswer)
      modifies this
      ensures (db, answer) == ReleaseSpec(old(db), key, token, now)
    {
      var (db', status) := ReleaseScript(db, key, token, now);
      db := db';
      answer := StatusToErr(status);
    }
  }

  /** HGETALL: the order of the fields is up to the server. */
  method HGetAll(hash: Hash) returns (fields: seq<(Field, Value)>)
    ensures Flattens(fields, hash)
  {
    fields := [];
    var left := hash.Keys;
    while left != {}
      invariant left <= hash.Keys
      invariant forall i :: 0 <= i < |fields| ==> fields[i].0 in hash && hash[fields[i].0] == fields[i].1
      invariant forall f :: f in hash && f !in left ==> (f, hash[f]) in fields
      decreases left
    {
      var f :| f in left;
      ghost var before := fields;
      fields := fields + [(f, hash[f])];
      left := left - {f};
      assert fields[|before|] == (f, hash[f]);
    }
  }

  // ---------------------------------------------------------------- refinement

  /** What the scripts write: a known state, numbers for deadlines, and a payload once completed. */
  predicate WellFormedHash(h: Hash) {
    && {STATE, TOKEN, FP, LEASE_EXP_MS} <= h.Keys
    && (h[STATE] == RESERVED || h[STATE] == COMPLETED)
    && h[TOKEN].Text? && h[FP].Text? && Parses(h, LEASE_EXP_MS) && Parses(h, REC_EXP_MS)
    && (h[STATE] == COMPLETED ==> PAYLOAD in h && h[PAYLOAD].Text?)
  }

  ghost predicate WellFormed(db: Db) {
    forall key :: key in db ==> WellFormedHash(db[key].hash)
  }

  function EntryOf(k: Keyed): A.Entry {
    if STATE in k.hash && k.hash[STATE] == RESERVED then
      A.Held(TextOf(k.hash, TOKEN), TextOf(k.hash, FP), k.expireAt)
    else
      A.Done(TextOf(k.hash, TOKEN), TextOf(k.hash, FP), TextOf(k.hash, PAYLOAD), k.expireAt)
  }

  /** The abstract store the keyspace stands for at now. */
  function View(db: Db, now: Time): A.Entries {
    map key | key in db && Present(db, key, now) :: EntryOf(db[key])
  }

  lemma ViewLater(db: Db, now: Time, later: Time)
    requires now <= later
    ensures View(db, later) == A.Prune(View(db, now), later)
  {
  }

  /** Reserve is the abstract claim for a lease of whole milliseconds, at least one, and an existing
      record reads back with its remaining time cut to whole milliseconds. */
  lemma ReserveRefines(db: Db, rec: Record, now: Time)
    requires WellFormed(db)
    ensures var (db', reply) := ReserveSpec(db, rec, now);
            var (s', holder) := A.Claim(View(db, now), rec.key, rec.token, rec.fingerprint,
                                        now + MILLI * Millis(rec.leaseExpiresAt - now));
            && WellFormed(db') && View(db', now) == s'
            && (holder.None? <==> reply.Claimed?)
            && (holder.Some? ==> reply.Exists? && reply.existing.Some?)
            && (holder.Some? ==>
                  A.Reports(reply.existing.value, holder.value, now + FloorMs(holder.value.until - now)))
  {
    hide EntryOf, RecordOfReply, WellFormedHash, A.Reports, Millis, FloorMs;
    ReservedHash(rec.token, rec.fingerprint, rec.leaseExpiresAt / MILLI,
                 now + MILLI * Millis(rec.leaseExpiresAt - now));
    if Present(db, rec.key, now) {
      ReplyReadsBack(rec.key, db[rec.key], now);
    }
  }

  lemma ReservedHash(token: Bytes, fp: Bytes, leaseMs: Time, until: Time)
    ensures var h: Hash := map[STATE := RESERVED, TOKEN := Text(token), FP := Text(fp),
                               LEASE_EXP_MS := Number(leaseMs)];
            WellFormedHash(h) && EntryOf(Keyed(h, until)) == A.Held(token, fp, until)
  {
  }

  lemma CompletedHash(k: Keyed, payload: Bytes, recMs: Time, until: Time)
    requires WellFormedHash(k.hash)
    ensures var h := k.hash[STATE := COMPLETED][PAYLOAD := Text(payload)][REC_EXP_MS := Number(recMs)];
            WellFormedHash(h)
            && EntryOf(Keyed(h, until)) == A.Done(EntryOf(k).token, EntryOf(k).fingerprint, payload, until)
  {
  }

  lemma HashHeld(k: Keyed, token: Bytes)
    requires WellFormedHash(k.hash)
    ensures EntryOf(k).Held? <==> k.hash[STATE] == RESERVED
    ensures EntryOf(k).token == token <==> k.hash[TOKEN] == Text(token)
  {
  }

  lemma ReplyReadsBack(key: Bytes, k: Keyed, now: Time)
    requires WellFormedHash(k.hash) && k.expireAt > now
    ensures var r := RecordOfReply(key, Pttl(k, now), k.hash, now);
            r.Some? && A.Reports(r.value, EntryOf(k), now + FloorMs(EntryOf(k).until - now))
  {
  }

  lemma CompleteRefines(db: Db, key: Bytes, token: Bytes, payload: Bytes, recordTTL: Time, now: Time)
    requires WellFormed(db)
    ensures var (db', answer) := CompleteSpec(db, key, token, payload, recordTTL, now);
            var (s', effect) := A.Complete(View(db, now), key, token, payload, now + MILLI * Millis(recordTTL));
            && WellFormed(db') && View(db', now) == s'
            && Normalise(answer) == Ok(!effect)
            && (answer.TokenMismatch? <==> key in View(db, now) && View(db, now)[key].token != token)
  {
    hide EntryOf, WellFormedHash;
    if Present(db, key, now) {
      HashHeld(db[key], token);
      CompletedHash(db[key], payload, (now + recordTTL) / MILLI, now + MILLI * Millis(recordTTL));
      WellFormedFields(db[key].hash);
    }
  }

  lemma WellFormedFields(h: Hash)
    requires WellFormedHash(h)
    ensures TOKEN in h && STATE in h
  {
  }

  lemma ReleaseRefines(db: Db, key: Bytes, token: Bytes, now: Time)
    requires WellFormed(db)
    ensures var (db', answer) := ReleaseSpec(db, key, token, now);
            var (s', effect) := A.Release(View(db, now), key, token);
            && WellFormed(db') && View(db', now) == s'
            && Normalise(answer) == Ok(!effect)
            && (answer.TokenMismatch? <==> key in View(db, now) && View(db, now)[key].token != token)
  {
    hide EntryOf, WellFormedHash;
    if Present(db, key, now) {
      HashHeld(db[key], token);
      WellFormedFields(db[key].hash);
    }
  }

  // ---------------------------------------------------------------- Begin with nobody else at the key

  /** The client takes the record for expired although the server still has it. */
  predicate SeenExpired(db: Db, key: Bytes, asked: Time, read: Time) {
    Present(db, key, asked) && asked + FloorMs(db[key].expireAt - asked) <= read
  }

  /** Begin asks again exactly when the lease that is left, cut to whole milliseconds, is over when it
      reads its clock. The second attempt claims if the key is gone by then; in the last millisecond
      before the server drops it, the second and the third attempt get the same answer again, and Begin
      reports a contract violation exactly when the key outlives the third. */
  lemma UndisturbedBegin(db: Db, key: Bytes, fp: Bytes, token: Bytes, until1: Time, until2: Time, until3: Time,
                         t1: Time, u1: Time, t2: Time, u2: Time, t3: Time, u3: Time)
    requires WellFormed(db) && t1 <= u1 <= t2 <= u2 <= t3 <= u3
    ensures var (db1, reply1) := ReserveSpec(db, Request(key, fp, token, until1), t1);
            var (db2, reply2) := ReserveSpec(db1, Request(key, fp, token, until2), t2);
            var (_, reply3) := ReserveSpec(db2, Request(key, fp, token, until3), t3);
            var next1 := Judge(1, reply1, u1, fp, token);
            && !next1.Broken? && (next1.Again? <==> SeenExpired(db, key, t1, u1))
            && (next1.Again? ==>
                  var next2 := Judge(2, reply2, u2, fp, token);
                  && (Present(db, key, t2) ==> next2 == Again && db[key].expireAt < u1 + MILLI)
                  && (!Present(db, key, t2) ==> next2 == Settled(Proceed(token)))
                  && (next2.Again? ==>
                        Judge(3, reply3, u3, fp, token)
                          == if Present(db, key, t3) then Broken(KeepsReturningExpired) else Settled(Proceed(token))))
  {
    hide ReserveSpec, FloorMs, WellFormedHash;
    UndisturbedAttempt(db, key, fp, token, until1, 1, t1, u1);
    UndisturbedAttempt(db, key, fp, token, until2, 2, t2, u2);
    UndisturbedAttempt(db, key, fp, token, until3, 3, t3, u3);
  }

  lemma UndisturbedAttempt(db: Db, key: Bytes, fp: Bytes, token: Bytes, until: Time, attempt: nat, t: Time, u: Time)
    requires WellFormed(db) && t <= u
    ensures var (db', reply) := ReserveSpec(db, Request(key, fp, token, until), t);
            var next := Judge(attempt, reply, u, fp, token);
            && (!Present(db, key, t) ==> next == Settled(Proceed(token)))
            && (Present(db, key, t) ==> db' == db)
            && (Present(db, key, t) && !SeenExpired(db, key, t, u) ==>
                  next.Settled? && !next.outcome.Proceed?)
            && (SeenExpired(db, key, t, u) ==>
                  next == if attempt < MAX_ATTEMPTS then Again else Broken(KeepsReturningExpired))
  {
    hide FloorMs, WellFormedHash, RecordOfReply, Pttl;
    if Present(db, key, t) {
      ReplyReadsBack(key, db[key], t);
    }
  }

  /** Such a run, with three attempts 200 microseconds apart: a lease of one millisecond is granted at 0,
      and by the time each answer is read the cut-off remainder, nothing, is over. */
  lemma BeginMayBlameTheServer(key: Bytes, fp: Bytes, first: Bytes, second: Bytes)
    ensures var (db, _) := ReserveSpec(map[], Request(key, fp, first, MILLI), 0);
            var (db1, reply1) := ReserveSpec(db, Request(key, fp, second, MILLI + 1), 1);
            var (db2, reply2) := ReserveSpec(db1, Request(key, fp, second, MILLI + 200_000), 200_000);
            var (_, reply3) := ReserveSpec(db2, Request(key, fp, second, MILLI + 400_000), 400_000);
            && Judge(1, reply1, 200_000, fp, second) == Again
            && Judge(2, reply2, 400_000, fp, second) == Again
            && Judge(3, reply3, 600_000, fp, second) == Broken(KeepsReturningExpired)
  {
    var (db, _) := ReserveSpec(map[], Request(key, fp, first, MILLI), 0);
    assert db[key].expireAt == MILLI;
    assert SeenExpired(db, key, 1, 200_000);
    UndisturbedBegin(db, key, fp, second, MILLI + 1, MILLI + 200_000, MILLI + 400_000,
                     1, 200_000, 200_000, 400_000, 400_000, 600_000);
  }

  // ---------------------------------------------------------------- what the hash says by itself

  /** The deadlines in the hash, which nothing decides by, are those asked for, cut to whole milliseconds. */
  lemma InformationalDeadlines(db: Db, rec: Record, key: Bytes, token: Bytes, payload: Bytes, ttl: Time, now: Time)
    ensures ReserveSpec(db, rec, now).1.Claimed? ==>
              var r := RecordFromFields(rec.key, ReserveSpec(db, rec, now).0[rec.key].hash);
              r.Some? && r.value.leaseExpiresAt == FloorMs(rec.leaseExpiresAt) && r.value.recordExpiresAt == UNSET
    ensures WellFormed(db) && CompleteSpec(db, key, token, payload, ttl, now).1.Accepted? ==>
              var r := RecordFromFields(key, CompleteSpec(db, key, token, payload, ttl, now).0[key].hash);
              var was := RecordFromFields(key, db[key].hash);
              && r.Some? && was.Some? && r.value.recordExpiresAt == FloorMs(now + ttl)
              && r.value.leaseExpiresAt == was.value.leaseExpiresAt
  {
    hide Millis;
  }

  /** A reply is corrupt exactly if it has no known state code, a deadline that is no number, or no TTL. */
  lemma CorruptReplies(key: Bytes, pttl: Time, hash: Hash, now: Time)
    ensures RecordOfReply(key, pttl, hash, now).None? <==>
              || STATE !in hash || (hash[STATE] != Text(['1' as int]) && hash[STATE] != Text(['2' as int]))
              || (LEASE_EXP_MS in hash && hash[LEASE_EXP_MS].Text?)
              || (REC_EXP_MS in hash && hash[REC_EXP_MS].Text?)
              || pttl < 0
  {
  }
}
