/** The three stores behind one interface, each with the grain of its clock, and what Begin makes of
    their replies. */
module Backends {
  import opened Basics
  import opened Records
  import opened Lease
  import A = AbstractStore
  import Mem = MemStore
  import Redis = RediStore
  import Pg = PgStore
  import R = PgRows

  datatype Backend = Memory(recs: Mem.Recs) | Keyspace(db: Redis.Db) | Table(rows: R.Rows)

  function GrainOf(b: Backend): A.Grain {
    match b
    case Memory(_) => A.Exact
    case Keyspace(_) => A.Floored
    case Table(_) => A.Nearest
  }

  ghost predicate WellFormed(b: Backend) {
    match b
    case Memory(_) => true
    case Keyspace(db) => Redis.WellFormed(db)
    case Table(rows) => R.WellFormed(rows)
  }

  ghost predicate Empty(b: Backend) {
    b == Memory(map[]) || b == Keyspace(map[]) || b == Table(map[])
  }

  ghost function View(b: Backend, now: Time): A.Entries
    requires WellFormed(b)
  {
    match b
    case Memory(recs) => Mem.View(recs, now)
    case Keyspace(db) => Redis.View(db, now)
    case Table(rows) => R.View(rows, now)
  }

  function Reserve(b: Backend, rec: Record, now: Time): (Backend, ReserveReply) {
    match b
    case Memory(recs) => var (recs', reply) := Mem.ReserveSpec(recs, rec, now); (Memory(recs'), reply)
    case Keyspace(db) => var (db', reply) := Redis.ReserveSpec(db, rec, now); (Keyspace(db'), reply)
    case Table(rows) => var (rows', reply) := Pg.ReserveSpec(rows, rec, now); (Table(rows'), reply)
  }

  function Complete(b: Backend, key: Bytes, token: Bytes, payload: Bytes, ttl: Time, now: Time)
    : (Backend, StoreAnswer)
  {
    match b
    case Memory(recs) =>
      var (recs', answer) := Mem.CompleteSpec(recs, key, token, payload, ttl, now); (Memory(recs'), answer)
    case Keyspace(db) =>
      var (db', answer) := Redis.CompleteSpec(db, key, token, payload, ttl, now); (Keyspace(db'), answer)
    case Table(rows) =>
      var (rows', answer) := Pg.CompleteSpec(rows, key, token, payload, ttl, now); (Table(rows'), answer)
  }

  function Release(b: Backend, key: Bytes, token: Bytes, now: Time): (Backend, StoreAnswer) {
    match b
    case Memory(recs) => var (recs', answer) := Mem.ReleaseSpec(recs, key, token, now); (Memory(recs'), answer)
    case Keyspace(db) => var (db', answer) := Redis.ReleaseSpec(db, key, token, now); (Keyspace(db'), answer)
    case Table(rows) => var (rows', answer) := Pg.ReleaseSpec(rows, key, token, now); (Table(rows'), answer)
  }

  // ---------------------------------------------------------------- what Begin looks at

  /** A record without the fields no decision reads. */
  function EssenceOf(key: Bytes, r: Record): Record {
    match r.state
    case Reserved => r.(key := key, recordExpiresAt := UNSET, payload := [])
    case Completed => r.(key := key, leaseExpiresAt := UNSET)
    case Invalid(_) => r
  }

  function Essence(key: Bytes, reply: ReserveReply): ReserveReply {
    match reply
    case Exists(Some(r)) => Exists(Some(EssenceOf(key, r)))
    case _ => reply
  }

  /** Begin decides by that much of a reply. */
  lemma EssenceDecides(key: Bytes, reply: ReserveReply, attempt: nat, now: Time, fp: Bytes, token: Bytes)
    ensures Judge(attempt, Essence(key, reply), now, fp, token) == Judge(attempt, reply, now, fp, token)
  {
  }

  /** The reply for whoever holds the key. */
  function ReplyFor(g: A.Grain, key: Bytes, holder: Option<A.Entry>, now: Time): ReserveReply {
    match holder
    case None => Claimed
    case Some(e) => Exists(Some(A.Reported(g, key, e, now)))
  }

  lemma ReportsEssence(g: A.Grain, key: Bytes, r: Record, e: A.Entry, now: Time)
    requires A.Reports(r, e, now + A.Left(g, e.until - now))
    ensures EssenceOf(key, r) == A.Reported(g, key, e, now)
  {
    hide A.Left;
  }

  // ---------------------------------------------------------------- each store is the abstract one at its grain

  lemma ViewLater(b: Backend, now: Time, later: Time)
    requires WellFormed(b) && now <= later
    ensures View(b, later) == A.Prune(View(b, now), later)
  {
    match b
    case Memory(recs) => Mem.ViewLater(recs, now, later);
    case Keyspace(db) => Redis.ViewLater(db, now, later);
    case Table(rows) => Pg.ViewLater(rows, now, later);
  }

  lemma ViewLive(b: Backend, now: Time)
    requires WellFormed(b)
    ensures A.AllLive(View(b, now), now)
  {
  }

  lemma EmptyView(b: Backend, now: Time)
    requires Empty(b)
    ensures WellFormed(b) && View(b, now) == map[]
  {
  }

  /** Reserve is the abstract claim for the lease the store grants, and its reply is what the store's
      grain leaves of the holder's deadline. */
  lemma ReserveRefines(b: Backend, rec: Record, now: Time)
    requires WellFormed(b) && rec.state.Reserved?
    ensures var g := GrainOf(b);
            var (b', reply) := Reserve(b, rec, now);
            var until := A.Granted(g, rec.leaseExpiresAt, now);
            var (s', holder) := A.Claim(View(b, now), rec.key, rec.token, rec.fingerprint, until);
            && WellFormed(b') && GrainOf(b') == g && View(b', now) == A.Prune(s', now)
            && Essence(rec.key, reply) == ReplyFor(g, rec.key, holder, now)
  {
    hide A.Reports, A.Prune, A.Reported, EssenceOf, Millis, FloorMs, NearestMs, Redis.WellFormed, R.WellFormed,
      Mem.View, Redis.View, R.View, Mem.ReserveSpec, Redis.ReserveSpec, Pg.ReserveAt;
    var g := GrainOf(b);
    var (b', reply) := Reserve(b, rec, now);
    var until := A.Granted(g, rec.leaseExpiresAt, now);
    var (s', holder) := A.Claim(View(b, now), rec.key, rec.token, rec.fingerprint, until);
    match b {
      case Memory(recs) => Mem.ReserveRefines(recs, rec, now);
      case Keyspace(db) => Redis.ReserveRefines(db, rec, now);
      case Table(rows) => Pg.ReserveRefines(rows, rec, Millis(rec.leaseExpiresAt - now), now);
    }
    if holder.Some? {
      ReportsEssence(g, rec.key, reply.existing.value, holder.value, now);
    }
    if !b.Memory? {
      ViewLive(b', now);
      A.PruneLive(s', now);
    }
  }

  /** Complete is the abstract compare-and-set for the record TTL the store grants. */
  lemma CompleteRefines(b: Backend, key: Bytes, token: Bytes, payload: Bytes, ttl: Time, now: Time)
    requires WellFormed(b) && ttl > 0
    ensures var g := GrainOf(b);
            var (b', answer) := Complete(b, key, token, payload, ttl, now);
            var (s', effect) := A.Complete(View(b, now), key, token, payload, now + A.GrantedTTL(g, ttl));
            && WellFormed(b') && GrainOf(b') == g && View(b', now) == s' && Normalise(answer) == Ok(!effect)
  {
    hide Millis, Redis.WellFormed, R.WellFormed, Mem.View, Redis.View, R.View, Mem.CompleteSpec, Redis.CompleteSpec,
      Pg.CompleteSpec, A.Prune, Normalise;
    match b
    case Memory(recs) =>
      Mem.CompleteRefines(recs, key, token, payload, ttl, now);
      ViewLive(b, now);
      A.PruneLive(A.Complete(View(b, now), key, token, payload, now + ttl).0, now);
    case Keyspace(db) => Redis.CompleteRefines(db, key, token, payload, ttl, now);
    case Table(rows) => Pg.CompleteRefines(rows, key, token, payload, ttl, now);
  }

  lemma ReleaseRefines(b: Backend, key: Bytes, token: Bytes, now: Time)
    requires WellFormed(b)
    ensures var (b', answer) := Release(b, key, token, now);
            var (s', effect) := A.Release(View(b, now), key, token);
            && WellFormed(b') && GrainOf(b') == GrainOf(b) && View(b', now) == s' && Normalise(answer) == Ok(!effect)
  {
    hide Redis.WellFormed, R.WellFormed, Mem.View, Redis.View, R.View, Mem.ReleaseSpec, Redis.ReleaseSpec,
      Pg.ReleaseSpec, Normalise;
    match b
    case Memory(recs) => Mem.ReleaseRefines(recs, key, token, now);
    case Keyspace(db) => Redis.ReleaseRefines(db, key, token, now);
    case Table(rows) => Pg.ReleaseRefines(rows, key, token, now);
  }
}
