/** The in-memory store: a map in which expired records are deleted when they are next met. */
module MemStore {
  import opened Basics
  import opened Records
  import opened Lease
  import A = AbstractStore

  type Recs = map<Bytes, Record>

  /** `lookup`: the map after lazy deletion, and the live record. */
  function Looked(recs: Recs, key: Bytes, now: Time): (Recs, Option<Record>) {
    if key !in recs then (recs, None)
    else if recs[key].Expired(now) then (recs - {key}, None)
    else (recs, Some(recs[key]))
  }

  function ReserveSpec(recs: Recs, rec: Record, now: Time): (Recs, ReserveReply) {
    match Looked(recs, rec.key, now)
    case (recs', Some(existing)) => (recs', Exists(Some(existing)))
    case (recs', None) => (recs'[rec.key := rec], Claimed)
  }

  function CompleteSpec(recs: Recs, key: Bytes, token: Bytes, payload: Bytes, recordTTL: Time, now: Time)
    : (Recs, StoreAnswer)
  {
    match Looked(recs, key, now)
    case (recs', None) => (recs', NotFound)
    case (recs', Some(rec)) =>
      if rec.token != token then (recs', TokenMismatch)
      else if !rec.state.Reserved? then (recs', NotFound)
      else
        (recs'[key := rec.(state := Completed, payload := payload, recordExpiresAt := now + recordTTL)],
         Accepted)
  }

  function ReleaseSpec(recs: Recs, key: Bytes, token: Bytes, now: Time): (Recs, StoreAnswer) {
    match Looked(recs, key, now)
    case (recs', None) => (recs', NotFound)
    case (recs', Some(rec)) =>
      if rec.token != token then (recs', TokenMismatch)
      else if !rec.state.Reserved? then (recs', NotFound)
      else (recs' - {key}, Accepted)
  }

  /** `Store`. The mutex makes every method one atomic step, taken at the instant `now` it reads. */
  class Store {
    var recs: Recs

    constructor ()
      ensures recs == map[]
    {
      recs := map[];
    }

    method Lookup(key: Bytes, now: Time) returns (rec: Option<Record>)
      modifies this
      ensures (recs, rec) == Looked(old(recs), key, now)
    {
      if key !in recs {
        return None;
      }
      if recs[key].Expired(now) {
        recs := recs - {key};
        return None;
      }
      return Some(recs[key]);
    }

    method Reserve(rec: Record, now: Time) returns (reply: ReserveReply)
      modifies this
      ensures (recs, reply) == ReserveSpec(old(recs), rec, now)
    {
      var existing := Lookup(rec.key, now);
      if existing.Some? {
        return Exists(existing);
      }
      recs := recs[rec.key := rec];
      return Claimed;
    }

    method Complete(key: Bytes, token: Bytes, payload: Bytes, recordTTL: Time, now: Time) returns (answer: StoreAnswer)
      modifies this
      ensures (recs, answer) == CompleteSpec(old(recs), key, token, payload, recordTTL, now)
    {
      var found := Lookup(key, now);
      if found.None? {
        return NotFound;
      }
      var rec := found.value;
      if rec.token != token {
        return TokenMismatch;
      }
      if !rec.state.Reserved? {
        return NotFound;
      }
      rec := rec.(state := Completed);
      rec := rec.(payload := payload);
      rec := rec.(recordExpiresAt := now + recordTTL);
      recs := recs[key := rec];
      return Accepted;
    }

    method Release(key: Bytes, token: Bytes, now: Time) returns (answer: StoreAnswer)
      modifies this
      ensures (recs, answer) == ReleaseSpec(old(recs), key, token, now)
    {
      var rec := Lookup(key, now);
      if rec.None? {
        return NotFound;
      }
      if rec.value.token != token {
        return TokenMismatch;
      }
      if !rec.value.state.Reserved? {
        return NotFound;
      }
      recs := recs - {key};
      return Accepted;
    }

    method Get(key: Bytes, now: Time) returns (rec: Option<Record>)
      modifies this
      ensures (recs, rec) == Looked(old(recs), key, now)
    {
      rec := Lookup(key, now);
    }
  }

  // ---------------------------------------------------------------- refinement

  function EntryOf(r: Record): A.Entry {
    if r.state.Reserved? then A.Held(r.token, r.fingerprint, r.leaseExpiresAt)
    else A.Done(r.token, r.fingerprint, r.payload, r.recordExpiresAt)
  }

  /** The abstract store the map stands for at now. */
  function View(recs: Recs, now: Time): A.Entries {
    map key | key in recs && !recs[key].Expired(now) :: EntryOf(recs[key])
  }

  /** Letting time pass is pruning; leftovers of expired records never show. */
  lemma ViewLater(recs: Recs, now: Time, later: Time)
    requires now <= later
    ensures View(recs, later) == A.Prune(View(recs, now), later)
  {
  }

  /** A lookup finds the record unless it is absent or expired, deletes it in the latter case, and touches
      nothing else. */
  lemma LookedExactly(recs: Recs, key: Bytes, now: Time)
    ensures var (recs', found) := Looked(recs, key, now);
            && (found.Some? <==> key in recs && !recs[key].Expired(now))
            && (found.Some? ==> found.value == recs[key])
            && (key in recs' <==> key in recs && !recs[key].Expired(now))
            && (forall k :: k != key ==> (k in recs' <==> k in recs))
            && (forall k :: k in recs' ==> recs'[k] == recs[k])
  {
  }

  lemma LookupKeepsView(recs: Recs, key: Bytes, now: Time)
    ensures var (recs', found) := Looked(recs, key, now);
            && View(recs', now) == View(recs, now)
            && (found.Some? <==> key in View(recs, now))
            && (found.Some? ==> EntryOf(found.value) == View(recs, now)[key])
  {
  }

  /** Reserve is the abstract claim. */
  lemma ReserveRefines(recs: Recs, rec: Record, now: Time)
    requires rec.state.Reserved?
    ensures var (recs', reply) := ReserveSpec(recs, rec, now);
            var (s', holder) := A.Claim(View(recs, now), rec.key, rec.token, rec.fingerprint, rec.leaseExpiresAt);
            && View(recs', now) == A.Prune(s', now)
            && (holder.None? <==> reply.Claimed?)
            && (holder.Some? ==> reply.Exists? && reply.existing.Some?)
            && (holder.Some? ==> A.SameRecord(reply.existing.value, holder.value))
  {
    LookupKeepsView(recs, rec.key, now);
  }

  /** Complete is the abstract compare-and-set; the two sentinels both mean it had no effect. */
  lemma CompleteRefines(recs: Recs, key: Bytes, token: Bytes, payload: Bytes, recordTTL: Time, now: Time)
    ensures var (recs', answer) := CompleteSpec(recs, key, token, payload, recordTTL, now);
            var (s', effect) := A.Complete(View(recs, now), key, token, payload, now + recordTTL);
            && View(recs', now) == A.Prune(s', now)
            && Normalise(answer) == Ok(!effect)
            && (answer.TokenMismatch? <==> key in View(recs, now) && View(recs, now)[key].token != token)
  {
    LookupKeepsView(recs, key, now);
  }

  lemma ReleaseRefines(recs: Recs, key: Bytes, token: Bytes, now: Time)
    ensures var (recs', answer) := ReleaseSpec(recs, key, token, now);
            var (s', effect) := A.Release(View(recs, now), key, token);
            && View(recs', now) == s'
            && Normalise(answer) == Ok(!effect)
            && (answer.TokenMismatch? <==> key in View(recs, now) && View(recs, now)[key].token != token)
  {
    LookupKeepsView(recs, key, now);
  }

  /** With nobody else touching the key, Begin never blames the store and needs two attempts at
      most: an entry that expires between the store's look and Begin's own is claimed next time. */
  lemma UndisturbedBeginSettles(recs: Recs, key: Bytes, fp: Bytes, token: Bytes,
                                until1: Time, until2: Time, t1: Time, u1: Time, t2: Time, u2: Time)
    requires t1 <= u1 <= t2 <= u2
    ensures var (recs1, reply1) := ReserveSpec(recs, Request(key, fp, token, until1), t1);
            var next1 := Judge(1, reply1, u1, fp, token);
            && !next1.Broken?
            && (next1.Again? ==>
                  var (recs2, reply2) := ReserveSpec(recs1, Request(key, fp, token, until2), t2);
                  && recs2[key] == Request(key, fp, token, until2)
                  && Judge(2, reply2, u2, fp, token) == Settled(Proceed(token)))
  {
  }
}
