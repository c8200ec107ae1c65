/** The store every implementation stands for: a map in which an entry vanishes at its deadline. */
module AbstractStore {
  import opened Basics
  import opened Records

  /** A live entry: a reservation held under a token, or a result kept for replay. */
  datatype Entry =
    | Held(token: Bytes, fingerprint: Bytes, until: Time)
    | Done(token: Bytes, fingerprint: Bytes, payload: Bytes, until: Time)

  /** A record that says what the entry says, except that it puts the deadline at `until`. */
  predicate Reports(r: Record, e: Entry, until: Time) {
    match e
    case Held(token, fp, _) =>
      r.state.Reserved? && r.token == token && r.fingerprint == fp && r.leaseExpiresAt == until
    case Done(token, fp, payload, _) =>
      r.state.Completed? && r.token == token && r.fingerprint == fp && r.payload == payload
      && r.recordExpiresAt == until
  }

  /** A record that says what the entry says. */
  predicate SameRecord(r: Record, e: Entry) {
    Reports(r, e, e.until)
  }

  /** How finely a store keeps time: exactly, or with TTLs in whole milliseconds and the remaining time
      reported in whole milliseconds, cut off or rounded to the nearest. */
  datatype Grain = Exact | Floored | Nearest

  /** What becomes of a TTL. */
  function GrantedTTL(g: Grain, ttl: Time): (kept: Time)
    ensures !g.Exact? || ttl > 0 ==> kept > 0
    ensures ttl > 0 ==> kept <= Max(ttl, MILLI) && ttl - MILLI < kept
    ensures ttl > 0 && ttl % MILLI == 0 ==> kept == ttl
  {
    if g.Exact? then ttl else MILLI * Millis(ttl)
  }

  /** The deadline a store grants at `now` to a request that asks for `until`. */
  function Granted(g: Grain, until: Time, now: Time): Time {
    now + GrantedTTL(g, until - now)
  }

  /** What becomes of the remaining time on its way to the client. */
  function Left(g: Grain, d: Time): (left: Time)
    ensures d - MILLI < left <= d + Slack(g)
    ensures d % MILLI == 0 ==> left == d
  {
    match g
    case Exact => d
    case Floored => FloorMs(d)
    case Nearest => NearestMs(d)
  }

  /** By how much the client may take a record to last longer than it does. */
  function Slack(g: Grain): Time {
    if g.Nearest? then MILLI / 2 else 0
  }

  /** The record a store reports for an entry, as far as Begin looks at it. */
  function Reported(g: Grain, key: Bytes, e: Entry, now: Time): Record {
    var until := now + Left(g, e.until - now);
    match e
    case Held(token, fp, _) => Record(key, fp, Reserved, token, until, UNSET, [])
    case Done(token, fp, payload, _) => Record(key, fp, Completed, token, UNSET, until, payload)
  }

  type Entries = map<Bytes, Entry>

  /** The entries still there at now. */
  function Prune(s: Entries, now: Time): Entries {
    map key | key in s && s[key].until > now :: s[key]
  }

  ghost predicate AllLive(s: Entries, now: Time) {
    forall key :: key in s ==> s[key].until > now
  }

  /** Store.Reserve: claim a free key, or report who holds it. */
  function Claim(s: Entries, key: Bytes, token: Bytes, fingerprint: Bytes, until: Time): (Entries, Option<Entry>) {
    if key in s then (s, Some(s[key])) else (s[key := Held(token, fingerprint, until)], None)
  }

  predicate HeldBy(s: Entries, key: Bytes, token: Bytes) {
    key in s && s[key].Held? && s[key].token == token
  }

  /** Store.Complete; the flag says whether it took effect. */
  function Complete(s: Entries, key: Bytes, token: Bytes, payload: Bytes, until: Time): (Entries, bool) {
    if HeldBy(s, key, token) then (s[key := Done(token, s[key].fingerprint, payload, until)], true)
    else (s, false)
  }

  /** Store.Release; the flag says whether it took effect. */
  function Release(s: Entries, key: Bytes, token: Bytes): (Entries, bool) {
    if HeldBy(s, key, token) then (s - {key}, true) else (s, false)
  }

  lemma PruneTwice(s: Entries, t: Time, u: Time)
    requires t <= u
    ensures Prune(Prune(s, t), u) == Prune(s, u)
  {
  }

  lemma PruneLive(s: Entries, now: Time)
    requires AllLive(s, now)
    ensures Prune(s, now) == s
  {
  }

  /** A Complete whose answer was lost, followed by the best-effort Release: if it had taken effect,
      the result stays; if not, at most the caller's own reservation goes. */
  lemma ReleaseAfterAmbiguousComplete(s: Entries, key: Bytes, token: Bytes, payload: Bytes, until: Time, now: Time)
    ensures var (s', effect) := Complete(s, key, token, payload, until);
            && (effect ==> Release(s', key, token) == (s', false))
            && (effect ==> Release(Prune(s', now), key, token) == (Prune(s', now), false))
            && (!effect ==> s' == s)
    ensures var (r, freed) := Release(s, key, token);
            && (forall k :: k in s && (k != key || !HeldBy(s, key, token)) ==> k in r && r[k] == s[k])
            && r.Keys <= s.Keys
            && (freed <==> HeldBy(s, key, token)) && (freed ==> key !in r)
  {
  }

  /** A claim and a result last exactly until the deadline they were given, with the contents they were
      given, and nothing else in the store changes. */
  lemma LastsExactly(s: Entries, key: Bytes, token: Bytes, fp: Bytes, payload: Bytes, until: Time, t: Time)
    ensures key !in s ==>
              var s' := Prune(Claim(s, key, token, fp, until).0, t);
              (key in s' <==> t < until) && (key in s' ==> s'[key] == Held(token, fp, until))
    ensures HeldBy(s, key, token) ==>
              var s' := Prune(Complete(s, key, token, payload, until).0, t);
              (key in s' <==> t < until) && (key in s' ==> s'[key] == Done(token, s[key].fingerprint, payload, until))
    ensures HeldBy(s, key, token) <==> key in s && s[key].Held? && s[key].token == token
    ensures forall k :: k in s && k != key ==>
              && k in Claim(s, key, token, fp, until).0 && Claim(s, key, token, fp, until).0[k] == s[k]
              && k in Complete(s, key, token, payload, until).0 && Complete(s, key, token, payload, until).0[k] == s[k]
  {
  }
}
