/** The record a store persists, and when it counts as absent. */
module Records {
  import opened Basics

  /** The persisted state; any other code is one no store should hold. */
  datatype State = Reserved | Completed | Invalid(code: nat)

  /** Stands for Go's zero time in fields that are not set; no decision reads it. */
  const UNSET: Time := 0

  datatype Record = Record(
    key: Bytes,
    fingerprint: Bytes,
    state: State,
    token: Bytes,
    leaseExpiresAt: Time,
    recordExpiresAt: Time,
    payload: Bytes)
  {
    /** Logically absent at now: the deadline itself counts as past, and a record in an unknown
        state is never present. */
    predicate Expired(now: Time) {
      match state
      case Reserved => now >= leaseExpiresAt
      case Completed => now >= recordExpiresAt
      case Invalid(_) => true
    }
  }
}
