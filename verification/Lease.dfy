/** The two entry points of the core: `Begin` with its decision table and bounded retry, and
    `Finish` with its normalisation of a lost lease. */
module Lease {
  import opened Basics
  import opened Records

  datatype Outcome =
    | Proceed(token: Bytes)
    | Replay(payload: Bytes)
    | RejectInFlight(retryAfter: Time)
    | RejectFingerprintMismatch

  datatype BeginError = NoToken | StoreFailure | MissingExisting | KeepsReturningExpired | InvalidState(code: nat)

  /** What a call of `Store.Reserve` can answer: nil, ErrAlreadyExists with or without the existing
      record, or any other error. */
  datatype ReserveReply = Claimed | Exists(existing: Option<Record>) | Failed

  const MAX_ATTEMPTS: nat := 3
  const DEFAULT_LEASE_TTL: Time := 30 * 1_000_000_000
  const DEFAULT_RECORD_TTL: Time := 24 * 3600 * 1_000_000_000

  datatype Options = Options(leaseTTL: Time, recordTTL: Time) {
    /** `Effective`: the TTLs that are really used. */
    function Effective(): (o: Options)
      ensures o.leaseTTL > 0 && o.recordTTL > 0
      ensures o.leaseTTL == leaseTTL <==> leaseTTL > 0
      ensures o.recordTTL == recordTTL <==> recordTTL > 0
      ensures leaseTTL <= 0 ==> o.leaseTTL == 30_000_000_000
      ensures recordTTL <= 0 ==> o.recordTTL == 86_400_000_000_000
    {
      Options(if leaseTTL > 0 then leaseTTL else DEFAULT_LEASE_TTL,
              if recordTTL > 0 then recordTTL else DEFAULT_RECORD_TTL)
    }
  }

  datatype Next = Again | Settled(outcome: Outcome) | Broken(error: BeginError)

  /** What `Begin` makes of the reply to attempt number `attempt`, read at `now`. */
  function Judge(attempt: nat, reply: ReserveReply, now: Time, fingerprint: Bytes, token: Bytes): Next {
    match reply
    case Claimed => Settled(Proceed(token))
    case Failed => Broken(StoreFailure)
    case Exists(None) => Broken(MissingExisting)
    case Exists(Some(r)) =>
      if r.Expired(now) then
        if attempt < MAX_ATTEMPTS then Again else Broken(KeepsReturningExpired)
      else
        match r.state
        case Reserved => Settled(RejectInFlight(r.leaseExpiresAt - now))
        case Completed =>
          if r.fingerprint == fingerprint then Settled(Replay(r.payload))
          else Settled(RejectFingerprintMismatch)
        case Invalid(code) => Broken(InvalidState(code))
  }

  /** The deadline of a record that counts at all. */
  predicate Outlasts(r: Record, now: Time) {
    (r.state == Reserved && now < r.leaseExpiresAt) || (r.state == Completed && now < r.recordExpiresAt)
  }

  /** The decision table: every answer of Begin, exactly for the replies that lead to it. */
  lemma JudgeTable(attempt: nat, reply: ReserveReply, now: Time, fingerprint: Bytes, token: Bytes)
    ensures var next := Judge(attempt, reply, now, fingerprint, token);
            var found := reply.Exists? && reply.existing.Some?;
            && (next == Settled(Proceed(token)) <==> reply.Claimed?)
            && (forall t :: next == Settled(Proceed(t)) ==> t == token)
            && (next == Broken(StoreFailure) <==> reply.Failed?)
            && (next == Broken(MissingExisting) <==> reply == Exists(None))
            && (next == Again <==> found && !Outlasts(reply.existing.value, now) && attempt < 3)
            && (next == Broken(KeepsReturningExpired) <==>
                  found && !Outlasts(reply.existing.value, now) && attempt >= 3)
            && (forall d :: next == Settled(RejectInFlight(d)) <==>
                  found && reply.existing.value.state == Reserved && Outlasts(reply.existing.value, now)
                  && d == reply.existing.value.leaseExpiresAt - now)
            && (forall d :: next == Settled(RejectInFlight(d)) ==> d > 0)
            && (forall p :: next == Settled(Replay(p)) <==>
                  found && reply.existing.value.state == Completed && Outlasts(reply.existing.value, now)
                  && reply.existing.value.fingerprint == fingerprint && p == reply.existing.value.payload)
            && (next == Settled(RejectFingerprintMismatch) <==>
                  found && reply.existing.value.state == Completed && Outlasts(reply.existing.value, now)
                  && reply.existing.value.fingerprint != fingerprint)
            && (forall code :: next != Broken(InvalidState(code))) && next != Broken(NoToken)
  {
  }

  /** One round trip to an arbitrary store: the clock before the call, the reply, the clock after. */
  datatype RoundTrip = RoundTrip(sentAt: Time, reply: ReserveReply, readAt: Time)

  function Request(key: Bytes, fingerprint: Bytes, token: Bytes, until: Time): Record {
    Record(key, fingerprint, Reserved, token, until, UNSET, [])
  }

  /** `Begin` against any store whatsoever, conforming or not: `trips` says how it would answer the
      successive calls, `newToken` is the token unless generating one failed. `sent` is what Begin
      really asked of the store. */
  method Begin(key: Bytes, fingerprint: Bytes, o: Options, newToken: Option<Bytes>, trips: seq<RoundTrip>)
    returns (r: Result<Outcome, BeginError>, sent: seq<Record>)
    requires |trips| >= MAX_ATTEMPTS
    ensures newToken.None? ==> r == Err(NoToken) && sent == []
    ensures newToken.Some? ==> 1 <= |sent| <= 3
    ensures forall i :: 0 <= i < |sent| ==>
              sent[i] == Request(key, fingerprint, newToken.value, trips[i].sentAt + o.Effective().leaseTTL)
    ensures forall i :: 0 <= i < |sent| - 1 ==>
              Judge(i + 1, trips[i].reply, trips[i].readAt, fingerprint, newToken.value) == Again
    ensures newToken.Some? ==>
              var last := trips[|sent| - 1];
              match Judge(|sent|, last.reply, last.readAt, fingerprint, newToken.value)
              case Again => false
              case Settled(outcome) => r == Ok(outcome)
              case Broken(error) => r == Err(error)
    ensures newToken.Some? ==> (trips[|sent| - 1].reply == Failed <==> r == Err(StoreFailure))
    ensures newToken.Some? ==> (trips[|sent| - 1].reply == Exists(None) <==> r == Err(MissingExisting))
    ensures r == Err(KeepsReturningExpired) ==> |sent| == 3
    ensures r.Ok? && r.value.Proceed? <==> newToken.Some? && trips[|sent| - 1].reply.Claimed?
    ensures r.Ok? && r.value.RejectInFlight? ==> r.value.retryAfter > 0
  {
    sent := [];
    if newToken.None? {
      return Err(NoToken), sent;
    }
    var token := newToken.value;
    var attempt := 1;
    while true
      invariant 1 <= attempt <= MAX_ATTEMPTS && |sent| == attempt - 1
      invariant forall i :: 0 <= i < |sent| ==>
          sent[i] == Request(key, fingerprint, token, trips[i].sentAt + o.Effective().leaseTTL)
      invariant forall i :: 0 <= i < |sent| ==>
          Judge(i + 1, trips[i].reply, trips[i].readAt, fingerprint, token) == Again
      decreases MAX_ATTEMPTS - attempt
    {
      var trip := trips[attempt - 1];
      sent := sent + [Request(key, fingerprint, token, trip.sentAt + o.Effective().leaseTTL)];
      match trip.reply {
        case Claimed => return Ok(Proceed(token)), sent;
        case Failed => return Err(StoreFailure), sent;
        case Exists(None) => return Err(MissingExisting), sent;
        case Exists(Some(existing)) =>
          var now := trip.readAt;
          if existing.Expired(now) {
            if attempt < MAX_ATTEMPTS {
              attempt := attempt + 1;
              continue;
            }
            return Err(KeepsReturningExpired), sent;
          }
          match existing.state {
            case Reserved => return Ok(RejectInFlight(existing.leaseExpiresAt - now)), sent;
            case Completed =>
              if existing.fingerprint == fingerprint {
                return Ok(Replay(existing.payload)), sent;
              }
              return Ok(RejectFingerprintMismatch), sent;
            case Invalid(code) => return Err(InvalidState(code)), sent;
          }
      }
    }
  }

  // ---------------------------------------------------------------- Finish

  datatype Decision = Persist | Discard | Unknown(code: int)

  /** What `Store.Complete` and `Store.Release` can answer. */
  datatype StoreAnswer = Accepted | TokenMismatch | NotFound | OtherError

  datatype FinishError = StoreError | InvalidDecision(code: int)

  /** The lease-lost normalisation: Ok(true) is a lost lease. */
  function Normalise(answer: StoreAnswer): Result<bool, FinishError> {
    match answer
    case Accepted => Ok(false)
    case TokenMismatch => Ok(true)
    case NotFound => Ok(true)
    case OtherError => Err(StoreError)
  }

  /** Which answers mean which outcome. */
  lemma NormaliseTable(answer: StoreAnswer)
    ensures Normalise(answer) == Ok(false) <==> answer == Accepted
    ensures Normalise(answer) == Ok(true) <==> answer == TokenMismatch || answer == NotFound
    ensures Normalise(answer) == Err(StoreError) <==> answer == OtherError
  {
  }

  /** What Finish asks of the store. */
  datatype StoreCall =
    | ToComplete(key: Bytes, token: Bytes, payload: Bytes, recordTTL: Time)
    | ToRelease(key: Bytes, token: Bytes)

  /** `Finish`, given how the store would answer either call; `called` is the one it made. */
  method Finish(key: Bytes, token: Bytes, d: Decision, payload: Bytes, o: Options,
                onComplete: StoreAnswer, onRelease: StoreAnswer)
    returns (r: Result<bool, FinishError>, called: Option<StoreCall>)
    ensures d.Persist? ==>
              r == Normalise(onComplete) && called == Some(ToComplete(key, token, payload, o.Effective().recordTTL))
    ensures d.Discard? ==> r == Normalise(onRelease) && called == Some(ToRelease(key, token))
    ensures d.Unknown? ==> r == Err(InvalidDecision(d.code)) && called.None?
    ensures var answer := if d.Persist? then onComplete else onRelease;
            !d.Unknown? ==>
              && (r == Ok(false) <==> answer == Accepted)
              && (r == Ok(true) <==> answer == TokenMismatch || answer == NotFound)
              && (r == Err(StoreError) <==> answer == OtherError)
  {
    var answer;
    match d {
      case Persist =>
        answer := onComplete;
        called := Some(ToComplete(key, token, payload, o.Effective().recordTTL));
      case Discard =>
        answer := onRelease;
        called := Some(ToRelease(key, token));
      case Unknown(code) => return Err(InvalidDecision(code)), None;
    }
    if answer.Accepted? {
      return Ok(false), called;
    }
    if answer.TokenMismatch? || answer.NotFound? {
      return Ok(true), called;
    }
    return Err(StoreError), called;
  }
}
