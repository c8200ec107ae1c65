/** Concurrent executions of Begin and Finish against one shared store and one clock. Every store
    call is a single atomic step; between any two steps of an execution others may run and time may
    pass, answers may get lost on the way back, and executions may outlive their lease or never
    finish. */
module Protocol {
  import opened Basics
  import opened Records
  import opened Lease
  import opened AbstractStore

  /** Where an execution stands. */
  datatype Phase =
    | Asking(attempt: nat, until: Time)          // about to call Reserve with this lease deadline
    | Reading(attempt: nat, reply: ReserveReply) // answered; Begin has yet to read its clock
    | Working                                    // Begin said Proceed
    | Over(result: Result<Outcome, BeginError>)  // Begin said anything else

  datatype Exec = Exec(key: Bytes, fingerprint: Bytes, options: Options, phase: Phase)

  /** What really happened, in order; `Took`, `Kept` and `Freed` are effects on the store. */
  datatype Event =
    | Took(token: Bytes, key: Bytes, fingerprint: Bytes, at: Time, until: Time)
    | Kept(token: Bytes, key: Bytes, payload: Bytes, at: Time, until: Time)
    | Freed(token: Bytes, key: Bytes, at: Time)
    | Replayed(token: Bytes, key: Bytes, fingerprint: Bytes, payload: Bytes, at: Time)

  /** Executions are named by their token: `newToken` never repeats itself. */
  datatype System = System(grain: Grain, now: Time, store: Entries, execs: map<Bytes, Exec>, log: seq<Event>)

  /** What becomes of a call: answered, done but reported as an error, or not done and an error. */
  datatype Fate = Answered | LostAfter | LostBefore

  datatype Action =
    | Tick(d: nat)
    | Start(token: Bytes, key: Bytes, fingerprint: Bytes, options: Options)
    | Ask(token: Bytes, fate: Fate)
    | Read(token: Bytes)
    | End(token: Bytes, decision: Decision, payload: Bytes, fate: Fate)

  predicate Enabled(s: System, a: Action) {
    match a
    case Tick(_) => true
    case Start(token, _, _, _) => token !in s.execs
    case Ask(token, _) => token in s.execs && s.execs[token].phase.Asking?
    case Read(token) => token in s.execs && s.execs[token].phase.Reading?
    case End(token, _, _, _) => token in s.execs && s.execs[token].phase.Working?
  }

  function WithPhase(s: System, token: Bytes, phase: Phase): map<Bytes, Exec>
    requires token in s.execs
  {
    s.execs[token := s.execs[token].(phase := phase)]
  }

  /** One Reserve call of Begin. */
  function DoAsk(s: System, token: Bytes, fate: Fate): System
    requires Enabled(s, Ask(token, fate))
  {
    var e := s.execs[token];
    var attempt := e.phase.attempt;
    if fate.LostBefore? then s.(execs := WithPhase(s, token, Reading(attempt, Failed)))
    else
      var until := Granted(s.grain, e.phase.until, s.now);
      var (store, holder) := Claim(s.store, e.key, token, e.fingerprint, until);
      var reply := if fate.LostAfter? then Failed
                   else if holder.None? then Claimed
                   else Exists(Some(Reported(s.grain, e.key, holder.value, s.now)));
      s.(store := Prune(store, s.now),
         execs := WithPhase(s, token, Reading(attempt, reply)),
         log := if holder.None? then s.log + [Took(token, e.key, e.fingerprint, s.now, until)] else s.log)
  }

  /** Begin reads its clock and decides. */
  function DoRead(s: System, token: Bytes): System
    requires Enabled(s, Read(token))
  {
    var e := s.execs[token];
    match Judge(e.phase.attempt, e.phase.reply, s.now, e.fingerprint, token)
    case Again =>
      s.(execs := WithPhase(s, token, Asking(e.phase.attempt + 1, s.now + e.options.Effective().leaseTTL)))
    case Broken(error) => s.(execs := WithPhase(s, token, Over(Err(error))))
    case Settled(outcome) =>
      if outcome.Proceed? then s.(execs := WithPhase(s, token, Working))
      else
        s.(execs := WithPhase(s, token, Over(Ok(outcome))),
           log := if outcome.Replay? then s.log + [Replayed(token, e.key, e.fingerprint, outcome.payload, s.now)]
                  else s.log)
  }

  /** One Finish call; callers may make any number of them, with any decisions. */
  function DoEnd(s: System, token: Bytes, decision: Decision, payload: Bytes, fate: Fate): System
    requires Enabled(s, End(token, decision, payload, fate))
  {
    var e := s.execs[token];
    if fate.LostBefore? then s
    else
      match decision
      case Unknown(_) => s
      case Persist =>
        var until := s.now + GrantedTTL(s.grain, e.options.Effective().recordTTL);
        var (store, effect) := Complete(s.store, e.key, token, payload, until);
        s.(store := store, log := if effect then s.log + [Kept(token, e.key, payload, s.now, until)] else s.log)
      case Discard =>
        var (store, effect) := Release(s.store, e.key, token);
        s.(store := store, log := if effect then s.log + [Freed(token, e.key, s.now)] else s.log)
  }

  function Apply(s: System, a: Action): System
    requires Enabled(s, a)
  {
    match a
    case Tick(d) => s.(now := s.now + d, store := Prune(s.store, s.now + d))
    case Start(token, key, fp, o) =>
      s.(execs := s.execs[token := Exec(key, fp, o, Asking(1, s.now + o.Effective().leaseTTL))])
    case Ask(token, fate) => DoAsk(s, token, fate)
    case Read(token) => DoRead(s, token)
    case End(token, d, payload, fate) => DoEnd(s, token, d, payload, fate)
  }

  ghost predicate Possible(s: System, run: seq<Action>)
    decreases |run|
  {
    |run| == 0 || (Enabled(s, run[0]) && Possible(Apply(s, run[0]), run[1..]))
  }

  ghost function After(s: System, run: seq<Action>): System
    requires Possible(s, run)
    decreases |run|
  {
    if |run| == 0 then s else After(Apply(s, run[0]), run[1..])
  }

  ghost predicate Initial(s: System) {
    s.store == map[] && s.execs == map[] && s.log == []
  }

  // ---------------------------------------------------------------- the invariant

  /** The event takes the token's lease away for good. */
  predicate Ends(e: Event, token: Bytes) {
    (e.Kept? || e.Freed?) && e.token == token
  }

  ghost predicate Taken(log: seq<Event>, token: Bytes) {
    exists e :: e in log && e.Took? && e.token == token
  }

  ghost predicate Closed(log: seq<Event>, token: Bytes) {
    exists e :: e in log && Ends(e, token)
  }

  ghost predicate Clocked(now: Time, store: Entries, log: seq<Event>) {
    AllLive(store, now) && forall e :: e in log ==> e.at <= now
  }

  /** Each token claims at most once, and is completed or released at most once, never both, and
      only after it claimed. */
  ghost predicate Once(log: seq<Event>) {
    && (forall i, j :: 0 <= i < j < |log| && log[i].Took? && log[j].Took? ==> log[i].token != log[j].token)
    && (forall i, j :: 0 <= i < j < |log| && Ends(log[i], log[j].token) ==> !Ends(log[j], log[j].token))
    && (forall e :: e in log && Ends(e, e.token) ==> Taken(log, e.token))
  }

  /** No Finish takes effect at or after its own lease deadline. */
  ghost predicate Timely(log: seq<Event>) {
    forall took, e :: took in log && e in log && took.Took? && Ends(e, took.token) ==>
      took.key == e.key && e.at < took.until
  }

  /** Every entry of the store was put there by its token. */
  ghost predicate Backed(store: Entries, log: seq<Event>) {
    forall key :: key in store ==> BackedEntry(log, key, store[key])
  }

  ghost predicate BackedEntry(log: seq<Event>, key: Bytes, e: Entry) {
    match e
    case Held(token, fp, until) =>
      !Closed(log, token) && exists took :: took in log && IsTake(took, token, key, fp, until)
    case Done(token, fp, payload, until) => Source(log, key, fp, payload, until)
  }

  predicate IsTake(e: Event, token: Bytes, key: Bytes, fp: Bytes, until: Time) {
    e.Took? && e.token == token && e.key == key && e.fingerprint == fp && e.until == until
  }

  /** The payload was kept under the key until then by a token whose Begin carried this
      fingerprint. */
  ghost predicate Source(log: seq<Event>, key: Bytes, fp: Bytes, payload: Bytes, until: Time) {
    exists kept, took :: kept in log && took in log && SourcePair(kept, took, key, fp, payload, until)
  }

  predicate SourcePair(kept: Event, took: Event, key: Bytes, fp: Bytes, payload: Bytes, until: Time) {
    && kept.Kept? && kept.key == key && kept.payload == payload && kept.until == until
    && took.Took? && took.key == key && took.fingerprint == fp && took.token == kept.token
  }

  /** While a lease runs or a result is valid, the store still shows it. */
  ghost predicate Guarded(now: Time, store: Entries, log: seq<Event>) {
    forall e :: e in log && now < e.at + Lasting(e) ==> Shown(store, log, e)
  }

  function Lasting(e: Event): Time {
    if e.Took? || e.Kept? then e.until - e.at else 0
  }

  ghost predicate Shown(store: Entries, log: seq<Event>, e: Event) {
    match e
    case Took(token, key, fp, _, until) =>
      Closed(log, token) || (key in store && store[key] == Held(token, fp, until))
    case Kept(token, key, payload, _, until) =>
      key in store && store[key].Done? && store[key].token == token
      && store[key].payload == payload && store[key].until == until
    case _ => true
  }

  /** By time t, as far as the first j events tell, the lease taken by event i is over. */
  ghost predicate Shut(log: seq<Event>, i: nat, j: nat, t: Time)
    requires i < |log| && j <= |log| && log[i].Took?
  {
    log[i].until <= t || exists m :: 0 <= m < j && Ends(log[m], log[i].token) && log[m].at <= t
  }

  /** A key is only taken when every earlier lease on it is over and every earlier result expired. */
  ghost predicate Exclusive(log: seq<Event>) {
    && (forall i, j :: 0 <= i < j < |log| && log[i].Took? && log[j].Took? && log[i].key == log[j].key ==>
          Shut(log, i, j, log[j].at))
    && (forall i, j :: 0 <= i < j < |log| && log[i].Kept? && log[j].Took? && log[i].key == log[j].key ==>
          log[i].until <= log[j].at)
  }

  /** What holds of the store, the clock and the log. */
  ghost predicate CoreInv(now: Time, store: Entries, log: seq<Event>) {
    && Clocked(now, store, log) && Once(log) && Timely(log) && Backed(store, log)
    && Guarded(now, store, log) && Exclusive(log)
  }

  /** Claims belong to executions past their Reserve, and nobody decides without a cause. */
  ghost predicate Owned(s: System) {
    && (forall e :: e in s.log && e.Took? ==>
          e.token in s.execs && e.key == s.execs[e.token].key && e.fingerprint == s.execs[e.token].fingerprint)
    && (forall t :: t in s.execs ==> OwnedPhase(s.log, t, s.execs[t].phase))
  }

  ghost predicate OwnedPhase(log: seq<Event>, token: Bytes, phase: Phase) {
    match phase
    case Asking(attempt, _) => 1 <= attempt <= MAX_ATTEMPTS && !Taken(log, token)
    case Reading(attempt, reply) =>
      && 1 <= attempt <= MAX_ATTEMPTS
      && (reply.Exists? ==> !Taken(log, token)) && (reply.Claimed? ==> Taken(log, token))
    case Working => Taken(log, token)
    case Over(_) => true
  }

  /** Replies and replays show only what was kept. */
  ghost predicate Sourced(s: System) {
    && (forall t :: t in s.execs ==> SourcedPhase(s.grain, s.log, s.execs[t].key, s.execs[t].phase))
    && (forall i :: 0 <= i < |s.log| && s.log[i].Replayed? ==> SourcedReplay(s.grain, s.log, i))
  }

  ghost predicate SourcedPhase(g: Grain, log: seq<Event>, key: Bytes, phase: Phase) {
    match phase
    case Reading(_, Exists(existing)) =>
      existing.Some? && (existing.value.state.Completed? ==> SourcedRecord(g, log, key, existing.value))
    case _ => true
  }

  /** The record was kept, and at most the slack of the store is added to its deadline. */
  ghost predicate SourcedRecord(g: Grain, log: seq<Event>, key: Bytes, r: Record) {
    exists until :: Source(log, key, r.fingerprint, r.payload, until) && r.recordExpiresAt <= until + Slack(g)
  }

  ghost predicate SourcedReplay(g: Grain, log: seq<Event>, i: nat)
    requires i < |log| && log[i].Replayed?
  {
    exists until ::
      Source(log[..i], log[i].key, log[i].fingerprint, log[i].payload, until) && log[i].at < until + Slack(g)
  }

  ghost predicate Inv(s: System) {
    CoreInv(s.now, s.store, s.log) && Owned(s) && Sourced(s)
  }
}
