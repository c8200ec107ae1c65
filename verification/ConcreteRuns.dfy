/** The protocol over the real stores: every run over one of them is a run of the abstract protocol
    with that store's grain, so that whatever holds of the history of the one holds of the other. */
module ConcreteRuns {
  import opened Basics
  import opened Records
  import opened Lease
  import opened Backends
  import A = AbstractStore
  import P = Protocol
  import T = ProtocolTheorems
  import N = ProtocolAnswers

  /** As `System`, with a store instead of its abstraction. */
  datatype Real = Real(now: Time, backend: Backend, execs: map<Bytes, P.Exec>, log: seq<P.Event>)

  ghost function Abs(r: Real): P.System
    requires WellFormed(r.backend)
  {
    P.System(GrainOf(r.backend), r.now, View(r.backend, r.now), r.execs, r.log)
  }

  /** What may happen next depends on the executions alone. */
  predicate Enabled(r: Real, a: P.Action) {
    match a
    case Tick(_) => true
    case Start(token, _, _, _) => token !in r.execs
    case Ask(token, _) => token in r.execs && r.execs[token].phase.Asking?
    case Read(token) => token in r.execs && r.execs[token].phase.Reading?
    case End(token, _, _, _) => token in r.execs && r.execs[token].phase.Working?
  }

  function WithPhase(r: Real, token: Bytes, phase: P.Phase): map<Bytes, P.Exec>
    requires token in r.execs
  {
    r.execs[token := r.execs[token].(phase := phase)]
  }

  /** One Reserve call. The history learns of a claim even if the answer gets lost. */
  function DoAsk(r: Real, token: Bytes, fate: P.Fate): Real
    requires Enabled(r, P.Ask(token, fate))
  {
    var e := r.execs[token];
    var attempt, until := e.phase.attempt, e.phase.until;
    if fate.LostBefore? then r.(execs := WithPhase(r, token, P.Reading(attempt, Failed)))
    else
      var (backend, reply) := Reserve(r.backend, Request(e.key, e.fingerprint, token, until), r.now);
      var got := if fate.LostAfter? then Failed else Essence(e.key, reply);
      var took := P.Took(token, e.key, e.fingerprint, r.now, A.Granted(GrainOf(r.backend), until, r.now));
      r.(backend := backend,
         execs := WithPhase(r, token, P.Reading(attempt, got)),
         log := if reply.Claimed? then r.log + [took] else r.log)
  }

  /** Begin reads its clock and decides. */
  function DoRead(r: Real, token: Bytes): Real
    requires Enabled(r, P.Read(token))
  {
    var e := r.execs[token];
    match Judge(e.phase.attempt, e.phase.reply, r.now, e.fingerprint, token)
    case Again =>
      r.(execs := WithPhase(r, token, P.Asking(e.phase.attempt + 1, r.now + e.options.Effective().leaseTTL)))
    case Broken(error) => r.(execs := WithPhase(r, token, P.Over(Err(error))))
    case Settled(Proceed(_)) => r.(execs := WithPhase(r, token, P.Working))
    case Settled(Replay(payload)) =>
      r.(execs := WithPhase(r, token, P.Over(Ok(Replay(payload)))),
         log := r.log + [P.Replayed(token, e.key, e.fingerprint, payload, r.now)])
    case Settled(outcome) => r.(execs := WithPhase(r, token, P.Over(Ok(outcome))))
  }

  /** One Finish call. */
  function DoEnd(r: Real, token: Bytes, decision: Decision, payload: Bytes, fate: P.Fate): Real
    requires Enabled(r, P.End(token, decision, payload, fate))
  {
    var e := r.execs[token];
    if fate.LostBefore? then r
    else
      match decision
      case Unknown(_) => r
      case Persist =>
        var ttl := e.options.Effective().recordTTL;
        var (backend, answer) := Complete(r.backend, e.key, token, payload, ttl, r.now);
        var kept := P.Kept(token, e.key, payload, r.now, r.now + A.GrantedTTL(GrainOf(r.backend), ttl));
        r.(backend := backend, log := if answer.Accepted? then r.log + [kept] else r.log)
      case Discard =>
        var (backend, answer) := Release(r.backend, e.key, token, r.now);
        r.(backend := backend, log := if answer.Accepted? then r.log + [P.Freed(token, e.key, r.now)] else r.log)
  }

  function Apply(r: Real, a: P.Action): Real
    requires Enabled(r, a)
  {
    match a
    case Tick(d) => r.(now := r.now + d)
    case Start(token, key, fp, o) =>
      r.(execs := r.execs[token := P.Exec(key, fp, o, P.Asking(1, r.now + o.Effective().leaseTTL))])
    case Ask(token, fate) => DoAsk(r, token, fate)
    case Read(token) => DoRead(r, token)
    case End(token, d, payload, fate) => DoEnd(r, token, d, payload, fate)
  }

  ghost predicate Possible(r: Real, run: seq<P.Action>)
    decreases |run|
  {
    |run| == 0 || (Enabled(r, run[0]) && Possible(Apply(r, run[0]), run[1..]))
  }

  ghost function After(r: Real, run: seq<P.Action>): Real
    requires Possible(r, run)
    decreases |run|
  {
    if |run| == 0 then r else After(Apply(r, run[0]), run[1..])
  }

  ghost predicate Initial(r: Real) {
    Empty(r.backend) && r.execs == map[] && r.log == []
  }

  // ---------------------------------------------------------------- simulation

  /** The same may happen next. */
  lemma SameEnabled(r: Real, a: P.Action)
    requires WellFormed(r.backend)
    ensures Enabled(r, a) <==> P.Enabled(Abs(r), a)
  {
  }

  lemma AskSimulates(r: Real, token: Bytes, fate: P.Fate)
    requires WellFormed(r.backend) && Enabled(r, P.Ask(token, fate))
    ensures var r' := DoAsk(r, token, fate);
            WellFormed(r'.backend) && Abs(r') == P.DoAsk(Abs(r), token, fate)
  {
    hide Reserve, WellFormed, View, A.Prune, A.Granted, A.Reported, GrainOf;
    var e := r.execs[token];
    if !fate.LostBefore? {
      ReserveRefines(r.backend, Request(e.key, e.fingerprint, token, e.phase.until), r.now);
    }
  }

  lemma EndSimulates(r: Real, token: Bytes, d: Decision, payload: Bytes, fate: P.Fate)
    requires WellFormed(r.backend) && Enabled(r, P.End(token, d, payload, fate))
    ensures var r' := DoEnd(r, token, d, payload, fate);
            WellFormed(r'.backend) && Abs(r') == P.DoEnd(Abs(r), token, d, payload, fate)
  {
    hide Complete, Release, WellFormed, View, A.Complete, A.Release, A.GrantedTTL, GrainOf;
    var e := r.execs[token];
    CompleteRefines(r.backend, e.key, token, payload, e.options.Effective().recordTTL, r.now);
    ReleaseRefines(r.backend, e.key, token, r.now);
  }

  /** A step over a store is the same step of the abstract protocol. */
  lemma StepSimulates(r: Real, a: P.Action)
    requires WellFormed(r.backend) && Enabled(r, a)
    ensures P.Enabled(Abs(r), a)
    ensures WellFormed(Apply(r, a).backend) && Abs(Apply(r, a)) == P.Apply(Abs(r), a)
  {
    hide WellFormed, View, A.Prune, DoAsk, DoEnd, P.DoAsk, P.DoEnd, GrainOf, Judge;
    match a
    case Tick(d) => ViewLater(r.backend, r.now, r.now + d);
    case Start(_, _, _, _) =>
    case Ask(token, fate) => AskSimulates(r, token, fate);
    case Read(_) =>
    case End(token, d, payload, fate) => EndSimulates(r, token, d, payload, fate);
  }

  /** So is a run. */
  lemma {:induction false} RunSimulates(r: Real, run: seq<P.Action>)
    requires WellFormed(r.backend) && Possible(r, run)
    ensures P.Possible(Abs(r), run)
    ensures WellFormed(After(r, run).backend) && Abs(After(r, run)) == P.After(Abs(r), run)
    decreases |run|
  {
    hide WellFormed, Abs, Apply, P.Apply, Enabled, P.Enabled;
    if |run| > 0 {
      StepSimulates(r, run[0]);
      RunSimulates(Apply(r, run[0]), run[1..]);
    }
  }

  lemma HistoryIsAbstract(r: Real, run: seq<P.Action>)
    requires Initial(r) && Possible(r, run)
    ensures WellFormed(r.backend) && P.Initial(Abs(r)) && P.Possible(Abs(r), run)
    ensures After(r, run).log == P.After(Abs(r), run).log
  {
    EmptyView(r.backend, r.now);
    RunSimulates(r, run);
  }

  // ---------------------------------------------------------------- what holds of the real stores

  /** On each of the three stores, in any run from the empty store: the windows of two claims of one key,
      each with the lease the store really granted, never overlap. */
  lemma LeasesNeverOverlap(r: Real, run: seq<P.Action>, i: nat, j: nat, t: Time)
    requires Initial(r) && Possible(r, run)
    ensures var log := After(r, run).log;
            i < |log| && j < |log| && i != j && log[i].Took? && log[j].Took? && log[i].key == log[j].key ==>
              log[i].token != log[j].token && !(T.InWindow(log, i, t) && T.InWindow(log, j, t))
  {
    HistoryIsAbstract(r, run);
    T.LeasesNeverOverlap(Abs(r), run, i, j, t);
  }

  /** And every replay serves the payload of an earlier Persist that took effect, under the same key, by
      an execution with the same fingerprint, whose record has not expired; PostgreSQL's rounding may add
      half a millisecond. */
  lemma ReplayProvenance(r: Real, run: seq<P.Action>, i: nat)
    requires Initial(r) && Possible(r, run)
    ensures var log := After(r, run).log;
            i < |log| && log[i].Replayed? ==>
              exists c, k :: 0 <= c < i && 0 <= k < i && log[c].Kept? && log[k].Took?
                && log[c].token == log[k].token && log[c].key == log[k].key == log[i].key
                && log[c].payload == log[i].payload && log[k].fingerprint == log[i].fingerprint
                && log[c].at <= log[i].at < log[c].until + A.Slack(GrainOf(r.backend))
  {
    HistoryIsAbstract(r, run);
    T.ReplayProvenance(Abs(r), run, i);
  }

  /** And a token claims at most once and is completed or released at most once, never both. */
  lemma OneEffectPerToken(r: Real, run: seq<P.Action>)
    requires Initial(r) && Possible(r, run)
    ensures var log := After(r, run).log;
            && (forall i, j :: 0 <= i < j < |log| && log[i].Took? && log[j].Took? ==> log[i].token != log[j].token)
            && (forall i, j, t :: 0 <= i < j < |log| && P.Ends(log[i], t) ==> !P.Ends(log[j], t))
  {
    HistoryIsAbstract(r, run);
    T.OneEffectPerToken(Abs(r), run);
  }

  /** And a Persist that took effect lasts, on each store, for the record TTL of its execution as that store
      grants it. */
  lemma ResultLastsAsAsked(r0: Real, before: seq<P.Action>, token: Bytes, payload: Bytes, fate: P.Fate,
                           run: seq<P.Action>)
    requires Initial(r0) && Possible(r0, before) && !fate.LostBefore?
    requires Enabled(After(r0, before), P.End(token, Persist, payload, fate))
    requires Possible(Apply(After(r0, before), P.End(token, Persist, payload, fate)), run)
    requires WellFormed(After(r0, before).backend)
    ensures var r := After(r0, before);
            var e := r.execs[token];
            var r' := After(Apply(r, P.End(token, Persist, payload, fate)), run);
            var until := r.now + A.GrantedTTL(GrainOf(r0.backend), e.options.Effective().recordTTL);
            && WellFormed(r'.backend)
            && (A.HeldBy(View(r.backend, r.now), e.key, token) && r'.now < until ==>
                  && e.key in View(r'.backend, r'.now)
                  && View(r'.backend, r'.now)[e.key] == A.Done(token, e.fingerprint, payload, until))
  {
    hide WellFormed, View, Apply, P.Apply, Possible, After, P.Possible, P.After, GrainOf, Initial;
    var end := P.End(token, Persist, payload, fate);
    var r := After(r0, before);
    HistoryIsAbstract(r0, before);
    RunSimulates(r0, before);
    T.GrainStays(Abs(r0), before);
    StepSimulates(r, end);
    RunSimulates(Apply(r, end), run);
    N.ResultLastsAsAsked(Abs(r0), before, token, payload, fate, run);
  }
}
