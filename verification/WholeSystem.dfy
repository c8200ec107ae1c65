/** The parts together: concurrent executions that finish as the middleware does, and clients that wait
    as long as they are told. */
module WholeSystem {
  import opened Basics
  import opened Codec
  import opened CodecLaws
  import opened Headers
  import opened Capturing
  import opened CapturingLaws
  import opened Replay
  import opened Records
  import P = Protocol
  import T = ProtocolTheorems
  import C = ConcreteRuns
  import B = Backends
  import L = Lease
  import A = AbstractStore
  import W = Middleware
  import M = MemStore
  import R = RetryAfter

  /** One request under the lease of one token: the header its writer had, its handler, the verdict of
      the policy, how the store behaved, and what the middleware issued. */
  datatype Ran = Ran(header: Header, handler: W.Handler, verdict: W.Verdict, replies: seq<W.StoreReply>,
                     issued: seq<W.FinishCall>, panicked: bool)
  {
    ghost predicate Served(limits: Limits) {
      && ValidCodes(handler.calls) && |replies| >= 3
      && W.Accounted(issued, panicked, handler, verdict, Captured(header, handler.calls, limits), replies)
    }
  }

  /** The payload encodes the usable capture of what the handler did. */
  ghost predicate IsCaptureOf(payload: Bytes, ran: Ran, limits: Limits) {
    && ValidCodes(ran.handler.calls)
    && Usable(Captured(ran.header, ran.handler.calls, limits))
    && payload == Encode(Stored(Captured(ran.header, ran.handler.calls, limits)))
  }

  /** The Finish calls a token makes in a run. */
  function FinishesOf(run: seq<P.Action>, token: Bytes): seq<W.FinishCall> {
    if |run| == 0 then []
    else
      (if run[0].End? && run[0].token == token then [W.FinishCall(run[0].decision, run[0].payload)] else [])
      + FinishesOf(run[1..], token)
  }

  /** In the run every token finishes the way the middleware does, or dies half-way. */
  ghost predicate RunsMiddleware(run: seq<P.Action>, request: Bytes -> Ran, limits: Limits) {
    forall token ::
      request(token).Served(limits) && FinishesOf(run, token) <= request(token).issued
  }

  lemma {:induction false} EndIsAFinish(run: seq<P.Action>, i: nat)
    requires i < |run| && run[i].End?
    ensures W.FinishCall(run[i].decision, run[i].payload) in FinishesOf(run, run[i].token)
  {
    if i > 0 {
      EndIsAFinish(run[1..], i - 1);
    }
  }

  /** What the middleware persists is what it captured. */
  lemma MiddlewarePersistsCaptures(run: seq<P.Action>, request: Bytes -> Ran, limits: Limits)
    requires RunsMiddleware(run, request, limits)
    ensures PersistsCaptures(run, request, limits)
  {
    hide W.Accounted, Captured;
    forall i | 0 <= i < |run| && run[i].End? && run[i].decision.Persist?
      ensures IsCaptureOf(run[i].payload, request(run[i].token), limits)
    {
      var ran := request(run[i].token);
      EndIsAFinish(run, i);
      var call := W.FinishCall(run[i].decision, run[i].payload);
      assert ran.Served(limits) && call in ran.issued;
      W.AccountingMeans(ran.issued, ran.panicked, ran.handler, ran.verdict, ran.header, limits, ran.replies);
      CaptureIsWhatTheClientGot(ran.header, ran.handler.calls, limits);
    }
  }

  /** Executions persist what they captured and nothing else. */
  ghost predicate PersistsCaptures(run: seq<P.Action>, request: Bytes -> Ran, limits: Limits) {
    forall i :: 0 <= i < |run| && run[i].End? && run[i].decision.Persist? ==>
      IsCaptureOf(run[i].payload, request(run[i].token), limits)
  }

  ghost predicate KeepsCaptures(log: seq<P.Event>, request: Bytes -> Ran, limits: Limits) {
    forall i :: 0 <= i < |log| && log[i].Kept? ==> IsCaptureOf(log[i].payload, request(log[i].token), limits)
  }

  lemma {:induction false} RunKeepsCaptures(s: P.System, run: seq<P.Action>, request: Bytes -> Ran, limits: Limits)
    requires P.Possible(s, run) && PersistsCaptures(run, request, limits) && KeepsCaptures(s.log, request, limits)
    ensures KeepsCaptures(P.After(s, run).log, request, limits)
    decreases |run|
  {
    hide P.Apply, IsCaptureOf;
    if |run| > 0 {
      StepKeepsCaptures(s, run[0], request, limits);
      assert forall i :: 0 <= i < |run| - 1 ==> run[1..][i] == run[i + 1];
      RunKeepsCaptures(P.Apply(s, run[0]), run[1..], request, limits);
    }
  }

  lemma StepKeepsCaptures(s: P.System, a: P.Action, request: Bytes -> Ran, limits: Limits)
    requires P.Enabled(s, a) && KeepsCaptures(s.log, request, limits)
    requires a.End? && a.decision.Persist? ==> IsCaptureOf(a.payload, request(a.token), limits)
    ensures KeepsCaptures(P.Apply(s, a).log, request, limits)
  {
    hide IsCaptureOf;
  }

  /** What a replay of the payload serves, within the limits: the response of that handler, with the
      status it fixed first, the allowed headers of that moment and all it wrote. */
  ghost predicate ServesResponseOf(payload: Bytes, ran: Ran, limits: Limits, show: bool, base: Header) {
    var sr := Stored(Captured(ran.header, ran.handler.calls, limits));
    var served := Served(payload, limits.maxBody, show, base);
    && (served.Ok? <==> WithinCaps(sr) && |payload| <= limits.maxBody + MAX_OVERHEAD)
    && (served.Ok? && FixedStatus(ran.handler.calls) != SWITCHING_PROTOCOLS ==>
          served.value == Wire(FixedStatus(ran.handler.calls),
                               Marked(base, show) + Snapshot(FixedHeader(ran.header, ran.handler.calls), limits.allow),
                               AllWrites(ran.handler.calls), false))
  }

  lemma CaptureIsServed(payload: Bytes, ran: Ran, limits: Limits, show: bool, base: Header)
    requires IsCaptureOf(payload, ran, limits) && Addressable(Stored(Captured(ran.header, ran.handler.calls, limits)))
    ensures ServesResponseOf(payload, ran, limits, show, base)
  {
    hide Captured, Encode, Served, WithinCaps, Stored, Marked, Snapshot, Addressable;
    CapturedIsServed(ran.header, ran.handler.calls, limits, show, base);
    CaptureIsWhatTheClientGot(ran.header, ran.handler.calls, limits);
  }

  /** In every run of concurrent executions that finish as the middleware does, every replay serves the
      response of one earlier handler: the one that ran under the lease of a token whose Begin carried
      the same key and fingerprint, and whose record has not expired. */
  lemma EveryReplayServesOneHandler(s: P.System, run: seq<P.Action>, i: nat, request: Bytes -> Ran,
                                    limits: Limits, show: bool, base: Header)
    requires P.Initial(s) && P.Possible(s, run) && RunsMiddleware(run, request, limits)
    requires forall t :: Addressable(Stored(Captured(request(t).header, request(t).handler.calls, limits)))
    ensures var log := P.After(s, run).log;
            i < |log| && log[i].Replayed? ==>
              exists c, k :: 0 <= c < i && 0 <= k < i && log[c].Kept? && log[k].Took?
                && log[c].token == log[k].token && log[k].key == log[i].key
                && log[k].fingerprint == log[i].fingerprint && log[c].at <= log[i].at < log[c].until + A.Slack(s.grain)
                && ServesResponseOf(log[i].payload, request(log[k].token), limits, show, base)
  {
    hide RunsMiddleware, IsCaptureOf, ServesResponseOf, P.After, P.Possible, Addressable, Stored, Captured;
    T.ReplayProvenance(s, run, i);
    MiddlewarePersistsCaptures(run, request, limits);
    assert KeepsCaptures(s.log, request, limits);
    RunKeepsCaptures(s, run, request, limits);
    var log := P.After(s, run).log;
    if i < |log| && log[i].Replayed? {
      var c, k :| 0 <= c < i && 0 <= k < i && log[c].Kept? && log[k].Took?
        && log[c].token == log[k].token && log[c].key == log[k].key == log[i].key
        && log[c].payload == log[i].payload && log[k].fingerprint == log[i].fingerprint
        && log[c].at <= log[i].at < log[c].until + A.Slack(s.grain);
      CaptureIsServed(log[c].payload, request(log[c].token), limits, show, base);
    }
  }

  /** The same over each of the three stores. */
  lemma EveryReplayOverRealStores(r: C.Real, run: seq<P.Action>, i: nat, request: Bytes -> Ran,
                                  limits: Limits, show: bool, base: Header)
    requires C.Initial(r) && C.Possible(r, run) && RunsMiddleware(run, request, limits)
    requires forall t :: Addressable(Stored(Captured(request(t).header, request(t).handler.calls, limits)))
    ensures var log := C.After(r, run).log;
            i < |log| && log[i].Replayed? ==>
              exists c, k :: 0 <= c < i && 0 <= k < i && log[c].Kept? && log[k].Took?
                && log[c].token == log[k].token && log[k].key == log[i].key
                && log[k].fingerprint == log[i].fingerprint
                && log[c].at <= log[i].at < log[c].until + A.Slack(B.GrainOf(r.backend))
                && ServesResponseOf(log[i].payload, request(log[k].token), limits, show, base)
  {
    hide ServesResponseOf, RunsMiddleware, P.After, P.Possible, C.After, C.Possible, Addressable, Stored, Captured;
    C.HistoryIsAbstract(r, run);
    EveryReplayServesOneHandler(C.Abs(r), run, i, request, limits, show, base);
  }

  // ---------------------------------------------------------------- waiting out a rejection

  /** On the in-memory store, with its clock in nanoseconds: a client that is rejected and waits as many
      seconds as it is told finds the rejecting reservation gone, unless that lease is so long that the
      rounding overflows. */
  lemma RejectedClientWaitsLongEnough(recs: M.Recs, rec: Record, askedAt: Time, readAt: Time, attempt: nat, d: Time)
    requires askedAt <= readAt && d <= R.MAX_DURATION
    requires var (_, reply) := M.ReserveSpec(recs, rec, askedAt);
             L.Judge(attempt, reply, readAt, rec.fingerprint, rec.token) == L.Settled(L.RejectInFlight(d))
    ensures var (recs', reply) := M.ReserveSpec(recs, rec, askedAt);
            var back := readAt + R.Seconds(d) * R.SECOND;
            && reply.Exists? && reply.existing.Some? && d > 0
            && (reply.existing.value.Expired(back) <==> d <= TWO_63 - R.SECOND)
            && (rec.key in M.View(recs', back) <==> d > TWO_63 - R.SECOND)
  {
    var (recs', reply) := M.ReserveSpec(recs, rec, askedAt);
    L.JudgeTable(attempt, reply, readAt, rec.fingerprint, rec.token);
    R.SecondsIsCeiling(d);
    if d <= TWO_63 - R.SECOND {
      R.WaitingOutlivesTheLease(readAt, readAt + d, readAt + R.Seconds(d) * R.SECOND);
    }
  }
}
