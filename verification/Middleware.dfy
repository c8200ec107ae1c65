/** What the middleware does with a lease it holds: the handler's response is captured, and the record
    is persisted, discarded or left to the handler. */
module Middleware {
  import opened Basics
  import opened Codec
  import opened Headers
  import opened Capturing
  import opened CapturingLaws
  import opened Recorder
  import L = Lease

  /** A handler: what it does, and whether it panics in the end. */
  datatype Handler = Handler(calls: seq<Call>, panics: bool)

  /** What the policy does with the recorded status. */
  datatype Verdict = Says(decision: L.Decision) | Throws

  /** How the store behaves when a Finish reaches it. */
  datatype StoreReply = Answers(answer: L.StoreAnswer) | Panics

  /** One call of `Finish`. */
  datatype FinishCall = FinishCall(decision: L.Decision, payload: Bytes)

  /** The lease the request runs under. */
  datatype Reservation = Reservation(key: Bytes, token: Bytes, options: L.Options)

  const DISCARD: FinishCall := FinishCall(L.Discard, [])

  datatype Ended = Settled(leaseLost: bool) | Failed | Panicked

  /** How a Finish ends; an unknown decision never reaches the store. */
  function EndOf(call: FinishCall, reply: StoreReply): Ended {
    if call.decision.Unknown? then Failed
    else if reply.Panics? then Panicked
    else
      match L.Normalise(reply.answer)
      case Ok(lost) => Settled(lost)
      case Err(_) => Failed
  }

  method Finish(rsv: Reservation, call: FinishCall, reply: StoreReply) returns (e: Ended)
    ensures e == EndOf(call, reply)
  {
    if reply.Panics? && !call.decision.Unknown? {
      return Panicked;
    }
    var answer := if reply.Panics? then L.OtherError else reply.answer;
    var r, _ := L.Finish(rsv.key, rsv.token, call.decision, call.payload, rsv.options, answer, answer);
    match r {
      case Ok(lost) => return Settled(lost);
      case Err(_) => return Failed;
    }
  }

  /** The handler finished the record itself. */
  predicate FinishesItself(handler: Handler) {
    MarkFinished in handler.calls
  }

  lemma {:induction false} FinishedFlag(header: Header, calls: seq<Call>, limits: Limits)
    ensures After(header, calls, limits).finished <==> MarkFinished in calls
  {
    if |calls| > 0 {
      FinishedFlag(header, Init(calls), limits);
      assert calls == Init(calls) + [Last(calls)];
    }
  }

  /** The first Finish after a handler that returned: Persist, with the encoding of the captured
      response, only if the policy says so and the capture is usable. */
  ghost function FirstFinish(decision: L.Decision, c: Capture): FinishCall {
    if !decision.Persist? then FinishCall(decision, [])
    else if Usable(c) then FinishCall(L.Persist, Encode(Stored(c)))
    else DISCARD
  }

  /** Why a second Finish, a Discard, follows the first. */
  predicate NeedsDiscard(first: FinishCall, e: Ended) {
    e.Panicked? || (e.Failed? && first.decision.Persist?)
  }

  /** The Finish calls the middleware may issue, in order, for the outcome of the handler. */
  ghost predicate Accounted(issued: seq<FinishCall>, panicked: bool, handler: Handler, verdict: Verdict,
                            c: Capture, replies: seq<StoreReply>)
    requires |replies| >= 3
  {
    if FinishesItself(handler) then issued == [] && panicked == handler.panics
    else if handler.panics || verdict.Throws? then issued == [DISCARD] && panicked
    else
      var first := FirstFinish(verdict.decision, c);
      var e := EndOf(first, replies[0]);
      && 1 <= |issued| <= 3 && issued[0] == first
      && (forall i :: 1 <= i < |issued| ==> issued[i] == DISCARD)
      && (|issued| >= 2 <==> NeedsDiscard(first, e))
      && (|issued| == 3 <==> e.Failed? && first.decision.Persist? && replies[1].Panics?)
      && (panicked <==> e.Panicked? || |issued| == 3)
  }

  /** `ServeHTTP` from Proceed on. The k-th Finish that is issued gets replies[k]. */
  method ServeProceed(rsv: Reservation, w: ResponseWriter, maxBody: int, storeHeaders: seq<Bytes>,
                      handler: Handler, decide: Int64 -> Verdict, replies: seq<StoreReply>)
    returns (issued: seq<FinishCall>, panicked: bool)
    requires w.wire == SILENCE && |replies| >= 3
    modifies w
    ensures w.wire == Unwrapped(old(w.header), handler.calls)
    ensures handler.panics ==> panicked
    ensures FinishesItself(handler) ==> issued == []
    ensures handler.panics && !FinishesItself(handler) ==> issued == [DISCARD]
    ensures var c := Captured(old(w.header), handler.calls, Limits(maxBody, Allowed(storeHeaders)));
            Accounted(issued, panicked, handler, decide(StatusOf(c)), c, replies)
  {
    var rec := new Recorder(maxBody, storeHeaders);
    var box := new FinishedBox();
    var cw := new CaptureWriter(w, rec, box);
    FinishedFlag(w.header, handler.calls, cw.Limits());
    CaptureIsTransparent(w.header, handler.calls, cw.Limits());
    issued, panicked := RunHandler(rsv, cw, handler, decide, replies);
    if panicked {
      if !box.finished {
        // Whatever becomes of this one, the panic goes on.
        var _ := Finish(rsv, DISCARD, replies[|issued|]);
        issued := issued + [DISCARD];
      }
    }
  }

  /** What runs under the deferred recovery. */
  method RunHandler(rsv: Reservation, cw: CaptureWriter, handler: Handler, decide: Int64 -> Verdict,
                    replies: seq<StoreReply>)
    returns (issued: seq<FinishCall>, panicked: bool)
    requires cw.Scene() == Start(cw.w.header) && |replies| >= 3
    modifies cw, cw.w, cw.rec, cw.box
    ensures var s := After(old(cw.w.header), handler.calls, cw.Limits());
            && cw.w.wire == s.wire && cw.box.finished == s.finished
            && var c := Capturing.Finalize(s, cw.Limits()).cap;
               Underway(issued, panicked, s.finished, handler.panics, decide(StatusOf(c)), c, replies)
  {
    cw.Run(handler.calls);
    if handler.panics {
      return [], true;
    }
    cw.Finalize();
    if cw.box.finished {
      return [], false;
    }
    var status := cw.rec.Status();
    var verdict := decide(status);
    if verdict.Throws? {
      return [], true;
    }
    issued, panicked := FinishAfterReturn(rsv, cw.rec, verdict.decision, replies);
  }

  /** As Accounted, before the recovery has added its Discard. */
  ghost predicate Underway(issued: seq<FinishCall>, panicked: bool, finished: bool, panics: bool,
                           verdict: Verdict, c: Capture, replies: seq<StoreReply>)
    requires |replies| >= 3
  {
    if panics then issued == [] && panicked
    else if finished then issued == [] && !panicked
    else if verdict.Throws? then issued == [] && panicked
    else Finishing(issued, panicked, verdict.decision, c, replies)
  }

  ghost predicate Finishing(issued: seq<FinishCall>, panicked: bool, decision: L.Decision, c: Capture,
                            replies: seq<StoreReply>)
    requires |replies| >= 3
  {
    var first := FirstFinish(decision, c);
    var e := EndOf(first, replies[0]);
    var retry := e.Failed? && first.decision.Persist?;
    issued == (if retry then [first, DISCARD] else [first])
    && panicked == (e.Panicked? || (retry && replies[1].Panics?))
  }

  method FinishAfterReturn(rsv: Reservation, rec: Recorder, decision: L.Decision, replies: seq<StoreReply>)
    returns (issued: seq<FinishCall>, panicked: bool)
    requires |replies| >= 3
    ensures Finishing(issued, panicked, decision, rec.Contents(), replies)
  {
    var d := decision;
    if d.Persist? {
      if rec.abandoned {
        d := L.Discard;
      } else if rec.overflowed {
        d := L.Discard;
      }
    }
    var payload: Bytes := [];
    if d.Persist? {
      var sr, _ := rec.Response();
      var err;
      payload, err := MarshalBinary(sr);
      if err.Some? {
        d := L.Discard;
      }
    }
    var first := FinishCall(d, payload);
    issued := [first];
    var e := Finish(rsv, first, replies[0]);
    if e.Panicked? {
      return issued, true;
    }
    if e.Failed? && d.Persist? {
      issued := issued + [DISCARD];
      e := Finish(rsv, DISCARD, replies[1]);
      return issued, e.Panicked?;
    }
    return issued, false;
  }

  // ---------------------------------------------------------------- what the accounting means

  /** Over all handlers, policies and store failures: at most one Persist is issued and it comes first;
      it carries the encoding of the response the client got; the record is left alone if the handler
      finished it; and the last call is a Discard whenever the one before it failed or panicked. */
  lemma AccountingMeans(issued: seq<FinishCall>, panicked: bool, handler: Handler, verdict: Verdict,
                        header: Header, limits: Limits, replies: seq<StoreReply>)
    requires |replies| >= 3 && ValidCodes(handler.calls)
    requires Accounted(issued, panicked, handler, verdict, Captured(header, handler.calls, limits), replies)
    ensures handler.panics ==> panicked
    ensures FinishesItself(handler) ==> issued == [] && panicked == handler.panics
    ensures !FinishesItself(handler) && (handler.panics || verdict.Throws?) ==> panicked && issued == [DISCARD]
    ensures !FinishesItself(handler) ==> |issued| > 0
    ensures forall i :: 0 <= i < |issued| && issued[i].decision.Persist? ==> i == 0
    ensures |issued| > 0 && issued[0].decision.Persist? ==>
              && !FinishesItself(handler) && !handler.panics && verdict == Says(L.Persist)
              && !Streams(handler.calls) && Fits(handler.calls, limits.maxBody)
              && issued[0].payload == Encode(Stored(Captured(header, handler.calls, limits)))
    ensures !FinishesItself(handler) && panicked ==> |issued| > 0 && issued[|issued| - 1] == DISCARD
    ensures |issued| > 0 && issued[0].decision.Persist? && !panicked && EndOf(issued[0], replies[0]).Failed? ==>
              |issued| == 2 && issued[1] == DISCARD
  {
    hide Captured, Encode, Streams, Fits;
    CaptureIsWhatTheClientGot(header, handler.calls, limits);
  }

  /** There can be three Finish calls: persisting fails, the best-effort release panics, and the deferred
      recovery discards once more. */
  lemma ThreeFinishCalls(c: Capture, third: StoreReply)
    requires Usable(c)
    ensures var persist := FinishCall(L.Persist, Encode(Stored(c)));
            Accounted([persist, DISCARD, DISCARD], true, Handler([], false), Says(L.Persist), c,
                      [Answers(L.OtherError), Panics, third])
  {
    hide Encode;
  }

  /** How a Finish ends, case by case. */
  lemma EndOfTable(call: FinishCall, reply: StoreReply)
    ensures EndOf(call, reply) == Panicked <==> !call.decision.Unknown? && reply == Panics
    ensures EndOf(call, reply) == Settled(false) <==> !call.decision.Unknown? && reply == Answers(L.Accepted)
    ensures EndOf(call, reply) == Settled(true) <==>
              !call.decision.Unknown? && (reply == Answers(L.TokenMismatch) || reply == Answers(L.NotFound))
    ensures EndOf(call, reply) == Failed <==> call.decision.Unknown? || reply == Answers(L.OtherError)
  {
  }

  /** After a handler that returned without finishing the record itself: the calls for each decision,
      each fate of the capture and each behaviour of the store. */
  lemma CallsAfterReturn(issued: seq<FinishCall>, panicked: bool, handler: Handler, d: L.Decision, c: Capture,
                         replies: seq<StoreReply>)
    requires |replies| >= 3 && MarkFinished !in handler.calls && !handler.panics
    requires Accounted(issued, panicked, handler, Says(d), c, replies)
    ensures d.Unknown? ==> issued == [FinishCall(d, [])] && !panicked
    ensures d == L.Discard || (d == L.Persist && (c.overflowed || c.abandoned)) ==>
              if replies[0] == Panics then issued == [DISCARD, DISCARD] && panicked
              else issued == [DISCARD] && !panicked
    ensures d == L.Persist && !c.overflowed && !c.abandoned ==>
              var persist := FinishCall(L.Persist, Encode(Stored(c)));
              if replies[0] == Panics then issued == [persist, DISCARD] && panicked
              else if replies[0] != Answers(L.OtherError) then issued == [persist] && !panicked
              else if replies[1] == Panics then issued == [persist, DISCARD, DISCARD] && panicked
              else issued == [persist, DISCARD] && !panicked
    ensures DISCARD == FinishCall(L.Discard, [])
  {
    hide Encode;
    EndOfTable(FirstFinish(d, c), replies[0]);
  }
}
