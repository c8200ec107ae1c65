/** What the callers of Begin and Finish can tell about the store behind them: each of the three is the
    abstract store seen at its grain; with TTLs in whole milliseconds they make the same claims and give
    the same answers, but for readings next to a deadline. Times are nanoseconds of the store's clock. */
module StoresAgree {
  import opened Basics
  import opened Records
  import opened Lease
  import opened Backends
  import A = AbstractStore

  /** TryBegin is one attempt of Begin, which reads its clock some time after the store answered. */
  datatype Op =
    | TryBegin(key: Bytes, token: Bytes, fingerprint: Bytes, leaseTTL: Time, attempt: nat, readAfter: nat)
    | Persisting(key: Bytes, token: Bytes, payload: Bytes, recordTTL: Time)
    | Discarding(key: Bytes, token: Bytes)
    | Wait(d: nat)

  /** What the caller of Begin or Finish gets to see. */
  datatype Seen = Began(next: Next) | Finished(result: Result<bool, FinishError>) | Waited

  // ---------------------------------------------------------------- runs over a store

  /** The store, the time and what the caller saw after one call. */
  function Do(b: Backend, now: Time, op: Op): (Backend, Time, Seen) {
    match op
    case TryBegin(key, token, fp, ttl, attempt, delay) =>
      var (b', reply) := Reserve(b, Request(key, fp, token, now + ttl), now);
      (b', now + delay, Began(Judge(attempt, reply, now + delay, fp, token)))
    case Persisting(key, token, payload, ttl) =>
      var (b', answer) := Complete(b, key, token, payload, ttl, now);
      (b', now, Finished(Normalise(answer)))
    case Discarding(key, token) =>
      var (b', answer) := Release(b, key, token, now);
      (b', now, Finished(Normalise(answer)))
    case Wait(d) => (b, now + d, Waited)
  }

  function RunOn(b: Backend, now: Time, ops: seq<Op>): seq<Seen>
    decreases |ops|
  {
    if |ops| == 0 then [] else
      var (b', later, seen) := Do(b, now, ops[0]);
      [seen] + RunOn(b', later, ops[1..])
  }

  // ---------------------------------------------------------------- the abstract store at a grain

  /** The decision table of Begin, for a holder reported to last until `reported`. */
  function Decide(attempt: nat, holder: Option<A.Entry>, reported: Time, readAt: Time, fp: Bytes, token: Bytes): Next {
    match holder
    case None => Settled(Proceed(token))
    case Some(e) =>
      if reported <= readAt then
        if attempt < MAX_ATTEMPTS then Again else Broken(KeepsReturningExpired)
      else if e.Held? then Settled(RejectInFlight(reported - readAt))
      else if e.fingerprint == fp then Settled(Replay(e.payload))
      else Settled(RejectFingerprintMismatch)
  }

  /** Where the holder's deadline is, as the caller is told at `now`. */
  function ReportedUntil(g: A.Grain, holder: Option<A.Entry>, now: Time): Time {
    if holder.None? then now else now + A.Left(g, holder.value.until - now)
  }

  function DoAbstract(g: A.Grain, s: A.Entries, now: Time, op: Op): (A.Entries, Time, Seen) {
    match op
    case TryBegin(key, token, fp, ttl, attempt, delay) =>
      var (s', holder) := A.Claim(s, key, token, fp, now + A.GrantedTTL(g, ttl));
      (A.Prune(s', now + delay), now + delay,
       Began(Decide(attempt, holder, ReportedUntil(g, holder, now), now + delay, fp, token)))
    case Persisting(key, token, payload, ttl) =>
      var (s', effect) := A.Complete(s, key, token, payload, now + A.GrantedTTL(g, ttl));
      (s', now, Finished(Ok(!effect)))
    case Discarding(key, token) =>
      var (s', effect) := A.Release(s, key, token);
      (s', now, Finished(Ok(!effect)))
    case Wait(d) => (A.Prune(s, now + d), now + d, Waited)
  }

  function AbstractRun(g: A.Grain, s: A.Entries, now: Time, ops: seq<Op>): (run: seq<Seen>)
    ensures |run| == |ops|
    decreases |ops|
  {
    if |ops| == 0 then [] else
      var (s', later, seen) := DoAbstract(g, s, now, ops[0]);
      [seen] + AbstractRun(g, s', later, ops[1..])
  }

  // ---------------------------------------------------------------- each store is the abstract one at its grain

  /** What Begin and Finish ever ask for. */
  predicate Positive(op: Op) {
    match op
    case TryBegin(_, _, _, ttl, _, _) => ttl > 0
    case Persisting(_, _, _, ttl) => ttl > 0
    case _ => true
  }

  ghost predicate AllPositive(ops: seq<Op>) {
    forall i :: 0 <= i < |ops| ==> Positive(ops[i])
  }

  lemma DecideReported(g: A.Grain, key: Bytes, holder: Option<A.Entry>, now: Time, attempt: nat, readAt: Time,
                       fp: Bytes, token: Bytes)
    ensures Judge(attempt, ReplyFor(g, key, holder, now), readAt, fp, token)
         == Decide(attempt, holder, ReportedUntil(g, holder, now), readAt, fp, token)
  {
    hide A.Left;
  }

  lemma StepSimulates(b: Backend, now: Time, op: Op)
    requires WellFormed(b) && Positive(op)
    ensures var (b', later, seen) := Do(b, now, op);
            && WellFormed(b') && GrainOf(b') == GrainOf(b)
            && (View(b', later), later, seen) == DoAbstract(GrainOf(b), View(b, now), now, op)
  {
    hide Reserve, Complete, Release, View, WellFormed, A.Claim, A.Complete, A.Release, A.Prune, A.GrantedTTL, Judge,
      Decide, Essence, ReplyFor, ReportedUntil, GrainOf;
    match op
    case TryBegin(key, token, fp, ttl, attempt, delay) =>
      var rec := Request(key, fp, token, now + ttl);
      var (b', reply) := Reserve(b, rec, now);
      ReserveRefines(b, rec, now);
      ViewLater(b', now, now + delay);
      var (s', holder) := A.Claim(View(b, now), key, token, fp, now + A.GrantedTTL(GrainOf(b), ttl));
      A.PruneTwice(s', now, now + delay);
      EssenceDecides(key, reply, attempt, now + delay, fp, token);
      DecideReported(GrainOf(b), key, holder, now, attempt, now + delay, fp, token);
    case Persisting(key, token, payload, ttl) => CompleteRefines(b, key, token, payload, ttl, now);
    case Discarding(key, token) => ReleaseRefines(b, key, token, now);
    case Wait(d) => ViewLater(b, now, now + d);
  }

  /** From every well-formed state, for every sequence of attempts, finishes and waits with positive TTLs
      and at any timing: the caller sees exactly what the abstract store shows at the store's grain. */
  lemma {:induction false} StoreSimulates(b: Backend, now: Time, ops: seq<Op>)
    requires WellFormed(b) && AllPositive(ops)
    ensures RunOn(b, now, ops) == AbstractRun(GrainOf(b), View(b, now), now, ops)
    decreases |ops|
  {
    hide Do, DoAbstract, View, WellFormed, GrainOf;
    if |ops| > 0 {
      var (b', later, _) := Do(b, now, ops[0]);
      StepSimulates(b, now, ops[0]);
      StoreSimulates(b', later, ops[1..]);
    }
  }

  // ---------------------------------------------------------------- TTLs in whole milliseconds

  predicate Whole(d: Time) {
    d % MILLI == 0
  }

  predicate WholeTTL(op: Op) {
    match op
    case TryBegin(_, _, _, ttl, _, _) => Whole(ttl)
    case Persisting(_, _, _, ttl) => Whole(ttl)
    case _ => true
  }

  ghost predicate AllWholeTTLs(ops: seq<Op>) {
    forall i :: 0 <= i < |ops| ==> WholeTTL(ops[i])
  }

  /** The entries and the time after the calls, on a store that keeps time exactly. */
  function StateAfter(s: A.Entries, now: Time, ops: seq<Op>): (A.Entries, Time)
    decreases |ops|
  {
    if |ops| == 0 then (s, now) else
      var (s', later, _) := DoAbstract(A.Exact, s, now, ops[0]);
      StateAfter(s', later, ops[1..])
  }

  /** With such TTLs the grain never shows in what the store holds. */
  lemma GrainKeepsState(g: A.Grain, s: A.Entries, now: Time, op: Op)
    requires Positive(op) && WholeTTL(op)
    ensures DoAbstract(g, s, now, op).0 == DoAbstract(A.Exact, s, now, op).0
    ensures DoAbstract(g, s, now, op).1 == DoAbstract(A.Exact, s, now, op).1
  {
    hide A.Prune, Millis;
  }

  /** The k-th call sees the state the earlier ones leave on an exact store, at its own grain. */
  lemma {:induction false} SeenAt(g: A.Grain, s: A.Entries, now: Time, ops: seq<Op>, k: nat)
    requires AllPositive(ops) && AllWholeTTLs(ops) && k < |ops|
    ensures var (before, at) := StateAfter(s, now, ops[..k]);
            AbstractRun(g, s, now, ops)[k] == DoAbstract(g, before, at, ops[k]).2
    decreases |ops|
  {
    hide DoAbstract;
    GrainKeepsState(g, s, now, ops[0]);
    var (s', later, seen) := DoAbstract(g, s, now, ops[0]);
    if k > 0 {
      assert ops[..k][0] == ops[0] && ops[..k][1..] == ops[1..][..k - 1];
      SeenAt(g, s', later, ops[1..], k - 1);
    }
  }

  /** The same kind of answer; only a retryAfter may differ. */
  predicate Alike(a: Next, b: Next) {
    if a.Settled? && a.outcome.RejectInFlight? then b.Settled? && b.outcome.RejectInFlight? else a == b
  }

  /** The condition, for the attempt made on entries s at `now`: its reading does not fall between the
      deadline the store reports for the holder and the real one. */
  predicate ReadClear(g: A.Grain, s: A.Entries, now: Time, op: Op)
    requires op.TryBegin?
  {
    op.key in s ==>
      var until := s[op.key].until;
      now + A.Left(g, until - now) <= now + op.readAfter <==> until <= now + op.readAfter
  }

  /** A reading a millisecond or more away from the real deadline is clear of it on every store. */
  lemma ClearAwayFromDeadline(g: A.Grain, s: A.Entries, now: Time, op: Op)
    requires op.TryBegin? && op.key in s
    requires var readAt := now + op.readAfter; s[op.key].until <= readAt - MILLI || readAt + MILLI <= s[op.key].until
    ensures ReadClear(g, s, now, op)
  {
    hide A.Left;
  }

  /** What the store's grain can and cannot change about one attempt. */
  lemma AttemptAtGrain(g: A.Grain, s: A.Entries, now: Time, op: Op)
    requires op.TryBegin? && Positive(op) && WholeTTL(op)
    ensures var mine, exact := DoAbstract(g, s, now, op).2.next, DoAbstract(A.Exact, s, now, op).2.next;
            && (op.key !in s <==> mine == Settled(Proceed(op.token)))
            && (op.key !in s <==> exact == Settled(Proceed(op.token)))
            && (Alike(mine, exact) <==> ReadClear(g, s, now, op))
            && (mine.Settled? && mine.outcome.RejectInFlight? && Alike(mine, exact) ==>
                  -MILLI < mine.outcome.retryAfter - exact.outcome.retryAfter <= A.Slack(g))
  {
    hide A.GrantedTTL, A.Prune, FloorMs, NearestMs;
  }

  /** For TTLs in whole milliseconds, at any timing, on any of the three stores compared with one that
      keeps time exactly: every Finish gives the same answer and every claim is the same; an attempt that
      meets a holder gets the same kind of answer, with retryAfter off by less than a millisecond,
      exactly if it is not read between the reported deadline and the real one. */
  lemma AgreeAtAnyTiming(b: Backend, now: Time, ops: seq<Op>, k: nat)
    requires WellFormed(b) && AllPositive(ops) && AllWholeTTLs(ops) && k < |ops|
    ensures |RunOn(b, now, ops)| == |ops|
    ensures var s := View(b, now);
            var (before, at) := StateAfter(s, now, ops[..k]);
            var mine, exact := RunOn(b, now, ops)[k], AbstractRun(A.Exact, s, now, ops)[k];
            && (!ops[k].TryBegin? ==> mine == exact)
            && (ops[k].TryBegin? ==>
                  var op := ops[k];
                  && mine.Began? && exact.Began?
                  && (op.key !in before <==> mine.next == Settled(Proceed(op.token)))
                  && (op.key !in before <==> exact.next == Settled(Proceed(op.token)))
                  && (Alike(mine.next, exact.next) <==> ReadClear(GrainOf(b), before, at, op))
                  && (mine.next.Settled? && mine.next.outcome.RejectInFlight? && Alike(mine.next, exact.next) ==>
                        var off := mine.next.outcome.retryAfter - exact.next.outcome.retryAfter;
                        -MILLI < off <= A.Slack(GrainOf(b))))
  {
    hide RunOn, AbstractRun, View, WellFormed, GrainOf, ReadClear, Alike, StateAfter, A.Slack;
    StoreSimulates(b, now, ops);
    var s := View(b, now);
    SeenAt(GrainOf(b), s, now, ops, k);
    SeenAt(A.Exact, s, now, ops, k);
    var (before, at) := StateAfter(s, now, ops[..k]);
    assert Positive(ops[k]) && WholeTTL(ops[k]);
    if ops[k].TryBegin? {
      AttemptAtGrain(GrainOf(b), before, at, ops[k]);
    } else {
      SameFinish(GrainOf(b), before, at, ops[k]);
    }
  }

  lemma SameFinish(g: A.Grain, s: A.Entries, now: Time, op: Op)
    requires !op.TryBegin?
    ensures DoAbstract(g, s, now, op).2 == DoAbstract(A.Exact, s, now, op).2
  {
  }

  // ---------------------------------------------------------------- delays in whole milliseconds as well

  predicate WholeMs(op: Op) {
    WholeTTL(op)
    && match op
       case TryBegin(_, _, _, _, _, delay) => Whole(delay)
       case Wait(d) => Whole(d)
       case _ => true
  }

  ghost predicate AllWholeMs(ops: seq<Op>) {
    forall i :: 0 <= i < |ops| ==> WholeMs(ops[i])
  }

  /** Every deadline is a whole number of milliseconds away. */
  ghost predicate Aligned(s: A.Entries, now: Time) {
    forall key :: key in s ==> Whole(s[key].until - now)
  }

  lemma WholeSum(a: Time, b: Time)
    requires Whole(a) && Whole(b)
    ensures Whole(a - b)
  {
  }

  lemma AlignedLater(s: A.Entries, now: Time, d: nat)
    requires Aligned(s, now) && Whole(d)
    ensures Aligned(A.Prune(s, now + d), now + d)
  {
    forall key | key in s ensures Whole(s[key].until - (now + d)) {
      WholeSum(s[key].until - now, d);
    }
  }

  lemma StepAligned(s: A.Entries, now: Time, op: Op)
    requires Aligned(s, now) && WholeMs(op) && Positive(op)
    ensures var (s', later, _) := DoAbstract(A.Exact, s, now, op); Aligned(s', later)
  {
    hide A.Prune;
    match op
    case TryBegin(key, token, fp, ttl, _, delay) =>
      AlignedLater(A.Claim(s, key, token, fp, now + ttl).0, now, delay);
    case Wait(d) => AlignedLater(s, now, d);
    case _ =>
  }

  lemma {:induction false} AlignedRun(g: A.Grain, s: A.Entries, now: Time, ops: seq<Op>)
    requires Aligned(s, now) && AllPositive(ops) && AllWholeMs(ops)
    ensures AbstractRun(g, s, now, ops) == AbstractRun(A.Exact, s, now, ops)
    decreases |ops|
  {
    hide DoAbstract, Aligned;
    if |ops| > 0 {
      assert Positive(ops[0]) && WholeMs(ops[0]);
      GrainKeepsState(g, s, now, ops[0]);
      StepAligned(s, now, ops[0]);
      SeenAligned(g, s, now, ops[0]);
      var (s', later, _) := DoAbstract(g, s, now, ops[0]);
      AlignedRun(g, s', later, ops[1..]);
    }
  }

  lemma SeenAligned(g: A.Grain, s: A.Entries, now: Time, op: Op)
    requires Aligned(s, now)
    ensures DoAbstract(g, s, now, op).2 == DoAbstract(A.Exact, s, now, op).2
  {
    hide A.Prune, A.GrantedTTL;
  }

  /** Starting empty, the three stores answer every sequence of attempts, finishes and waits alike if TTLs
      and delays are whole milliseconds, and as an exact store does; and if only the TTLs are, they still
      give the same answers to every Finish and make the same claims. */
  lemma ThreeStoresAgree(b: Backend, now: Time, ops: seq<Op>)
    requires Empty(b) && AllPositive(ops)
    ensures AllWholeMs(ops) ==> RunOn(b, now, ops) == AbstractRun(A.Exact, map[], now, ops)
    ensures AllWholeTTLs(ops) ==>
              var mine, exact := RunOn(b, now, ops), AbstractRun(A.Exact, map[], now, ops);
              |mine| == |ops| && forall k :: 0 <= k < |ops| ==> SameEffect(ops[k], mine[k], exact[k])
  {
    hide RunOn, AbstractRun, View, WellFormed, GrainOf, ReadClear, Alike, StateAfter, A.Slack;
    EmptyView(b, now);
    StoreSimulates(b, now, ops);
    if AllWholeMs(ops) {
      AlignedRun(GrainOf(b), map[], now, ops);
    }
    if AllWholeTTLs(ops) {
      var mine, exact := RunOn(b, now, ops), AbstractRun(A.Exact, map[], now, ops);
      AgreeLength(b, now, ops);
      forall k | 0 <= k < |ops| ensures SameEffect(ops[k], mine[k], exact[k]) {
        AgreeAtAnyTiming(b, now, ops, k);
      }
    }
  }

  lemma AgreeLength(b: Backend, now: Time, ops: seq<Op>)
    requires WellFormed(b) && AllPositive(ops)
    ensures |RunOn(b, now, ops)| == |ops|
  {
    StoreSimulates(b, now, ops);
  }

  /** The same answer to a Finish, and the same claim by an attempt. */
  predicate SameEffect(op: Op, a: Seen, b: Seen) {
    if op.TryBegin? then a == Began(Settled(Proceed(op.token))) <==> b == Began(Settled(Proceed(op.token)))
    else a == b
  }

  // ---------------------------------------------------------------- where they part

  /** A second Begin some time after a first one that asked for a lease of ttl. */
  function TwoBegins(key: Bytes, t1: Bytes, t2: Bytes, fp: Bytes, ttl: Time, wait: nat): seq<Op> {
    [TryBegin(key, t1, fp, ttl, 1, 0), Wait(wait), TryBegin(key, t2, fp, MILLI, 1, 0)]
  }

  /** What both see if the lease really granted is `kept` and reads back as `left`. */
  function BothSee(t1: Bytes, t2: Bytes, kept: Time, wait: nat, left: Time): seq<Seen> {
    [Began(Settled(Proceed(t1))), Waited,
     Began(if wait >= kept then Settled(Proceed(t2))
           else if left <= 0 then Again
           else Settled(RejectInFlight(left)))]
  }

  lemma TwoBeginsSee(b: Backend, now: Time, key: Bytes, t1: Bytes, t2: Bytes, fp: Bytes, ttl: Time, wait: nat)
    requires Empty(b) && ttl > 0
    ensures var g := GrainOf(b);
            var kept := A.GrantedTTL(g, ttl);
            RunOn(b, now, TwoBegins(key, t1, t2, fp, ttl, wait)) == BothSee(t1, t2, kept, wait, A.Left(g, kept - wait))
  {
    hide A.GrantedTTL, A.Left, RunOn;
    var g, ops := GrainOf(b), TwoBegins(key, t1, t2, fp, ttl, wait);
    var kept := A.GrantedTTL(g, ttl);
    EmptyView(b, now);
    StoreSimulates(b, now, ops);
    assert ops[1..] == [ops[1], ops[2]] && ops[1..][1..] == [ops[2]] && [ops[2]][1..] == [];
    var held: A.Entries := map[key := A.Held(t1, fp, now + kept)];
    assert kept > 0;
    A.PruneLive(held, now);
    var empty: A.Entries := map[];
    assert empty[key := A.Held(t1, fp, now + kept)] == held;
    assert DoAbstract(g, map[], now, ops[0]) == (held, now, Began(Settled(Proceed(t1))));
    var (s, later, _) := DoAbstract(g, held, now, ops[1]);
    assert s == if wait >= kept then map[] else held;
    var (s', _, seen) := DoAbstract(g, s, later, ops[2]);
    assert AbstractRun(g, s, later, [ops[2]]) == [seen];
    assert AbstractRun(g, held, now, ops[1..]) == [Waited, seen];
    assert AbstractRun(g, map[], now, ops) == [Began(Settled(Proceed(t1))), Waited, seen];
  }

  /** Where they part: after a Begin with a lease of ttl, a second one meets the same answer on all three
      stores exactly if the lease is over on all of them, or the TTL and the wait are whole milliseconds.
      The second one claims on some stores only exactly while the lease asked for and the lease cut or
      clamped to whole milliseconds disagree. */
  lemma ClampTellsStoresApart(now: Time, key: Bytes, t1: Bytes, t2: Bytes, fp: Bytes, ttl: Time, wait: nat)
    requires ttl > 0
    ensures var ops := TwoBegins(key, t1, t2, fp, ttl, wait);
            var mem := RunOn(Memory(map[]), now, ops);
            var redis := RunOn(Keyspace(map[]), now, ops);
            var pg := RunOn(Table(map[]), now, ops);
            var kept := MILLI * Millis(ttl);
            && (mem == redis == pg <==> wait >= Max(ttl, kept) || (Whole(ttl) && Whole(wait)))
            && |mem| == |redis| == |pg| == 3
            && (redis[2] == Began(Settled(Proceed(t2))) <==> pg[2] == Began(Settled(Proceed(t2))))
            && ((mem[2] == Began(Settled(Proceed(t2)))) == (redis[2] == Began(Settled(Proceed(t2))))
                <==> !(ttl <= wait < kept || kept <= wait < ttl))
  {
    hide RunOn, TwoBegins;
    TwoBeginsSee(Memory(map[]), now, key, t1, t2, fp, ttl, wait);
    TwoBeginsSee(Keyspace(map[]), now, key, t1, t2, fp, ttl, wait);
    TwoBeginsSee(Table(map[]), now, key, t1, t2, fp, ttl, wait);
  }
}
