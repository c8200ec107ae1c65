/** What each caller of the protocol is told and given: how long claims and results last, and every answer
    of Begin, whatever others do in between. */
module ProtocolAnswers {
  import opened Basics
  import opened Records
  import opened Lease
  import opened AbstractStore
  import opened Protocol
  import opened ProtocolProofs

  /** The action is one of the execution's own. */
  predicate Acts(a: Action, token: Bytes) {
    !a.Tick? && a.token == token
  }

  ghost predicate ByOthers(run: seq<Action>, token: Bytes) {
    forall i :: 0 <= i < |run| ==> !Acts(run[i], token)
  }

  lemma {:induction false} OthersKeepExec(s: System, run: seq<Action>, token: Bytes)
    requires Possible(s, run) && ByOthers(run, token) && token in s.execs
    ensures token in After(s, run).execs && After(s, run).execs[token] == s.execs[token]
    ensures After(s, run).grain == s.grain && s.now <= After(s, run).now
    decreases |run|
  {
    hide Apply, Enabled;
    if |run| > 0 {
      assert !Acts(run[0], token);
      OtherKeepsExec(s, run[0], token);
      assert forall i :: 0 <= i < |run| - 1 ==> run[1..][i] == run[i + 1];
      OthersKeepExec(Apply(s, run[0]), run[1..], token);
    }
  }

  lemma OtherKeepsExec(s: System, a: Action, token: Bytes)
    requires Enabled(s, a) && !Acts(a, token) && token in s.execs
    ensures var s' := Apply(s, a);
            token in s'.execs && s'.execs[token] == s.execs[token] && s'.grain == s.grain && s.now <= s'.now
  {
  }

  // ---------------------------------------------------------------- how long a lease lasts

  /** The execution gets ready to call Reserve: it has just begun, or has just been told to ask again. */
  predicate GetsReady(s: System, a: Action, token: Bytes)
    requires Enabled(s, a)
  {
    && Acts(a, token) && token in Apply(s, a).execs && Apply(s, a).execs[token].phase.Asking?
    && (token !in s.execs || !s.execs[token].phase.Asking?)
  }

  /** A lease lasts for the lease TTL of its own execution, counted from the instant it got ready to ask
      for it, as the store grants it; an execution keeps the key, fingerprint and options it began with. */
  lemma LeaseLastsAsAsked(s: System, a: Action, token: Bytes, run: seq<Action>, fate: Fate)
    requires Enabled(s, a) && GetsReady(s, a, token) && !fate.LostBefore?
    requires Possible(Apply(s, a), run) && ByOthers(run, token)
    ensures var e := Apply(s, a).execs[token];
            var s' := After(Apply(s, a), run);
            && (a.Start? ==> e.key == a.key && e.fingerprint == a.fingerprint && e.options == a.options)
            && (token in s.execs ==>
                  var was := s.execs[token];
                  e.key == was.key && e.fingerprint == was.fingerprint && e.options == was.options)
            && Enabled(s', Ask(token, fate))
            && var until := Granted(s.grain, s.now + e.options.Effective().leaseTTL, s'.now);
               var log := Apply(s', Ask(token, fate)).log;
               log == if e.key in s'.store then s'.log
                      else s'.log + [Took(token, e.key, e.fingerprint, s'.now, until)]
  {
    hide GetsReady, Granted, After, Possible;
    ReadyUntil(s, a, token);
    hide Apply;
    OthersKeepExec(Apply(s, a), run, token);
    AskLogs(After(Apply(s, a), run), token, fate);
  }

  lemma ReadyUntil(s: System, a: Action, token: Bytes)
    requires Enabled(s, a) && GetsReady(s, a, token)
    ensures token in Apply(s, a).execs
    ensures var e := Apply(s, a).execs[token];
            && e.phase.Asking? && e.phase.until == s.now + e.options.Effective().leaseTTL
            && Apply(s, a).grain == s.grain
            && (a.Start? ==> e.key == a.key && e.fingerprint == a.fingerprint && e.options == a.options)
            && (token in s.execs ==>
                  var was := s.execs[token];
                  e.key == was.key && e.fingerprint == was.fingerprint && e.options == was.options)
  {
  }

  lemma AskLogs(s: System, token: Bytes, fate: Fate)
    requires Enabled(s, Ask(token, fate)) && !fate.LostBefore?
    ensures var e := s.execs[token];
            Apply(s, Ask(token, fate)).log
              == if e.key in s.store then s.log
                 else s.log + [Took(token, e.key, e.fingerprint, s.now, Granted(s.grain, e.phase.until, s.now))]
  {
  }

  // ---------------------------------------------------------------- how long a result lasts

  lemma {:induction false} ResultStays(s: System, run: seq<Action>, key: Bytes)
    requires Possible(s, run) && key in s.store && s.store[key].Done? && After(s, run).now < s.store[key].until
    ensures key in After(s, run).store && After(s, run).store[key] == s.store[key]
    decreases |run|
  {
    hide Apply, Enabled;
    if |run| > 0 {
      ClockRuns(Apply(s, run[0]), run[1..]);
      ResultStep(s, run[0], key);
      ResultStays(Apply(s, run[0]), run[1..], key);
    }
  }

  lemma ResultStep(s: System, a: Action, key: Bytes)
    requires Enabled(s, a) && key in s.store && s.store[key].Done? && Apply(s, a).now < s.store[key].until
    ensures key in Apply(s, a).store && Apply(s, a).store[key] == s.store[key]
  {
  }

  lemma {:induction false} ClockRuns(s: System, run: seq<Action>)
    requires Possible(s, run)
    ensures s.now <= After(s, run).now
    decreases |run|
  {
    hide Apply, Enabled;
    if |run| > 0 {
      ClockStep(s, run[0]);
      ClockRuns(Apply(s, run[0]), run[1..]);
    }
  }

  lemma ClockStep(s: System, a: Action)
    requires Enabled(s, a)
    ensures s.now <= Apply(s, a).now
  {
  }

  /** A Persist that reaches the store while its token holds the key keeps exactly its payload, under the
      fingerprint its Begin carried, for the record TTL of its own execution as the store grants it,
      whatever others do meanwhile and whether or not its answer is lost. */
  lemma ResultLastsAsAsked(s0: System, before: seq<Action>, token: Bytes, payload: Bytes, fate: Fate, run: seq<Action>)
    requires Initial(s0) && Possible(s0, before) && !fate.LostBefore?
    requires Enabled(After(s0, before), End(token, Persist, payload, fate))
    requires Possible(Apply(After(s0, before), End(token, Persist, payload, fate)), run)
    ensures var s := After(s0, before);
            var e := s.execs[token];
            var s1 := Apply(s, End(token, Persist, payload, fate));
            var until := s.now + GrantedTTL(s.grain, e.options.Effective().recordTTL);
            HeldBy(s.store, e.key, token) ==>
              && s1.log == s.log + [Kept(token, e.key, payload, s.now, until)]
              && (After(s1, run).now < until ==>
                    && e.key in After(s1, run).store
                    && After(s1, run).store[e.key] == Done(token, e.fingerprint, payload, until))
  {
    hide Possible, After, CoreInv, Sourced;
    InvAlways(s0, before);
    var s := After(s0, before);
    var e := s.execs[token];
    if HeldBy(s.store, e.key, token) {
      HolderCarriesItsFingerprint(s, token);
      var s1 := Apply(s, End(token, Persist, payload, fate));
      if After(s1, run).now < s1.store[e.key].until {
        ResultStays(s1, run, e.key);
      }
    }
  }

  lemma HolderCarriesItsFingerprint(s: System, token: Bytes)
    requires Inv(s) && token in s.execs && HeldBy(s.store, s.execs[token].key, token)
    ensures s.store[s.execs[token].key].fingerprint == s.execs[token].fingerprint
  {
    var took := HolderTook(s.store, s.log, s.execs[token].key);
  }

  /** A Discard that reaches the store while its token holds the key frees the key and touches no other. */
  lemma DiscardFrees(s: System, token: Bytes, payload: Bytes, fate: Fate)
    requires Enabled(s, End(token, Discard, payload, fate)) && !fate.LostBefore?
    ensures var key := s.execs[token].key;
            var s' := Apply(s, End(token, Discard, payload, fate));
            HeldBy(s.store, key, token) ==>
              && s'.log == s.log + [Freed(token, key, s.now)] && key !in s'.store
              && (forall k :: k != key ==> (k in s'.store <==> k in s.store))
              && (forall k :: k in s'.store ==> s'.store[k] == s.store[k])
  {
  }

  // ---------------------------------------------------------------- what Begin answers

  /** Every answer of Begin, by who held the key when the attempt reached the store and by the instant the
      reply is read, whatever others do in between. */
  lemma BeginAnswers(s: System, token: Bytes, fate: Fate, run: seq<Action>)
    requires Enabled(s, Ask(token, fate))
    requires Possible(Apply(s, Ask(token, fate)), run) && ByOthers(run, token)
    ensures var e := s.execs[token];
            var s' := After(Apply(s, Ask(token, fate)), run);
            && Enabled(s', Read(token))
            && var phase, log := Apply(s', Read(token)).execs[token].phase, Apply(s', Read(token)).log;
               if fate != Answered then phase == Over(Err(StoreFailure)) && log == s'.log
               else if e.key !in s.store then phase == Working && log == s'.log
               else
                 var holder := s.store[e.key];
                 var reported := s.now + Left(s.grain, holder.until - s.now);
                 if reported <= s'.now then
                   && log == s'.log
                   && phase == if e.phase.attempt < 3
                               then Asking(e.phase.attempt + 1, s'.now + e.options.Effective().leaseTTL)
                               else Over(Err(KeepsReturningExpired))
                 else if holder.Held? then phase == Over(Ok(RejectInFlight(reported - s'.now))) && log == s'.log
                 else if holder.fingerprint != e.fingerprint then
                   phase == Over(Ok(RejectFingerprintMismatch)) && log == s'.log
                 else
                   && phase == Over(Ok(Replay(holder.payload)))
                   && log == s'.log + [Replayed(token, e.key, e.fingerprint, holder.payload, s'.now)]
  {
    hide Left;
    OthersKeepExec(Apply(s, Ask(token, fate)), run, token);
  }

  // ---------------------------------------------------------------- a run with everything in it

  lemma OneStep(s: System, a: Action, s': System, rest: seq<Action>)
    requires Enabled(s, a) && Apply(s, a) == s' && Possible(s', rest)
    ensures Possible(s, [a] + rest) && After(s, [a] + rest) == After(s', rest)
  {
    assert ([a] + rest)[1..] == rest;
  }

  lemma NoStep(s: System)
    ensures Possible(s, []) && After(s, []) == s
  {
  }

  /** One execution claims its key and persists a result, though the answer gets lost; a second one, with
      the same fingerprint, is told to replay it. */
  lemma AReplayIsPossible(g: Grain, key: Bytes, fp: Bytes, payload: Bytes, t1: Bytes, t2: Bytes)
    requires t1 != t2
    ensures exists run :: Possible(System(g, 0, map[], map[], []), run)
              && var log := After(System(g, 0, map[], map[], []), run).log;
                 && |log| == 3 && log[0].Took? && log[0].token == t1
                 && log[1].Kept? && log[1].token == t1 && log[1].payload == payload
                 && log[2] == Replayed(t2, key, fp, payload, 0)
  {
    hide Possible, After, GrantedTTL, Granted;
    var s := System(g, 0, map[], map[], []);
    var rest := SecondReplays(g, key, fp, payload, t1, t2);
    var a0, a1, a2 := Start(t1, key, fp, Options(0, 0)), Ask(t1, Answered), Read(t1);
    var a3 := End(t1, Persist, payload, LostAfter);
    var s1 := Apply(s, a0);
    var s2 := Apply(s1, a1);
    var s3 := Apply(s2, a2);
    FirstPersists(g, key, fp, payload, t1);
    OneStep(s3, a3, Persisted(g, key, fp, payload, t1), rest);
    OneStep(s2, a2, s3, [a3] + rest);
    OneStep(s1, a1, s2, [a2] + ([a3] + rest));
    OneStep(s, a0, s1, [a1] + ([a2] + ([a3] + rest)));
  }

  lemma FirstPersists(g: Grain, key: Bytes, fp: Bytes, payload: Bytes, token: Bytes)
    ensures var s1 := Apply(System(g, 0, map[], map[], []), Start(token, key, fp, Options(0, 0)));
            && Enabled(s1, Ask(token, Answered))
            && var s2 := Apply(s1, Ask(token, Answered));
               && Enabled(s2, Read(token))
               && var s3 := Apply(s2, Read(token));
                  && Enabled(s3, End(token, Persist, payload, LostAfter))
                  && Apply(s3, End(token, Persist, payload, LostAfter)) == Persisted(g, key, fp, payload, token)
  {
  }

  /** Where the first execution leaves things. */
  function Persisted(g: Grain, key: Bytes, fp: Bytes, payload: Bytes, token: Bytes): System {
    var lease := GrantedTTL(g, 30_000_000_000);
    var until := GrantedTTL(g, 86_400_000_000_000);
    System(g, 0, map[key := Done(token, fp, payload, until)],
           map[token := Exec(key, fp, Options(0, 0), Working)],
           [Took(token, key, fp, 0, lease), Kept(token, key, payload, 0, until)])
  }

  lemma SecondReplays(g: Grain, key: Bytes, fp: Bytes, payload: Bytes, t1: Bytes, t2: Bytes) returns (run: seq<Action>)
    requires t1 != t2
    ensures var s := Persisted(g, key, fp, payload, t1);
            Possible(s, run) && After(s, run).log == s.log + [Replayed(t2, key, fp, payload, 0)]
  {
    hide Possible, After;
    var s0 := Persisted(g, key, fp, payload, t1);
    var b0, b1, b2 := Start(t2, key, fp, Options(0, 0)), Ask(t2, Answered), Read(t2);
    var s1 := Apply(s0, b0);
    hide Persisted;
    var s2 := Apply(s1, b1);
    NoStep(s2);
    BeginAnswers(s1, t2, Answered, []);
    LastsADay(g, key, fp, payload, t1);
    var s3 := Apply(s2, b2);
    NoStep(s3);
    OneStep(s2, b2, s3, []);
    OneStep(s1, b1, s2, [b2] + []);
    OneStep(s0, b0, s1, [b1] + ([b2] + []));
    run := [b0] + ([b1] + ([b2] + []));
  }

  lemma LastsADay(g: Grain, key: Bytes, fp: Bytes, payload: Bytes, token: Bytes)
    ensures var s := Persisted(g, key, fp, payload, token);
            && s.now == 0 && s.grain == g && key in s.store && s.store[key].Done? && s.store[key].fingerprint == fp
            && s.store[key].payload == payload && Left(g, s.store[key].until) > 0
  {
  }
}
