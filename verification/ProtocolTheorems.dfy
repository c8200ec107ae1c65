/** What the lease protocol guarantees in every run. */
module ProtocolTheorems {
  import opened Basics
  import opened Records
  import opened Lease
  import opened AbstractStore
  import opened Protocol
  import opened ProtocolProofs

  // ---------------------------------------------------------------- at most one lease at a time

  /** Instant t lies in the lease window opened by event i: from the claim until the lease deadline
      or the Finish that took effect, whichever comes first. */
  ghost predicate InWindow(log: seq<Event>, i: nat, t: Time)
    requires i < |log| && log[i].Took?
  {
    log[i].at <= t < log[i].until && forall m :: 0 <= m < |log| && Ends(log[m], log[i].token) ==> t < log[m].at
  }

  /** The windows of two claims on one key never overlap, in any run, whoever finishes late or never
      and whatever replies get lost. */
  lemma LeasesNeverOverlap(s: System, run: seq<Action>, i: nat, j: nat, t: Time)
    requires Initial(s) && Possible(s, run)
    ensures var log := After(s, run).log;
            i < |log| && j < |log| && i != j && log[i].Took? && log[j].Took? && log[i].key == log[j].key ==>
              log[i].token != log[j].token && !(InWindow(log, i, t) && InWindow(log, j, t))
  {
    InvAlways(s, run);
    var log := After(s, run).log;
    if i < |log| && j < |log| && i != j && log[i].Took? && log[j].Took? && log[i].key == log[j].key {
      WindowsApart(log, i, j, t);
    }
  }

  lemma WindowsApart(log: seq<Event>, i: nat, j: nat, t: Time)
    requires Once(log) && Exclusive(log) && i < |log| && j < |log| && i != j
    requires log[i].Took? && log[j].Took? && log[i].key == log[j].key
    ensures log[i].token != log[j].token && !(InWindow(log, i, t) && InWindow(log, j, t))
  {
    if i < j {
      assert Shut(log, i, j, log[j].at);
    } else {
      assert Shut(log, j, i, log[i].at);
    }
  }

  /** The window of a lease is when the store shows it: right now it is open exactly if the store holds the
      key for that token. */
  lemma WindowIsWhatTheStoreShows(s: System, run: seq<Action>, i: nat)
    requires Initial(s) && Possible(s, run)
    requires i < |After(s, run).log| && After(s, run).log[i].Took?
    ensures var s' := After(s, run);
            var took := s'.log[i];
            InWindow(s'.log, i, s'.now) <==> HeldBy(s'.store, took.key, took.token)
  {
    InvAlways(s, run);
    var s' := After(s, run);
    if InWindow(s'.log, i, s'.now) {
      OpenWindowIsShown(s', i);
    }
    if HeldBy(s'.store, s'.log[i].key, s'.log[i].token) {
      ShownIsOpenWindow(s', i);
    }
  }

  lemma OpenWindowIsShown(s: System, i: nat)
    requires Inv(s) && i < |s.log| && s.log[i].Took? && InWindow(s.log, i, s.now)
    ensures HeldBy(s.store, s.log[i].key, s.log[i].token)
  {
    hide Owned, Sourced, Once, Timely, Exclusive, Backed;
    var took := s.log[i];
    assert took in s.log;
    forall m | 0 <= m < |s.log| ensures !Ends(s.log[m], took.token) {
      assert s.log[m] in s.log;
    }
    assert !Closed(s.log, took.token);
    assert Shown(s.store, s.log, took);
  }

  lemma ShownIsOpenWindow(s: System, i: nat)
    requires Inv(s) && i < |s.log| && s.log[i].Took? && HeldBy(s.store, s.log[i].key, s.log[i].token)
    ensures InWindow(s.log, i, s.now)
  {
    hide Owned, Sourced, Timely, Exclusive, Guarded;
    var took := s.log[i];
    var own := HolderTook(s.store, s.log, took.key);
    assert took in s.log;
    SameTake(s.log, own, took);
    NotYetClosed(s.log, took.token);
  }

  lemma SameTake(log: seq<Event>, a: Event, b: Event)
    requires Once(log) && a in log && b in log && a.Took? && b.Took? && a.token == b.token
    ensures a == b
  {
  }

  /** An execution that was told to proceed did claim its key, once; and while a result is valid its
      key is not claimed by anyone. */
  lemma ProceedMeansClaimed(s: System, run: seq<Action>, token: Bytes)
    requires Initial(s) && Possible(s, run)
    ensures var s' := After(s, run);
            token in s'.execs && s'.execs[token].phase.Working? ==>
              exists i :: 0 <= i < |s'.log| && s'.log[i].Took? && s'.log[i].token == token
                       && s'.log[i].key == s'.execs[token].key
    ensures var log := After(s, run).log;
            forall i, j :: 0 <= i < j < |log| && log[i].Kept? && log[j].Took? && log[i].key == log[j].key ==>
              log[i].until <= log[j].at
  {
    InvAlways(s, run);
    var s' := After(s, run);
    if token in s'.execs && s'.execs[token].phase.Working? {
      assert OwnedPhase(s'.log, token, s'.execs[token].phase);
      var e :| e in s'.log && e.Took? && e.token == token;
      var i :| 0 <= i < |s'.log| && s'.log[i] == e;
      assert s'.log[i].Took? && s'.log[i].token == token && s'.log[i].key == s'.execs[token].key;
    }
  }

  // ---------------------------------------------------------------- replay provenance

  /** Every replay serves exactly the payload of an earlier Persist that took effect, under the same
      key, by an execution that began with the same fingerprint, before that record expired; a store that
      rounds the remaining time to the nearest millisecond may add half a millisecond to its life. */
  lemma ReplayProvenance(s: System, run: seq<Action>, i: nat)
    requires Initial(s) && Possible(s, run)
    ensures var log := After(s, run).log;
            i < |log| && log[i].Replayed? ==>
              exists c, k :: 0 <= c < i && 0 <= k < i && log[c].Kept? && log[k].Took?
                && log[c].token == log[k].token && log[c].key == log[k].key == log[i].key
                && log[c].payload == log[i].payload && log[k].fingerprint == log[i].fingerprint
                && log[c].at <= log[i].at < log[c].until + Slack(s.grain)
  {
    hide CoreInv, Owned, SourcedReplay, Initial;
    InvAlways(s, run);
    LogIsTimed(s, run);
    var log := After(s, run).log;
    if i < |log| && log[i].Replayed? {
      GrainStays(s, run);
      var c, k := KeptBefore(s.grain, log, i);
    }
  }

  lemma KeptBefore(g: Grain, log: seq<Event>, i: nat) returns (c: nat, k: nat)
    requires i < |log| && log[i].Replayed? && SourcedReplay(g, log, i)
    requires forall a :: 0 <= a < i ==> log[a].at <= log[i].at
    ensures c < i && k < i && log[c].Kept? && log[k].Took?
    ensures log[c].token == log[k].token && log[c].key == log[k].key == log[i].key
    ensures log[c].payload == log[i].payload && log[k].fingerprint == log[i].fingerprint
    ensures log[c].at <= log[i].at < log[c].until + Slack(g)
  {
    var e, prefix := log[i], log[..i];
    var until :| Source(prefix, e.key, e.fingerprint, e.payload, until) && e.at < until + Slack(g);
    var kept, took :| kept in prefix && took in prefix
      && SourcePair(kept, took, e.key, e.fingerprint, e.payload, until);
    c :| 0 <= c < i && prefix[c] == kept;
    k :| 0 <= k < i && prefix[k] == took;
  }

  lemma {:induction false} GrainStays(s: System, run: seq<Action>)
    requires Possible(s, run)
    ensures After(s, run).grain == s.grain
    decreases |run|
  {
    if |run| > 0 {
      GrainStays(Apply(s, run[0]), run[1..]);
    }
  }

  ghost predicate Timed(s: System) {
    && (forall i, j :: 0 <= i < j < |s.log| ==> s.log[i].at <= s.log[j].at)
    && (forall i :: 0 <= i < |s.log| ==> s.log[i].at <= s.now)
  }

  lemma {:induction false} RunKeepsTimed(s: System, run: seq<Action>)
    requires Timed(s) && Possible(s, run)
    ensures Timed(After(s, run))
    decreases |run|
  {
    if |run| > 0 {
      StepLogs(s, run[0]);
      RunKeepsTimed(Apply(s, run[0]), run[1..]);
    }
  }

  /** A step logs at most one event, stamped with the clock, which never goes back. */
  lemma StepLogs(s: System, a: Action)
    requires Enabled(s, a)
    ensures var s' := Apply(s, a);
            && s.now <= s'.now && s.log <= s'.log && |s'.log| <= |s.log| + 1
            && (|s'.log| > |s.log| ==> s'.log[|s.log|].at == s'.now)
  {
  }

  lemma LogIsTimed(s: System, run: seq<Action>)
    requires Initial(s) && Possible(s, run)
    ensures Timed(After(s, run))
  {
    RunKeepsTimed(s, run);
  }

  // ---------------------------------------------------------------- late and repeated Finish calls

  /** Whatever an execution calls after its lease ran out or its key went to somebody else, the
      store does not change. */
  lemma LateFinishChangesNothing(s0: System, run: seq<Action>, token: Bytes, d: Decision, payload: Bytes, fate: Fate)
    requires Initial(s0) && Possible(s0, run)
    ensures var s := After(s0, run);
            Enabled(s, End(token, d, payload, fate))
            && (|| LeaseRanOut(s, token)
                || !HeldBy(s.store, s.execs[token].key, token)) ==>
              Apply(s, End(token, d, payload, fate)) == s
  {
    InvAlways(s0, run);
    var s := After(s0, run);
    if token in s.execs && LeaseRanOut(s, token) {
      RanOutNotHeld(s, token, s.execs[token].key);
    }
  }

  ghost predicate LeaseRanOut(s: System, token: Bytes) {
    exists took :: took in s.log && took.Took? && took.token == token && took.until <= s.now
  }

  lemma RanOutNotHeld(s: System, token: Bytes, key: Bytes)
    requires Inv(s) && LeaseRanOut(s, token)
    ensures !HeldBy(s.store, key, token)
  {
  }

  /** In any run, lost replies included, a token claims at most once and is completed or released at
      most once, never both, and always before its lease deadline. */
  lemma OneEffectPerToken(s: System, run: seq<Action>)
    requires Initial(s) && Possible(s, run)
    ensures var log := After(s, run).log;
            && (forall i, j :: 0 <= i < j < |log| && log[i].Took? && log[j].Took? ==> log[i].token != log[j].token)
            && (forall i, j, t :: 0 <= i < j < |log| && Ends(log[i], t) ==> !Ends(log[j], t))
            && (forall i, j :: 0 <= i < |log| && 0 <= j < |log| && log[i].Took? && Ends(log[j], log[i].token) ==>
                  log[j].key == log[i].key && log[j].at < log[i].until)
  {
    InvAlways(s, run);
    var log := After(s, run).log;
    assert forall i :: 0 <= i < |log| ==> log[i] in log;
  }

  // ---------------------------------------------------------------- the ways out of a reservation

  lemma {:induction false} LogOnlyGrows(s: System, run: seq<Action>)
    requires Possible(s, run)
    ensures s.log <= After(s, run).log && s.now <= After(s, run).now
    decreases |run|
  {
    if |run| > 0 {
      StepLogs(s, run[0]);
      LogOnlyGrows(Apply(s, run[0]), run[1..]);
    }
  }

  /** A live reservation stays exactly as it is, whatever else happens and fails, until its own token
      completes or releases it or its deadline passes. */
  lemma ReservationLeavesOnlyTwoWays(s0: System, before: seq<Action>, run: seq<Action>, key: Bytes)
    requires Initial(s0) && Possible(s0, before) && Possible(After(s0, before), run)
    requires var s := After(s0, before); key in s.store && s.store[key].Held?
    ensures var s := After(s0, before);
            var s' := After(s, run);
            || (key in s'.store && s'.store[key] == s.store[key])
            || s'.now >= s.store[key].until
            || (exists m :: |s.log| <= m < |s'.log| && Ends(s'.log[m], s.store[key].token))
  {
    InvAlways(s0, before);
    ReservationStays(After(s0, before), run, key);
  }

  lemma ReservationStays(s: System, run: seq<Action>, key: Bytes)
    requires Inv(s) && Possible(s, run)
    requires key in s.store && s.store[key].Held?
    ensures var s' := After(s, run);
            || (key in s'.store && s'.store[key] == s.store[key])
            || s'.now >= s.store[key].until
            || (exists m :: |s.log| <= m < |s'.log| && Ends(s'.log[m], s.store[key].token))
  {
    var s' := After(s, run);
    RunKeepsInv(s, run);
    LogOnlyGrows(s, run);
    var took := HolderTook(s.store, s.log, key);
    assert took in s'.log;
    if s'.now < s.store[key].until {
      assert Shown(s'.store, s'.log, took);
      if Closed(s'.log, took.token) {
        var e :| e in s'.log && Ends(e, took.token);
        var m :| 0 <= m < |s'.log| && s'.log[m] == e;
        NotYetClosed(s.log, took.token);
      }
    }
  }

  lemma NotYetClosed(log: seq<Event>, token: Bytes)
    requires !Closed(log, token)
    ensures forall m :: 0 <= m < |log| ==> !Ends(log[m], token)
  {
    forall m | 0 <= m < |log| ensures !Ends(log[m], token) {
      assert log[m] in log;
    }
  }

  /** Judging by what happened: every lease taken on the key ran out or was ended, and every result
      kept under it expired. */
  ghost predicate NothingLasts(s: System, key: Bytes) {
    forall e :: e in s.log && e.key == key ==>
      && (e.Took? ==> e.until <= s.now || Closed(s.log, e.token))
      && (e.Kept? ==> e.until <= s.now)
  }

  /** In every run, a Reserve that reaches the store claims its key if every earlier lease on it ran out
      or was ended and every earlier result expired, and only then, whatever else happened and failed. */
  lemma DeadKeyIsClaimed(s0: System, run: seq<Action>, token: Bytes, fate: Fate)
    requires Initial(s0) && Possible(s0, run)
    requires Enabled(After(s0, run), Ask(token, fate)) && !fate.LostBefore?
    ensures var s := After(s0, run);
            var s' := Apply(s, Ask(token, fate));
            var e := s.execs[token];
            var until := Granted(s.grain, e.phase.until, s.now);
            && (NothingLasts(s, e.key) ==>
                  && s'.log == s.log + [Took(token, e.key, e.fingerprint, s.now, until)]
                  && (until > s.now ==> HeldBy(s'.store, e.key, token))
                  && (fate.Answered? ==> s'.execs[token].phase == Reading(e.phase.attempt, Claimed)))
            && (!NothingLasts(s, e.key) ==>
                  s'.log == s.log && s'.store == s.store && !s'.execs[token].phase.reply.Claimed?)
  {
    hide CoreInv, Owned, Sourced, NothingLasts;
    InvAlways(s0, run);
    var s := After(s0, run);
    var key := s.execs[token].key;
    AbsentWhenNothingLasts(s, key);
    StoreIsLive(s);
    PruneLive(s.store, s.now);
  }

  lemma AbsentWhenNothingLasts(s: System, key: Bytes)
    requires Inv(s)
    ensures NothingLasts(s, key) <==> key !in s.store
  {
    if key in s.store {
      assert BackedEntry(s.log, key, s.store[key]);
    } else {
      forall e | e in s.log && e.key == key
        ensures e.Took? ==> e.until <= s.now || Closed(s.log, e.token)
        ensures e.Kept? ==> e.until <= s.now
      {
        assert s.now < e.at + Lasting(e) ==> Shown(s.store, s.log, e);
      }
    }
  }

  // ---------------------------------------------------------------- Begin under interference

  function Asks(run: seq<Action>, token: Bytes): nat {
    if |run| == 0 then 0
    else (if run[0].Ask? && run[0].token == token then 1 else 0) + Asks(run[1..], token)
  }

  /** How many Reserve calls an execution may still make. */
  function AsksLeft(s: System, token: Bytes): int {
    if token !in s.execs then MAX_ATTEMPTS
    else
      match s.execs[token].phase
      case Asking(attempt, _) => MAX_ATTEMPTS + 1 - attempt
      case Reading(attempt, _) => MAX_ATTEMPTS - attempt
      case _ => 0
  }

  lemma {:induction false} AsksAreBounded(s: System, run: seq<Action>, token: Bytes)
    requires Inv(s) && Possible(s, run)
    ensures Asks(run, token) <= AsksLeft(s, token)
    decreases |run|
  {
    hide CoreInv, Sourced, Taken;
    if |run| > 0 {
      StepKeepsInv(s, run[0]);
      AsksAreBounded(Apply(s, run[0]), run[1..], token);
      AsksLeftStep(s, run[0], token);
    } else if token in s.execs {
      assert OwnedPhase(s.log, token, s.execs[token].phase);
    }
  }

  lemma AsksLeftStep(s: System, a: Action, token: Bytes)
    requires Enabled(s, a) && Owned(s)
    ensures AsksLeft(Apply(s, a), token) + (if a.Ask? && a.token == token then 1 else 0) <= AsksLeft(s, token)
  {
    if token in s.execs {
      assert OwnedPhase(s.log, token, s.execs[token].phase);
    }
    if a.Read? {
      var e := s.execs[a.token];
      JudgeTable(e.phase.attempt, e.phase.reply, s.now, e.fingerprint, a.token);
    }
  }

  /** In every run an execution calls Reserve at most three times and claims at most once. */
  lemma BeginIsBounded(s: System, run: seq<Action>, token: Bytes)
    requires Initial(s) && Possible(s, run)
    ensures Asks(run, token) <= MAX_ATTEMPTS
    ensures var log := After(s, run).log;
            forall i, j | 0 <= i < |log| && 0 <= j < |log| && log[i].Took? && log[j].Took?
              && log[i].token == token == log[j].token :: i == j
  {
    AsksAreBounded(s, run, token);
    InvAlways(s, run);
  }
}
