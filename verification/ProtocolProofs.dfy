/** The lease protocol keeps its invariant. */
module ProtocolProofs {
  import opened Basics
  import opened Records
  import opened Lease
  import opened AbstractStore
  import opened Protocol

  // ---------------------------------------------------------------- growing the log

  lemma Grow(log: seq<Event>, e: Event)
    ensures forall t :: Taken(log + [e], t) <==> Taken(log, t) || (e.Took? && e.token == t)
    ensures forall t :: Closed(log + [e], t) <==> Closed(log, t) || Ends(e, t)
  {
    forall t ensures Taken(log + [e], t) <==> Taken(log, t) || (e.Took? && e.token == t) {
      if e.Took? && e.token == t { assert e in log + [e]; }
      if Taken(log, t) {
        var x :| x in log && x.Took? && x.token == t;
        assert x in log + [e];
      }
    }
    forall t ensures Closed(log + [e], t) <==> Closed(log, t) || Ends(e, t) {
      if Ends(e, t) { assert e in log + [e]; }
      if Closed(log, t) {
        var x :| x in log && Ends(x, t);
        assert x in log + [e];
      }
    }
  }

  lemma SourceGrows(log: seq<Event>, e: Event, key: Bytes, fp: Bytes, payload: Bytes, until: Time)
    requires Source(log, key, fp, payload, until)
    ensures Source(log + [e], key, fp, payload, until)
  {
    var kept, took :| kept in log && took in log && SourcePair(kept, took, key, fp, payload, until);
    assert kept in log + [e] && took in log + [e];
  }

  lemma ShutGrows(log: seq<Event>, e: Event, i: nat, j: nat, t: Time)
    requires i < |log| && j <= |log| && log[i].Took? && Shut(log, i, j, t)
    ensures Shut(log + [e], i, j, t)
  {
    var log' := log + [e];
    if log[i].until > t {
      var m :| 0 <= m < j && Ends(log[m], log[i].token) && log[m].at <= t;
      assert log'[m] == log[m];
    }
  }

  lemma ExclusiveGrows(log: seq<Event>, e: Event)
    requires Exclusive(log)
    requires e.Took? ==> forall i :: 0 <= i < |log| && log[i].Took? && log[i].key == e.key ==> Shut(log, i, |log|, e.at)
    requires e.Took? ==> forall i :: 0 <= i < |log| && log[i].Kept? && log[i].key == e.key ==> log[i].until <= e.at
    ensures Exclusive(log + [e])
  {
    var log' := log + [e];
    forall i, j | 0 <= i < j < |log'| && log'[i].Took? && log'[j].Took? && log'[i].key == log'[j].key
      ensures Shut(log', i, j, log'[j].at)
    {
      ShutGrows(log, e, i, j, log'[j].at);
    }
  }

  lemma OnceGrows(log: seq<Event>, e: Event)
    requires Once(log)
    requires e.Took? ==> !Taken(log, e.token)
    requires Ends(e, e.token) ==> Taken(log, e.token) && !Closed(log, e.token)
    ensures Once(log + [e])
  {
    Grow(log, e);
    var log' := log + [e];
    forall i, j | 0 <= i < j < |log'| && log'[i].Took? && log'[j].Took? ensures log'[i].token != log'[j].token {
      assert log'[i] in log;
    }
    forall i, j | 0 <= i < j < |log'| && Ends(log'[i], log'[j].token) ensures !Ends(log'[j], log'[j].token) {
      assert log'[i] in log;
    }
  }

  lemma TimelyGrows(log: seq<Event>, e: Event)
    requires Timely(log)
    requires e.Took? ==> !Closed(log, e.token)
    requires forall took :: took in log && took.Took? && Ends(e, took.token) ==> took.key == e.key && e.at < took.until
    ensures Timely(log + [e])
  {
    forall took, x | took in log + [e] && x in log + [e] && took.Took? && Ends(x, took.token)
      ensures took.key == x.key && x.at < took.until
    {
      assert took in log || took == e;
      assert x in log || x == e;
    }
  }

  /** Two claims by one token are one event. */
  lemma TakenOnce(log: seq<Event>, a: Event, b: Event)
    requires Once(log) && a in log && b in log && a.Took? && b.Took? && a.token == b.token
    ensures a == b
  {
    var i :| 0 <= i < |log| && log[i] == a;
    var j :| 0 <= j < |log| && log[j] == b;
  }

  // ---------------------------------------------------------------- the four effects

  /** Time passes, and entries past their deadline vanish. */
  lemma CoreTick(now: Time, store: Entries, log: seq<Event>, d: nat)
    requires CoreInv(now, store, log)
    ensures CoreInv(now + d, Prune(store, now + d), log)
  {
    hide BackedEntry, Once, Timely, Exclusive;
    var store' := Prune(store, now + d);
    forall e | e in log && now + d < e.at + Lasting(e) ensures Shown(store', log, e) {
      assert Shown(store, log, e);
    }
  }

  /** A free key is claimed. */
  lemma CoreTake(now: Time, store: Entries, log: seq<Event>, token: Bytes, key: Bytes, fp: Bytes, until: Time)
    requires CoreInv(now, store, log)
    requires key !in store && !Taken(log, token)
    ensures CoreInv(now, Prune(store[key := Held(token, fp, until)], now), log + [Took(token, key, fp, now, until)])
  {
    hide Guarded, Exclusive, Timely, Once, BackedEntry, Closed, Taken;
    var e := Took(token, key, fp, now, until);
    NotTakenNotClosed(log, token);
    OnceGrows(log, e);
    TimelyGrows(log, e);
    FreeKeyIsShut(now, store, log, key);
    ExclusiveGrows(log, e);
    TakeBacked(now, store, log, key, e);
    TakeGuarded(now, store, log, key, e);
  }

  function WithClaim(now: Time, store: Entries, key: Bytes, e: Event): Entries
    requires e.Took?
  {
    Prune(store[key := Held(e.token, e.fingerprint, e.until)], now)
  }

  lemma TakeBacked(now: Time, store: Entries, log: seq<Event>, key: Bytes, e: Event)
    requires Backed(store, log) && e.Took? && e.key == key && !Closed(log, e.token)
    ensures Backed(WithClaim(now, store, key, e), log + [e])
  {
    hide Source;
    Grow(log, e);
    var store' := WithClaim(now, store, key, e);
    forall k | k in store' ensures BackedEntry(log + [e], k, store'[k]) {
      if k == key {
        assert e in log + [e] && IsTake(e, e.token, key, e.fingerprint, e.until);
      } else {
        assert BackedEntry(log, k, store[k]);
        BackedGrows(log, e, k, store[k]);
      }
    }
  }

  lemma TakeGuarded(now: Time, store: Entries, log: seq<Event>, key: Bytes, e: Event)
    requires Guarded(now, store, log) && AllLive(store, now) && key !in store && e.Took? && e.key == key
    ensures Guarded(now, WithClaim(now, store, key, e), log + [e])
  {
    Grow(log, e);
    forall x | x in log + [e] && now < x.at + Lasting(x) ensures Shown(WithClaim(now, store, key, e), log + [e], x) {
      if x in log {
        assert Shown(store, log, x);
      }
    }
  }

  lemma NotTakenNotClosed(log: seq<Event>, token: Bytes)
    requires Once(log) && !Taken(log, token)
    ensures !Closed(log, token)
  {
  }

  /** When a key is free, nothing on record still claims it. */
  lemma FreeKeyIsShut(now: Time, store: Entries, log: seq<Event>, key: Bytes)
    requires Clocked(now, store, log) && Guarded(now, store, log) && key !in store
    ensures forall i :: 0 <= i < |log| && log[i].Took? && log[i].key == key ==> Shut(log, i, |log|, now)
    ensures forall i :: 0 <= i < |log| && log[i].Kept? && log[i].key == key ==> log[i].until <= now
  {
    forall i | 0 <= i < |log| && log[i].Took? && log[i].key == key ensures Shut(log, i, |log|, now) {
      if log[i].until > now {
        assert log[i] in log && Shown(store, log, log[i]);
        var e :| e in log && Ends(e, log[i].token);
        var m :| 0 <= m < |log| && log[m] == e;
        assert Ends(log[m], log[i].token) && log[m].at <= now;
      }
    }
    forall i | 0 <= i < |log| && log[i].Kept? && log[i].key == key ensures log[i].until <= now {
      assert log[i] in log;
    }
  }

  lemma BackedGrows(log: seq<Event>, e: Event, key: Bytes, entry: Entry)
    requires BackedEntry(log, key, entry)
    requires entry.Held? ==> !Ends(e, entry.token)
    ensures BackedEntry(log + [e], key, entry)
  {
    match entry
    case Held(token, fp, until) =>
      Grow(log, e);
      var took :| took in log && IsTake(took, token, key, fp, until);
      assert took in log + [e];
    case Done(token, fp, payload, until) => SourceGrows(log, e, key, fp, payload, until);
  }

  /** e completes (with the given entry) or releases the reservation its token holds on key. */
  ghost predicate EndsReservation(now: Time, store: Entries, key: Bytes, e: Event, entry: Option<Entry>) {
    && HeldBy(store, key, e.token)
    && (|| (e == Freed(e.token, key, now) && entry.None?)
        || (e.Kept? && e == Kept(e.token, key, e.payload, now, e.until) && e.until > now
            && entry == Some(Done(e.token, store[key].fingerprint, e.payload, e.until))))
  }

  function Ended(store: Entries, key: Bytes, entry: Option<Entry>): Entries {
    if entry.None? then store - {key} else store[key := entry.value]
  }

  /** A reservation is completed or released by its own token. */
  lemma CoreEnd(now: Time, store: Entries, log: seq<Event>, key: Bytes, e: Event, entry: Option<Entry>)
    requires CoreInv(now, store, log) && EndsReservation(now, store, key, e, entry)
    ensures CoreInv(now, Ended(store, key, entry), log + [e])
  {
    hide Guarded, Exclusive, Timely, Once, BackedEntry, Closed;
    assert Ends(e, e.token);
    var took := HolderTook(store, log, key);
    assert Taken(log, e.token);
    OnceGrows(log, e);
    forall x | x in log && x.Took? && Ends(e, x.token) ensures x.key == e.key && e.at < x.until {
      TakenOnce(log, x, took);
    }
    TimelyGrows(log, e);
    ExclusiveGrows(log, e);
    EndBacked(now, store, log, key, e, entry, took);
    EndGuarded(now, store, log, key, e, entry);
  }

  lemma HolderTook(store: Entries, log: seq<Event>, key: Bytes) returns (took: Event)
    requires Backed(store, log) && key in store && store[key].Held?
    ensures took in log && IsTake(took, store[key].token, key, store[key].fingerprint, store[key].until)
    ensures !Closed(log, store[key].token)
  {
    assert BackedEntry(log, key, store[key]);
    took :| took in log && IsTake(took, store[key].token, key, store[key].fingerprint, store[key].until);
  }

  lemma EndBacked(now: Time, store: Entries, log: seq<Event>, key: Bytes, e: Event, entry: Option<Entry>, took: Event)
    requires Once(log) && Backed(store, log) && EndsReservation(now, store, key, e, entry)
    requires took in log && IsTake(took, e.token, key, store[key].fingerprint, store[key].until)
    ensures Backed(Ended(store, key, entry), log + [e])
  {
    hide Once;
    var store' := Ended(store, key, entry);
    forall k | k in store' ensures BackedEntry(log + [e], k, store'[k]) {
      if k == key {
        assert e in log + [e] && took in log + [e];
        assert SourcePair(e, took, key, store[key].fingerprint, e.payload, e.until);
      } else {
        OneKeyPerToken(store, log, key, k);
        BackedGrows(log, e, k, store[k]);
      }
    }
  }

  lemma EndGuarded(now: Time, store: Entries, log: seq<Event>, key: Bytes, e: Event, entry: Option<Entry>)
    requires Guarded(now, store, log) && EndsReservation(now, store, key, e, entry)
    ensures Guarded(now, Ended(store, key, entry), log + [e])
  {
    Grow(log, e);
    forall x | x in log + [e] && now < x.at + Lasting(x) ensures Shown(Ended(store, key, entry), log + [e], x) {
      if x in log {
        assert Shown(store, log, x);
      }
    }
  }

  /** A token holds one key at most. */
  lemma OneKeyPerToken(store: Entries, log: seq<Event>, key: Bytes, other: Bytes)
    requires Once(log) && Backed(store, log)
    requires key in store && other in store && store[key].Held? && key != other
    ensures store[other].Held? ==> store[other].token != store[key].token
  {
    if store[other].Held? && store[other].token == store[key].token {
      assert BackedEntry(log, key, store[key]) && BackedEntry(log, other, store[other]);
      var a :| a in log && IsTake(a, store[key].token, key, store[key].fingerprint, store[key].until);
      var b :| b in log && IsTake(b, store[other].token, other, store[other].fingerprint, store[other].until);
      TakenOnce(log, a, b);
    }
  }

  /** A replay is recorded: the store does not move. */
  lemma CoreReplay(now: Time, store: Entries, log: seq<Event>, e: Event)
    requires CoreInv(now, store, log) && e.Replayed? && e.at == now
    ensures CoreInv(now, store, log + [e])
  {
    OnceGrows(log, e);
    TimelyGrows(log, e);
    ExclusiveGrows(log, e);
    Grow(log, e);
    assert Backed(store, log + [e]) by {
      forall k | k in store ensures BackedEntry(log + [e], k, store[k]) {
        BackedGrows(log, e, k, store[k]);
      }
    }
    assert Guarded(now, store, log + [e]) by {
      forall x | x in log + [e] && now < x.at + Lasting(x) ensures Shown(store, log + [e], x) {
        if x in log {
          assert Shown(store, log, x);
        }
      }
    }
  }

  // ---------------------------------------------------------------- the phases of executions

  lemma OwnedPhaseGrows(log: seq<Event>, e: Event, token: Bytes, phase: Phase)
    requires OwnedPhase(log, token, phase) && (e.Took? ==> e.token != token)
    ensures OwnedPhase(log + [e], token, phase)
  {
    Grow(log, e);
  }

  lemma SourcedPhaseGrows(g: Grain, log: seq<Event>, e: Event, key: Bytes, phase: Phase)
    requires SourcedPhase(g, log, key, phase)
    ensures SourcedPhase(g, log + [e], key, phase)
  {
    match phase
    case Reading(_, Exists(Some(r))) =>
      if r.state.Completed? {
        var until :| Source(log, key, r.fingerprint, r.payload, until) && r.recordExpiresAt <= until + Slack(g);
        SourceGrows(log, e, key, r.fingerprint, r.payload, until);
      }
    case _ =>
  }

  lemma SourcedReplayGrows(g: Grain, log: seq<Event>, e: Event, i: nat)
    requires i < |log| && log[i].Replayed? && SourcedReplay(g, log, i)
    ensures SourcedReplay(g, log + [e], i)
  {
    var until :|
      Source(log[..i], log[i].key, log[i].fingerprint, log[i].payload, until) && log[i].at < until + Slack(g);
    assert (log + [e])[..i] == log[..i] && (log + [e])[i] == log[i];
    assert Source((log + [e])[..i], log[i].key, log[i].fingerprint, log[i].payload, until);
  }

  lemma ReplayIsSourced(g: Grain, log: seq<Event>, e: Event, r: Record)
    requires e.Replayed? && SourcedRecord(g, log, e.key, r) && e.at < r.recordExpiresAt
    requires e.fingerprint == r.fingerprint && e.payload == r.payload
    ensures SourcedReplay(g, log + [e], |log|)
  {
    var until :| Source(log, e.key, r.fingerprint, r.payload, until) && r.recordExpiresAt <= until + Slack(g);
    assert (log + [e])[..|log|] == log && (log + [e])[|log|] == e;
    assert Source((log + [e])[..|log|], e.key, e.fingerprint, e.payload, until);
  }

  /** Executions and their sources after token moved to phase and, possibly, one event was logged. */
  lemma PhasesMove(s: System, s': System, token: Bytes, phase: Phase, e: Option<Event>)
    requires Owned(s) && Sourced(s) && token in s.execs
    requires s'.execs == WithPhase(s, token, phase)
    requires s'.log == if e.None? then s.log else s.log + [e.value]
    requires e.Some? ==> e.value.token == token
    requires e.Some? && e.value.Took? ==>
               e.value.key == s.execs[token].key && e.value.fingerprint == s.execs[token].fingerprint
    requires s'.grain == s.grain
    requires OwnedPhase(s'.log, token, phase) && SourcedPhase(s.grain, s'.log, s.execs[token].key, phase)
    requires e.Some? && e.value.Replayed? ==> SourcedReplay(s.grain, s'.log, |s.log|)
    ensures Owned(s') && Sourced(s')
  {
    hide OwnedPhase, SourcedPhase, SourcedReplay;
    forall t | t in s'.execs ensures OwnedPhase(s'.log, t, s'.execs[t].phase)
    {
      if t != token && e.Some? {
        OwnedPhaseGrows(s.log, e.value, t, s.execs[t].phase);
      }
    }
    forall t | t in s'.execs ensures SourcedPhase(s.grain, s'.log, s'.execs[t].key, s'.execs[t].phase) {
      if t != token && e.Some? {
        SourcedPhaseGrows(s.grain, s.log, e.value, s.execs[t].key, s.execs[t].phase);
      }
    }
    forall i | 0 <= i < |s'.log| && s'.log[i].Replayed? ensures SourcedReplay(s.grain, s'.log, i) {
      if i < |s.log| && e.Some? {
        SourcedReplayGrows(s.grain, s.log, e.value, i);
      }
    }
    forall x | x in s'.log && x.Took?
      ensures x.token in s'.execs && x.key == s'.execs[x.token].key && x.fingerprint == s'.execs[x.token].fingerprint
    {
      assert x in s.log || (e.Some? && x == e.value);
    }
  }

  // ---------------------------------------------------------------- every action keeps the invariant

  lemma TickKeepsInv(s: System, d: nat)
    requires Inv(s)
    ensures Inv(Apply(s, Tick(d)))
  {
    hide CoreInv, OwnedPhase, SourcedPhase, SourcedReplay;
    CoreTick(s.now, s.store, s.log, d);
  }

  lemma StartKeepsInv(s: System, token: Bytes, key: Bytes, fp: Bytes, o: Options)
    requires Inv(s) && token !in s.execs
    ensures Inv(Apply(s, Start(token, key, fp, o)))
  {
    hide CoreInv, SourcedReplay;
    assert !Taken(s.log, token);
  }

  lemma AskKeepsInv(s: System, token: Bytes, fate: Fate)
    requires Inv(s) && Enabled(s, Ask(token, fate))
    ensures Inv(Apply(s, Ask(token, fate)))
  {
    hide CoreInv, Owned, Sourced, Source, Granted, SourcedRecord;
    var e, s' := s.execs[token], DoAsk(s, token, fate);
    assert OwnedPhase(s.log, token, e.phase) by { OwnedOf(s, token); }
    if fate.LostBefore? {
      PhasesMove(s, s', token, s'.execs[token].phase, None);
    } else if e.key in s.store {
      StoreIsLive(s);
      PruneLive(s.store, s.now);
      if fate.Answered? {
        ReplyIsSourced(s, e.key);
      }
      PhasesMove(s, s', token, s'.execs[token].phase, None);
    } else {
      var until := Granted(s.grain, e.phase.until, s.now);
      var took := Took(token, e.key, e.fingerprint, s.now, until);
      CoreTake(s.now, s.store, s.log, token, e.key, e.fingerprint, until);
      Grow(s.log, took);
      PhasesMove(s, s', token, s'.execs[token].phase, Some(took));
    }
  }

  lemma OwnedOf(s: System, token: Bytes)
    requires Owned(s) && token in s.execs
    ensures OwnedPhase(s.log, token, s.execs[token].phase)
  {
  }

  lemma StoreIsLive(s: System)
    requires Inv(s)
    ensures AllLive(s.store, s.now)
  {
  }

  lemma ReplyIsSourced(s: System, key: Bytes)
    requires Inv(s) && key in s.store
    ensures var r := Reported(s.grain, key, s.store[key], s.now);
            r.state.Completed? ==> SourcedRecord(s.grain, s.log, key, r)
  {
    assert BackedEntry(s.log, key, s.store[key]);
  }

  lemma ReadKeepsInv(s: System, token: Bytes)
    requires Inv(s) && Enabled(s, Read(token))
    ensures Inv(Apply(s, Read(token)))
  {
    hide CoreInv, Owned, Sourced, Source, Granted, SourcedRecord;
    var e, s' := s.execs[token], DoRead(s, token);
    assert OwnedPhase(s.log, token, e.phase) by { OwnedOf(s, token); }
    assert SourcedPhase(s.grain, s.log, e.key, e.phase) by { SourcedOf(s, token); }
    JudgeTable(e.phase.attempt, e.phase.reply, s.now, e.fingerprint, token);
    var next := Judge(e.phase.attempt, e.phase.reply, s.now, e.fingerprint, token);
    if next.Settled? && next.outcome.Replay? {
      var event := Replayed(token, e.key, e.fingerprint, next.outcome.payload, s.now);
      CoreReplay(s.now, s.store, s.log, event);
      ReplayIsSourced(s.grain, s.log, event, e.phase.reply.existing.value);
      PhasesMove(s, s', token, s'.execs[token].phase, Some(event));
    } else {
      PhasesMove(s, s', token, s'.execs[token].phase, None);
    }
  }

  lemma SourcedOf(s: System, token: Bytes)
    requires Sourced(s) && token in s.execs
    ensures SourcedPhase(s.grain, s.log, s.execs[token].key, s.execs[token].phase)
  {
  }

  lemma EndKeepsInv(s: System, token: Bytes, d: Decision, payload: Bytes, fate: Fate)
    requires Inv(s) && Enabled(s, End(token, d, payload, fate))
    ensures Inv(Apply(s, End(token, d, payload, fate)))
  {
    hide CoreInv, Owned, Sourced;
    var e, s' := s.execs[token], DoEnd(s, token, d, payload, fate);
    if s'.log != s.log {
      var until := s.now + GrantedTTL(s.grain, e.options.Effective().recordTTL);
      var event := if d.Persist? then Kept(token, e.key, payload, s.now, until) else Freed(token, e.key, s.now);
      var entry := if d.Persist? then Some(Done(token, s.store[e.key].fingerprint, payload, until)) else None;
      CoreEnd(s.now, s.store, s.log, e.key, event, entry);
      OwnedOf(s, token);
      Grow(s.log, event);
      assert s.execs == WithPhase(s, token, e.phase);
      PhasesMove(s, s', token, e.phase, Some(event));
    }
  }

  lemma StepKeepsInv(s: System, a: Action)
    requires Inv(s) && Enabled(s, a)
    ensures Inv(Apply(s, a))
  {
    hide Inv, Apply;
    match a
    case Tick(d) => TickKeepsInv(s, d);
    case Start(token, key, fp, o) => StartKeepsInv(s, token, key, fp, o);
    case Ask(token, fate) => AskKeepsInv(s, token, fate);
    case Read(token) => ReadKeepsInv(s, token);
    case End(token, d, payload, fate) => EndKeepsInv(s, token, d, payload, fate);
  }

  /** The invariant holds throughout every run. */
  lemma {:induction false} RunKeepsInv(s: System, run: seq<Action>)
    requires Inv(s) && Possible(s, run)
    ensures Inv(After(s, run))
    decreases |run|
  {
    hide Inv, Apply;
    if |run| > 0 {
      StepKeepsInv(s, run[0]);
      RunKeepsInv(Apply(s, run[0]), run[1..]);
    }
  }

  lemma InvAlways(s: System, run: seq<Action>)
    requires Initial(s) && Possible(s, run)
    ensures Inv(After(s, run))
  {
    RunKeepsInv(s, run);
  }
}
