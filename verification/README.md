# idemlease, modelled and proved

idemlease makes HTTP requests idempotent with leases: `Begin` claims a key under a fresh token, `Finish`
completes or releases it by compare-and-set on that token, and records count as absent from their deadline
on. This project models that protocol, its three stores, the transactional join of the PostgreSQL store,
and the HTTP layer that captures, encodes and replays responses, and proves what they promise.

## How the model is laid out

- **The core.** `Records` and `Lease` hold the record, `Begin` with its decision table and bounded retry,
  and `Finish`. `Begin` runs against any answers a store could give, conforming or not.
- **The protocol in time.** `Protocol` is a state machine of concurrent executions over one shared store and
  one clock, at any grain: each store call is one step, others may act and time may pass between any two steps, calls may
  take effect and still report an error, executions may outlive their lease or never finish.
  `ProtocolProofs` shows its invariant inductive; `ProtocolTheorems` draws the guarantees from it, and
  `ProtocolAnswers` says what each caller is told and how long what it was given lasts.
- **The stores.** `AbstractStore` is a map whose entries vanish at their deadline, seen at the grain of a
  clock: exact, or with TTLs and remaining times in whole milliseconds. `MemStore` (lazy deletion),
  `RediStore` (one TTL per key, Lua scripts) and `PgRows`/`PgStore` (stale rows left in place, an attempt
  loop with other sessions in between) are classes proved against specification functions, and those are
  proved to refine the abstract store; `Backends` puts the three behind one interface. `StoresAgree` says
  what callers can tell about the store behind them, and `ConcreteRuns` carries the guarantees of the
  protocol over to runs on each store.
- **The transactional join.** `TxJoin` models PostgreSQL transactions at READ COMMITTED: `now()` frozen at
  the start, private row versions, the row lock from a successful update to the end of the transaction, and
  the WHERE clause judged on the latest committed row. `TxJoinProofs` and `TxJoinTheorems` prove its
  guarantees, `Schedules` says what the others can do between two statements of a transaction, and
  `CompleteTx` is the method itself under every such schedule.
- **Payloads.** `Uvarint`, `Strings`, `Codec`, `Decoding` and `CodecLaws`: the encoder and the
  error-latching decoder as the loops they are, the format as functions, and its laws.
- **Capture and replay.** `Headers`, `Capturing` and `Recorder` (the recorder and the writer that feeds
  it), `CapturingLaws` (the capture is what the client got), `Replay` (writing a stored response and the
  end-to-end law), `Middleware` (which Finish calls a Proceed leads to) and `WholeSystem` (every replay in
  every run serves one earlier handler's response).
- **Requests.** `Keys` (key grammar, RFC 8941 strings, scoped keys), `Fingerprints` and `RetryAfter`.

Strings and byte slices are sequences of bytes. Clocks, random tokens, the hash and the outcomes of calls
into code outside the repository are parameters. Times are unbounded integers except where 64-bit arithmetic
decides the outcome (`RetryAfter`, the status code in `Codec`).

## Where the code and what is said of it part

- *Lease lost.* A token that holds the row live when its transaction starts can still be told "lease lost":
  the lease may run out and the key be claimed again before `CompleteTx` is called
  (`TxJoinTheorems.HeldAtStartIsNotEnough`). What a caller can rely on is the deadline: if nobody else uses
  its token, an update before the lease deadline always joins (`TxJoinTheorems.JoinsInTime`), and at the
  deadline there is always a way to lose, as long as nobody has the row locked
  (`TxJoinTheorems.DeadlineIsExact`). The answer itself is right
  about the row as the classification sees it (`TxJoinTheorems.VerdictIsRight`).
- *Already completed.* The comment promises it for a second call in the same transaction, which always gets
  it (`TxJoinTheorems.SecondCallIsDetected`). It is also the answer when somebody else completed the record
  under the same token (`TxJoinTheorems.AlreadyCompletedWithoutJoining`);
  `TxJoinTheorems.AlreadyCompletedMeans` tells the two cases apart.
- *Contract violation.* Begin takes an expired record, met three times in a row, for a bug of the store. The
  in-memory store never gives cause for that (`MemStore.UndisturbedBeginSettles`). The database stores
  report the remaining time in whole milliseconds, so in the last millisecond of a record (Redis) or the
  last half millisecond (PostgreSQL) the client takes it for expired while the server still has it: Begin
  then fails exactly when the record outlives the third attempt (`RediStore.UndisturbedBegin`,
  `PgStore.UndisturbedBegin`; runs: `RediStore.BeginMayBlameTheServer`, `PgStore.BeginMayBlameTheDatabase`).
- *Retry-After* is the ceiling it means to be exactly for leases up to 2^63 - 10^9 ns; beyond that the sum
  wraps around and the header says one second.
- *Whole milliseconds.* The database stores cut TTLs to whole milliseconds, at least one, and round what is
  left of them; the in-memory store does neither. With TTLs in whole milliseconds this never shows in a
  claim or in the answer to a Finish, at any timing, and an attempt that meets a holder gets the same kind
  of answer, with the remaining time off by less than a millisecond, exactly if it is not read between the
  deadline reported and the real one (`StoresAgree.AgreeAtAnyTiming`). If the delays are whole milliseconds
  too, all answers are the same (`StoresAgree.ThreeStoresAgree`). With finer TTLs
  `StoresAgree.ClampTellsStoresApart` says exactly when two Begins can tell the stores apart, and when the
  second one claims on some of them only.
- *Expired records.* PostgreSQL rounds the remaining time to the nearest millisecond, so a client may
  replay a record up to half a millisecond after its deadline (`PgStore.ReplayMayOutliveRecord`).
- *Live and replayed.* WriteStored promises that the live response and every replay are the same. A header
  field without values, which clears an earlier one in the live response, is not kept in the payload
  (`Replay.ClearedHeaderComesBack`); `Replay.LiveIsReplayed` has the exact condition.
- *Sentinels.* For a record completed under another token pgstore answers "not found" where the others say
  "token mismatch"; Finish turns both into a lost lease.
- *Status 101* is final for net/http, but the recorder takes it for an interim response: it is the only
  status for which the capture differs from what the client got
  (`CapturingLaws.CaptureIsWhatTheClientGot`).
- *Replay size.* The size check assumes that the capture path never writes more than 64 KiB besides the body,
  but nothing bounds captured headers: one long enough is persisted and then refused at every replay
  (`Replay.LongHeaderIsNeverServed`). `Replay.CapturedIsServed` has the exact condition.
- *Finish calls.* When the best-effort release after a failed Persist panics, the deferred recovery
  discards once more, so there can be three (`Middleware.ThreeFinishCalls`).
- *Fingerprint preimages* are unambiguous only because the method and the query hold no newline and the
  escaped path no question mark. Each condition is needed (`Fingerprints.NewlineInQueryIsAmbiguous`,
  `Fingerprints.NewlineInMethodIsAmbiguous`, `Fingerprints.QuestionMarkInPathWouldBeAmbiguous`);
  `URL.EscapedPath` never returns a question mark.

## Model

| member | source | states |
|---|---|---|
| ProtocolTheorems.LeasesNeverOverlap | README.md:12-17 | in every run, with late, lost and missing finishes, the lease windows of two claims of one key are disjoint and their tokens differ |
| ProtocolTheorems.WindowIsWhatTheStoreShows | idemlease.go:124-135 | right now the window of a claim is open exactly if the store holds the key for its token |
| ProtocolTheorems.ProceedMeansClaimed | idemlease.go:124-135 | an execution told to proceed did claim its key; no key is claimed while a result kept under it is valid |
| ProtocolTheorems.ReplayProvenance | idemlease.go:149-156 | every replay's payload is that of an earlier Persist that took effect, under the same key, by a token whose Begin carried the same fingerprint, and the record is unexpired, give or take the half millisecond a rounding store may add |
| ProtocolTheorems.LateFinishChangesNothing | idemlease.go:163-187 | once the lease ran out or the key is not held by the token, no Finish of that token changes anything |
| ProtocolTheorems.OneEffectPerToken | httpidem/httpidem.go:330-341 | with lost replies included, a token claims once and is completed or released at most once, never both, before its deadline |
| ProtocolTheorems.ReservationLeavesOnlyTwoWays | idemlease.go:104-108 | a live reservation stays exactly as it is until its own token ends it or its deadline passes |
| ProtocolTheorems.DeadKeyIsClaimed | store.go:35-42 | in every run a Reserve that reaches the store claims its key if, by what happened so far, every lease taken on it ran out or was ended and every result kept under it expired, and changes nothing otherwise |
| ProtocolTheorems.BeginIsBounded | idemlease.go:124-147 | in every run an execution makes at most three Reserve calls and at most one of them claims |
| ProtocolAnswers.LeaseLastsAsAsked | idemlease.go:126-132 | a claim lasts for the lease TTL of its own execution, counted from the instant it got ready to ask, as the store grants it |
| ProtocolAnswers.ResultLastsAsAsked | idemlease.go:172-174 | a Persist that reaches the store in time keeps its payload, under its Begin's fingerprint, for the record TTL of its execution, whatever others do |
| ProtocolAnswers.DiscardFrees | idemlease.go:175-176 | a Discard that reaches the store in time frees its key and no other |
| ProtocolAnswers.BeginAnswers | idemlease.go:124-160 | every answer of Begin by who held the key as the attempt reached the store and by the instant of reading, whatever others do in between |
| ProtocolAnswers.AReplayIsPossible | idemlease.go:119-187 | a run in which a result is persisted, its answer lost, and replayed to another execution |
| ProtocolProofs.StepKeepsInv | idemlease.go:119-187 | every step, by whomever and whatever becomes of its reply, keeps the invariant over store, clock and history |
| ProtocolProofs.InvAlways | idemlease.go:119-187 | the invariant holds after every run from the empty store |
| Lease.Begin | idemlease.go:119-161 | against any store: no call without a token; otherwise one to three requests carrying it, all but the last answered with an expired record, the last one decides; the store's error exactly for a failing store, Proceed exactly on a claim that was answered; a rejection always has time left |
| Lease.JudgeTable | idemlease.go:93-160 | every answer of Begin exactly for the replies that lead to it: the store's error for a failing store, a missing record, an expired one before and at the third attempt, a live reservation, a live result with equal and with another fingerprint |
| Lease.NormaliseTable | idemlease.go:180-186 | exactly which answers of the store mean done, lost lease and error |
| Lease.Options.Effective | idemlease.go:71-91 | each TTL is kept exactly when it is positive and is the default otherwise |
| Lease.Finish | idemlease.go:171-187 | exactly the call the decision names, with this key, token, payload and effective record TTL; lost leases normalised, other errors passed on, unknown decisions refused without a call |
| AbstractStore.ReleaseAfterAmbiguousComplete | httpidem/httpidem.go:332-341 | after a Complete with a lost answer, Release leaves a completed record untouched even later, and otherwise frees the caller's own reservation alone |
| AbstractStore.LastsExactly | store.go:33-54 | claims and results last exactly until their deadline, with the contents they were given, and change no other key |
| MemStore.Store.Lookup | memstore/memstore.go:47-57 | the live record, deleting an expired one |
| MemStore.LookedExactly | memstore/memstore.go:45-57 | found exactly if live, deleted exactly if expired, nothing else touched |
| MemStore.Store.Reserve | memstore/memstore.go:62-71 | new map and reply are those of the specification |
| MemStore.Store.Complete | memstore/memstore.go:74-93 | new map and answer are those of the specification |
| MemStore.Store.Release | memstore/memstore.go:96-111 | new map and answer are those of the specification |
| MemStore.Store.Get | memstore/memstore.go:115-124 | the live record or none |
| MemStore.ViewLater | memstore/memstore.go:9-13 | letting time pass is pruning, though nothing is deleted yet |
| MemStore.ReserveRefines | memstore/memstore.go:59-71 | the abstract claim; an existing record is reported faithfully |
| MemStore.CompleteRefines | memstore/memstore.go:74-93 | the abstract compare-and-set; an answer of lost lease exactly when it had no effect |
| MemStore.ReleaseRefines | memstore/memstore.go:96-111 | likewise for Release, and when the mismatch sentinel is used |
| MemStore.UndisturbedBeginSettles | idemlease.go:142-147 | with nobody else at the key Begin never reports a contract violation and claims at the second attempt at the latest |
| RediStore.RecordFromReply | redistore/redistore.go:229-262 | the flat reply, in any order, gives the record with its deadline rebuilt from the remaining TTL; no TTL, an unknown state or an unparsable deadline is an error |
| RediStore.CorruptReplies | redistore/redistore.go:251-310 | exactly which replies are corrupt |
| RediStore.InformationalDeadlines | redistore/redistore.go:160-161 | the deadlines written into the hash are those asked for, in whole milliseconds |
| RediStore.Store.Reserve | redistore/redistore.go:155-178 | new keyspace and reply are those of the script and the decoding |
| RediStore.Store.Complete | redistore/redistore.go:181-196 | new keyspace and answer, TTL cut to whole milliseconds and clamped to one |
| RediStore.Store.Release | redistore/redistore.go:199-205 | new keyspace and answer |
| RediStore.ViewLater | redistore/redistore.go:224-228 | the key TTL alone makes an entry vanish at its deadline |
| RediStore.ReserveRefines | redistore/redistore.go:54-61 | the script is the abstract claim with the lease cut to whole milliseconds, at least one, and reading back keeps token, fingerprint and payload and cuts the remaining time to whole milliseconds |
| RediStore.CompleteRefines | redistore/redistore.go:80-94 | the script is the abstract compare-and-set, and when the mismatch sentinel is used |
| RediStore.ReleaseRefines | redistore/redistore.go:99-112 | likewise for Release |
| RediStore.UndisturbedBegin | idemlease.go:142-147 | with nobody else at the key Begin asks again exactly when the remaining time, cut to whole milliseconds, is over as it reads its clock; from then on it claims once the key is gone, and reports a contract violation exactly when the key outlives the third attempt |
| RediStore.BeginMayBlameTheServer | idemlease.go:143-147 | a run in which that happens, with attempts 200 microseconds apart |
| PgRows.ExpiredIsNotLive | pgstore/pgstore.go:122-130 | the two predicates are complements on every row the statements write |
| PgStore.Store.Reserve | pgstore/pgstore.go:199-227 | with other sessions acting between the statements of each attempt: a claim or a reported holder is that of one atomic Reserve on the table the deciding statement found; it fails only after three blocking records vanished or on a driver error, and has then changed nothing unless the answer to its claim was lost |
| PgStore.Store.Complete | pgstore/pgstore.go:230-239 | accepted exactly when the update was answered and touched its row; otherwise it had no effect, and the sentinel is token mismatch exactly when the table the classification reads has a live reservation under another token; a driver error of either statement is passed on |
| PgStore.Store.Release | pgstore/pgstore.go:242-251 | likewise for Release |
| PgStore.ViewLater | pgstore/pgstore.go:120-121 | stale rows left in place never show |
| PgStore.ReserveRefines | pgstore/pgstore.go:134-150 | the upsert and the read are the abstract claim for the given whole milliseconds, and the remaining time reads back rounded to whole milliseconds |
| PgStore.CompleteRefines | pgstore/pgstore.go:152-160 | the abstract compare-and-set, and exactly when the mismatch sentinel is used |
| PgStore.ReleaseRefines | pgstore/pgstore.go:168-170 | likewise for Release |
| PgStore.UndisturbedBegin | idemlease.go:142-147 | as for Redis, with the remaining time rounded to the nearest millisecond |
| PgStore.BeginMayBlameTheDatabase | idemlease.go:143-147 | a run in which that happens, with attempts 100 microseconds apart |
| PgStore.ReplayMayOutliveRecord | pgstore/pgstore.go:131-132 | a record read half a millisecond before its deadline is replayed at it |
| Backends.ReserveRefines | store.go:33-42 | on each of the three stores Reserve is the abstract claim for the lease granted, and Begin gets the holder with the remaining time at the store's grain |
| Backends.CompleteRefines | store.go:44-49 | on each store Complete is the abstract compare-and-set for the TTL granted |
| Backends.ReleaseRefines | store.go:51-54 | likewise for Release |
| Backends.EssenceDecides | idemlease.go:142-159 | the fields left out of a reply change no decision of Begin |
| StoresAgree.StoreSimulates | store.go:25-31 | from every well-formed state of each store, every sequence of Begin attempts, finishes and waits, with any positive TTLs and at any timing, gives exactly the answers of the abstract store at that grain |
| StoresAgree.AgreeAtAnyTiming | store.go:25-31 | with whole-millisecond TTLs and any timing, compared with an exact store: the same claims and answers to Finish; the same kind of answer, retryAfter off by less than a millisecond, exactly if the attempt is not read between the reported deadline and the real one |
| StoresAgree.ClearAwayFromDeadline | pgstore/pgstore.go:345-348 | a reading a millisecond or more away from the real deadline never falls between the two |
| StoresAgree.AlignedRun | pgstore/pgstore.go:345-348 | if all deadlines and delays are whole milliseconds the grain never shows |
| StoresAgree.ThreeStoresAgree | store.go:25-31 | from empty, the three stores make the same claims and answer every Finish alike if TTLs are whole milliseconds, and answer everything alike if delays are too |
| ConcreteRuns.StepSimulates | idemlease.go:119-187 | every step over each store, read through its abstraction, is the same step of the abstract protocol |
| ConcreteRuns.SameEnabled | idemlease.go:119-187 | over a store the same may happen next as in the abstract protocol |
| ConcreteRuns.HistoryIsAbstract | idemlease.go:119-187 | every run over each store has the history of an abstract run |
| ConcreteRuns.LeasesNeverOverlap | README.md:12-17 | on each store the windows of two claims of one key, with the leases really granted, are disjoint |
| ConcreteRuns.ReplayProvenance | idemlease.go:149-156 | on each store every replay has its Persist, with equal key, fingerprint and payload, unexpired up to the store's rounding |
| ConcreteRuns.OneEffectPerToken | httpidem/httpidem.go:330-341 | on each store a token claims once and is completed or released at most once |
| ConcreteRuns.ResultLastsAsAsked | idemlease.go:172-174 | on each store a Persist that took effect lasts for the record TTL of its execution as that store grants it |
| StoresAgree.ClampTellsStoresApart | pgstore/pgstore.go:182-196 | for every positive lease and every wait, the three stores answer a second Begin alike exactly when all leases are over or lease and wait are whole milliseconds; it claims on some stores only exactly between the two deadlines |
| CompleteTx.Database.CompleteTx | pgstore/pgstore.go:308-331 | under every schedule of the others: joined exactly when the update won the live reservation, and then the row has the token and payload until the transaction's start plus the TTL asked for; otherwise already completed or lease lost exactly as the caller's token does or does not hold the visible row live at the frozen clock |
| Schedules.OthersLeaveTransaction | pgstore/pgstore.go:304-307 | no other session touches a transaction's own view |
| Schedules.ReservationStays | pgstore/pgstore.go:138-170 | whatever others do without using its token, a reservation stays as it is until its deadline |
| Schedules.RunKeepsTold | pgstore/pgstore.go:294-301 | in every run an open transaction has its own version of a row exactly if it was told that it joined, under that token |
| TxJoinTheorems.AtMostOneCommitWhileValid | pgstore/pgstore.go:304-307 | of two committed transactions that were told (false, nil) for one key, the second commits no earlier than the first one's start plus the record TTL it asked for, leases that ran out meanwhile included |
| TxJoinTheorems.JoinedCommitsAreSpaced | pgstore/pgstore.go:304-307 | the same by the deadlines of the committed rows |
| TxJoinTheorems.JoinedResultIsShown | pgstore/pgstore.go:285-287 | once committed, a join's own token, payload and deadline are what every session reads until its start plus the TTL it asked for |
| TxJoinTheorems.TransactionsEnd | pgstore/pgstore.go:285-298 | a commit publishes exactly the transaction's own versions, a rollback nothing |
| TxJoinTheorems.StartIsFrozen | docs/design/pgstore-txjoin.md:32-36 | a transaction's now() stays the instant it began at |
| TxJoinTheorems.ExecuteIsTheStatement | pgstore/pgstore.go:138-177 | autocommit statements of others do what the store's statements do, at the instant they were issued |
| TxJoinTheorems.IssuedNow | pgstore/pgstore.go:138-177 | which is the clock's |
| TxJoinTheorems.JoinedRecordIsShown | pgstore/pgstore.go:285-287 | while a joined record is valid it is the committed, unlocked row of its key |
| TxJoinTheorems.VerdictIsRight | pgstore/pgstore.go:292-302 | lease lost exactly when the token does not hold the row live at the transaction start, already completed exactly when it does, in every reachable state |
| TxJoinTheorems.SecondCallIsDetected | pgstore/pgstore.go:299-301 | a repeated call in the same transaction neither waits nor writes and is answered already completed, however long the transaction stays open and whatever others do between its two statements |
| TxJoinTheorems.JoinsInTime | pgstore/pgstore.go:294-298 | if nobody else uses the caller's token, an update before the lease deadline joins under every schedule of the others |
| TxJoinTheorems.DeadlineIsExact | pgstore/pgstore.go:296-298 | for every unlocked reservation there is a schedule that reaches its deadline, never uses the token, and makes the update lose |
| TxJoinTheorems.AlreadyCompletedMeans | pgstore/pgstore.go:299-301 | that answer goes to a transaction that was told it joined, or else the committed row is the token's own completed record, live at the start, and the transaction has no version of it |
| TxJoinTheorems.AlreadyCompletedWithoutJoining | pgstore/pgstore.go:326-327 | a run with the second case |
| TxJoinTheorems.HeldAtStartIsNotEnough | pgstore/pgstore.go:296-298 | a run in which the token holds the key live at the transaction start and is still answered lease lost |
| TxJoinTheorems.HeldIsReachable | pgstore/pgstore.go:138-146 | the start of that run is reached from the empty table |
| TxJoinTheorems.CommitMayOutliveLease | pgstore/pgstore.go:304-307 | a join may commit after its lease deadline |
| TxJoinProofs.StepKeepsInv | pgstore/pgstore.go:138-177 | every statement, commit, rollback and tick keeps the invariant of rows, locks, pending versions and history |
| Uvarint.AppendUvarint | httpidem/storedresponse.go:40 | appends the minimal base-128 form |
| Uvarint.Uvarint | httpidem/storedresponse.go:118-122 | the library loop: value and length, and zero or less exactly on input that is truncated, overlong or beyond 64 bits |
| Uvarint.DecEnc | httpidem/storedresponse.go:25-26 | decoding undoes encoding whatever follows |
| Uvarint.DecExtend | httpidem/storedresponse.go:114-125 | more input never changes a decoded integer |
| Uvarint.EncIsShortest | httpidem/storedresponse.go:25-26 | the encoding is the shortest base-128 form of the integer |
| Uvarint.DecExactly | httpidem/storedresponse.go:118-122 | accepted are exactly base-128 integers of at most ten bytes that fit 64 bits, shortest or not, with the value they denote |
| Strings.SortCanonical | httpidem/storedresponse.go:50-54 | sorting forgets the order of the map iteration |
| Strings.IncreasingUnique | httpidem/storedresponse.go:54 | a set has one sorted listing |
| Strings.LessIsLexicographic | httpidem/storedresponse.go:54 | the order of names is by the first differing byte, prefixes first |
| Codec.MarshalBinary | httpidem/storedresponse.go:46-67 | the loops produce the encoding, and the error is always nil |
| Codec.AppendFields | httpidem/storedresponse.go:56-63 | appends exactly the named fields in order |
| Codec.EncodeIgnoresOrder | httpidem/storedresponse.go:44-45 | the encoding depends on the map's contents alone |
| Decoding.Decoder.Uvarint | httpidem/storedresponse.go:114-125 | takes an integer off the front or latches the error; a latched error freezes everything |
| Decoding.Decoder.ReadBytes | httpidem/storedresponse.go:127-139 | takes a length-prefixed string off the front or latches the error |
| Decoding.UnmarshalBinary | httpidem/storedresponse.go:71-106 | the loops with their late error check compute the format's parse, including both caps, the version and trailing bytes |
| CodecLaws.RoundTrip | httpidem/storedresponse.go:44-106 | decoding an encoding gives the response back without its empty fields exactly when the caps hold, and is refused otherwise |
| CodecLaws.CapsInNumbers | httpidem/storedresponse.go:34-37 | the caps are 1024 names and 1024 values a name |
| CodecLaws.VersionByte | httpidem/storedresponse.go:71-77 | empty and damaged payloads are corrupt, another version byte is unsupported, encodings have version 1 |
| CodecLaws.Layout | httpidem/storedresponse.go:21-26 | version, status, count, names in increasing order with their values, body |
| CodecLaws.FieldLayout | httpidem/storedresponse.go:56-63 | strings and lists carry their lengths |
| CodecLaws.EncodingsArePrefixFree | httpidem/storedresponse.go:99-101 | every strict prefix and every extension of an encoding is rejected |
| CodecLaws.AcceptedPayloadsArePrefixFree | httpidem/storedresponse.go:71-106 | no accepted payload, whoever wrote it, is a strict prefix of another |
| CodecLaws.EncodeInjective | httpidem/storedresponse.go:44-67 | equal payloads encode the same response up to empty fields |
| Headers.CanonIsCaseFolding | httpidem/recorder.go:51 | canonical names agree exactly for tokens that differ in case only, and canonicalising twice changes nothing |
| Headers.ExcludedInAnySpelling | httpidem/recorder.go:14-27 | no configured spelling lets an excluded header through |
| Headers.NeverAllowed | httpidem/recorder.go:14-27 | by name: none of the ten session-bearing and hop-by-hop headers is ever allowed, in any spelling |
| Headers.OthersAreAllowed | httpidem/recorder.go:48-58 | every other configured header is allowed, under its canonical name |
| Headers.CanonByBytes | httpidem/recorder.go:51 | canonical spelling, byte by byte |
| Headers.TokenBytes | httpidem/recorder.go:51 | the characters of a header name |
| Headers.SnapshotIsFiltered | httpidem/recorder.go:68-75 | the snapshot holds exactly the allowed names with values, and all their values |
| Recorder.Recorder.constructor | httpidem/recorder.go:48-58 | the allowlist is the canonical names without the excluded ones, and nothing is captured yet |
| Recorder.Recorder.RecordStatus | httpidem/recorder.go:64-75 | first final status and snapshot of the allowed headers, later calls ignored |
| Recorder.Recorder.RecordBody | httpidem/recorder.go:81-91 | appends until the limit would be passed, then drops everything |
| Recorder.Recorder.Abandon | httpidem/recorder.go:96-99 | the capture is void |
| Recorder.Recorder.Status | httpidem/recorder.go:103-108 | the recorded status, 200 if none |
| Recorder.Recorder.Response | httpidem/recorder.go:119-132 | the captured response, exactly when neither overflowed nor abandoned |
| Recorder.CaptureWriter.WriteHeader | httpidem/recorder.go:146-154 | new state of recorder, wrapper and wrapped writer |
| Recorder.CaptureWriter.Write | httpidem/recorder.go:156-162 | likewise, with the implicit 200 |
| Recorder.CaptureWriter.Flush | httpidem/recorder.go:180-186 | likewise; streaming voids the capture |
| Recorder.CaptureWriter.Hijack | httpidem/recorder.go:188-194 | likewise |
| Recorder.CaptureWriter.Finalize | httpidem/recorder.go:166-171 | likewise, the implicit 200 of a silent handler |
| Recorder.CaptureWriter.Run | httpidem/httpidem.go:274-296 | a whole handler leaves the state the fold of its calls gives |
| Recorder.FinishedBox.Mark | httpidem/reservation.go:70-74 | the flag is set |
| CapturingLaws.CaptureIsTransparent | httpidem/recorder.go:134-139 | the client gets the same through the wrapper as without it |
| CapturingLaws.ClientGets | httpidem/recorder.go:60-63 | the client gets the first final status, the header as it stood then, and all writes in order, up to the moment the connection is hijacked |
| CapturingLaws.CaptureIsWhatTheClientGot | httpidem/recorder.go:116-132 | usable exactly when nothing was streamed and the body fits; then every byte is there, the status is the client's exactly unless that was 101, and the headers are the allowed ones of that moment |
| CapturingLaws.NothingExcludedIsCaptured | httpidem/recorder.go:14-17 | no captured header is an excluded one in any spelling |
| CapturingLaws.SensitiveHeadersAreNotCaptured | httpidem/recorder.go:14-27 | by name: no Set-Cookie, Authorization, or other of the ten headers is captured, whatever is configured |
| CapturingLaws.OtherHeadersAreCaptured | httpidem/recorder.go:68-75 | every other configured header with values is captured with the values it had |
| CapturingLaws.FirstDecides | httpidem/recorder.go:60-67 | the first write, final status or flush decides: that status or 200, and the header set before it |
| CapturingLaws.SilentHandlers | httpidem/recorder.go:164-171 | a handler that does none of these gets 200 and the header it left |
| CapturingLaws.ReadingsByCall | httpidem/recorder.go:81-99 | the body is all that was written, the header the last that was set, streaming a flush or hijack that began |
| Replay.WriteStored | httpidem/reservation.go:88-96 | headers merged in any order, then status, then body |
| Replay.WriteReplay | httpidem/httpidem.go:353-371 | refuses an oversized or undecodable payload without touching the writer, otherwise serves what it decodes to |
| Replay.ReplayIsMarked | httpidem/httpidem.go:367-369 | with the option on a replay carries Idempotency-Replayed: true, and differs in nothing else |
| Replay.RefusalsExactly | httpidem/httpidem.go:354-366 | exactly which payloads are refused and why |
| Replay.CapturedIsServed | httpidem/httpidem.go:353-371 | a captured response is served as captured exactly when within the caps and the size limit, and refused otherwise |
| Replay.CompletedIsReplayed | store.go:44-49 | a completed record is replayed to every later Begin with its fingerprint until it expires, whichever store reports it |
| Replay.ExpiredIsNotReplayed | store.go:35-42 | from the deadline on the next Reserve claims the key |
| Replay.EndToEnd | httpidem/httpidem.go:353-371 | any handler, captured, encoded, completed and looked up again: the replay serves the status first fixed, the allowed headers of that moment and all writes |
| Replay.LiveIsReplayed | httpidem/reservation.go:82-87 | a response written live equals every replay that is not refused exactly if its fields without values were there before |
| Replay.ClearedHeaderComesBack | httpidem/reservation.go:82-87 | a live response that clears a header set before it, and its replay that does not |
| Replay.PayloadSize | httpidem/httpidem.go:44-48 | a payload is its framing and its body, give or take nine bytes |
| Replay.SmallFramingIsReplayable | httpidem/httpidem.go:44-48 | framing within 64 KiB less nine bytes never makes an accepted body unreplayable |
| Replay.ValueInPayload | httpidem/storedresponse.go:56-63 | a payload is no shorter than any header value in it |
| Replay.LongHeaderIsNeverServed | httpidem/httpidem.go:44-48 | a captured header value longer than the replay limit makes every replay of its payload fail |
| Middleware.Finish | idemlease.go:171-187 | how a Finish call ends, store panics included |
| Middleware.ServeProceed | httpidem/httpidem.go:273-351 | for every handler, policy and store behaviour: which Finish calls are issued, in which order, with which payload, and whether the panic goes on; the client sees the handler's own response |
| Middleware.FinishAfterReturn | httpidem/httpidem.go:305-341 | the decision adjusted to the capture, its payload, and the best-effort release |
| Middleware.ThreeFinishCalls | httpidem/httpidem.go:283-341 | a failed Persist and a panicking release lead to three calls |
| Middleware.FinishedFlag | httpidem/reservation.go:40-51 | the flag is set exactly when the handler marked it |
| Middleware.AccountingMeans | httpidem/httpidem.go:283-341 | a panic of the handler or the policy goes on after one Discard, and a record the handler finished is left alone; at most one Persist, first, with the encoding of an unstreamed response that fits; a failed Persist or a panic is followed by a Discard |
| Middleware.CallsAfterReturn | httpidem/httpidem.go:305-341 | after a handler that returned: the exact calls, and whether a panic goes on, for each decision, fate of the capture and behaviour of the store |
| Middleware.EndOfTable | idemlease.go:171-187 | exactly how each Finish ends |
| WholeSystem.MiddlewarePersistsCaptures | httpidem/httpidem.go:305-328 | whatever a run of the middleware persists encodes the usable capture of that token's handler |
| WholeSystem.EveryReplayServesOneHandler | httpidem/httpidem.go:260-371 | in every concurrent run whose executions finish as the middleware does, or die half-way, every replay serves the response of one earlier handler under the same key and fingerprint |
| WholeSystem.EveryReplayOverRealStores | httpidem/httpidem.go:260-371 | the same over each of the three stores |
| WholeSystem.RejectedClientWaitsLongEnough | httpidem/httpidem.go:264-267 | on the in-memory store a rejected client that waits as told finds the reservation gone, exactly for leases up to 2^63 - 10^9 ns |
| RetryAfter.SecondsIsCeiling | httpidem/httpidem.go:419-427 | the least number of seconds covering the lease, exactly as long as the sum does not overflow |
| RetryAfter.SecondsInNumbers | httpidem/httpidem.go:419-427 | in nanoseconds: whole seconds as they are, one nanosecond more is the next second, never less than one |
| RetryAfter.WaitingOutlivesTheLease | httpidem/httpidem.go:419-427 | waiting that long passes the deadline |
| Keys.ParseSFString | httpidem/key.go:58-89 | the scan computes the recursive unescaping |
| Keys.QuotedExactly | httpidem/key.go:55-57 | accepted quoted forms are exactly the RFC 8941 serialisations of printable strings, each decoding to its string |
| Keys.EscapeByBytes | httpidem/key.go:55-57 | a backslash before every quote and backslash, nothing else |
| Keys.ParseKey | httpidem/key.go:29-53 | key or error, with the first control byte or the length reported |
| Keys.KeyFromHeader | httpidem/key.go:94-104 | none, one or several header values |
| Keys.KeyExactly | httpidem/key.go:17-28 | which trimmed values name which key, both directions |
| Keys.TrimExactly | httpidem/key.go:30 | trimming takes off exactly the outer spaces and tabs |
| Keys.ValuesNamingKey | httpidem/key.go:17-28 | in bytes: which header values name which key, both directions |
| Keys.RawKeysAsTheyAre | httpidem/key.go:19-22 | raw keys, non-ASCII bytes included, are taken as they are |
| Keys.RefusedValues | httpidem/key.go:29-53 | in bytes: each error exactly for the values it is meant for |
| Keys.AcceptedKeysHaveNoControl | httpidem/httpidem.go:239-240 | accepted keys have 1 to 255 bytes and no control byte |
| Keys.BothFormsNameTheKey | httpidem/key.go:24-26 | a printable key can be sent quoted, and raw unless it starts with a quote or has outer spaces, with any padding |
| Keys.StoreKeysNeverCollide | httpidem/httpidem.go:236-244 | equal store keys imply equal scope and key, whatever the scopes contain |
| Keys.StoreKeyInBytes | httpidem/httpidem.go:236-244 | scope, NUL and key, or the key alone |
| Fingerprints.Fingerprint | httpidem/fingerprint.go:21-31 | the successive writes hash the preimage |
| Fingerprints.PreimageInBytes | httpidem/fingerprint.go:21-31 | method, line feed, path, question mark, query, line feed, body |
| Fingerprints.UpperByBytes | httpidem/fingerprint.go:23 | the method in upper case, byte by byte |
| Fingerprints.PreimageUnambiguous | httpidem/fingerprint.go:10-13 | well-formed requests with equal preimages agree on method, path, query and body |
| Fingerprints.NewlineInQueryIsAmbiguous | httpidem/fingerprint.go:10-13 | two requests with different bodies share a preimage when a query may hold a newline |
| Fingerprints.NewlineInMethodIsAmbiguous | httpidem/fingerprint.go:10-13 | two requests with different methods and bodies share a preimage when a method may hold a newline |
| Fingerprints.QuestionMarkInPathWouldBeAmbiguous | httpidem/fingerprint.go:10-13 | necessity only, not an input that occurs: with a question mark in the escaped path two requests would share a preimage |

## Left out

- Exactly-once execution, FailOpen, pass-through of keyless and large requests: they run without a lease by design.
- Network, drivers, contexts, logging, options and the error writer: calls are atomic steps with a parameter for their outcome; errors of the Redis client appear as lost calls in `Protocol` only.
- SHA-256 and the randomness of tokens: the hash is a parameter, tokens are distinct names.
- The SQL text itself: statements are functions on rows; the physical NULL of the payload is an option.
- `Sweep` as two queries: the join model deletes one expired row in one step, while the real outer DELETE re-checks only the key.
- Row locks taken by an update that matched nothing after a wait: they are not kept in the model, which only lets more happen.
- Clock skew between nodes, and travel time: readers use the store's clock, a TTL is computed and deadlines are rebuilt at the instant the statement runs. A request on its way really lengthens the lease, and an answer on its way the reported one.
- Redis's own clock, which moves in whole milliseconds, is taken to be as fine as the others; a key that Redis keeps, with a PTTL of 0, during the millisecond of its deadline is gone at the deadline.
- `redistore.Get`, `pgstore.Get`, the Redis key prefix, and the decimal text of numbers.
- RediStore.RecordFromReply: replies of the wrong element count or types, which the scripts never return.
- What a business transaction does besides CompleteTx; callers are assumed to roll back when told that the lease is lost, so only transactions told (false, nil) count as business commits.
- Aliasing of header value slices and buffers: the source copies them, the model has values.
- What net/http does with status, header and body on the connection (no body for 204 and 304, Content-Length), server push, and its panic on status codes outside 100 to 999, which a handler script shows as a panic.
- `strings.ToUpper` beyond ASCII, and `time.Time.Sub` saturating at 292 years.
- The replay policy table and configuration defaults: the policy is an arbitrary function.
- The grpc, gin and errtrail adapters, JSON error bodies and the conformance suite.
