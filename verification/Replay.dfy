/** Serving a stored response again, and why a replay is the response the first client got. */
module Replay {
  import opened Basics
  import opened Records
  import opened Codec
  import opened Strings
  import opened Decoding
  import opened CodecLaws
  import opened Headers
  import opened Capturing
  import opened CapturingLaws
  import opened Recorder
  import A = AbstractStore
  import Lease
  import U = Uvarint

  const MAX_OVERHEAD: nat := 64 * 1024
  const REPLAYED: Bytes := Ascii("Idempotency-Replayed")

  datatype Refusal = TooLarge | Undecodable(error: DecodeError)

  /** The header a replay starts from. */
  function Marked(base: Header, show: bool): Header {
    if show then base[REPLAYED := [Ascii("true")]] else base
  }

  /** What `WriteStored` puts on a writer with the given header. */
  function Written(w: Wire, header: Header, sr: StoredResponse): Wire {
    Send(Fix(w, sr.statusCode, header + sr.header), sr.body, header + sr.header)
  }

  /** What the client of a replay gets on a fresh writer whose header is base. */
  function Served(payload: Bytes, maxBody: int, show: bool, base: Header): Result<Wire, Refusal> {
    if |payload| > maxBody + MAX_OVERHEAD then Err(TooLarge)
    else
      match Decode(payload)
      case Err(e) => Err(Undecodable(e))
      case Ok(sr) => Ok(Written(SILENCE, Marked(base, show), sr))
  }

  /** `WriteStored`. */
  method WriteStored(w: ResponseWriter, sr: StoredResponse)
    modifies w
    ensures w.header == old(w.header) + sr.header
    ensures w.wire == Written(old(w.wire), old(w.header), sr)
  {
    var left := sr.header.Keys;
    while left != {}
      invariant left <= sr.header.Keys
      invariant w.wire == old(w.wire)
      invariant w.header == old(w.header) + (sr.header - left)
      decreases left
    {
      var name :| name in left;
      w.header := w.header[name := sr.header[name]];
      left := left - {name};
    }
    assert sr.header - left == sr.header;
    w.WriteHeader(sr.statusCode);
    w.Write(sr.body);
  }

  /** `writeReplay`; a refusal leaves the writer to the error writer. */
  method WriteReplay(w: ResponseWriter, payload: Bytes, maxBody: int, show: bool) returns (refused: Option<Refusal>)
    requires w.wire == SILENCE
    modifies w
    ensures match Served(payload, maxBody, show, old(w.header))
            case Err(why) => refused == Some(why) && w.wire == SILENCE && w.header == old(w.header)
            case Ok(wire) => refused.None? && w.wire == wire
  {
    hide Decode;
    if |payload| > maxBody + MAX_OVERHEAD {
      return Some(TooLarge);
    }
    var r := UnmarshalBinary(payload);
    if r.Err? {
      return Some(Undecodable(r.error));
    }
    if show {
      w.header := w.header[REPLAYED := [Ascii("true")]];
    }
    WriteStored(w, r.value);
    return None;
  }

  // ---------------------------------------------------------------- fidelity

  /** A captured response is served again as it was captured, exactly when it is within the limits of
      the decoder and of the replay; otherwise the replay is refused. */
  lemma CapturedIsServed(header: Header, calls: seq<Call>, limits: Limits, show: bool, base: Header)
    requires ValidCodes(calls)
    requires Usable(Captured(header, calls, limits)) && Addressable(Stored(Captured(header, calls, limits)))
    ensures var sr := Stored(Captured(header, calls, limits));
            var served := Served(Encode(sr), limits.maxBody, show, base);
            && (served.Ok? <==> WithinCaps(sr) && |Encode(sr)| <= limits.maxBody + MAX_OVERHEAD)
            && (served.Ok? ==> served.value == Wire(sr.statusCode, Marked(base, show) + sr.header, sr.body, false))
  {
    hide Captured, Encode, Decode, Addressable, Marked;
    var c := Captured(header, calls, limits);
    var sr := Stored(c);
    RoundTrip(sr);
    CapturedNames(header, calls, limits);
    assert WithoutEmptyFields(sr.header) == sr.header;
    CapturedStatusIsFinal(header, calls, limits);
    assert SILENCE.body + sr.body == sr.body;
  }

  lemma CapturedStatusIsFinal(header: Header, calls: seq<Call>, limits: Limits)
    requires ValidCodes(calls) && Usable(Captured(header, calls, limits))
    ensures StatusOf(Captured(header, calls, limits)) >= 200
  {
    hide Snapshot, After;
    CaptureIsWhatTheClientGot(header, calls, limits);
    CaptureFollows(header, calls, limits);
  }

  /** A completed record is replayed to every later Begin with the same fingerprint until it expires. */
  lemma CompletedIsReplayed(s: A.Entries, key: Bytes, token: Bytes, payload: Bytes, until: Time,
                            again: Bytes, askedAt: Time, readAt: Time, lease: Time, attempt: nat)
    requires A.HeldBy(s, key, token) && askedAt <= readAt < until
    ensures var (s', effect) := A.Complete(s, key, token, payload, until);
            var (_, holder) := A.Claim(A.Prune(s', askedAt), key, again, s[key].fingerprint, lease);
            && effect && holder.Some?
            && forall r | A.SameRecord(r, holder.value) ::
                 Lease.Judge(attempt, Lease.Exists(Some(r)), readAt, s[key].fingerprint, again)
                   == Lease.Settled(Lease.Replay(payload))
  {
  }

  /** From its deadline on it is gone: the next Reserve claims the key. */
  lemma ExpiredIsNotReplayed(s: A.Entries, key: Bytes, token: Bytes, payload: Bytes, until: Time,
                             again: Bytes, fp: Bytes, askedAt: Time, lease: Time)
    requires A.HeldBy(s, key, token) && until <= askedAt
    ensures var (s', _) := A.Complete(s, key, token, payload, until);
            A.Claim(A.Prune(s', askedAt), key, again, fp, lease).1 == None
  {
  }

  /** End to end: whatever the handler did, once its response is captured, encoded and completed, every
      Begin with the same fingerprint before the record expires is told to replay a payload that serves
      the status first fixed, the allowed headers as they stood at that moment and all writes in order;
      it is refused exactly when the limits are exceeded. */
  lemma EndToEnd(header: Header, calls: seq<Call>, limits: Limits, show: bool, base: Header,
                 s: A.Entries, key: Bytes, token: Bytes, until: Time,
                 again: Bytes, askedAt: Time, readAt: Time, lease: Time, r: Record)
    requires ValidCodes(calls) && FixedStatus(calls) != SWITCHING_PROTOCOLS
    requires !Streams(calls) && Fits(calls, limits.maxBody)
    requires Addressable(Stored(Captured(header, calls, limits)))
    requires A.HeldBy(s, key, token) && askedAt <= readAt < until
    requires var payload := Encode(Stored(Captured(header, calls, limits)));
             var (s', _) := A.Complete(s, key, token, payload, until);
             var (_, holder) := A.Claim(A.Prune(s', askedAt), key, again, s[key].fingerprint, lease);
             holder.Some? ==> A.SameRecord(r, holder.value)
    ensures var sr := Stored(Captured(header, calls, limits));
            var next := Lease.Judge(1, Lease.Exists(Some(r)), readAt, s[key].fingerprint, again);
            && next == Lease.Settled(Lease.Replay(Encode(sr)))
            && var served := Served(next.outcome.payload, limits.maxBody, show, base);
               && (served.Ok? <==> WithinCaps(sr) && |Encode(sr)| <= limits.maxBody + MAX_OVERHEAD)
               && (served.Ok? ==>
                     served.value == Wire(FixedStatus(calls),
                                          Marked(base, show) + Snapshot(FixedHeader(header, calls), limits.allow),
                                          AllWrites(calls), false))
  {
    hide Captured, Encode, Decode, Addressable, Marked, Snapshot, WithinCaps, Served, Streams, Fits, Stored,
      A.Claim, A.Complete, A.Prune, A.SameRecord, Lease.Judge;
    CaptureIsWhatTheClientGot(header, calls, limits);
    CapturedIsServed(header, calls, limits, show, base);
    CompletedIsReplayed(s, key, token, Encode(Stored(Captured(header, calls, limits))), until,
                        again, askedAt, readAt, lease, 1);
  }

  // ---------------------------------------------------------------- when the overhead is enough

  /** What precedes the body in a payload. */
  ghost function Framing(sr: StoredResponse): int {
    |Encode(sr.(body := []))| - 1
  }

  lemma {:induction false} EncLength(n: nat, groups: nat, limit: nat)
    requires n < limit && limit == Power128(groups) && groups > 0
    ensures |U.Enc(n)| <= groups
    decreases groups
  {
    if n >= 128 {
      EncLength(n / 128, groups - 1, Power128(groups - 1));
    }
  }

  function Power128(groups: nat): nat {
    if groups == 0 then 1 else 128 * Power128(groups - 1)
  }

  lemma PayloadSize(sr: StoredResponse)
    requires |sr.body| < TWO_63
    ensures Framing(sr) + |sr.body| < |Encode(sr)| <= Framing(sr) + 9 + |sr.body|
  {
    hide EncFields, U.Enc;
    assert Power128(9) == TWO_63;
    EncLength(|sr.body|, 9, TWO_63);
    EncLength(0, 1, Power128(1));
  }

  /** Status and headers of up to 64 KiB less nine bytes always leave the payload replayable, however
      large the body the capture accepted. */
  lemma SmallFramingIsReplayable(header: Header, calls: seq<Call>, limits: Limits)
    requires ValidCodes(calls) && limits.maxBody >= 0
    requires Usable(Captured(header, calls, limits)) && Addressable(Stored(Captured(header, calls, limits)))
    requires Framing(Stored(Captured(header, calls, limits))) + 9 <= MAX_OVERHEAD
    ensures |Encode(Stored(Captured(header, calls, limits)))| <= limits.maxBody + MAX_OVERHEAD
  {
    hide Captured, Encode, Framing;
    CaptureIsWhatTheClientGot(header, calls, limits);
    PayloadSize(Stored(Captured(header, calls, limits)));
    WritesAreAll(calls);
  }

  lemma {:induction false} WritesAreAll(calls: seq<Call>)
    ensures !SomeWrite(calls) ==> AllWrites(calls) == []
  {
    if |calls| > 0 {
      WritesAreAll(Init(calls));
      CallsGrow(calls);
    }
  }

  // ---------------------------------------------------------------- and when it is not

  lemma {:induction false} ValueInValues(values: seq<Bytes>, j: nat)
    requires j < |values|
    ensures |EncValues(values)| >= |values[j]|
  {
    if j > 0 {
      ValueInValues(values[1..], j - 1);
    }
  }

  lemma {:induction false} ValueInFields(names: seq<Bytes>, header: Header, k: nat, j: nat)
    requires forall i :: 0 <= i < |names| ==> names[i] in header
    requires k < |names| && j < |header[names[k]]|
    ensures |EncFields(names, header)| >= |header[names[k]][j]|
  {
    if k > 0 {
      ValueInFields(names[1..], header, k - 1, j);
    } else {
      ValueInValues(header[names[0]], j);
    }
  }

  lemma ValueInPayload(sr: StoredResponse, name: Bytes, j: nat)
    requires name in sr.header && j < |sr.header[name]|
    ensures |Encode(sr)| >= |sr.header[name][j]|
  {
    hide EncFields, EncString, U.Enc, Sort;
    var order := SomeOrder(sr.header.Keys);
    SortedNamesInHeader(sr.header, order);
    var names := Sort(order);
    assert name in Elements(names);
    var k :| 0 <= k < |names| && names[k] == name;
    ValueInFields(names, sr.header, k, j);
  }

  /** The capture bounds the body but not the headers: an allowed header value longer than the whole
      limit of the replay is captured, encoded and kept, and then refused every time. */
  lemma LongHeaderIsNeverServed(name: Bytes, value: Bytes, limits: Limits, show: bool, base: Header)
    requires name in limits.allow && Canon(name) == name && |value| > limits.maxBody + MAX_OVERHEAD
    ensures var c := Captured(map[name := [value]], [], limits);
            Usable(c) && Served(Encode(Stored(c)), limits.maxBody, show, base) == Err(TooLarge)
  {
    hide Encode;
    var c := Captured(map[name := [value]], [], limits);
    assert name in Stored(c).header && Stored(c).header[name] == [value];
    ValueInPayload(Stored(c), name, 0);
  }

  // ---------------------------------------------------------------- writing live and replaying

  /** Fields without values change nothing where the header already has them so. */
  ghost predicate EmptyFieldsAreThere(header: Header, base: Header) {
    forall name :: name in header && header[name] == [] ==> name in base && base[name] == []
  }

  /** A response written live with WriteStored and persisted is the response of every replay that is not
      refused, from the same header to begin with, exactly if its fields without values, which the payload
      does not keep, were there before. */
  lemma LiveIsReplayed(sr: StoredResponse, maxBody: int, show: bool, base: Header)
    requires Addressable(sr)
    ensures var served := Served(Encode(sr), maxBody, show, base);
            && (served.Ok? <==> WithinCaps(sr) && |Encode(sr)| <= maxBody + MAX_OVERHEAD)
            && (served.Ok? ==>
                  (served.value == Written(SILENCE, Marked(base, show), sr)
                   <==> EmptyFieldsAreThere(sr.header, Marked(base, show))))
  {
    hide Encode, Decode, Addressable, Marked, WithinCaps;
    RoundTrip(sr);
    var b := Marked(base, show);
    var kept := WithoutEmptyFields(sr.header);
    if EmptyFieldsAreThere(sr.header, b) {
      assert b + kept == b + sr.header;
    } else {
      var name :| name in sr.header && sr.header[name] == [] && !(name in b && b[name] == []);
      assert (b + sr.header)[name] == [] && name !in kept;
      assert name in b + kept ==> (b + kept)[name] == b[name];
      assert b + kept != b + sr.header;
    }
  }

  /** The live response clears a header that an outer middleware set; its replay does not. */
  lemma ClearedHeaderComesBack(name: Bytes, value: Bytes)
    requires |name| < TWO_63
    ensures var sr := StoredResponse(OK, map[name := []], []);
            var base := map[name := [value]];
            && Written(SILENCE, base, sr).header == map[name := []]
            && var served := Served(Encode(sr), |Encode(sr)|, false, base);
               served.Ok? && served.value.header == map[name := [value]]
  {
    hide Encode, Decode;
    var sr := StoredResponse(OK, map[name := []], []);
    var base: Header := map[name := [value]];
    RoundTrip(sr);
    assert WithoutEmptyFields(sr.header) == map[];
    assert base + map[] == base;
  }

  // ---------------------------------------------------------------- marks and refusals

  /** With show on, a replay carries `Idempotency-Replayed: true`, unless the stored response has a header
      of that name itself; otherwise show changes nothing. */
  lemma ReplayIsMarked(payload: Bytes, maxBody: int, base: Header, name: Bytes)
    ensures var plain, shown := Served(payload, maxBody, false, base), Served(payload, maxBody, true, base);
            && (plain.Ok? <==> shown.Ok?)
            && (plain.Err? ==> plain == shown)
            && (plain.Ok? ==>
                  var mark := Ascii("Idempotency-Replayed");
                  && Decode(payload).Ok?
                  && plain.value.(header := map[]) == shown.value.(header := map[])
                  && mark in shown.value.header
                  && (mark !in Decode(payload).value.header ==> shown.value.header[mark] == [Ascii("true")])
                  && (name != mark ==>
                        && (name in shown.value.header <==> name in plain.value.header)
                        && (name in plain.value.header ==> shown.value.header[name] == plain.value.header[name])))
  {
    hide Decode;
  }

  /** The two refusals: more than the body limit and 64 KiB, or not decodable, with the decoder's error. */
  lemma RefusalsExactly(payload: Bytes, maxBody: int, show: bool, base: Header, e: DecodeError)
    ensures var served := Served(payload, maxBody, show, base);
            && (served == Err(TooLarge) <==> |payload| > maxBody + 65536)
            && (served == Err(Undecodable(e)) <==> |payload| <= maxBody + 65536 && Decode(payload) == Err(e))
            && (served.Ok? <==> |payload| <= maxBody + 65536 && Decode(payload).Ok?)
  {
    hide Decode;
  }
}
