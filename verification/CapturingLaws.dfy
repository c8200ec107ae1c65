/** Why the capture is the response the client got. */
module CapturingLaws {
  import opened Basics
  import opened Codec
  import opened Headers
  import opened Capturing

  // ---------------------------------------------------------------- what the client gets

  lemma FixedAtGrows(header: Header, calls: seq<Call>)
    requires |calls| > 0
    ensures var before, last := Init(calls), Last(calls);
            && (FixedAt(before) < |before| ==>
                  FixedAt(calls) < |calls| && FixedStatus(calls) == FixedStatus(before)
                  && FixedHeader(header, calls) == FixedHeader(header, before))
            && (FixedAt(before) == |before| && Fixes(last) ==>
                  FixedAt(calls) < |calls| && FixedStatus(calls) == (if last.WriteHeader? then last.code else OK)
                  && FixedHeader(header, calls) == HeaderAfter(header, before))
            && (FixedAt(before) == |before| && !Fixes(last) ==> FixedAt(calls) == |calls|)
  {
    assert calls[..FixedAt(Init(calls))] == Init(calls)[..FixedAt(Init(calls))];
  }

  /** Wrapping the writer changes nothing for the client: not the status, not the header that goes
      with it, not a byte of the body. */
  lemma {:induction false} CaptureIsTransparent(header: Header, calls: seq<Call>, limits: Limits)
    ensures var s := After(header, calls, limits);
            s.header == HeaderAfter(header, calls) && s.wire == Unwrapped(header, calls)
  {
    if |calls| > 0 {
      CaptureIsTransparent(header, Init(calls), limits);
    }
  }

  /** And what the client gets is the first final status, the header as it stood at that call, and
      every write in order, up to the moment the connection is hijacked. */
  lemma {:induction false} ClientGets(header: Header, calls: seq<Call>)
    requires ValidCodes(calls)
    ensures Got(header, UntilHijack(calls), Unwrapped(header, calls))
    ensures Unwrapped(header, calls).hijacked <==> UntilHijack(calls) != calls
  {
    hide FixedAt, FixedStatus, FixedHeader, Fix, Send, Fixes, Got, Direct;
    if |calls| == 0 {
      NothingGot(header);
    } else {
      CallsGrow(calls);
      ClientGets(header, Init(calls));
      var w := Unwrapped(header, Init(calls));
      if w.hijacked || Last(calls) == Hijack(true) {
        HijackedStays(w, HeaderAfter(header, Init(calls)), Last(calls));
        GotRegardless(header, UntilHijack(Init(calls)), w);
        if !w.hijacked {
          assert UntilHijack(calls) != calls by { ShorterInit(calls); }
        } else {
          assert UntilHijack(calls) != calls by { UntilHijackIsPrefix(Init(calls)); }
        }
      } else {
        GotGrows(header, calls, w);
      }
    }
  }

  lemma ShorterInit(calls: seq<Call>)
    requires |calls| > 0
    ensures Init(calls) != calls
  {
    assert |Init(calls)| < |calls|;
  }

  lemma {:induction false} UntilHijackIsPrefix(calls: seq<Call>)
    ensures |UntilHijack(calls)| <= |calls|
  {
    if |calls| > 0 {
      UntilHijackIsPrefix(Init(calls));
    }
  }

  lemma {:induction false} NoHijack(calls: seq<Call>)
    requires !Streams(calls)
    ensures UntilHijack(calls) == calls
  {
    if |calls| > 0 {
      CallsGrow(calls);
      NoHijack(Init(calls));
    }
  }

  lemma HijackedStays(w: Wire, h: Header, call: Call)
    requires w.hijacked || call == Hijack(true)
    ensures Direct(w, h, call) == w.(hijacked := true)
  {
  }

  lemma NothingGot(header: Header)
    ensures Got(header, [], SILENCE)
  {
  }

  /** Being hijacked does not change what was sent before. */
  lemma GotRegardless(header: Header, calls: seq<Call>, w: Wire)
    requires Got(header, calls, w)
    ensures Got(header, calls, w.(hijacked := true))
  {
  }

  lemma GotGrows(header: Header, calls: seq<Call>, w: Wire)
    requires |calls| > 0 && ValidCodes(calls) && Got(header, Init(calls), w)
    requires !w.hijacked && Last(calls) != Hijack(true)
    ensures Got(header, calls, Direct(w, HeaderAfter(header, Init(calls)), Last(calls)))
    ensures !Direct(w, HeaderAfter(header, Init(calls)), Last(calls)).hijacked
  {
    hide FixedAt, FixedStatus, FixedHeader, Fix, Send, Direct;
    CallsGrow(calls);
    FixedAtGrows(header, calls);
    WireStep(w, HeaderAfter(header, Init(calls)), Last(calls));
  }

  /** The calls fixed this status and header, and wrote this body. */
  ghost predicate Got(header: Header, calls: seq<Call>, w: Wire) {
    && w.body == AllWrites(calls)
    && (FixedAt(calls) == |calls| ==> w.status == 0 && w.header == map[])
    && (FixedAt(calls) < |calls| ==> w.status == FixedStatus(calls) != 0 && w.header == FixedHeader(header, calls))
  }

  /** How one call made on the wrapped writer directly shows. */
  lemma WireStep(w: Wire, h: Header, call: Call)
    requires !w.hijacked && call != Hijack(true)
    ensures var w' := Direct(w, h, call);
            && !w'.hijacked
            && (w.status != 0 || !Fixes(call) ==> w' == w.(body := w'.body))
            && (w.status == 0 && Fixes(call) ==>
                  w'.header == h && w'.status == if call.WriteHeader? then call.code else OK)
            && w'.body == w.body + (if call.Write? then call.p else [])
  {
  }

  lemma CallsGrow(calls: seq<Call>)
    requires |calls| > 0
    ensures ValidCodes(calls) ==> ValidCodes(Init(calls))
    ensures ValidCodes(calls) && Last(calls).WriteHeader? ==> 100 <= Last(calls).code <= 999
    ensures Streams(calls) <==> Streams(Init(calls)) || IsStreaming(Last(calls))
    ensures SomeWrite(calls) <==> SomeWrite(Init(calls)) || Last(calls).Write?
  {
    assert forall i :: 0 <= i < |Init(calls)| ==> Init(calls)[i] == calls[i];
    assert calls == Init(calls) + [Last(calls)];
  }

  // ---------------------------------------------------------------- what is captured

  /** As long as nothing was streamed, the capture has the client's status and the allowed part of
      its header; only a 101 it never learns of. */
  ghost predicate Follows(s: Scene, allow: set<Bytes>) {
    && !s.wire.hijacked
    && (s.wire.status == 0 ==> !s.wroteHeader)
    && (s.wroteHeader <==> s.cap.status != 0)
    && (s.wroteHeader ==> s.cap.status >= 200)
    && (s.wire.status != 0 && s.wire.status != SWITCHING_PROTOCOLS ==>
          s.cap.status == s.wire.status && s.cap.header == Some(Snapshot(s.wire.header, allow)))
  }

  lemma {:induction false} CaptureFollows(header: Header, calls: seq<Call>, limits: Limits)
    requires ValidCodes(calls) && !Streams(calls)
    ensures Follows(After(header, calls, limits), limits.allow)
  {
    hide Snapshot, Step, Follows;
    if |calls| == 0 {
      StartFollows(header, limits.allow);
    } else {
      CallsGrow(calls);
      CaptureFollows(header, Init(calls), limits);
      StepFollows(After(header, Init(calls), limits), Last(calls), limits);
    }
  }

  lemma StartFollows(header: Header, allow: set<Bytes>)
    ensures Follows(Start(header), allow)
  {
  }

  lemma StepFollows(s: Scene, call: Call, limits: Limits)
    requires Follows(s, limits.allow) && !IsStreaming(call)
    requires call.WriteHeader? ==> 100 <= call.code <= 999
    ensures Follows(Step(s, call, limits), limits.allow)
  {
    hide Snapshot;
  }

  /** The capture is given up exactly when the response was streamed or outgrew the limit; otherwise
      it has every byte that was written. */
  lemma {:induction false} CaptureKeepsBody(header: Header, calls: seq<Call>, limits: Limits)
    ensures var c := After(header, calls, limits).cap;
            && (c.abandoned <==> Streams(calls))
            && (!c.abandoned ==> (c.overflowed <==> !Fits(calls, limits.maxBody)))
            && (Usable(c) ==> c.body == AllWrites(calls))
  {
    hide Snapshot, Step, Streams;
    if |calls| == 0 {
      assert !Streams(calls) by { NothingStreams(calls); }
    } else {
      CallsGrow(calls);
      CaptureKeepsBody(header, Init(calls), limits);
      StepBody(After(header, Init(calls), limits), Last(calls), limits);
    }
  }

  lemma NothingStreams(calls: seq<Call>)
    requires |calls| == 0
    ensures !Streams(calls)
  {
  }

  lemma StepBody(s: Scene, call: Call, limits: Limits)
    ensures var c, c' := s.cap, Step(s, call, limits).cap;
            && (c'.abandoned <==> c.abandoned || IsStreaming(call))
            && (!call.Write? ==> c'.overflowed == c.overflowed && (Usable(c') ==> c'.body == c.body))
            && (call.Write? && !c.abandoned ==>
                  (c'.overflowed <==> c.overflowed || |c.body + call.p| > limits.maxBody))
            && (call.Write? && Usable(c') ==> c'.body == c.body + call.p)
  {
    hide Snapshot;
  }

  /** For every sequence of calls: the capture is usable exactly when nothing was streamed and the body
      fits; it then holds every byte written; it has the status the client got unless that was 101;
      and with the status comes the allowed part of the header as it stood at that moment. */
  lemma CaptureIsWhatTheClientGot(header: Header, calls: seq<Call>, limits: Limits)
    requires ValidCodes(calls)
    ensures var c := Captured(header, calls, limits);
            && (Usable(c) <==> !Streams(calls) && Fits(calls, limits.maxBody))
            && (Usable(c) ==> c.body == AllWrites(calls))
            && (Usable(c) ==> (StatusOf(c) == FixedStatus(calls) <==> FixedStatus(calls) != SWITCHING_PROTOCOLS))
            && (Usable(c) && FixedStatus(calls) != SWITCHING_PROTOCOLS ==>
                  Stored(c) == StoredResponse(FixedStatus(calls),
                                              Snapshot(FixedHeader(header, calls), limits.allow),
                                              AllWrites(calls)))
  {
    hide Snapshot, Unwrapped, HeaderAfter, After, AllWrites, Streams, Fits;
    CaptureKeepsBody(header, calls, limits);
    if !Streams(calls) {
      CaptureFollows(header, calls, limits);
      CaptureIsTransparent(header, calls, limits);
      ClientGets(header, calls);
      NoHijack(calls);
      if FixedAt(calls) == |calls| {
        assert calls[..|calls|] == calls;
      }
    }
  }

  /** No captured header is one of the excluded ones, however either is spelt. */
  lemma NothingExcludedIsCaptured(header: Header, calls: seq<Call>, maxBody: int, names: seq<Bytes>,
                                  name: Bytes, excluded: Bytes)
    requires ValidCodes(calls) && excluded in ALWAYS_EXCLUDED
    requires var c := Captured(header, calls, Limits(maxBody, Allowed(names)));
             Usable(c) && name in Stored(c).header
    ensures !SameIgnoringCase(name, excluded)
  {
    hide ALWAYS_EXCLUDED, SameIgnoringCase, Allowed;
    var limits := Limits(maxBody, Allowed(names));
    CapturedNames(header, calls, limits);
    ExcludedInAnySpelling(names, name, excluded);
  }

  /** By name: whatever the handler set and whatever is configured, no session-bearing or hop-by-hop header
      is captured, in any spelling. */
  lemma SensitiveHeadersAreNotCaptured(header: Header, calls: seq<Call>, maxBody: int, names: seq<Bytes>, name: Bytes)
    requires name in Stored(Captured(header, calls, Limits(maxBody, Allowed(names)))).header
    ensures !Spells(name, "Set-Cookie")
    ensures !Spells(name, "Authorization")
    ensures !Spells(name, "Connection")
    ensures !Spells(name, "Transfer-Encoding")
    ensures !Spells(name, "Keep-Alive")
    ensures !Spells(name, "Upgrade")
    ensures !Spells(name, "Trailer")
    ensures !Spells(name, "Te")
    ensures !Spells(name, "Proxy-Authenticate")
    ensures !Spells(name, "Proxy-Authorization")
  {
    hide Spells, Allowed, Captured;
    CapturedNames(header, calls, Limits(maxBody, Allowed(names)));
    NeverAllowed(names, name);
  }

  /** And every other configured header is, under its canonical name, with the values it had. */
  lemma OtherHeadersAreCaptured(header: Header, calls: seq<Call>, maxBody: int, names: seq<Bytes>, name: Bytes)
    requires ValidCodes(calls) && FixedStatus(calls) != SWITCHING_PROTOCOLS
    requires Usable(Captured(header, calls, Limits(maxBody, Allowed(names))))
    requires name in names
    requires !Spells(name, "Set-Cookie")
    requires !Spells(name, "Authorization")
    requires !Spells(name, "Connection")
    requires !Spells(name, "Transfer-Encoding")
    requires !Spells(name, "Keep-Alive")
    requires !Spells(name, "Upgrade")
    requires !Spells(name, "Trailer")
    requires !Spells(name, "Te")
    requires !Spells(name, "Proxy-Authenticate")
    requires !Spells(name, "Proxy-Authorization")
    ensures var sent := FixedHeader(header, calls);
            var kept := Stored(Captured(header, calls, Limits(maxBody, Allowed(names)))).header;
            var c := Canon(name);
            if c in sent && sent[c] != [] then c in kept && kept[c] == sent[c] else c !in kept
  {
    hide Spells, Allowed, Captured, FixedHeader, FixedStatus, Canon, Snapshot;
    CaptureIsWhatTheClientGot(header, calls, Limits(maxBody, Allowed(names)));
    SnapshotIsFiltered(FixedHeader(header, calls), names, Canon(name));
    OthersAreAllowed(names, name);
  }

  /** Only allowed names that have values are ever captured. */
  lemma CapturedNames(header: Header, calls: seq<Call>, limits: Limits)
    ensures var c := Captured(header, calls, limits);
            forall name :: name in Stored(c).header ==> name in limits.allow && Stored(c).header[name] != []
  {
    hide Snapshot;
    NamesSoFar(header, calls, limits);
    var s := After(header, calls, limits);
    SnapshotNames(s.header, limits.allow);
  }

  lemma SnapshotNames(header: Header, allow: set<Bytes>)
    ensures Filtered(Some(Snapshot(header, allow)), allow)
  {
  }

  ghost predicate Filtered(header: Option<Header>, allow: set<Bytes>) {
    header.Some? ==> forall name :: name in header.value ==> name in allow && header.value[name] != []
  }

  lemma {:induction false} NamesSoFar(header: Header, calls: seq<Call>, limits: Limits)
    ensures Filtered(After(header, calls, limits).cap.header, limits.allow)
  {
    hide Snapshot, Filtered, Step;
    if |calls| == 0 {
      NoneFiltered(limits.allow);
    } else {
      var s := After(header, Init(calls), limits);
      NamesSoFar(header, Init(calls), limits);
      SnapshotNames(s.header, limits.allow);
      StepHeader(s, Last(calls), limits);
    }
  }

  lemma StepHeader(s: Scene, call: Call, limits: Limits)
    ensures var h := Step(s, call, limits).cap.header;
            h == s.cap.header || h == Some(Snapshot(s.header, limits.allow))
  {
    hide Snapshot;
  }

  lemma NoneFiltered(allow: set<Bytes>)
    ensures Filtered(None, allow)
  {
  }

  // ---------------------------------------------------------------- the readings of the calls, in particular cases

  /** A call after which the response is still open: no final status, no write, nothing streamed. */
  predicate LeavesOpen(call: Call) {
    match call
    case WriteHeader(code) => 100 <= code <= 199 && code != 101
    case Write(_) => false
    case Flush(begun) => !begun
    case _ => true
  }

  ghost predicate AllLeaveOpen(calls: seq<Call>) {
    forall i :: 0 <= i < |calls| ==> LeavesOpen(calls[i])
  }

  /** Where the response is decided: at the first call that does not leave it open. */
  lemma FirstDecides(header: Header, before: seq<Call>, call: Call, after: seq<Call>)
    requires AllLeaveOpen(before) && !LeavesOpen(call)
    ensures FixedAt(before + [call] + after) == |before|
    ensures FixedStatus(before + [call] + after) == if call.WriteHeader? then call.code else 200
    ensures FixedHeader(header, before + [call] + after) == HeaderAfter(header, before)
  {
    var calls := before + [call] + after;
    assert calls[|before|] == call && calls[..|before|] == before;
    assert forall i :: 0 <= i < |before| ==> calls[i] == before[i] && !Fixes(calls[i]);
    assert Fixes(call);
    FixedAtIs(calls, |before|);
  }

  lemma FixedAtIs(calls: seq<Call>, n: nat)
    requires n < |calls| && Fixes(calls[n]) && forall i :: 0 <= i < n ==> !Fixes(calls[i])
    ensures FixedAt(calls) == n
  {
  }

  /** A handler that leaves the response open gets the implicit 200 and the header as it left it. */
  lemma SilentHandlers(header: Header, calls: seq<Call>)
    requires AllLeaveOpen(calls)
    ensures FixedStatus(calls) == 200 && FixedHeader(header, calls) == HeaderAfter(header, calls)
    ensures !Streams(calls) || exists i :: 0 <= i < |calls| && calls[i] == Hijack(true)
  {
    forall i | 0 <= i < |calls| ensures !Fixes(calls[i]) {
      assert LeavesOpen(calls[i]);
    }
    assert calls[..|calls|] == calls;
  }

  /** The header is the last one that was set; the body is all that was written; streaming is flushing
      or hijacking that really began. */
  lemma ReadingsByCall(header: Header, calls: seq<Call>, call: Call)
    ensures HeaderAfter(header, []) == header && AllWrites([]) == []
    ensures HeaderAfter(header, calls + [call])
         == if call.SetHeaders? then call.header else HeaderAfter(header, calls)
    ensures AllWrites(calls + [call]) == AllWrites(calls) + if call.Write? then call.p else []
    ensures ValidCodes(calls) <==> forall c :: c in calls && c.WriteHeader? ==> 100 <= c.code <= 999
    ensures Streams(calls) <==> Flush(true) in calls || Hijack(true) in calls
    ensures forall maxBody: int :: Fits(calls, maxBody) <==>
              (exists i :: 0 <= i < |calls| && calls[i].Write?) ==> |AllWrites(calls)| <= maxBody
  {
    assert Init(calls + [call]) == calls;
  }
}
