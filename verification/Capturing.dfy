/** What a handler does to its response writer, what reaches the client, and what is captured. */
module Capturing {
  import opened Basics
  import opened Codec
  import opened Headers

  const OK: Int64 := 200
  const SWITCHING_PROTOCOLS: Int64 := 101

  /** The fields of a `Recorder`; status 0 means none recorded yet. */
  datatype Capture = Capture(
    status: Int64,
    header: Option<Header>,
    body: Bytes,
    overflowed: bool,
    abandoned: bool)

  const NOTHING: Capture := Capture(0, None, [], false, false)

  function RecordStatus(c: Capture, status: Int64, header: Header, allow: set<Bytes>): Capture {
    if c.status != 0 || 100 <= status < 200 then c
    else c.(status := status, header := Some(Snapshot(header, allow)))
  }

  function RecordBody(c: Capture, p: Bytes, maxBody: int): Capture {
    if c.overflowed || c.abandoned then c
    else if |c.body| + |p| > maxBody then c.(overflowed := true, body := [])
    else c.(body := c.body + p)
  }

  function Abandon(c: Capture): Capture {
    c.(abandoned := true, body := [])
  }

  function StatusOf(c: Capture): Int64 {
    if c.status == 0 then OK else c.status
  }

  predicate Usable(c: Capture) {
    !c.overflowed && !c.abandoned
  }

  /** The response a usable capture stands for. */
  function Stored(c: Capture): StoredResponse {
    StoredResponse(StatusOf(c), if c.header.None? then map[] else c.header.value, c.body)
  }

  // ---------------------------------------------------------------- net/http

  /** What net/http has committed to sending; status 0 means nothing yet. Once the connection has been
      hijacked it sends nothing more: writes get ErrHijacked. */
  datatype Wire = Wire(status: Int64, header: Header, body: Bytes, hijacked: bool)

  const SILENCE: Wire := Wire(0, map[], [], false)

  /** Interim responses are followed by another status; 101 is final. */
  predicate Informational(code: Int64) {
    100 <= code < 200 && code != SWITCHING_PROTOCOLS
  }

  /** The first final status is sent with the header as it stands at that moment. */
  function Fix(w: Wire, code: Int64, header: Header): Wire {
    if w.hijacked || w.status != 0 || Informational(code) then w else w.(status := code, header := header)
  }

  function Send(w: Wire, p: Bytes, header: Header): Wire {
    if w.hijacked then w
    else
      var fixed := Fix(w, OK, header);
      fixed.(body := fixed.body + p)
  }

  // ---------------------------------------------------------------- the handler

  /** What a handler can do while it runs. The outcome of the underlying Flush or Hijack is part of
      the call: `begun` is false when the writer does not support flushing. */
  datatype Call =
    | SetHeaders(header: Header)
    | WriteHeader(code: Int64)
    | Write(p: Bytes)
    | Flush(begun: bool)
    | Hijack(taken: bool)
    | MarkFinished

  /** The state of the writer a handler is given, of the one it wraps, and of the finished flag. */
  datatype Scene = Scene(cap: Capture, wroteHeader: bool, header: Header, wire: Wire, finished: bool)

  datatype Limits = Limits(maxBody: int, allow: set<Bytes>)

  function DoWriteHeader(s: Scene, code: Int64, limits: Limits): Scene {
    var wire := Fix(s.wire, code, s.header);
    if s.wroteHeader then s.(wire := wire)
    else s.(cap := RecordStatus(s.cap, code, s.header, limits.allow), wroteHeader := code >= 200, wire := wire)
  }

  function Step(s: Scene, call: Call, limits: Limits): Scene {
    match call
    case SetHeaders(h) => s.(header := h)
    case WriteHeader(code) => DoWriteHeader(s, code, limits)
    case Write(p) =>
      var s' := if s.wroteHeader then s else DoWriteHeader(s, OK, limits);
      s'.(cap := RecordBody(s'.cap, p, limits.maxBody), wire := Send(s'.wire, p, s'.header))
    case Flush(begun) => if begun then s.(cap := Abandon(s.cap), wire := Fix(s.wire, OK, s.header)) else s
    case Hijack(taken) =>
      if taken then s.(cap := Abandon(s.cap), wire := s.wire.(hijacked := true)) else s
    case MarkFinished => s.(finished := true)
  }

  function Start(header: Header): Scene {
    Scene(NOTHING, false, header, SILENCE, false)
  }

  function Init<T>(s: seq<T>): seq<T>
    requires |s| > 0
  {
    s[..|s| - 1]
  }

  function Last<T>(s: seq<T>): T
    requires |s| > 0
  {
    s[|s| - 1]
  }

  /** The scene after a handler's calls, on a writer whose header was `header` to begin with. */
  function After(header: Header, calls: seq<Call>, limits: Limits): Scene {
    if |calls| == 0 then Start(header) else Step(After(header, Init(calls), limits), Last(calls), limits)
  }

  /** `finalize`, once the handler has returned. */
  function Finalize(s: Scene, limits: Limits): Scene {
    if s.wroteHeader then s
    else s.(cap := RecordStatus(s.cap, OK, s.header, limits.allow), wroteHeader := true)
  }

  /** The capture the middleware ends up with. */
  function Captured(header: Header, calls: seq<Call>, limits: Limits): Capture {
    Finalize(After(header, calls, limits), limits).cap
  }

  // ---------------------------------------------------------------- read off the calls

  predicate Fixes(call: Call) {
    call.Write? || (call.WriteHeader? && !Informational(call.code)) || (call.Flush? && call.begun)
  }

  /** The position of the call that fixes status and header; the end when none does. */
  function FixedAt(calls: seq<Call>): (n: nat)
    ensures n <= |calls|
    ensures n < |calls| ==> Fixes(calls[n])
    ensures forall i :: 0 <= i < n ==> !Fixes(calls[i])
  {
    if |calls| == 0 then 0
    else
      var n := FixedAt(Init(calls));
      assert forall i :: 0 <= i < |Init(calls)| ==> Init(calls)[i] == calls[i];
      if n < |Init(calls)| then n else if Fixes(Last(calls)) then n else n + 1
  }

  function FixedStatus(calls: seq<Call>): Int64 {
    var n := FixedAt(calls);
    if n < |calls| && calls[n].WriteHeader? then calls[n].code else OK
  }

  function HeaderAfter(header: Header, calls: seq<Call>): Header {
    if |calls| == 0 then header
    else if Last(calls).SetHeaders? then Last(calls).header
    else HeaderAfter(header, Init(calls))
  }

  /** The header as it stood when the status was fixed. */
  function FixedHeader(header: Header, calls: seq<Call>): Header {
    HeaderAfter(header, calls[..FixedAt(calls)])
  }

  function AllWrites(calls: seq<Call>): Bytes {
    if |calls| == 0 then [] else AllWrites(Init(calls)) + if Last(calls).Write? then Last(calls).p else []
  }

  predicate Streams(calls: seq<Call>) {
    exists i :: 0 <= i < |calls| && IsStreaming(calls[i])
  }

  predicate IsStreaming(call: Call) {
    (call.Flush? && call.begun) || (call.Hijack? && call.taken)
  }

  predicate Fits(calls: seq<Call>, maxBody: int) {
    SomeWrite(calls) ==> |AllWrites(calls)| <= maxBody
  }

  predicate SomeWrite(calls: seq<Call>) {
    exists i :: 0 <= i < |calls| && calls[i].Write?
  }

  /** The calls before the connection was hijacked; all of them if it never was. */
  function UntilHijack(calls: seq<Call>): seq<Call> {
    if |calls| == 0 then []
    else
      var before := UntilHijack(Init(calls));
      if before != Init(calls) || Last(calls) == Hijack(true) then before else calls
  }

  /** net/http panics on any other status code. */
  predicate ValidCodes(calls: seq<Call>) {
    forall i :: 0 <= i < |calls| && calls[i].WriteHeader? ==> 100 <= calls[i].code <= 999
  }

  /** One call made on the wrapped writer directly, with header h. */
  function Direct(w: Wire, h: Header, call: Call): Wire {
    match call
    case WriteHeader(code) => Fix(w, code, h)
    case Write(p) => Send(w, p, h)
    case Flush(true) => Fix(w, OK, h)
    case Hijack(true) => w.(hijacked := true)
    case _ => w
  }

  /** The client's view of the same calls made on the wrapped writer directly. */
  function Unwrapped(header: Header, calls: seq<Call>): Wire {
    if |calls| == 0 then SILENCE
    else Direct(Unwrapped(header, Init(calls)), HeaderAfter(header, Init(calls)), Last(calls))
  }
}
