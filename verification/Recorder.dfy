/** The objects behind the capture: the recorder, the writer that feeds it, the writer it wraps, and
    the flag a handler sets when it finishes the record itself. */
module Recorder {
  import opened Basics
  import opened Codec
  import opened Headers
  import opened Capturing

  /** `Recorder`. */
  class Recorder {
    const maxBody: int
    const allow: set<Bytes>
    var status: Int64
    var header: Option<Header>
    var body: Bytes
    var overflowed: bool
    var abandoned: bool

    ghost function Contents(): Capture
      reads this
    {
      Capture(status, header, body, overflowed, abandoned)
    }

    constructor (maxBody: int, allowHeaders: seq<Bytes>)
      ensures this.maxBody == maxBody && allow == Allowed(allowHeaders) && Contents() == NOTHING
    {
      var allowed: set<Bytes> := {};
      for i := 0 to |allowHeaders|
        invariant allowed == Allowed(allowHeaders[..i])
      {
        ghost var before := allowHeaders[..i];
        assert allowHeaders[..i + 1] == before + [allowHeaders[i]];
        var c := Canon(allowHeaders[i]);
        if c in ALWAYS_EXCLUDED {
          continue;
        }
        allowed := allowed + {c};
      }
      assert allowHeaders[..|allowHeaders|] == allowHeaders;
      this.maxBody := maxBody;
      allow := allowed;
      status, header, body, overflowed, abandoned := 0, None, [], false, false;
    }

    method RecordStatus(status: Int64, header: Header)
      modifies this
      ensures Contents() == Capturing.RecordStatus(old(Contents()), status, header, allow)
      ensures old(this.status) != 0 || 100 <= status <= 199 ==> Contents() == old(Contents())
      ensures old(this.status) == 0 && !(100 <= status <= 199) ==>
                this.status == status && this.header == Some(Snapshot(header, allow))
    {
      if this.status != 0 || 100 <= status < 200 {
        return;
      }
      this.status := status;
      var copy: Header := map[];
      var left := allow;
      while left != {}
        invariant left <= allow
        invariant copy == Snapshot(header, allow - left)
        decreases left
      {
        var name :| name in left;
        var values := Values(header, name);
        left := left - {name};
        if |values| > 0 {
          copy := copy[name := values];
        }
      }
      assert allow - left == allow;
      this.header := Some(copy);
    }

    method RecordBody(p: Bytes)
      modifies this
      ensures Contents() == Capturing.RecordBody(old(Contents()), p, maxBody)
      ensures overflowed <==> old(overflowed) || (!abandoned && |old(body)| + |p| > maxBody)
      ensures overflowed && !old(overflowed) ==> body == []
      ensures !overflowed && !abandoned ==> body == old(body) + p
    {
      if overflowed || abandoned {
        return;
      }
      if |body| + |p| > maxBody {
        overflowed := true;
        body := [];
        return;
      }
      body := body + p;
    }

    method Abandon()
      modifies this
      ensures Contents() == Capturing.Abandon(old(Contents()))
      ensures abandoned && body == [] && overflowed == old(overflowed)
    {
      abandoned := true;
      body := [];
    }

    method Status() returns (code: Int64)
      ensures code == StatusOf(Contents())
      ensures code == if status == 0 then 200 else status
    {
      if status == 0 {
        return OK;
      }
      return status;
    }

    method Response() returns (sr: StoredResponse, ok: bool)
      ensures ok <==> Usable(Contents())
      ensures sr == if ok then Stored(Contents()) else StoredResponse(0, map[], [])
    {
      if overflowed || abandoned {
        return StoredResponse(0, map[], []), false;
      }
      var h := if header.None? then map[] else header.value;
      var code := Status();
      return StoredResponse(code, h, body), true;
    }
  }

  /** The `http.ResponseWriter` underneath, with the semantics of net/http. */
  class ResponseWriter {
    var header: Header
    var wire: Wire

    constructor (header: Header)
      ensures this.header == header && wire == SILENCE
    {
      this.header := header;
      wire := SILENCE;
    }

    method WriteHeader(code: Int64)
      modifies this
      ensures header == old(header) && wire == Fix(old(wire), code, header)
    {
      if !wire.hijacked && wire.status == 0 && !Informational(code) {
        wire := wire.(status := code, header := header);
      }
    }

    method Write(p: Bytes)
      modifies this
      ensures header == old(header) && wire == Send(old(wire), p, header)
    {
      if wire.hijacked {
        return;
      }
      WriteHeader(OK);
      wire := wire.(body := wire.body + p);
    }

    method Hijack(taken: bool)
      modifies this
      ensures header == old(header)
      ensures wire == if taken then old(wire).(hijacked := true) else old(wire)
    {
      if taken {
        wire := wire.(hijacked := true);
      }
    }

    method Flush(begun: bool)
      modifies this
      ensures header == old(header)
      ensures wire == if begun then Fix(old(wire), OK, header) else old(wire)
    {
      if begun {
        WriteHeader(OK);
      }
    }
  }

  /** `finishedBox`. */
  class FinishedBox {
    var finished: bool

    constructor ()
      ensures !finished
    {
      finished := false;
    }

    method Mark()
      modifies this
      ensures finished
    {
      finished := true;
    }
  }

  /** `captureWriter`, with the box its handler can mark. */
  class CaptureWriter {
    const w: ResponseWriter
    const rec: Recorder
    const box: FinishedBox
    var wroteHeader: bool

    constructor (w: ResponseWriter, rec: Recorder, box: FinishedBox)
      ensures this.w == w && this.rec == rec && this.box == box && !wroteHeader
    {
      this.w, this.rec, this.box := w, rec, box;
      wroteHeader := false;
    }

    ghost function Scene(): Scene
      reads this, w, rec, box
    {
      Capturing.Scene(rec.Contents(), wroteHeader, w.header, w.wire, box.finished)
    }

    ghost function Limits(): Limits {
      Capturing.Limits(rec.maxBody, rec.allow)
    }

    method WriteHeader(code: Int64)
      modifies this, w, rec
      ensures Scene() == DoWriteHeader(old(Scene()), code, Limits())
    {
      if !wroteHeader {
        rec.RecordStatus(code, w.header);
        if code >= 200 {
          wroteHeader := true;
        }
      }
      w.WriteHeader(code);
    }

    method Write(p: Bytes)
      modifies this, w, rec
      ensures Scene() == Step(old(Scene()), Call.Write(p), Limits())
    {
      if !wroteHeader {
        WriteHeader(OK);
      }
      rec.RecordBody(p);
      w.Write(p);
    }

    method Flush(begun: bool)
      modifies w, rec
      ensures Scene() == Step(old(Scene()), Call.Flush(begun), Limits())
    {
      w.Flush(begun);
      if begun {
        rec.Abandon();
      }
    }

    method Hijack(taken: bool)
      modifies w, rec
      ensures Scene() == Step(old(Scene()), Call.Hijack(taken), Limits())
    {
      w.Hijack(taken);
      if taken {
        rec.Abandon();
      }
    }

    method Finalize()
      modifies this, rec
      ensures Scene() == Capturing.Finalize(old(Scene()), Limits())
    {
      if !wroteHeader {
        rec.RecordStatus(OK, w.header);
        wroteHeader := true;
      }
    }

    /** One thing a handler does. */
    method Serve(call: Call)
      modifies this, w, rec, box
      ensures Scene() == Step(old(Scene()), call, Limits())
    {
      match call {
        case SetHeaders(h) => w.header := h;
        case WriteHeader(code) => WriteHeader(code);
        case Write(p) => Write(p);
        case Flush(begun) => Flush(begun);
        case Hijack(taken) => Hijack(taken);
        case MarkFinished => box.Mark();
      }
    }

    /** A whole handler. */
    method Run(calls: seq<Call>)
      requires Scene() == Start(w.header)
      modifies this, w, rec, box
      ensures Scene() == After(old(w.header), calls, Limits())
    {
      assert calls[..0] == [];
      for i := 0 to |calls|
        invariant Scene() == After(old(w.header), calls[..i], Limits())
      {
        assert Init(calls[..i + 1]) == calls[..i] && Last(calls[..i + 1]) == calls[i];
        Serve(calls[i]);
      }
      assert calls[..|calls|] == calls;
    }
  }
}
