/** Reading a stored payload back: the error-latching decoder and `UnmarshalBinary`. */
module Decoding {
  import opened Basics
  import opened Codec
  import U = Uvarint

  /** A value read off the front of a buffer with what is left, or a corrupted buffer. */
  datatype Parsed<+T> = Bad | Good(value: T, rest: Bytes)

  function ParseUvarint(buf: Bytes): (r: Parsed<nat>)
    ensures r.Good? ==> |r.rest| < |buf|
  {
    match U.Dec(buf, 0)
    case None => Bad
    case Some((v, n)) => Good(v, buf[n..])
  }

  function ParseBytes(buf: Bytes): (r: Parsed<Bytes>)
    ensures r.Good? ==> |r.rest| < |buf|
  {
    match ParseUvarint(buf)
    case Bad => Bad
    case Good(n, rest) => if n > |rest| then Bad else Good(rest[..n], rest[n..])
  }

  /** `header[name] = append(header[name], value)`. */
  function AddValue(header: Header, name: Bytes, value: Bytes): Header {
    header[name := (if name in header then header[name] else []) + [value]]
  }

  function ParseValues(buf: Bytes, n: nat, name: Bytes, header: Header): Parsed<Header>
    decreases n
  {
    if n == 0 then Good(header, buf)
    else
      match ParseBytes(buf)
      case Bad => Bad
      case Good(value, rest) => ParseValues(rest, n - 1, name, AddValue(header, name, value))
  }

  /** One name with its counted values. */
  function ParseField(buf: Bytes, header: Header): Parsed<Header> {
    match ParseBytes(buf)
    case Bad => Bad
    case Good(name, rest) =>
      match ParseUvarint(rest)
      case Bad => Bad
      case Good(count, rest') =>
        if count > MAX_HEADER_VALUES then Bad else ParseValues(rest', count, name, header)
  }

  function ParseFields(buf: Bytes, n: nat, header: Header): Parsed<Header>
    decreases n
  {
    if n == 0 then Good(header, buf)
    else
      match ParseField(buf, header)
      case Bad => Bad
      case Good(header', rest) => ParseFields(rest, n - 1, header')
  }

  /** Everything after the version byte; the rest is what trails the body. */
  function ParseResponse(buf: Bytes): Parsed<StoredResponse> {
    match ParseUvarint(buf)
    case Bad => Bad
    case Good(status, rest) =>
      match ParseUvarint(rest)
      case Bad => Bad
      case Good(count, rest') =>
        if count > MAX_HEADER_NAMES then Bad
        else
          match ParseFields(rest', count, map[])
          case Bad => Bad
          case Good(header, rest'') =>
            match ParseBytes(rest'')
            case Bad => Bad
            case Good(body, tail) =>
              StatusFits(buf);
              Good(StoredResponse(ToInt64(status), header, body), tail)
  }

  lemma StatusFits(buf: Bytes)
    ensures ParseUvarint(buf).Good? ==> ParseUvarint(buf).value < TWO_64
  {
    U.LimitOfFirstGroup();
  }

  /** The value `UnmarshalBinary` leaves in its receiver, or the error it returns. */
  function Decode(data: Bytes): Result<StoredResponse, DecodeError> {
    if |data| == 0 then Err(Corrupt)
    else if data[0] != VERSION then Err(UnsupportedVersion(data[0]))
    else
      match ParseResponse(data[1..])
      case Bad => Err(Corrupt)
      case Good(sr, rest) => if |rest| != 0 then Err(Corrupt) else Ok(sr)
  }

  // ---------------------------------------------------------------- the decoder object

  /** `decoder`: consumes buf front to back and latches the first error. */
  class Decoder {
    var buf: Bytes
    var err: Option<DecodeError>

    constructor (buf: Bytes)
      ensures this.buf == buf && err.None?
    {
      this.buf := buf;
      err := None;
    }

    method Uvarint() returns (v: nat)
      modifies this
      ensures old(err).Some? ==> err == old(err) && buf == old(buf) && v == 0
      ensures old(err).None? ==>
                match ParseUvarint(old(buf))
                case Good(value, rest) => err.None? && v == value && buf == rest
                case Bad => err == Some(Corrupt) && v == 0 && buf == old(buf)
    {
      if err.Some? {
        return 0;
      }
      var value, n := U.Uvarint(buf);
      if n <= 0 {
        err := Some(Corrupt);
        return 0;
      }
      buf := buf[n..];
      return value;
    }

    method ReadBytes() returns (b: Bytes)
      modifies this
      ensures old(err).Some? ==> err == old(err) && buf == old(buf) && b == []
      ensures old(err).None? ==>
                match ParseBytes(old(buf))
                case Good(value, rest) => err.None? && b == value && buf == rest
                case Bad => err == Some(Corrupt) && b == []
    {
      hide ParseUvarint;
      var n := Uvarint();
      if err.Some? {
        return [];
      }
      if n > |buf| {
        err := Some(Corrupt);
        return [];
      }
      b := buf[..n];
      buf := buf[n..];
    }
  }

  /** The inner loop of `UnmarshalBinary`. */
  method ReadValues(d: Decoder, count: nat, name: Bytes, header: Header) returns (h: Header)
    modifies d
    ensures old(d.err).Some? ==> d.err == old(d.err)
    ensures old(d.err).None? ==> Reads(d, h, ParseValues(old(d.buf), count, name, header))
  {
    hide ParseBytes;
    h := header;
    ghost var whole := ParseValues(d.buf, count, name, header);
    var j := 0;
    while j < count && d.err.None?
      invariant j <= count
      invariant old(d.err).Some? ==> d.err == old(d.err)
      invariant d.err.None? ==> old(d.err).None? && whole == ParseValues(d.buf, count - j, name, h)
      invariant old(d.err).None? && d.err.Some? ==> d.err == Some(Corrupt) && whole.Bad?
    {
      ghost var here := d.buf;
      var value := d.ReadBytes();
      assert whole == match ParseBytes(here)
                      case Bad => Bad
                      case Good(v, rest) => ParseValues(rest, count - j - 1, name, AddValue(h, name, v));
      h := AddValue(h, name, value);
      j := j + 1;
    }
  }

  /** The decoder and the header map stand where the given parse ends. */
  ghost predicate Reads(d: Decoder, h: Header, p: Parsed<Header>)
    reads d
  {
    match p
    case Good(value, rest) => d.err.None? && h == value && d.buf == rest
    case Bad => d.err == Some(Corrupt)
  }

  /** The body of the outer loop of `UnmarshalBinary`; ok is false where it returns early on too
      many values. */
  method ReadField(d: Decoder, header: Header) returns (h: Header, ok: bool)
    requires d.err.None?
    modifies d
    ensures ok ==> Reads(d, h, ParseField(old(d.buf), header))
    ensures !ok ==> ParseField(old(d.buf), header).Bad?
  {
    hide ParseBytes, ParseUvarint, ParseValues;
    var name := d.ReadBytes();
    var values := d.Uvarint();
    if values > MAX_HEADER_VALUES {
      return header, false;
    }
    h := ReadValues(d, values, name, header);
    ok := true;
  }

  /** The outer loop of `UnmarshalBinary`. */
  method ReadFields(d: Decoder, count: nat) returns (h: Header, ok: bool)
    modifies d
    ensures old(d.err).Some? ==> ok && d.err == old(d.err)
    ensures old(d.err).None? && ok ==> Reads(d, h, ParseFields(old(d.buf), count, map[]))
    ensures old(d.err).None? && !ok ==> ParseFields(old(d.buf), count, map[]).Bad?
  {
    hide ParseField;
    h, ok := map[], true;
    ghost var whole := ParseFields(d.buf, count, map[]);
    var i := 0;
    while i < count && d.err.None?
      invariant i <= count && ok
      invariant old(d.err).Some? ==> d.err == old(d.err)
      invariant d.err.None? ==> old(d.err).None? && whole == ParseFields(d.buf, count - i, h)
      invariant old(d.err).None? && d.err.Some? ==> d.err == Some(Corrupt) && whole.Bad?
    {
      ghost var here := d.buf;
      assert whole == match ParseField(here, h)
                      case Bad => Bad
                      case Good(h', rest) => ParseFields(rest, count - i - 1, h');
      h, ok := ReadField(d, h);
      if !ok {
        return;
      }
      i := i + 1;
    }
  }

  /** `UnmarshalBinary`. */
  method UnmarshalBinary(data: Bytes) returns (r: Result<StoredResponse, DecodeError>)
    ensures r == Decode(data)
  {
    hide ParseFields, ParseBytes, ParseUvarint;
    if |data| == 0 {
      return Err(Corrupt);
    }
    if data[0] != VERSION {
      return Err(UnsupportedVersion(data[0]));
    }
    var d := new Decoder(data[1..]);
    StatusFits(d.buf);
    var status := d.Uvarint();
    var names := d.Uvarint();
    if names > MAX_HEADER_NAMES {
      return Err(Corrupt);
    }
    var header, ok := ReadFields(d, names);
    if !ok {
      return Err(Corrupt);
    }
    var body := d.ReadBytes();
    if d.err.Some? {
      return Err(d.err.value);
    }
    if |d.buf| != 0 {
      return Err(Corrupt);
    }
    return Ok(StoredResponse(ToInt64(status), header, body));
  }
}
