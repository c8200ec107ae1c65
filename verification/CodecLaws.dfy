/** What the payload format promises: round trip, canonical form and prefix-freeness. */
module CodecLaws {
  import opened Basics
  import opened Strings
  import opened Codec
  import opened Decoding
  import U = Uvarint

  // ---------------------------------------------------------------- more input never changes a parse

  lemma BytesExtend(buf: Bytes, ext: Bytes)
    requires ParseBytes(buf).Good?
    ensures ParseBytes(buf + ext) == Good(ParseBytes(buf).value, ParseBytes(buf).rest + ext)
  {
    hide ParseUvarint;
    UvarintExtend(buf, ext);
    var Good(n, rest) := ParseUvarint(buf);
    assert (rest + ext)[..n] == rest[..n];
    assert (rest + ext)[n..] == rest[n..] + ext;
  }

  lemma UvarintExtend(buf: Bytes, ext: Bytes)
    requires ParseUvarint(buf).Good?
    ensures ParseUvarint(buf + ext) == Good(ParseUvarint(buf).value, ParseUvarint(buf).rest + ext)
  {
    U.DecExtend(buf, 0, ext);
    var n := U.Dec(buf, 0).value.1;
    assert (buf + ext)[n..] == buf[n..] + ext;
  }

  lemma {:induction false} ValuesExtend(buf: Bytes, n: nat, name: Bytes, header: Header, ext: Bytes)
    requires ParseValues(buf, n, name, header).Good?
    ensures var p := ParseValues(buf, n, name, header);
            ParseValues(buf + ext, n, name, header) == Good(p.value, p.rest + ext)
    decreases n
  {
    hide ParseBytes;
    if n > 0 {
      BytesExtend(buf, ext);
      var Good(value, rest) := ParseBytes(buf);
      ValuesExtend(rest, n - 1, name, AddValue(header, name, value), ext);
    }
  }

  lemma FieldExtend(buf: Bytes, header: Header, ext: Bytes)
    requires ParseField(buf, header).Good?
    ensures ParseField(buf + ext, header)
         == Good(ParseField(buf, header).value, ParseField(buf, header).rest + ext)
  {
    BytesExtend(buf, ext);
    var Good(name, rest) := ParseBytes(buf);
    UvarintExtend(rest, ext);
    var Good(count, rest') := ParseUvarint(rest);
    ValuesExtend(rest', count, name, header, ext);
  }

  lemma {:induction false} FieldsExtend(buf: Bytes, n: nat, header: Header, ext: Bytes)
    requires ParseFields(buf, n, header).Good?
    ensures var p := ParseFields(buf, n, header);
            ParseFields(buf + ext, n, header) == Good(p.value, p.rest + ext)
    decreases n
  {
    hide ParseField;
    if n > 0 {
      FieldExtend(buf, header, ext);
      var Good(header', rest) := ParseField(buf, header);
      FieldsExtend(rest, n - 1, header', ext);
    }
  }

  lemma ResponseExtend(buf: Bytes, ext: Bytes)
    ensures var p := ParseResponse(buf);
            p.Good? ==> ParseResponse(buf + ext) == Good(p.value, p.rest + ext)
  {
    hide ParseFields, ParseBytes, ParseUvarint;
    if ParseResponse(buf).Good? {
      UvarintExtend(buf, ext);
      var Good(status, rest) := ParseUvarint(buf);
      UvarintExtend(rest, ext);
      var Good(count, rest') := ParseUvarint(rest);
      FieldsExtend(rest', count, map[], ext);
      BytesExtend(ParseFields(rest', count, map[]).rest, ext);
    }
  }

  /** The accepted payloads, whoever wrote them, are prefix-free. */
  lemma AcceptedPayloadsArePrefixFree(a: Bytes, b: Bytes)
    ensures Decode(a).Ok? && |b| > 0 ==> Decode(a + b).Err?
  {
    hide ParseResponse;
    if Decode(a).Ok? {
      assert (a + b)[1..] == a[1..] + b;
      ResponseExtend(a[1..], b);
    }
  }

  // ---------------------------------------------------------------- parsing what was encoded

  lemma UvarintOfEnc(n: nat, tail: Bytes)
    requires n < TWO_64
    ensures ParseUvarint(U.Enc(n) + tail) == Good(n, tail)
  {
    U.LimitOfFirstGroup();
    U.DecEnc(n, 0, tail);
    assert (U.Enc(n) + tail)[|U.Enc(n)|..] == tail;
  }

  lemma BytesOfEncString(s: Bytes, tail: Bytes)
    requires |s| < TWO_63
    ensures ParseBytes(EncString(s) + tail) == Good(s, tail)
  {
    UvarintOfEnc(|s|, s + tail);
    assert EncString(s) + tail == U.Enc(|s|) + (s + tail);
    assert (s + tail)[..|s|] == s && (s + tail)[|s|..] == tail;
  }

  function AddValues(header: Header, name: Bytes, values: seq<Bytes>): Header {
    if |values| == 0 then header
    else header[name := (if name in header then header[name] else []) + values]
  }

  lemma AddValuesCons(header: Header, name: Bytes, v: Bytes, vs: seq<Bytes>)
    ensures AddValues(AddValue(header, name, v), name, vs) == AddValues(header, name, [v] + vs)
  {
    var sofar := if name in header then header[name] else [];
    assert sofar + [v] + vs == sofar + ([v] + vs);
    if vs == [] {
      assert [v] + vs == [v];
    } else {
      assert header[name := sofar + [v]][name := sofar + ([v] + vs)] == header[name := sofar + ([v] + vs)];
    }
  }

  lemma {:induction false} ValuesOfEncValues(values: seq<Bytes>, name: Bytes, header: Header, tail: Bytes)
    requires forall i :: 0 <= i < |values| ==> |values[i]| < TWO_63
    ensures ParseValues(EncValues(values) + tail, |values|, name, header)
         == Good(AddValues(header, name, values), tail)
    decreases |values|
  {
    hide ParseBytes, EncString;
    if |values| == 0 {
      assert EncValues(values) + tail == tail;
    } else {
      var v, vs := values[0], values[1..];
      assert EncValues(values) + tail == EncString(v) + (EncValues(vs) + tail);
      BytesOfEncString(v, EncValues(vs) + tail);
      ValuesOfEncValues(vs, name, AddValue(header, name, v), tail);
      AddValuesCons(header, name, v, vs);
      assert values == [v] + vs;
    }
  }

  function EncField(name: Bytes, values: seq<Bytes>): Bytes {
    EncString(name) + U.Enc(|values|) + EncValues(values)
  }

  lemma FieldOfEncField(name: Bytes, values: seq<Bytes>, header: Header, tail: Bytes)
    requires AddressableField(name, values)
    ensures ParseField(EncField(name, values) + tail, header)
         == if |values| > MAX_HEADER_VALUES then Bad else Good(AddValues(header, name, values), tail)
  {
    var afterCount := EncValues(values) + tail;
    var afterName := U.Enc(|values|) + afterCount;
    assert EncField(name, values) + tail == EncString(name) + afterName;
    BytesOfEncString(name, afterName);
    UvarintOfEnc(|values|, afterCount);
    ValuesOfEncValues(values, name, header, tail);
  }

  /** No name carries more values than the decoder accepts. */
  ghost predicate ValuesWithinCap(names: seq<Bytes>, header: Header)
    requires forall i :: 0 <= i < |names| ==> names[i] in header
  {
    forall i :: 0 <= i < |names| ==> |header[names[i]]| <= MAX_HEADER_VALUES
  }

  /** The listed fields of header, those without values left out. */
  function Fields(names: seq<Bytes>, header: Header): Header {
    map name | name in names && name in header && header[name] != [] :: header[name]
  }

  lemma {:induction false} FieldsOfEncFields(names: seq<Bytes>, header: Header, sofar: Header, tail: Bytes)
    requires forall i :: 0 <= i < |names| ==> names[i] in header && names[i] !in sofar
    requires forall i, j :: 0 <= i < j < |names| ==> names[i] != names[j]
    requires forall i :: 0 <= i < |names| ==> AddressableField(names[i], header[names[i]])
    ensures ParseFields(EncFields(names, header) + tail, |names|, sofar)
         == if ValuesWithinCap(names, header) then Good(sofar + Fields(names, header), tail) else Bad
    decreases |names|
  {
    hide ParseField, U.Enc, EncValues;
    if |names| == 0 {
      assert EncFields(names, header) + tail == tail;
      assert sofar + Fields(names, header) == sofar;
    } else {
      var name, others := names[0], names[1..];
      var values := header[name];
      var after := EncFields(others, header) + tail;
      assert EncFields(names, header) + tail == EncField(name, values) + after;
      FieldOfEncField(name, values, sofar, after);
      assert ValuesWithinCap(names, header)
        <==> |values| <= MAX_HEADER_VALUES && ValuesWithinCap(others, header) by { CapSplit(names, header); }
      FieldsOfEncFields(others, header, AddValues(sofar, name, values), tail);
      FieldsCons(names, header, sofar);
    }
  }

  lemma FieldsCons(names: seq<Bytes>, header: Header, sofar: Header)
    requires |names| > 0 && names[0] in header && names[0] !in sofar && names[0] !in names[1..]
    ensures AddValues(sofar, names[0], header[names[0]]) + Fields(names[1..], header)
         == sofar + Fields(names, header)
  {
    var name, values := names[0], header[names[0]];
    assert names == [name] + names[1..];
    assert [] + values == values;
    var whole, rest := Fields(names, header), Fields(names[1..], header);
    assert whole == if values == [] then rest else rest[name := values];
  }

  lemma CapSplit(names: seq<Bytes>, header: Header)
    requires |names| > 0
    requires forall i :: 0 <= i < |names| ==> names[i] in header
    ensures ValuesWithinCap(names, header)
       <==> |header[names[0]]| <= MAX_HEADER_VALUES && ValuesWithinCap(names[1..], header)
  {
  }

  // ---------------------------------------------------------------- the laws

  /** The decoder's sanity limits hold of the response. */
  ghost predicate WithinCaps(sr: StoredResponse) {
    && |sr.header| <= MAX_HEADER_NAMES
    && forall name :: name in sr.header ==> |sr.header[name]| <= MAX_HEADER_VALUES
  }

  function WithoutEmptyFields(header: Header): Header {
    map name | name in header && header[name] != [] :: header[name]
  }

  lemma ResponseOfParts(status: Int64, names: seq<Bytes>, header: Header, body: Bytes, tail: Bytes)
    requires |names| < TWO_63 && |body| < TWO_63
    requires forall i :: 0 <= i < |names| ==> names[i] in header
    requires forall i, j :: 0 <= i < j < |names| ==> names[i] != names[j]
    requires forall i :: 0 <= i < |names| ==> AddressableField(names[i], header[names[i]])
    ensures ParseResponse(U.Enc(ToUint64(status)) + (U.Enc(|names|) + (EncFields(names, header)
                          + (EncString(body) + tail))))
         == if |names| <= MAX_HEADER_NAMES && ValuesWithinCap(names, header)
            then Good(StoredResponse(status, Fields(names, header), body), tail) else Bad
  {
    hide ParseFields, ParseBytes, ParseUvarint, EncFields, EncString, U.Enc, ValuesWithinCap;
    var afterFields := EncString(body) + tail;
    var afterCount := EncFields(names, header) + afterFields;
    UvarintOfEnc(ToUint64(status), U.Enc(|names|) + afterCount);
    UvarintOfEnc(|names|, afterCount);
    FieldsOfEncFields(names, header, map[], afterFields);
    BytesOfEncString(body, tail);
    assert map[] + Fields(names, header) == Fields(names, header);
  }

  lemma ResponseOfEncode(sr: StoredResponse, tail: Bytes)
    requires Addressable(sr)
    ensures Encode(sr)[0] == VERSION
    ensures ParseResponse(Encode(sr)[1..] + tail)
         == if WithinCaps(sr) then Good(sr.(header := WithoutEmptyFields(sr.header)), tail) else Bad
  {
    hide ParseResponse, EncFields, EncString, U.Enc, Sort, ValuesWithinCap;
    var order := SomeOrder(sr.header.Keys);
    SortedNamesInHeader(sr.header, order);
    var names := Sort(order);
    SortIncreasing(order);
    assert Encode(sr)[1..] + tail
        == U.Enc(ToUint64(sr.statusCode)) + (U.Enc(|names|) + (EncFields(names, sr.header)
           + (EncString(sr.body) + tail)));
    forall i, j | 0 <= i < j < |names| ensures names[i] != names[j] {
      LessIrreflexive(names[i]);
    }
    ResponseOfParts(sr.statusCode, names, sr.header, sr.body, tail);
    assert forall name :: name in names <==> name in Elements(names);
    assert Fields(names, sr.header) == WithoutEmptyFields(sr.header);
    CapsByName(names, sr);
  }

  lemma CapsByName(names: seq<Bytes>, sr: StoredResponse)
    requires Elements(names) == sr.header.Keys
    requires forall i :: 0 <= i < |names| ==> names[i] in sr.header
    ensures ValuesWithinCap(names, sr.header)
       <==> forall name :: name in sr.header ==> |sr.header[name]| <= MAX_HEADER_VALUES
  {
  }

  /** Decoding undoes encoding, up to fields without values, exactly when the caps are respected;
      otherwise the payload is refused. */
  lemma RoundTrip(sr: StoredResponse)
    requires Addressable(sr)
    ensures WithinCaps(sr) ==>
              Decode(Encode(sr)) == Ok(sr.(header := WithoutEmptyFields(sr.header)))
    ensures !WithinCaps(sr) ==> Decode(Encode(sr)) == Err(Corrupt)
  {
    ResponseOfEncode(sr, []);
    assert Encode(sr)[1..] + [] == Encode(sr)[1..];
  }

  /** Cutting an encoding short anywhere, or adding anything to it, makes it undecodable. */
  lemma EncodingsArePrefixFree(sr: StoredResponse, cut: nat, ext: Bytes)
    requires Addressable(sr) && cut < |Encode(sr)| && |ext| > 0
    ensures Decode(Encode(sr)[..cut]).Err?
    ensures Decode(Encode(sr) + ext).Err?
  {
    hide ParseResponse, Encode;
    var enc := Encode(sr);
    ResponseOfEncode(sr, ext);
    assert (enc + ext)[1..] == enc[1..] + ext;
    ResponseOfEncode(sr, []);
    assert enc[1..] + [] == enc[1..];
    if Decode(enc[..cut]).Ok? {
      assert enc[..cut][1..] + enc[cut..] == enc[1..];
      ResponseExtend(enc[..cut][1..], enc[cut..]);
    }
  }

  /** Two responses with the same payload are the same response, up to fields without values. */
  lemma EncodeInjective(a: StoredResponse, b: StoredResponse)
    requires Addressable(a) && Addressable(b) && WithinCaps(a) && WithinCaps(b)
    requires Encode(a) == Encode(b)
    ensures a.statusCode == b.statusCode && a.body == b.body
    ensures WithoutEmptyFields(a.header) == WithoutEmptyFields(b.header)
  {
    RoundTrip(a);
    RoundTrip(b);
  }

  // ---------------------------------------------------------------- the format in bytes

  /** What the first byte decides: nothing there is corrupt, any version but 0x01 is unsupported, and
      within version 0x01 the only error is a corrupt payload. Encodings have version 0x01. */
  lemma VersionByte(data: Bytes, sr: StoredResponse)
    ensures |data| == 0 ==> Decode(data) == Err(Corrupt)
    ensures |data| > 0 && data[0] != 0x01 ==> Decode(data) == Err(UnsupportedVersion(data[0]))
    ensures |data| > 0 && data[0] == 0x01 && Decode(data).Err? ==> Decode(data) == Err(Corrupt)
    ensures Encode(sr)[0] == 0x01
  {
    hide ParseResponse;
  }

  lemma CapsInNumbers(sr: StoredResponse)
    ensures WithinCaps(sr) <==> |sr.header| <= 1024 && forall name :: name in sr.header ==> |sr.header[name]| <= 1024
  {
  }

  /** Version, status, number of names, the names in increasing order with their counted values, body. */
  lemma Layout(sr: StoredResponse, names: seq<Bytes>)
    requires Increasing(names) && Elements(names) == sr.header.Keys
    ensures forall i :: 0 <= i < |names| ==> names[i] in sr.header
    ensures Encode(sr) == [0x01] + U.Enc(ToUint64(sr.statusCode)) + U.Enc(|names|) + EncFields(names, sr.header)
                          + U.Enc(|sr.body|) + sr.body
  {
    hide U.Enc, Sort, EncFields, Less;
    forall i | 0 <= i < |names| ensures names[i] in sr.header {
      assert names[i] in Elements(names);
    }
    var order := SomeOrder(sr.header.Keys);
    SortedNamesInHeader(sr.header, order);
    SortIncreasing(order);
    IncreasingUnique(Sort(order), names);
  }

  /** Strings and lists of strings carry their lengths. */
  lemma FieldLayout(names: seq<Bytes>, header: Header, v: Bytes, vs: seq<Bytes>)
    requires |names| > 0 && forall i :: 0 <= i < |names| ==> names[i] in header
    ensures EncFields([], header) == [] && EncValues([]) == []
    ensures EncValues([v] + vs) == U.Enc(|v|) + v + EncValues(vs)
    ensures EncFields(names, header)
         == U.Enc(|names[0]|) + names[0] + U.Enc(|header[names[0]]|) + EncValues(header[names[0]])
            + EncFields(names[1..], header)
  {
    hide U.Enc;
    assert ([v] + vs)[1..] == vs;
  }
}
