/** The stored-response payload: version byte, status, header names with their values, body. */
module Codec {
  import opened Basics
  import opened Uvarint
  import opened Strings

  /** `http.Header`. */
  type Header = map<Bytes, seq<Bytes>>

  /** A Go `int` on a 64-bit platform. */
  type Int64 = i: int | -TWO_63 <= i < TWO_63

  datatype StoredResponse = StoredResponse(statusCode: Int64, header: Header, body: Bytes)

  datatype DecodeError = Corrupt | UnsupportedVersion(version: Byte)

  const VERSION: Byte := 0x01
  const MAX_HEADER_NAMES: nat := 1024
  const MAX_HEADER_VALUES: nat := 1024

  /** `uint64(i)`. */
  function ToUint64(i: Int64): (u: nat)
    ensures u < TWO_64 && (u == i || u == i + TWO_64)
  {
    if i < 0 then i + TWO_64 else i
  }

  /** `int(u)`. */
  function ToInt64(u: nat): (i: Int64)
    requires u < TWO_64
    ensures i == u || i == u - TWO_64
  {
    if u < TWO_63 then u else u - TWO_64
  }

  /** Every length is one a Go value can have. */
  ghost predicate Addressable(sr: StoredResponse) {
    && |sr.body| < TWO_63 && |sr.header| < TWO_63
    && forall name :: name in sr.header ==> AddressableField(name, sr.header[name])
  }

  ghost predicate AddressableField(name: Bytes, values: seq<Bytes>) {
    |name| < TWO_63 && |values| < TWO_63 && forall i :: 0 <= i < |values| ==> |values[i]| < TWO_63
  }

  // ---------------------------------------------------------------- encoding

  function EncString(s: Bytes): Bytes {
    Enc(|s|) + s
  }

  function EncValues(values: seq<Bytes>): Bytes {
    if |values| == 0 then [] else EncString(values[0]) + EncValues(values[1..])
  }

  function EncFields(names: seq<Bytes>, header: Header): Bytes
    requires forall i :: 0 <= i < |names| ==> names[i] in header
  {
    if |names| == 0 then []
    else
      EncString(names[0]) + Enc(|header[names[0]]|) + EncValues(header[names[0]])
      + EncFields(names[1..], header)
  }

  /** The encoding when the map hands out its names in the given order. */
  ghost function EncodeFrom(sr: StoredResponse, order: seq<Bytes>): Bytes
    requires Lists(order, sr.header.Keys)
  {
    SortedNamesInHeader(sr.header, order);
    [VERSION] + Enc(ToUint64(sr.statusCode)) + Enc(|order|) + EncFields(Sort(order), sr.header)
    + EncString(sr.body)
  }

  lemma SortedNamesInHeader(header: Header, order: seq<Bytes>)
    requires Lists(order, header.Keys)
    ensures forall i :: 0 <= i < |Sort(order)| ==> Sort(order)[i] in header
    ensures |order| == |header|
  {
    forall i | 0 <= i < |Sort(order)| ensures Sort(order)[i] in header {
      assert Sort(order)[i] in Elements(Sort(order));
    }
    ListsLength(order, header.Keys);
    assert |header.Keys| == |header|;
  }

  lemma {:induction false} ListsLength(s: seq<Bytes>, xs: set<Bytes>)
    requires Lists(s, xs)
    ensures |s| == |xs|
  {
    if |s| == 0 {
      assert xs == {};
    } else {
      assert xs == {s[0]} + Elements(s[1..]);
      assert s[0] !in Elements(s[1..]);
      ListsLength(s[1..], Elements(s[1..]));
    }
  }

  lemma {:induction false} SomeListing(xs: set<Bytes>) returns (s: seq<Bytes>)
    ensures Lists(s, xs)
    decreases xs
  {
    if xs == {} {
      s := [];
      assert Elements(s) == xs;
    } else {
      var x :| x in xs;
      var rest := SomeListing(xs - {x});
      s := [x] + rest;
      assert Elements(s) == {x} + Elements(rest);
      forall i, j | 0 <= i < j < |s| ensures s[i] != s[j] {
        assert s[j] == rest[j - 1] && s[j] in Elements(rest);
        if i > 0 { assert s[i] == rest[i - 1]; }
      }
    }
  }

  /** The encoding of a response: a function of its contents alone. */
  ghost function Encode(sr: StoredResponse): Bytes {
    EncodeFrom(sr, SomeOrder(sr.header.Keys))
  }

  ghost function SomeOrder(xs: set<Bytes>): (s: seq<Bytes>)
    ensures Lists(s, xs)
  {
    ListingExists(xs);
    var s :| Lists(s, xs);
    s
  }

  lemma ListingExists(xs: set<Bytes>)
    ensures exists s :: Lists(s, xs)
  {
    var s := SomeListing(xs);
  }

  /** Map iteration order never shows in the payload. */
  lemma EncodeIgnoresOrder(sr: StoredResponse, order: seq<Bytes>)
    requires Lists(order, sr.header.Keys)
    ensures EncodeFrom(sr, order) == Encode(sr)
  {
    SortCanonical(order, SomeOrder(sr.header.Keys), sr.header.Keys);
    ListsLength(order, sr.header.Keys);
    ListsLength(SomeOrder(sr.header.Keys), sr.header.Keys);
  }

  method AppendString(buf: Bytes, s: Bytes) returns (r: Bytes)
    ensures r == buf + EncString(s)
  {
    r := AppendUvarint(buf, |s|);
    r := r + s;
  }

  /** `MarshalBinary`; its error result is always nil. */
  method MarshalBinary(sr: StoredResponse) returns (buf: Bytes, err: Option<DecodeError>)
    ensures buf == Encode(sr) && err.None?
  {
    buf := AppendUvarint([VERSION], ToUint64(sr.statusCode));
    var order := CollectNames(sr.header);
    var names := Sort(order);
    SortedNamesInHeader(sr.header, order);
    buf := AppendUvarint(buf, |names|);
    buf := AppendFields(buf, names, sr.header);
    buf := AppendString(buf, sr.body);
    err := None;
    EncodeIgnoresOrder(sr, order);
  }

  method AppendFields(buf: Bytes, names: seq<Bytes>, header: Header) returns (r: Bytes)
    requires forall i :: 0 <= i < |names| ==> names[i] in header
    ensures r == buf + EncFields(names, header)
  {
    r := buf;
    for i := 0 to |names|
      invariant r + EncFields(names[i..], header) == buf + EncFields(names, header)
    {
      ghost var name, values, rest := names[i], header[names[i]], EncFields(names[i + 1..], header);
      assert names[i..][1..] == names[i + 1..];
      assert r + EncFields(names[i..], header)
          == r + EncString(name) + Enc(|values|) + EncValues(values) + rest;
      r := AppendString(r, names[i]);
      r := AppendUvarint(r, |header[names[i]]|);
      r := AppendValues(r, header[names[i]]);
    }
    assert names[|names|..] == [];
  }

  /** `for name := range header`: the names in whatever order the map yields them. */
  method CollectNames(header: Header) returns (names: seq<Bytes>)
    ensures Lists(names, header.Keys)
  {
    names := [];
    var left := header.Keys;
    while left != {}
      invariant left <= header.Keys
      invariant Lists(names, header.Keys - left)
      decreases left
    {
      var name :| name in left;
      assert name !in Elements(names);
      assert Elements(names + [name]) == Elements(names) + {name};
      names := names + [name];
      left := left - {name};
    }
  }

  method AppendValues(buf: Bytes, values: seq<Bytes>) returns (r: Bytes)
    ensures r == buf + EncValues(values)
  {
    r := buf;
    for j := 0 to |values|
      invariant r + EncValues(values[j..]) == buf + EncValues(values)
    {
      assert values[j..][1..] == values[j + 1..];
      assert r + EncValues(values[j..]) == (r + EncString(values[j])) + EncValues(values[j + 1..]);
      r := AppendString(r, values[j]);
    }
    assert values[|values|..] == [];
  }
}
