/** The Idempotency-Key grammar and the composition of scoped store keys. */
module Keys {
  import opened Basics

  const NUL: Byte := 0x00
  const TAB: Byte := 0x09
  const SPACE: Byte := 0x20
  const DQUOTE: Byte := 0x22
  const BACKSLASH: Byte := 0x5C
  const DEL: Byte := 0x7F
  const MAX_KEY: nat := 255

  datatype KeyError =
    | Missing
    | EmptyValue
    | MalformedString
    | ControlCharacter(c: Byte)
    | BadLength(length: nat)
    | MultipleHeaders(count: nat)

  predicate IsControl(c: Byte) {
    c <= 0x1F || c == DEL
  }

  predicate IsPrintable(c: Byte) {
    0x20 <= c <= 0x7E
  }

  predicate Printable(s: Bytes) {
    forall i :: 0 <= i < |s| ==> IsPrintable(s[i])
  }

  predicate IsOWS(c: Byte) {
    c == SPACE || c == TAB
  }

  // ---------------------------------------------------------------- RFC 8941 strings

  /** Section 4.1.6 of RFC 8941, between the quotes. */
  function Escape(s: Bytes): Bytes {
    if |s| == 0 then []
    else (if s[0] == DQUOTE || s[0] == BACKSLASH then [BACKSLASH, s[0]] else [s[0]]) + Escape(s[1..])
  }

  /** The serialisation of a String (section 4.1.6 of RFC 8941). */
  function Serialise(s: Bytes): Bytes {
    [DQUOTE] + Escape(s) + [DQUOTE]
  }

  /** What the scan of `parseSFString` makes of the input after the opening quote. */
  function Unescape(t: Bytes): Option<Bytes>
    decreases |t|
  {
    if |t| == 0 then None
    else if t[0] == BACKSLASH then
      if |t| >= 2 && (t[1] == DQUOTE || t[1] == BACKSLASH) then Prepend(t[1], Unescape(t[2..])) else None
    else if t[0] == DQUOTE then
      if |t| == 1 then Some([]) else None
    else if IsPrintable(t[0]) then Prepend(t[0], Unescape(t[1..]))
    else None
  }

  function Prepend(c: Byte, s: Option<Bytes>): Option<Bytes> {
    match s
    case None => None
    case Some(v) => Some([c] + v)
  }

  /** `parseSFString`. */
  method ParseSFString(s: Bytes) returns (r: Option<Bytes>)
    ensures r == if |s| < 2 || s[0] != DQUOTE then None else Unescape(s[1..])
  {
    if |s| < 2 || s[0] != DQUOTE {
      return None;
    }
    var b: Bytes := [];
    var i := 1;
    assert Unescape(s[1..]).Some? ==> [] + Unescape(s[1..]).value == Unescape(s[1..]).value;
    while i < |s|
      invariant 1 <= i <= |s|
      invariant Unescape(s[1..]) == Append(b, Unescape(s[i..]))
      decreases |s| - i
    {
      var c := s[i];
      assert s[i..][1..] == s[i + 1..];
      if c == BACKSLASH {
        if i + 1 >= |s| {
          return None;
        }
        var next := s[i + 1];
        if next != DQUOTE && next != BACKSLASH {
          return None;
        }
        assert s[i..][2..] == s[i + 2..];
        AppendPrepend(b, next, Unescape(s[i + 2..]));
        b := b + [next];
        i := i + 2;
      } else if c == DQUOTE {
        if i != |s| - 1 {
          return None;
        }
        assert b + [] == b;
        return Some(b);
      } else if c < 0x20 || c > 0x7E {
        return None;
      } else {
        AppendPrepend(b, c, Unescape(s[i + 1..]));
        b := b + [c];
        i := i + 1;
      }
    }
    return None;
  }

  function Append(b: Bytes, s: Option<Bytes>): Option<Bytes> {
    match s
    case None => None
    case Some(v) => Some(b + v)
  }

  lemma AppendPrepend(b: Bytes, c: Byte, s: Option<Bytes>)
    ensures Append(b, Prepend(c, s)) == Append(b + [c], s)
  {
    if s.Some? {
      assert b + ([c] + s.value) == (b + [c]) + s.value;
    }
  }

  /** The scan accepts t with result s exactly when t is the escaped s and a closing quote. */
  lemma {:induction false} UnescapeExactly(t: Bytes, s: Bytes)
    ensures Unescape(t) == Some(s) <==> Printable(s) && t == Escape(s) + [DQUOTE]
    decreases |t|
  {
    if |t| == 0 {
    } else if t[0] == BACKSLASH {
      if |t| >= 2 && (t[1] == DQUOTE || t[1] == BACKSLASH) && |s| > 0 {
        UnescapeExactly(t[2..], s[1..]);
        assert t == [t[0], t[1]] + t[2..];
        EscapeCons(s);
      }
    } else if t[0] == DQUOTE {
      if |s| > 0 { EscapeCons(s); }
    } else if |s| > 0 {
      UnescapeExactly(t[1..], s[1..]);
      assert t == [t[0]] + t[1..];
      EscapeCons(s);
    }
  }

  lemma EscapeCons(s: Bytes)
    requires |s| > 0
    ensures s == [s[0]] + s[1..]
    ensures Printable(s) <==> IsPrintable(s[0]) && Printable(s[1..])
    ensures Escape(s) + [DQUOTE]
         == (if s[0] == DQUOTE || s[0] == BACKSLASH then [BACKSLASH, s[0]] else [s[0]])
            + (Escape(s[1..]) + [DQUOTE])
  {
    PrintableCons(s[0], s[1..]);
    assert s == [s[0]] + s[1..];
    Reassociate(if s[0] == DQUOTE || s[0] == BACKSLASH then [BACKSLASH, s[0]] else [s[0]], Escape(s[1..]));
  }

  lemma PrintableCons(c: Byte, s: Bytes)
    ensures Printable([c] + s) <==> IsPrintable(c) && Printable(s)
  {
    if Printable([c] + s) {
      assert ([c] + s)[0] == c;
      forall i | 0 <= i < |s| ensures IsPrintable(s[i]) {
        assert s[i] == ([c] + s)[i + 1];
      }
    }
  }

  lemma Reassociate(head: Bytes, tail: Bytes)
    ensures head + tail + [DQUOTE] == head + (tail + [DQUOTE])
  {
  }

  /** `parseSFString` as a value. */
  function QuotedValue(s: Bytes): Option<Bytes> {
    if |s| < 2 || s[0] != DQUOTE then None else Unescape(s[1..])
  }

  /** The accepted quoted forms are exactly the RFC 8941 serialisations of printable strings, each
      decoding to the string it serialises. */
  lemma QuotedExactly(v: Bytes, s: Bytes)
    ensures QuotedValue(v) == Some(s) <==> Printable(s) && v == Serialise(s)
  {
    if |v| >= 2 && v[0] == DQUOTE {
      UnescapeExactly(v[1..], s);
      assert v == [DQUOTE] + v[1..];
      assert Serialise(s) == [DQUOTE] + (Escape(s) + [DQUOTE]);
      assert Serialise(s)[1..] == Escape(s) + [DQUOTE];
    }
  }

  // ---------------------------------------------------------------- the header value

  function TrimLeft(s: Bytes): Bytes {
    if |s| > 0 && IsOWS(s[0]) then TrimLeft(s[1..]) else s
  }

  function TrimRight(s: Bytes): Bytes {
    if |s| > 0 && IsOWS(s[|s| - 1]) then TrimRight(s[..|s| - 1]) else s
  }

  /** `strings.Trim(value, " \t")`. */
  function Trim(s: Bytes): Bytes {
    TrimRight(TrimLeft(s))
  }

  /** The first control byte of v. */
  function FirstControl(v: Bytes): Option<Byte> {
    if |v| == 0 then None else if IsControl(v[0]) then Some(v[0]) else FirstControl(v[1..])
  }

  function CheckLength(key: Bytes): Result<Bytes, KeyError> {
    if |key| == 0 || |key| > MAX_KEY then Err(BadLength(|key|)) else Ok(key)
  }

  function KeyOf(value: Bytes): Result<Bytes, KeyError> {
    var v := Trim(value);
    if |v| == 0 then Err(EmptyValue)
    else if v[0] == DQUOTE then
      match QuotedValue(v)
      case None => Err(MalformedString)
      case Some(key) => CheckLength(key)
    else
      match FirstControl(v)
      case Some(c) => Err(ControlCharacter(c))
      case None => CheckLength(v)
  }

  /** `ParseKey`. */
  method ParseKey(value: Bytes) returns (r: Result<Bytes, KeyError>)
    ensures r == KeyOf(value)
  {
    var v := Trim(value);
    if v == [] {
      return Err(EmptyValue);
    }
    var key;
    if v[0] == DQUOTE {
      var decoded := ParseSFString(v);
      if decoded.None? {
        return Err(MalformedString);
      }
      key := decoded.value;
    } else {
      for i := 0 to |v|
        invariant FirstControl(v) == FirstControl(v[i..])
      {
        var c := v[i];
        if c <= 0x1F || c == 0x7F {
          return Err(ControlCharacter(c));
        }
        assert v[i..][1..] == v[i + 1..];
      }
      key := v;
    }
    if |key| == 0 || |key| > MAX_KEY {
      return Err(BadLength(|key|));
    }
    return Ok(key);
  }

  /** `KeyFromHeader`, on the values of the Idempotency-Key header. */
  method KeyFromHeader(values: seq<Bytes>) returns (r: Result<Bytes, KeyError>)
    ensures |values| == 0 <==> r == Err(Missing)
    ensures |values| == 1 ==> r == KeyOf(values[0])
    ensures |values| > 1 ==> r == Err(MultipleHeaders(|values|))
  {
    match |values| {
      case 0 => r := Err(Missing);
      case 1 => r := ParseKey(values[0]);
      case _ => r := Err(MultipleHeaders(|values|));
    }
  }

  predicate NoControl(s: Bytes) {
    forall i :: 0 <= i < |s| ==> !IsControl(s[i])
  }

  lemma {:induction false} FirstControlNone(v: Bytes)
    ensures FirstControl(v).None? <==> NoControl(v)
  {
    if |v| > 0 {
      FirstControlNone(v[1..]);
      assert v == [v[0]] + v[1..];
    }
  }

  /** Exactly which header values name which key. */
  lemma KeyExactly(value: Bytes, key: Bytes)
    ensures KeyOf(value) == Ok(key)
       <==> && 1 <= |key| <= MAX_KEY
            && (|| (Printable(key) && Trim(value) == Serialise(key))
                || (NoControl(key) && key[0] != DQUOTE && Trim(value) == key))
  {
    var v := Trim(value);
    QuotedExactly(v, key);
    FirstControlNone(v);
    if |v| > 0 && v[0] == DQUOTE && QuotedValue(v).Some? {
      QuotedExactly(v, QuotedValue(v).value);
    }
  }

  /** No accepted key holds a control byte, NUL in particular. */
  lemma AcceptedKeysHaveNoControl(value: Bytes)
    ensures KeyOf(value).Ok? ==> NoControl(KeyOf(value).value) && 1 <= |KeyOf(value).value| <= MAX_KEY
  {
    if KeyOf(value).Ok? {
      KeyExactly(value, KeyOf(value).value);
    }
  }

  predicate AllOWS(s: Bytes) {
    forall i :: 0 <= i < |s| ==> IsOWS(s[i])
  }

  lemma {:induction false} TrimLeftPadding(pad: Bytes, s: Bytes)
    requires AllOWS(pad) && |s| > 0 && !IsOWS(s[0])
    ensures TrimLeft(pad + s) == s
  {
    if |pad| == 0 {
      assert pad + s == s;
    } else {
      assert (pad + s)[1..] == pad[1..] + s;
      TrimLeftPadding(pad[1..], s);
    }
  }

  lemma {:induction false} TrimRightPadding(s: Bytes, pad: Bytes)
    requires AllOWS(pad) && |s| > 0 && !IsOWS(s[|s| - 1])
    ensures TrimRight(s + pad) == s
    decreases |pad|
  {
    if |pad| == 0 {
      assert s + pad == s;
    } else {
      var init := pad[..|pad| - 1];
      assert (s + pad)[..|s + pad| - 1] == s + init;
      TrimRightPadding(s, init);
    }
  }

  lemma TrimPadding(before: Bytes, s: Bytes, after: Bytes)
    requires AllOWS(before) && AllOWS(after) && |s| > 0 && !IsOWS(s[0]) && !IsOWS(s[|s| - 1])
    ensures Trim(before + s + after) == s
  {
    assert before + s + after == before + (s + after);
    TrimLeftPadding(before, s + after);
    TrimRightPadding(s, after);
  }

  /** Every printable key of legal length can be sent quoted, and unquoted too unless it starts
      with a quote or has outer spaces; both forms name the same key, with any padding. */
  lemma BothFormsNameTheKey(key: Bytes, before: Bytes, after: Bytes)
    requires Printable(key) && 1 <= |key| <= MAX_KEY && AllOWS(before) && AllOWS(after)
    ensures KeyOf(before + Serialise(key) + after) == Ok(key)
    ensures key[0] != DQUOTE && key[0] != SPACE && key[|key| - 1] != SPACE ==>
              KeyOf(before + key + after) == Ok(key)
  {
    TrimPadding(before, Serialise(key), after);
    KeyExactly(before + Serialise(key) + after, key);
    if key[0] != DQUOTE && key[0] != SPACE && key[|key| - 1] != SPACE {
      assert IsPrintable(key[0]) && IsPrintable(key[|key| - 1]);
      TrimPadding(before, key, after);
      KeyExactly(before + key + after, key);
    }
  }

  // ---------------------------------------------------------------- scoped store keys

  /** The key handed to the store: `scope + "\x00" + key`, or the bare key for an empty scope. */
  function StoreKey(scope: Bytes, key: Bytes): Bytes {
    if scope == [] then key else scope + [NUL] + key
  }

  /** Store keys of accepted client keys decompose uniquely, whatever the scopes contain; in
      particular a scoped key is never an unscoped one. */
  lemma StoreKeysNeverCollide(scope: Bytes, value: Bytes, scope': Bytes, value': Bytes)
    requires KeyOf(value).Ok? && KeyOf(value').Ok?
    requires StoreKey(scope, KeyOf(value).value) == StoreKey(scope', KeyOf(value').value)
    ensures scope == scope' && KeyOf(value) == KeyOf(value')
  {
    AcceptedKeysHaveNoControl(value);
    AcceptedKeysHaveNoControl(value');
    SplitUnique(scope, KeyOf(value).value, scope', KeyOf(value').value);
  }

  lemma SplitUnique(scope: Bytes, key: Bytes, scope': Bytes, key': Bytes)
    requires NoControl(key) && NoControl(key')
    requires StoreKey(scope, key) == StoreKey(scope', key')
    ensures scope == scope' && key == key'
  {
    var whole := StoreKey(scope, key);
    if scope != [] {
      assert whole[|scope|] == NUL;
      assert forall i :: |scope| < i < |whole| ==> whole[i] == key[i - |scope| - 1] != NUL;
    }
    if scope' != [] {
      assert whole[|scope'|] == NUL;
      assert forall i :: |scope'| < i < |whole| ==> whole[i] == key'[i - |scope'| - 1] != NUL;
    }
    assert scope != [] <==> NUL in whole;
    assert scope' != [] <==> NUL in whole;
    if scope != [] {
      assert |scope| == |scope'|;
      assert scope == whole[..|scope|] && scope' == whole[..|scope'|];
      assert key == whole[|scope| + 1..] && key' == whole[|scope'| + 1..];
    }
  }

  // ---------------------------------------------------------------- in bytes

  /** Spaces and tabs only. */
  predicate Padding(s: Bytes) {
    forall i :: 0 <= i < |s| ==> s[i] == 0x20 || s[i] == 0x09
  }

  lemma {:induction false} TrimLeftSplits(s: Bytes) returns (pad: Bytes)
    ensures s == pad + TrimLeft(s) && Padding(pad)
    ensures |TrimLeft(s)| > 0 ==> TrimLeft(s)[0] != 0x20 && TrimLeft(s)[0] != 0x09
  {
    pad := [];
    if |s| > 0 && IsOWS(s[0]) {
      var rest := TrimLeftSplits(s[1..]);
      pad := [s[0]] + rest;
      assert s == [s[0]] + s[1..];
    }
  }

  lemma {:induction false} TrimRightSplits(s: Bytes) returns (pad: Bytes)
    ensures s == TrimRight(s) + pad && Padding(pad)
    ensures |TrimRight(s)| > 0 ==>
              TrimRight(s)[0] == s[0] && var last := TrimRight(s)[|TrimRight(s)| - 1]; last != 0x20 && last != 0x09
    decreases |s|
  {
    pad := [];
    if |s| > 0 && IsOWS(s[|s| - 1]) {
      var rest := TrimRightSplits(s[..|s| - 1]);
      pad := rest + [s[|s| - 1]];
      assert s == s[..|s| - 1] + [s[|s| - 1]];
    }
  }

  /** The value is v between spaces and tabs, none of which belongs to v. */
  ghost predicate Padded(value: Bytes, v: Bytes) {
    && (exists before, after :: Padding(before) && Padding(after) && value == before + v + after)
    && (|v| > 0 ==> v[0] != 0x20 && v[0] != 0x09 && v[|v| - 1] != 0x20 && v[|v| - 1] != 0x09)
  }

  /** Trimming takes off exactly the outer spaces and tabs. */
  lemma TrimExactly(value: Bytes, v: Bytes)
    ensures Trim(value) == v <==> Padded(value, v)
  {
    var before := TrimLeftSplits(value);
    var after := TrimRightSplits(TrimLeft(value));
    assert value == before + Trim(value) + after;
    assert Padded(value, Trim(value));
    if Padded(value, v) {
      var pre, post :| Padding(pre) && Padding(post) && value == pre + v + post;
      if |v| > 0 {
        TrimPadding(pre, v, post);
      } else {
        AllPaddingTrims(value);
      }
    }
  }

  lemma {:induction false} AllPaddingTrims(s: Bytes)
    requires Padding(s)
    ensures Trim(s) == []
  {
    if |s| > 0 {
      AllPaddingTrims(s[1..]);
    }
  }

  /** Printable ASCII. */
  predicate AllVisible(s: Bytes) {
    forall i :: 0 <= i < |s| ==> 0x20 <= s[i] <= 0x7E
  }

  /** No byte below 0x20, and no 0x7F. */
  predicate NoneControl(s: Bytes) {
    forall i :: 0 <= i < |s| ==> s[i] > 0x1F && s[i] != 0x7F
  }

  /** Escaping, byte by byte: a backslash before every quote and every backslash. */
  lemma {:induction false} EscapeByBytes(a: Bytes, b: Bytes, c: Byte)
    ensures Escape([]) == []
    ensures Escape([c]) == if c == 0x22 || c == 0x5C then [0x5C, c] else [c]
    ensures Escape(a + b) == Escape(a) + Escape(b)
  {
    assert [c][1..] == [];
    if |a| == 0 {
      assert a + b == b;
    } else {
      EscapeByBytes(a[1..], b, c);
      var head := if a[0] == DQUOTE || a[0] == BACKSLASH then [BACKSLASH, a[0]] else [a[0]];
      assert (a + b)[1..] == a[1..] + b;
      assert Escape(a + b) == head + (Escape(a[1..]) + Escape(b));
      assert Escape(a) == head + Escape(a[1..]);
    }
  }

  /** The two forms of a header value that name a key, in bytes: the key itself, if it has no control
      byte, no leading quote and no outer space; or, if it is printable, the key escaped between quotes.
      Either may stand between spaces and tabs. */
  lemma ValuesNamingKey(value: Bytes, key: Bytes)
    ensures KeyOf(value) == Ok(key)
       <==> && 1 <= |key| <= 255
            && (|| (AllVisible(key) && Padded(value, [0x22] + Escape(key) + [0x22]))
                || (NoneControl(key) && key[0] != 0x22 && Padded(value, key)))
  {
    KeyExactly(value, key);
    TrimExactly(value, key);
    TrimExactly(value, Serialise(key));
    assert Printable(key) <==> AllVisible(key);
    assert NoControl(key) <==> NoneControl(key);
  }

  /** Raw keys, non-ASCII bytes included, are taken as they are. */
  lemma RawKeysAsTheyAre(key: Bytes, before: Bytes, after: Bytes)
    requires 1 <= |key| <= 255 && NoneControl(key) && key[0] != 0x22 && key[0] != 0x20 && key[|key| - 1] != 0x20
    requires Padding(before) && Padding(after)
    ensures KeyOf(before + key + after) == Ok(key)
  {
    assert Padded(before + key + after, key);
    ValuesNamingKey(before + key + after, key);
  }

  /** Every other value is refused, with the reason that applies. */
  lemma RefusedValues(value: Bytes, v: Bytes)
    requires Padded(value, v)
    ensures KeyOf(value) == Err(EmptyValue) <==> v == []
    ensures KeyOf(value) == Err(MalformedString) <==>
              |v| > 0 && v[0] == 0x22 && forall s :: AllVisible(s) ==> v != [0x22] + Escape(s) + [0x22]
    ensures forall c: Byte ::
              KeyOf(value) == Err(ControlCharacter(c)) <==> |v| > 0 && v[0] != 0x22 && FirstBad(v, c)
    ensures forall n: nat ::
              KeyOf(value) == Err(BadLength(n)) <==>
                || (n > 255 && n == |v| && v[0] != 0x22 && NoneControl(v))
                || ((n == 0 || n > 255) && exists s :: AllVisible(s) && |s| == n && v == [0x22] + Escape(s) + [0x22])
  {
    TrimExactly(value, v);
    FirstControlNone(v);
    assert NoControl(v) <==> NoneControl(v);
    if |v| > 0 && v[0] == 0x22 {
      QuotedForms(v);
    } else {
      forall c: Byte ensures FirstControl(v) == Some(c) <==> FirstBad(v, c) {
        FirstControlIs(v, c);
      }
      assert forall s :: v != [0x22] + Escape(s) + [0x22] by { NotQuoted(v); }
    }
  }

  /** c is the first control byte of v. */
  predicate FirstBad(v: Bytes, c: Byte) {
    exists i :: 0 <= i < |v| && v[i] == c && (c <= 0x1F || c == 0x7F) && NoneControl(v[..i])
  }

  lemma FirstControlIs(v: Bytes, c: Byte)
    ensures FirstControl(v) == Some(c) <==> FirstBad(v, c)
  {
    if FirstControl(v) == Some(c) {
      FirstControlIsBad(v, c);
    }
    if FirstBad(v, c) {
      var i :| 0 <= i < |v| && v[i] == c && (c <= 0x1F || c == 0x7F) && NoneControl(v[..i]);
      BadIsFirstControl(v, i);
    }
  }

  lemma {:induction false} FirstControlIsBad(v: Bytes, c: Byte)
    requires FirstControl(v) == Some(c)
    ensures FirstBad(v, c)
  {
    if IsControl(v[0]) {
      assert v[0] == c && NoneControl(v[..0]);
    } else {
      FirstControlIsBad(v[1..], c);
      var i :| 0 <= i < |v| - 1 && v[1..][i] == c && (c <= 0x1F || c == 0x7F) && NoneControl(v[1..][..i]);
      assert v[..i + 1] == [v[0]] + v[1..][..i];
      assert v[i + 1] == c && NoneControl(v[..i + 1]);
    }
  }

  lemma {:induction false} BadIsFirstControl(v: Bytes, i: nat)
    requires i < |v| && IsControl(v[i]) && NoneControl(v[..i])
    ensures FirstControl(v) == Some(v[i])
  {
    if i > 0 {
      assert v[..i][0] == v[0];
      assert v[1..][..i - 1] == v[..i][1..];
      BadIsFirstControl(v[1..], i - 1);
    }
  }

  lemma NotQuoted(v: Bytes)
    requires |v| > 0 ==> v[0] != 0x22
    ensures forall s :: v != [0x22] + Escape(s) + [0x22]
  {
    forall s ensures v != [0x22] + Escape(s) + [0x22] {
      assert ([0x22] + Escape(s) + [0x22])[0] == 0x22;
    }
  }

  lemma QuotedForms(v: Bytes)
    ensures forall s :: QuotedValue(v) == Some(s) <==> AllVisible(s) && v == [0x22] + Escape(s) + [0x22]
  {
    forall s ensures QuotedValue(v) == Some(s) <==> AllVisible(s) && v == [0x22] + Escape(s) + [0x22] {
      QuotedExactly(v, s);
      assert Printable(s) <==> AllVisible(s);
    }
  }

  /** The store key in bytes. */
  lemma StoreKeyInBytes(scope: Bytes, key: Bytes)
    ensures scope == [] ==> StoreKey(scope, key) == key
    ensures scope != [] ==> StoreKey(scope, key) == scope + [0x00] + key
  {
  }
}
