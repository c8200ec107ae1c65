/** HTTP header names: canonical spelling, and which headers a response may leave behind. */
module Headers {
  import opened Basics
  import opened Codec

  const DASH: Byte := 0x2D

  /** The bytes of an ASCII text. */
  function Ascii(text: string): (r: Bytes)
    ensures |r| == |text| && forall i :: 0 <= i < |r| ==> r[i] == text[i] as int % 256
  {
    seq(|text|, i requires 0 <= i < |text| => text[i] as int % 256)
  }

  predicate IsLower(c: Byte) {
    0x61 <= c <= 0x7A
  }

  predicate IsUpper(c: Byte) {
    0x41 <= c <= 0x5A
  }

  /** A token character (section 5.6.2 of RFC 9110). */
  predicate IsTokenByte(c: Byte) {
    || IsLower(c) || IsUpper(c) || 0x30 <= c <= 0x39
    || c in {0x21, 0x23, 0x24, 0x25, 0x26, 0x27, 0x2A, 0x2B, 0x2D, 0x2E, 0x5E, 0x5F, 0x60, 0x7C, 0x7E}
  }

  predicate IsToken(s: Bytes) {
    forall i :: 0 <= i < |s| ==> IsTokenByte(s[i])
  }

  function LowerByte(c: Byte): Byte {
    if IsUpper(c) then c + 0x20 else c
  }

  function UpperByte(c: Byte): Byte {
    if IsLower(c) then c - 0x20 else c
  }

  /** Upper case at the start and after a dash, lower case elsewhere. */
  function Capitalise(s: Bytes, start: bool): (r: Bytes)
    ensures |r| == |s|
  {
    if |s| == 0 then []
    else [if start then UpperByte(s[0]) else LowerByte(s[0])] + Capitalise(s[1..], s[0] == DASH)
  }

  /** `textproto.CanonicalMIMEHeaderKey`: a name that is no token stays as it is. */
  function Canon(name: Bytes): Bytes {
    if IsToken(name) then Capitalise(name, true) else name
  }

  predicate SameIgnoringCase(a: Bytes, b: Bytes) {
    |a| == |b| && forall i :: 0 <= i < |a| ==> LowerByte(a[i]) == LowerByte(b[i])
  }

  lemma {:induction false} CapitaliseKeepsLetters(s: Bytes, start: bool)
    ensures SameIgnoringCase(Capitalise(s, start), s)
  {
    if |s| > 0 {
      CapitaliseKeepsLetters(s[1..], s[0] == DASH);
      var r := Capitalise(s, start);
      forall i | 0 <= i < |r| ensures LowerByte(r[i]) == LowerByte(s[i]) {
        if i > 0 {
          assert r[i] == Capitalise(s[1..], s[0] == DASH)[i - 1] && s[i] == s[1..][i - 1];
        }
      }
    }
  }

  lemma {:induction false} CapitaliseIgnoresCase(a: Bytes, b: Bytes, start: bool)
    requires SameIgnoringCase(a, b)
    ensures Capitalise(a, start) == Capitalise(b, start)
  {
    if |a| > 0 {
      assert LowerByte(a[0]) == LowerByte(b[0]);
      assert SameIgnoringCase(a[1..], b[1..]) by {
        forall i | 0 <= i < |a| - 1 ensures LowerByte(a[1..][i]) == LowerByte(b[1..][i]) {
          assert LowerByte(a[i + 1]) == LowerByte(b[i + 1]);
        }
      }
      CapitaliseIgnoresCase(a[1..], b[1..], a[0] == DASH);
    }
  }

  lemma TokenIgnoresCase(a: Bytes, b: Bytes)
    requires SameIgnoringCase(a, b)
    ensures IsToken(a) <==> IsToken(b)
  {
    forall i | 0 <= i < |a| ensures IsTokenByte(a[i]) <==> IsTokenByte(b[i]) {
      assert LowerByte(a[i]) == LowerByte(b[i]);
    }
  }

  /** Tokens have the same canonical spelling exactly when they differ in case only, and the
      canonical spelling is its own. */
  lemma CanonIsCaseFolding(a: Bytes, b: Bytes)
    requires IsToken(a)
    ensures Canon(a) == Canon(b) <==> SameIgnoringCase(a, b)
    ensures Canon(Canon(a)) == Canon(a)
  {
    CapitaliseKeepsLetters(a, true);
    CapitaliseKeepsLetters(b, true);
    TokenIgnoresCase(Canon(a), a);
    CapitaliseIgnoresCase(Canon(a), a, true);
    if SameIgnoringCase(a, b) {
      TokenIgnoresCase(a, b);
      CapitaliseIgnoresCase(a, b, true);
    }
    if Canon(a) == Canon(b) {
      forall i | 0 <= i < |a| ensures LowerByte(a[i]) == LowerByte(b[i]) {
        assert LowerByte(Canon(a)[i]) == LowerByte(a[i]);
      }
    }
  }

  lemma CanonIdempotent(name: Bytes)
    ensures Canon(Canon(name)) == Canon(name)
  {
    if IsToken(name) {
      CanonIsCaseFolding(name, name);
    }
  }

  /** Session-bearing and hop-by-hop headers. */
  const ALWAYS_EXCLUDED: set<Bytes> := {
    Ascii("Set-Cookie"), Ascii("Authorization"), Ascii("Connection"), Ascii("Transfer-Encoding"),
    Ascii("Keep-Alive"), Ascii("Upgrade"), Ascii("Trailer"), Ascii("Te"),
    Ascii("Proxy-Authenticate"), Ascii("Proxy-Authorization")
  }

  /** Names that may be stored, given the configured list. */
  function Allowed(names: seq<Bytes>): set<Bytes> {
    set name | name in names && Canon(name) !in ALWAYS_EXCLUDED :: Canon(name)
  }

  /** `http.Header.Values`. */
  function Values(header: Header, name: Bytes): seq<Bytes> {
    if Canon(name) in header then header[Canon(name)] else []
  }

  /** The allowlisted part of a header. */
  function Snapshot(header: Header, allow: set<Bytes>): Header {
    map name | name in allow && |Values(header, name)| > 0 :: Values(header, name)
  }

  /** The byte a canonical spelling has at position i. */
  predicate CasedAt(s: Bytes, i: nat, start: bool)
    requires i < |s|
  {
    s[i] == if (if i == 0 then start else s[i - 1] == DASH) then UpperByte(s[i]) else LowerByte(s[i])
  }

  lemma {:induction false} CapitaliseKeepsCanonical(s: Bytes, start: bool)
    requires forall i :: 0 <= i < |s| ==> CasedAt(s, i, start)
    ensures Capitalise(s, start) == s
  {
    if |s| > 0 {
      var rest := s[1..];
      var dash := s[0] == DASH;
      forall i | 0 <= i < |rest| ensures CasedAt(rest, i, dash) {
        assert CasedAt(s, i + 1, start);
      }
      CapitaliseKeepsCanonical(rest, dash);
      assert CasedAt(s, 0, start);
      assert s == [s[0]] + rest;
    }
  }

  predicate WellSpeltAt(text: string, i: nat)
    requires i < |text|
  {
    || text[i] == '-'
    || (if i == 0 || text[i - 1] == '-' then 'A' <= text[i] <= 'Z' else 'a' <= text[i] <= 'z')
  }

  /** A name written the canonical way. */
  predicate WellSpelt(text: string) {
    forall i :: 0 <= i < |text| ==> WellSpeltAt(text, i)
  }

  lemma WellSpeltIsCanonical(text: string)
    requires WellSpelt(text)
    ensures IsToken(Ascii(text)) && Canon(Ascii(text)) == Ascii(text)
  {
    var s := Ascii(text);
    forall i | 0 <= i < |s| ensures CasedAt(s, i, true) && IsTokenByte(s[i]) {
      assert s[i] == text[i] as int % 256;
      assert WellSpeltAt(text, i);
      if i > 0 {
        assert WellSpeltAt(text, i - 1);
      }
    }
    CapitaliseKeepsCanonical(s, true);
  }

  lemma SessionNamesAreWellSpelt()
    ensures WellSpelt("Set-Cookie")
    ensures WellSpelt("Authorization")
    ensures WellSpelt("Proxy-Authenticate")
    ensures WellSpelt("Proxy-Authorization")
  {
  }

  lemma HopByHopNamesAreWellSpelt()
    ensures WellSpelt("Connection")
    ensures WellSpelt("Transfer-Encoding")
    ensures WellSpelt("Keep-Alive")
    ensures WellSpelt("Upgrade")
    ensures WellSpelt("Trailer")
    ensures WellSpelt("Te")
  {
  }

  lemma ExcludedAreCanonical(e: Bytes)
    requires e in ALWAYS_EXCLUDED
    ensures IsToken(e) && Canon(e) == e
  {
    hide IsToken, Canon, Ascii, WellSpelt;
    SessionNamesAreWellSpelt();
    HopByHopNamesAreWellSpelt();
    WellSpeltIsCanonical("Set-Cookie");
    WellSpeltIsCanonical("Authorization");
    WellSpeltIsCanonical("Connection");
    WellSpeltIsCanonical("Transfer-Encoding");
    WellSpeltIsCanonical("Keep-Alive");
    WellSpeltIsCanonical("Upgrade");
    WellSpeltIsCanonical("Trailer");
    WellSpeltIsCanonical("Te");
    WellSpeltIsCanonical("Proxy-Authenticate");
    WellSpeltIsCanonical("Proxy-Authorization");
  }

  /** However a configuration spells them, excluded headers are never allowed; and an allowed name is
      its own canonical spelling. */
  lemma ExcludedInAnySpelling(names: seq<Bytes>, name: Bytes, excluded: Bytes)
    requires name in Allowed(names) && excluded in ALWAYS_EXCLUDED
    ensures !SameIgnoringCase(name, excluded)
    ensures Canon(name) == name
  {
    hide Ascii, ALWAYS_EXCLUDED, Canon, SameIgnoringCase;
    var n :| n in names && Canon(n) !in ALWAYS_EXCLUDED && Canon(n) == name;
    CanonIdempotent(n);
    ExcludedAreCanonical(excluded);
    CanonIsCaseFolding(excluded, name);
    SameSymmetric(excluded, name);
  }

  lemma SameSymmetric(a: Bytes, b: Bytes)
    ensures SameIgnoringCase(a, b) <==> SameIgnoringCase(b, a)
  {
  }

  /** A snapshot holds the allowed names that have values, with all of their values, and nothing else. */
  lemma SnapshotIsFiltered(header: Header, names: seq<Bytes>, name: Bytes)
    ensures var kept := Snapshot(header, Allowed(names));
            && (name in kept <==> name in Allowed(names) && name in header && header[name] != [])
            && (name in kept ==> kept[name] == header[name])
  {
    if name in Allowed(names) {
      var n :| n in names && Canon(n) !in ALWAYS_EXCLUDED && Canon(n) == name;
      CanonIdempotent(n);
    }
  }

  // ---------------------------------------------------------------- by name

  /** A name is one of the given texts, in any spelling. */
  predicate Spells(name: Bytes, text: string) {
    SameIgnoringCase(name, Ascii(text))
  }

  /** The headers that must never be replayed, one by one. */
  lemma NeverAllowed(names: seq<Bytes>, name: Bytes)
    requires name in Allowed(names)
    ensures !Spells(name, "Set-Cookie")
    ensures !Spells(name, "Authorization")
    ensures !Spells(name, "Connection")
    ensures !Spells(name, "Transfer-Encoding")
    ensures !Spells(name, "Keep-Alive")
    ensures !Spells(name, "Upgrade")
    ensures !Spells(name, "Trailer")
    ensures !Spells(name, "Te")
    ensures !Spells(name, "Proxy-Authenticate")
    ensures !Spells(name, "Proxy-Authorization")
  {
    hide SameIgnoringCase, Allowed, Ascii;
    ExcludedInAnySpelling(names, name, Ascii("Set-Cookie"));
    ExcludedInAnySpelling(names, name, Ascii("Authorization"));
    ExcludedInAnySpelling(names, name, Ascii("Connection"));
    ExcludedInAnySpelling(names, name, Ascii("Transfer-Encoding"));
    ExcludedInAnySpelling(names, name, Ascii("Keep-Alive"));
    ExcludedInAnySpelling(names, name, Ascii("Upgrade"));
    ExcludedInAnySpelling(names, name, Ascii("Trailer"));
    ExcludedInAnySpelling(names, name, Ascii("Te"));
    ExcludedInAnySpelling(names, name, Ascii("Proxy-Authenticate"));
    ExcludedInAnySpelling(names, name, Ascii("Proxy-Authorization"));
  }

  /** And only these: whatever else is configured is allowed, under its canonical name. */
  lemma OthersAreAllowed(names: seq<Bytes>, n: Bytes)
    requires n in names
    requires !Spells(n, "Set-Cookie")
    requires !Spells(n, "Authorization")
    requires !Spells(n, "Connection")
    requires !Spells(n, "Transfer-Encoding")
    requires !Spells(n, "Keep-Alive")
    requires !Spells(n, "Upgrade")
    requires !Spells(n, "Trailer")
    requires !Spells(n, "Te")
    requires !Spells(n, "Proxy-Authenticate")
    requires !Spells(n, "Proxy-Authorization")
    ensures Canon(n) in Allowed(names)
  {
    hide SameIgnoringCase, Ascii, Canon;
    if Canon(n) in ALWAYS_EXCLUDED {
      ExcludedAreCanonical(Canon(n));
      CanonIsCaseFolding(Canon(n), n);
      CanonIdempotent(n);
      SameSymmetric(Canon(n), n);
    }
  }

  /** Canonical spelling, byte by byte. */
  lemma CanonByBytes(name: Bytes, i: nat)
    requires i < |name|
    ensures |Canon(name)| == |name|
    ensures !IsToken(name) ==> Canon(name) == name
    ensures IsToken(name) ==>
              var start := i == 0 || name[i - 1] == '-' as int;
              Canon(name)[i] ==
                if start && 'a' as int <= name[i] <= 'z' as int then name[i] - 32
                else if !start && 'A' as int <= name[i] <= 'Z' as int then name[i] + 32
                else name[i]
  {
    CapitaliseByBytes(name, true, i);
  }

  lemma {:induction false} CapitaliseByBytes(s: Bytes, start: bool, i: nat)
    requires i < |s|
    ensures var first := if i == 0 then start else s[i - 1] == DASH;
            Capitalise(s, start)[i] == if first then UpperByte(s[i]) else LowerByte(s[i])
  {
    if i > 0 {
      CapitaliseByBytes(s[1..], s[0] == DASH, i - 1);
    }
  }

  /** Token characters (section 5.6.2 of RFC 9110). */
  lemma TokenBytes(c: Byte)
    ensures IsTokenByte(c) <==>
              || 'a' as int <= c <= 'z' as int || 'A' as int <= c <= 'Z' as int || '0' as int <= c <= '9' as int
              || c in Ascii("!#$%&'*+-.^_`|~")
  {
    var marks := Ascii("!#$%&'*+-.^_`|~");
    assert marks == [0x21, 0x23, 0x24, 0x25, 0x26, 0x27, 0x2A, 0x2B, 0x2D, 0x2E, 0x5E, 0x5F, 0x60, 0x7C, 0x7E];
  }
}
