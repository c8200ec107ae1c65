/** The request fingerprint: what is fed to the hash, and why it identifies the request. */
module Fingerprints {
  import opened Basics

  const NEWLINE: Byte := 0x0A
  const QUESTION: Byte := 0x3F

  /** `strings.ToUpper` on an HTTP method, which is an ASCII token. */
  function Upper(s: Bytes): (r: Bytes)
    ensures |r| == |s|
    ensures NEWLINE in r <==> NEWLINE in s
  {
    if |s| == 0 then []
    else
      assert s == [s[0]] + s[1..];
      [if 0x61 <= s[0] <= 0x7A then s[0] - 0x20 else s[0]] + Upper(s[1..])
  }

  /** Lower-case letters become upper case, every other byte stays as it is. */
  lemma {:induction false} UpperByBytes(s: Bytes, i: nat)
    requires i < |s|
    ensures Upper(s)[i] == if 'a' as int <= s[i] <= 'z' as int then s[i] - 32 else s[i]
  {
    if i > 0 {
      UpperByBytes(s[1..], i - 1);
    }
  }

  datatype Request = Request(verb: Bytes, escapedPath: Bytes, rawQuery: Bytes, body: Bytes)

  /** The bytes that are hashed. */
  function Preimage(r: Request): Bytes {
    Upper(r.verb) + [NEWLINE] + r.escapedPath + [QUESTION] + r.rawQuery + [NEWLINE] + r.body
  }

  /** `sha256.New()`: a digest fed by successive writes. The compression function is a parameter. */
  class Digest {
    var written: Bytes

    constructor ()
      ensures written == []
    {
      written := [];
    }

    method Write(p: Bytes)
      modifies this
      ensures written == old(written) + p
    {
      written := written + p;
    }
  }

  /** `Fingerprint`. */
  method Fingerprint(r: Request, sha256: Bytes -> Bytes) returns (sum: Bytes)
    ensures sum == sha256(Preimage(r))
  {
    var h := new Digest();
    h.Write(Upper(r.verb));
    h.Write([NEWLINE]);
    h.Write(r.escapedPath);
    h.Write([QUESTION]);
    h.Write(r.rawQuery);
    h.Write([NEWLINE]);
    h.Write(r.body);
    assert h.written == Preimage(r);
    sum := sha256(h.written);
  }

  /** What an HTTP request guarantees about its parts: no newline in the method or the query, and
      an escaped path without a question mark. */
  predicate WellFormed(r: Request) {
    NEWLINE !in r.verb && NEWLINE !in r.rawQuery && QUESTION !in r.escapedPath
  }

  /** A separator that the parts before it cannot contain splits a sequence in one way only. */
  lemma SplitAtSeparator(a: Bytes, b: Bytes, a': Bytes, b': Bytes, sep: Byte)
    requires sep !in a && sep !in a' && a + [sep] + b == a' + [sep] + b'
    ensures a == a' && b == b'
  {
    var whole := a + [sep] + b;
    assert whole[|a|] == sep && whole[|a'|] == sep;
    assert forall i :: 0 <= i < |a| ==> whole[i] == a[i] != sep;
    assert forall i :: 0 <= i < |a'| ==> whole[i] == a'[i] != sep;
    assert a == whole[..|a|] && a' == whole[..|a'|];
    assert b == whole[|a| + 1..] && b' == whole[|a'| + 1..];
  }

  /** Well-formed requests with equal preimages agree on method, path, query and body. */
  lemma PreimageUnambiguous(r: Request, r': Request)
    requires WellFormed(r) && WellFormed(r') && Preimage(r) == Preimage(r')
    ensures Upper(r.verb) == Upper(r'.verb) && r.escapedPath == r'.escapedPath
    ensures r.rawQuery == r'.rawQuery && r.body == r'.body
  {
    var tail := r.rawQuery + [NEWLINE] + r.body;
    var tail' := r'.rawQuery + [NEWLINE] + r'.body;
    var target := r.escapedPath + [QUESTION] + tail;
    var target' := r'.escapedPath + [QUESTION] + tail';
    assert Preimage(r) == Upper(r.verb) + [NEWLINE] + target;
    assert Preimage(r') == Upper(r'.verb) + [NEWLINE] + target';
    SplitAtSeparator(Upper(r.verb), target, Upper(r'.verb), target', NEWLINE);
    SplitAtSeparator(r.escapedPath, tail, r'.escapedPath, tail', QUESTION);
    SplitAtSeparator(r.rawQuery, r.body, r'.rawQuery, r'.body, NEWLINE);
  }

  // Each hypothesis is needed.

  const A: Byte := 0x41

  lemma UpperPlain()
    ensures Upper([A]) == [A] && Upper([A, NEWLINE, A, QUESTION]) == [A, NEWLINE, A, QUESTION]
  {
    assert [A, NEWLINE, A, QUESTION][1..] == [NEWLINE, A, QUESTION];
    assert [NEWLINE, A, QUESTION][1..] == [A, QUESTION] && [A, QUESTION][1..] == [QUESTION];
    assert Upper([QUESTION]) == [QUESTION];
    assert Upper([A, QUESTION]) == [A, QUESTION];
    assert Upper([NEWLINE, A, QUESTION]) == [NEWLINE, A, QUESTION];
  }

  /** A newline in the query lets two requests with different bodies share a preimage. */
  lemma NewlineInQueryIsAmbiguous()
    ensures exists r: Request, r': Request :: NEWLINE in r.rawQuery && WellFormed(r')
              && NEWLINE !in r.escapedPath && NEWLINE !in r'.escapedPath
              && Preimage(r) == Preimage(r') && r.body != r'.body
  {
    var plain := Request([A], [A], [A], [A, NEWLINE]);
    var query := Request([A], [A], [A, NEWLINE, A], []);
    UpperPlain();
    assert Preimage(plain) == Preimage(query) by {
      hide Upper;
      assert Preimage(plain) == [A, NEWLINE, A, QUESTION, A, NEWLINE, A, NEWLINE];
      assert Preimage(query) == [A, NEWLINE, A, QUESTION, A, NEWLINE, A, NEWLINE];
    }
  }

  /** A newline in the method lets two requests with different methods and bodies share a preimage. */
  lemma NewlineInMethodIsAmbiguous()
    ensures exists r: Request, r': Request :: NEWLINE in r.verb && WellFormed(r')
              && NEWLINE !in r.escapedPath && NEWLINE !in r'.escapedPath
              && Preimage(r) == Preimage(r') && Upper(r.verb) != Upper(r'.verb) && r.body != r'.body
  {
    var plain := Request([A], [A], [], [A, QUESTION, NEWLINE]);
    var verb := Request([A, NEWLINE, A, QUESTION], [A], [], []);
    UpperPlain();
    hide Upper;
    assert Preimage(plain) == Preimage(verb) by {
      assert Preimage(plain) == [A, NEWLINE, A, QUESTION, NEWLINE, A, QUESTION, NEWLINE];
      assert Preimage(verb) == [A, NEWLINE, A, QUESTION, NEWLINE, A, QUESTION, NEWLINE];
    }
  }

  /** Without the condition on the path the claim would fail. This shows that the proof needs it, not
      that it can be violated: `URL.EscapedPath` never returns a question mark. */
  lemma QuestionMarkInPathWouldBeAmbiguous()
    ensures exists r: Request, r': Request :: QUESTION in r.escapedPath && WellFormed(r')
              && Preimage(r) == Preimage(r') && r.rawQuery != r'.rawQuery
  {
    var query := Request([A], [], [QUESTION], []);
    var path := Request([A], [QUESTION], [], []);
    UpperPlain();
    assert Preimage(query) == Preimage(path) by {
      hide Upper;
      assert Preimage(query) == [A, NEWLINE, QUESTION, QUESTION, NEWLINE];
      assert Preimage(path) == [A, NEWLINE, QUESTION, QUESTION, NEWLINE];
    }
  }

  /** The preimage in bytes: method in upper case, line feed, path, question mark, query, line feed, body. */
  lemma PreimageInBytes(r: Request)
    ensures Preimage(r)
         == Upper(r.verb) + ['\n' as int] + r.escapedPath + ['?' as int] + r.rawQuery + ['\n' as int] + r.body
  {
  }
}
