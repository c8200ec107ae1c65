/** Byte-wise string order and `sort.Strings`. */
module Strings {
  import opened Basics

  /** Go's `a < b` on strings. */
  predicate Less(a: Bytes, b: Bytes)
    decreases |a|
  {
    if |b| == 0 then false
    else if |a| == 0 then true
    else if a[0] != b[0] then a[0] < b[0]
    else Less(a[1..], b[1..])
  }

  lemma {:induction false} LessTotal(a: Bytes, b: Bytes)
    ensures Less(a, b) || a == b || Less(b, a)
    decreases |a|
  {
    if |a| > 0 && |b| > 0 && a[0] == b[0] {
      LessTotal(a[1..], b[1..]);
      assert a == [a[0]] + a[1..] && b == [b[0]] + b[1..];
    }
  }

  lemma {:induction false} LessTransitive(a: Bytes, b: Bytes, c: Bytes)
    requires Less(a, b) && Less(b, c)
    ensures Less(a, c)
    decreases |a|
  {
    if |a| > 0 && a[0] == b[0] == c[0] {
      LessTransitive(a[1..], b[1..], c[1..]);
    }
  }

  lemma {:induction false} LessIrreflexive(a: Bytes)
    ensures !Less(a, a)
    decreases |a|
  {
    if |a| > 0 {
      LessIrreflexive(a[1..]);
    }
  }

  /** Strictly increasing: sorted and free of duplicates. */
  ghost predicate Increasing(s: seq<Bytes>) {
    forall i, j :: 0 <= i < j < |s| ==> Less(s[i], s[j])
  }

  ghost function Elements(s: seq<Bytes>): set<Bytes> {
    set x | x in s
  }

  /** s lists the elements of xs, each once. */
  ghost predicate Lists(s: seq<Bytes>, xs: set<Bytes>) {
    && Elements(s) == xs
    && forall i, j :: 0 <= i < j < |s| ==> s[i] != s[j]
  }

  lemma EmptyElements(s: seq<Bytes>)
    ensures |s| == 0 <==> Elements(s) == {}
  {
    if |s| > 0 {
      assert s[0] in Elements(s);
    }
  }

  function Insert(x: Bytes, s: seq<Bytes>): (r: seq<Bytes>)
    ensures |r| == |s| + 1
    ensures Elements(r) == Elements(s) + {x}
  {
    if |s| == 0 then [x]
    else if Less(x, s[0]) then [x] + s
    else
      var r := [s[0]] + Insert(x, s[1..]);
      assert Elements(s) == {s[0]} + Elements(s[1..]);
      assert Elements(r) == {s[0]} + Elements(Insert(x, s[1..]));
      r
  }

  /** `sort.Strings` as a value. */
  function Sort(s: seq<Bytes>): (r: seq<Bytes>)
    ensures |r| == |s|
    ensures Elements(r) == Elements(s)
  {
    if |s| == 0 then []
    else
      assert Elements(s) == {s[0]} + Elements(s[1..]);
      Insert(s[0], Sort(s[1..]))
  }

  lemma {:induction false} InsertIncreasing(x: Bytes, s: seq<Bytes>)
    requires Increasing(s) && x !in s
    ensures Increasing(Insert(x, s))
  {
    if |s| > 0 {
      if Less(x, s[0]) {
        forall j | 0 <= j < |s| ensures Less(x, s[j]) {
          if j > 0 { LessTransitive(x, s[0], s[j]); }
        }
      } else {
        LessTotal(x, s[0]);
        InsertIncreasing(x, s[1..]);
        var tail := Insert(x, s[1..]);
        forall y | y in tail ensures Less(s[0], y) {
          assert y in Elements(tail);
          if y != x {
            assert y in s[1..];
          }
        }
      }
    }
  }

  lemma {:induction false} SortIncreasing(s: seq<Bytes>)
    requires forall i, j :: 0 <= i < j < |s| ==> s[i] != s[j]
    ensures Increasing(Sort(s))
  {
    if |s| > 0 {
      SortIncreasing(s[1..]);
      assert s[0] !in Sort(s[1..]) by {
        assert s[0] !in Elements(s[1..]);
        assert s[0] !in Elements(Sort(s[1..]));
      }
      InsertIncreasing(s[0], Sort(s[1..]));
    }
  }

  /** There is only one increasing list of a set's elements. */
  lemma {:induction false} IncreasingUnique(s: seq<Bytes>, t: seq<Bytes>)
    requires Increasing(s) && Increasing(t) && Elements(s) == Elements(t)
    ensures s == t
  {
    EmptyElements(s);
    EmptyElements(t);
    if |s| > 0 {
      HeadIsLeast(s, t);
      forall x ensures x in s[1..] <==> x in t[1..] {
        TailMembers(s, x);
        TailMembers(t, x);
        assert x in s <==> x in Elements(s);
        assert x in t <==> x in Elements(t);
      }
      IncreasingUnique(s[1..], t[1..]);
      assert s == [s[0]] + s[1..] && t == [t[0]] + t[1..];
    }
  }

  lemma HeadIsLeast(s: seq<Bytes>, t: seq<Bytes>)
    requires Increasing(s) && Increasing(t) && Elements(s) == Elements(t) && |s| > 0 && |t| > 0
    ensures s[0] == t[0]
  {
    if s[0] != t[0] {
      assert s[0] in Elements(t) && t[0] in Elements(s);
      assert Less(t[0], s[0]) && Less(s[0], t[0]);
      LessTransitive(s[0], t[0], s[0]);
      LessIrreflexive(s[0]);
    }
  }

  lemma TailMembers(s: seq<Bytes>, x: Bytes)
    requires Increasing(s) && |s| > 0
    ensures x in s[1..] <==> x in s && x != s[0]
  {
    LessIrreflexive(s[0]);
  }

  /** Sorting forgets the order in which the elements were met. */
  lemma SortCanonical(s: seq<Bytes>, t: seq<Bytes>, xs: set<Bytes>)
    requires Lists(s, xs) && Lists(t, xs)
    ensures Sort(s) == Sort(t)
  {
    SortIncreasing(s);
    SortIncreasing(t);
    IncreasingUnique(Sort(s), Sort(t));
  }

  /** Less is the order of dictionaries: a is a strict prefix of b, or smaller at the first byte where the
      two differ. */
  lemma {:induction false} LessIsLexicographic(a: Bytes, b: Bytes)
    ensures Less(a, b) <==> a < b || exists k: nat :: FirstDifference(a, b, k) && a[k] < b[k]
    decreases |a|
  {
    if |a| > 0 && |b| > 0 {
      if a[0] == b[0] {
        LessIsLexicographic(a[1..], b[1..]);
        PrefixInTail(a, b);
        DifferenceInTail(a, b);
      } else {
        assert FirstDifference(a, b, 0);
      }
    }
  }

  predicate FirstDifference(a: Bytes, b: Bytes, k: nat) {
    k < |a| && k < |b| && a[k] != b[k] && a[..k] == b[..k]
  }

  lemma PrefixInTail(a: Bytes, b: Bytes)
    requires |a| > 0 && |b| > 0 && a[0] == b[0]
    ensures a < b <==> a[1..] < b[1..]
  {
    if a[1..] < b[1..] {
      assert b[..|a|] == [b[0]] + b[1..][..|a| - 1];
      assert b[..|a|] == a;
    }
  }

  lemma DifferenceInTail(a: Bytes, b: Bytes)
    requires |a| > 0 && |b| > 0 && a[0] == b[0]
    ensures (exists k: nat :: FirstDifference(a, b, k) && a[k] < b[k])
       <==> exists k: nat :: FirstDifference(a[1..], b[1..], k) && a[1..][k] < b[1..][k]
  {
    if k: nat :| FirstDifference(a, b, k) && a[k] < b[k] {
      assert k > 0;
      assert a[1..][..k - 1] == a[..k][1..] && b[1..][..k - 1] == b[..k][1..];
      assert FirstDifference(a[1..], b[1..], k - 1);
    }
    if k: nat :| FirstDifference(a[1..], b[1..], k) && a[1..][k] < b[1..][k] {
      assert a[..k + 1] == [a[0]] + a[1..][..k] && b[..k + 1] == [b[0]] + b[1..][..k];
      assert FirstDifference(a, b, k + 1);
    }
  }
}
