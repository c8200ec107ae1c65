/** Unsigned base-128 integers as in Go's encoding/binary: `AppendUvarint` and `Uvarint`. */
module Uvarint {
  import opened Basics

  const MAX_VARINT_LEN64: nat := 10

  /** The minimal encoding: little-endian groups of seven bits, the high bit marking "more follows". */
  function Enc(n: nat): (r: Bytes)
    ensures |r| > 0
    decreases n
  {
    if n < 128 then [n] else [n % 128 + 128] + Enc(n / 128)
  }

  /** First value that no longer fits when the group at position i is reached (2^(64 - 7i)). */
  function Limit(i: nat): (r: nat)
    requires i < MAX_VARINT_LEN64
    ensures r >= 2
    decreases MAX_VARINT_LEN64 - i
  {
    if i == MAX_VARINT_LEN64 - 1 then 2 else 128 * Limit(i + 1)
  }

  lemma LimitOfFirstGroup()
    ensures Limit(0) == TWO_64
  {
  }

  /** Value and length of the integer at the front of buf, whose first byte is group number i.
      None on a truncated or overlong integer and on one that exceeds 64 bits; non-minimal
      forms are accepted. */
  function Dec(buf: Bytes, i: nat): (r: Option<(nat, nat)>)
    ensures r.Some? ==> i < MAX_VARINT_LEN64 && r.value.0 < Limit(i) && 0 < r.value.1 <= |buf|
    decreases |buf|
  {
    if |buf| == 0 || i >= MAX_VARINT_LEN64 then
      None
    else if buf[0] < 128 then
      if i == MAX_VARINT_LEN64 - 1 && buf[0] > 1 then None else Some((buf[0], 1))
    else
      match Dec(buf[1..], i + 1)
      case None => None
      case Some((v, n)) => Some((buf[0] - 128 + 128 * v, n + 1))
  }

  /** Decoding undoes encoding, whatever follows it in the buffer. */
  lemma {:induction false} DecEnc(n: nat, i: nat, rest: Bytes)
    requires i < MAX_VARINT_LEN64 && n < Limit(i)
    ensures Dec(Enc(n) + rest, i) == Some((n, |Enc(n)|))
    decreases n
  {
    if n < 128 {
      assert Enc(n) + rest == [n] + rest;
    } else {
      assert (Enc(n) + rest)[1..] == Enc(n / 128) + rest;
      DecEnc(n / 128, i + 1, rest);
    }
  }

  /** What has been decoded does not change when more bytes arrive. */
  lemma {:induction false} DecExtend(buf: Bytes, i: nat, ext: Bytes)
    requires Dec(buf, i).Some?
    ensures Dec(buf + ext, i) == Dec(buf, i)
    decreases |buf|
  {
    if buf[0] >= 128 {
      assert (buf + ext)[1..] == buf[1..] + ext;
      DecExtend(buf[1..], i + 1, ext);
    }
  }

  /** `binary.AppendUvarint`. */
  method AppendUvarint(buf: Bytes, x: nat) returns (r: Bytes)
    ensures r == buf + Enc(x)
  {
    r := buf;
    var rest := x;
    while rest >= 128
      invariant r + Enc(rest) == buf + Enc(x)
      decreases rest
    {
      assert Enc(rest) == [rest % 128 + 128] + Enc(rest / 128);
      assert r + Enc(rest) == (r + [rest % 128 + 128]) + Enc(rest / 128);
      r := r + [rest % 128 + 128];
      rest := rest / 128;
    }
    r := r + [rest];
  }

  /** `b << 7i`. */
  function Shl(b: nat, i: nat): nat {
    if i == 0 then b else 128 * Shl(b, i - 1)
  }

  lemma {:induction false} ShlGroups(b: nat, v: nat, i: nat)
    ensures Shl(b + 128 * v, i) == Shl(b, i) + Shl(v, i + 1)
  {
    if i > 0 {
      ShlGroups(b, v, i - 1);
    }
  }

  /** What the loop of `Uvarint` returns when it has consumed i groups worth x. */
  function Resume(x: nat, i: nat, buf: Bytes): Option<(nat, nat)>
    requires i <= |buf|
  {
    match Dec(buf[i..], i)
    case None => None
    case Some((v, n)) => Some((x + Shl(v, i), i + n))
  }

  lemma ResumeLast(x: nat, i: nat, buf: Bytes)
    requires i < |buf| && buf[i] < 128 && i < MAX_VARINT_LEN64
    ensures Resume(x, i, buf) ==
            if i == MAX_VARINT_LEN64 - 1 && buf[i] > 1 then None else Some((x + Shl(buf[i], i), i + 1))
  {
  }

  lemma ResumeStep(x: nat, i: nat, buf: Bytes)
    requires i < |buf| && buf[i] >= 128 && i < MAX_VARINT_LEN64
    ensures Resume(x, i, buf) == Resume(x + Shl(buf[i] - 128, i), i + 1, buf)
  {
    assert buf[i..][1..] == buf[i + 1..];
    match Dec(buf[i + 1..], i + 1)
    case None =>
    case Some((v, n)) => ShlGroups(buf[i] - 128, v, i);
  }

  /** `binary.Uvarint`: n > 0 is the number of bytes read, n == 0 a short buffer and n < 0 an
      overflow after -n bytes. The shifted groups occupy disjoint bits, so or-ing them in is
      addition. */
  method Uvarint(buf: Bytes) returns (v: nat, n: int)
    ensures n > 0 <==> Dec(buf, 0).Some?
    ensures n > 0 ==> Dec(buf, 0) == Some((v, n))
    ensures n <= 0 ==> v == 0
  {
    var x: nat := 0;
    assert buf[0..] == buf;
    for i := 0 to |buf|
      invariant i <= MAX_VARINT_LEN64
      invariant Resume(x, i, buf) == Dec(buf, 0)
    {
      if i == MAX_VARINT_LEN64 {
        return 0, -(i + 1);
      }
      var b: nat := buf[i];
      if b < 0x80 {
        ResumeLast(x, i, buf);
        if i == MAX_VARINT_LEN64 - 1 && b > 1 {
          return 0, -(i + 1);
        }
        return x + Shl(b, i), i + 1;
      }
      ResumeStep(x, i, buf);
      x := x + Shl(b - 128, i);
    }
    return 0, 0;
  }

  // ---------------------------------------------------------------- the format

  /** A base-128 integer: every byte but the last has its high bit set. */
  predicate IsVarint(s: Bytes) {
    |s| > 0 && s[|s| - 1] < 128 && forall i :: 0 <= i < |s| - 1 ==> s[i] >= 128
  }

  /** Its value: seven bits per byte, the least significant ones first. */
  function ValueOf(s: Bytes): nat {
    if |s| == 0 then 0 else s[0] % 128 + 128 * ValueOf(s[1..])
  }

  /** The encoding is the shortest base-128 form of the integer. */
  lemma {:induction false} EncIsShortest(n: nat)
    ensures IsVarint(Enc(n)) && ValueOf(Enc(n)) == n
    ensures |Enc(n)| > 1 ==> Enc(n)[|Enc(n)| - 1] != 0
    decreases n
  {
    if n >= 128 {
      EncIsShortest(n / 128);
      assert Enc(n)[1..] == Enc(n / 128);
    }
  }

  /** What is accepted, and what it means: a base-128 integer of at most ten bytes whose value fits 64
      bits, whether it is the shortest form or not. */
  lemma DecExactly(buf: Bytes, v: nat, n: nat)
    ensures Dec(buf, 0) == Some((v, n)) <==>
              n <= |buf| && n <= 10 && IsVarint(buf[..n]) && v == ValueOf(buf[..n]) < TWO_64
  {
    LimitOfFirstGroup();
    if Dec(buf, 0).Some? {
      DecIsVarint(buf, 0);
      var (w, m) := Dec(buf, 0).value;
      if n <= |buf| && IsVarint(buf[..n]) {
        OneVarint(buf, n, m);
      }
    }
    if n <= |buf| && n <= 10 && IsVarint(buf[..n]) && ValueOf(buf[..n]) < TWO_64 {
      VarintIsDecoded(buf, 0, n);
    }
  }

  lemma OneVarint(buf: Bytes, n: nat, m: nat)
    requires n <= |buf| && m <= |buf| && IsVarint(buf[..n]) && IsVarint(buf[..m])
    ensures n == m
  {
    if n < m {
      EndsEarlier(buf, n, m);
    } else if m < n {
      EndsEarlier(buf, m, n);
    }
  }

  lemma EndsEarlier(buf: Bytes, n: nat, m: nat)
    requires n < m <= |buf| && IsVarint(buf[..n])
    ensures !IsVarint(buf[..m])
  {
    assert buf[..m][n - 1] == buf[..n][n - 1] < 128;
  }

  lemma {:induction false} DecIsVarint(buf: Bytes, i: nat)
    requires Dec(buf, i).Some?
    ensures var (v, n) := Dec(buf, i).value;
            i + n <= 10 && IsVarint(buf[..n]) && v == ValueOf(buf[..n]) < Limit(i)
    decreases |buf|
  {
    var (v, n) := Dec(buf, i).value;
    assert buf[..n][0] == buf[0];
    if buf[0] < 128 {
      assert buf[..1][1..] == [];
    } else {
      DecIsVarint(buf[1..], i + 1);
      assert buf[..n][1..] == buf[1..][..n - 1];
      assert forall k :: 0 < k < n ==> buf[..n][k] == buf[1..][..n - 1][k - 1];
    }
  }

  lemma {:induction false} VarintIsDecoded(buf: Bytes, i: nat, n: nat)
    requires n <= |buf| && i + n <= 10 && IsVarint(buf[..n]) && ValueOf(buf[..n]) < Limit(i)
    ensures Dec(buf, i) == Some((ValueOf(buf[..n]), n))
    decreases n
  {
    assert buf[..n][0] == buf[0];
    if n == 1 {
      assert buf[..1][1..] == [];
    } else {
      assert buf[..n][1..] == buf[1..][..n - 1];
      assert IsVarint(buf[1..][..n - 1]);
      ValueHasLimit(buf, i, n);
      VarintIsDecoded(buf[1..], i + 1, n - 1);
    }
  }

  lemma ValueHasLimit(buf: Bytes, i: nat, n: nat)
    requires 1 < n <= |buf| && i + n <= 10 && ValueOf(buf[..n]) < Limit(i)
    ensures ValueOf(buf[1..][..n - 1]) < Limit(i + 1)
  {
    assert buf[..n][1..] == buf[1..][..n - 1];
    assert Limit(i) == 128 * Limit(i + 1);
  }
}
