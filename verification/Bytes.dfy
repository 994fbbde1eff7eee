/** Byte strings and the handful of ASCII facts every component shares. */
module Bytes {
  type byte = b: int | 0 <= b < 256

  const TAB: byte := 9
  const LF: byte := 10
  const CR: byte := 13
  const SP: byte := 32
  const CRLF: seq<byte> := [CR, LF]

  /** The bytes of an ASCII string. */
  function Octets(t: string): (b: seq<byte>)
    requires forall i | 0 <= i < |t| :: t[i] < 128 as char
    ensures |b| == |t|
  {
    seq(|t|, i requires 0 <= i < |t| => t[i] as int)
  }

  /** The index of the first `c` in `s`, or -1. */
  function IndexByte(s: seq<byte>, c: byte): (i: int)
    ensures -1 <= i < |s|
    ensures i == -1 <==> c !in s
    ensures 0 <= i ==> s[i] == c && c !in s[..i]
  {
    if s == [] then -1
    else if s[0] == c then 0
    else
      var j := IndexByte(s[1..], c);
      if j == -1 then -1 else
        assert s[..j + 1] == [s[0]] + s[1..][..j];
        j + 1
  }

  /** The first `c` after a part without any is at the end of that part. */
  lemma {:induction false} IndexByteAfter(a: seq<byte>, c: byte, rest: seq<byte>)
    requires c !in a
    ensures IndexByte(a + [c] + rest, c) == |a|
  {
    if a != [] {
      IndexByteAfter(a[1..], c, rest);
      assert (a + [c] + rest)[1..] == a[1..] + [c] + rest;
    }
  }

  /** `k` line ends in a row. */
  function CRLFs(k: nat): (r: seq<byte>)
    ensures |r| == 2 * k
    ensures 0 < k ==> r[0] == CR && r[1] == LF
  {
    if k == 0 then [] else CRLF + CRLFs(k - 1)
  }

  lemma {:induction false} CRLFsEnd(k: nat)
    ensures CRLFs(k) + CRLF == CRLFs(k + 1)
  {
    if k == 0 {
      assert [] + CRLF == CRLF + [];
    } else {
      CRLFsEnd(k - 1);
      assert CRLFs(k) + CRLF == CRLF + (CRLFs(k - 1) + CRLF);
    }
  }

  lemma Assoc<T>(a: seq<T>, b: seq<T>, c: seq<T>)
    ensures a + b + c == a + (b + c)
  {
  }

  lemma NotIn<T>(c: T, a: seq<T>, b: seq<T>)
    requires c !in a && c !in b
    ensures c !in a + b
  {
  }

  lemma CancelInside<T>(h: seq<T>, a: seq<T>, b: seq<T>, t: seq<T>)
    ensures h + a + t == h + b + t <==> a == b
  {
    if h + a + t == h + b + t {
      assert |a| == |b|;
      assert (h + a + t)[|h|..|h| + |a|] == a && (h + b + t)[|h|..|h| + |b|] == b;
    }
  }

  lemma Cancel<T>(o: seq<T>, a: seq<T>, b: seq<T>)
    ensures o + a == o + b <==> a == b
  {
    assert (o + a)[|o|..] == a && (o + b)[|o|..] == b;
  }
}
