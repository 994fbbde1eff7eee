/** What modified UTF-7 looks like (section 5.1.3 of RFC 3501), said without the
    encoder: its alphabet, its bits, its UTF-16 units, and the text around. */
module Utf7Text {
  import opened Bytes
  import opened Wrappers
  import opened Utf8
  import opened Utf7Mod

  // ----------------------------------------------------- alphabet and bits

  /** The alphabet of modified base64, written out. */
  const ALPHABET := "ABCDEFGHIJKLMNOPQRSTUVWXYZ" + "abcdefghijklmnopqrstuvwxyz" + "0123456789" + "+,"

  lemma CharIs(i: int)
    requires 0 <= i < 64
    ensures |ALPHABET| == 64 && Char(i) as char == ALPHABET[i]
  {
  }

  /** A byte stands for its place in the alphabet, others for nothing. */
  lemma IndexIs(c: byte)
    ensures |ALPHABET| == 64 && (0 <= Index(c) <==> c as char in ALPHABET)
    ensures 0 <= Index(c) ==> ALPHABET[Index(c)] == c as char
  {
    if 0 <= Index(c) {
      CharIs(Index(c));
    } else if c as char in ALPHABET {
      var i :| 0 <= i < 64 && ALPHABET[i] == c as char;
      CharIs(i);
      IndexChar(i);
    }
  }

  function Pow2(n: nat): (p: nat)
    ensures p > 0
  {
    if n == 0 then 1 else 2 * Pow2(n - 1)
  }

  /** The last `n` binary digits, the highest first. */
  function Bits(v: nat, n: nat): (b: seq<bool>)
    ensures |b| == n
  {
    if n == 0 then [] else Bits(v / 2, n - 1) + [v % 2 == 1]
  }

  lemma {:induction false} BitsJoin(x: nat, y: nat, m: nat, n: nat)
    requires y < Pow2(n)
    ensures Bits(x * Pow2(n) + y, m + n) == Bits(x, m) + Bits(y, n)
    decreases n
  {
    if n == 0 {
      assert Bits(x, m) + [] == Bits(x, m);
    } else {
      var p := Pow2(n - 1);
      var t := x * p;
      assert x * Pow2(n) == 2 * t by {
        assert x * (2 * p) == 2 * (x * p);
      }
      BitsJoin(x, y / 2, m, n - 1);
      assert (2 * t + y) / 2 == t + y / 2 && (2 * t + y) % 2 == y % 2;
      Assoc(Bits(x, m), Bits(y / 2, n - 1), [y % 2 == 1]);
    }
  }

  lemma Pow2s()
    ensures Pow2(2) == 4 && Pow2(4) == 16 && Pow2(6) == 64
  {
    assert Pow2(2) == 4;
    assert Pow2(4) == 4 * Pow2(2);
    assert Pow2(6) == 4 * Pow2(4);
  }

  /** Byte by byte, and sextet by sextet. */
  function ByteBits(u: seq<byte>): (b: seq<bool>)
    ensures |b| == 8 * |u|
  {
    if u == [] then [] else Bits(u[0], 8) + ByteBits(u[1..])
  }

  function SextetBits(s: seq<byte>): (b: seq<bool>)
    ensures |b| == 6 * |s|
  {
    if s == [] then [] else Bits(if Index(s[0]) < 0 then 0 else Index(s[0]), 6) + SextetBits(s[1..])
  }

  /** A byte cut in two, and a sextet. */
  lemma ByteCut(v: byte)
    ensures Bits(v, 8) == Bits(v / 4, 6) + Bits(v % 4, 2)
    ensures Bits(v, 8) == Bits(v / 16, 4) + Bits(v % 16, 4)
    ensures Bits(v, 8) == Bits(v / 64, 2) + Bits(v % 64, 6)
  {
    Pow2s();
    hide Bits, Pow2;
    BitsJoin(v / 4, v % 4, 6, 2);
    BitsJoin(v / 16, v % 16, 4, 4);
    BitsJoin(v / 64, v % 64, 2, 6);
  }

  lemma SextetJoin(x: nat, y: nat)
    ensures x < 4 && y < 16 ==> Bits(x * 16 + y, 6) == Bits(x, 2) + Bits(y, 4)
    ensures x < 16 && y < 4 ==> Bits(x * 4 + y, 6) == Bits(x, 4) + Bits(y, 2)
  {
    Pow2s();
    hide Bits, Pow2;
    if y < 16 {
      BitsJoin(x, y, 2, 4);
    }
    if y < 4 {
      BitsJoin(x, y, 4, 2);
    }
  }

  lemma ByteJoin(x: nat, y: nat)
    ensures x < 64 && y < 4 ==> Bits(x * 4 + y, 8) == Bits(x, 6) + Bits(y, 2)
    ensures x < 16 && y < 16 ==> Bits(x * 16 + y, 8) == Bits(x, 4) + Bits(y, 4)
    ensures x < 4 && y < 64 ==> Bits(x * 64 + y, 8) == Bits(x, 2) + Bits(y, 6)
  {
    Pow2s();
    hide Bits, Pow2;
    if y < 4 {
      BitsJoin(x, y, 6, 2);
    }
    if y < 16 {
      BitsJoin(x, y, 4, 4);
    }
    if y < 64 {
      BitsJoin(x, y, 2, 6);
    }
  }

  lemma SextetCut(v: nat)
    requires v < 64
    ensures Bits(v, 6) == Bits(v / 16, 2) + Bits(v % 16, 4)
    ensures Bits(v, 6) == Bits(v / 4, 4) + Bits(v % 4, 2)
  {
    Pow2s();
    hide Bits, Pow2;
    BitsJoin(v / 16, v % 16, 2, 4);
    BitsJoin(v / 4, v % 4, 4, 2);
  }

  lemma Lump<T>(a: seq<T>, b: seq<T>, c: seq<T>, d: seq<T>, e: seq<T>, f: seq<T>)
    ensures a + (b + c) + (d + e) + f == (a + b) + (c + d) + (e + f)
  {
  }

  lemma SextetFirst(c: byte, s: seq<byte>)
    ensures SextetBits([c] + s) == Bits(if Index(c) < 0 then 0 else Index(c), 6) + SextetBits(s)
  {
    assert ([c] + s)[1..] == s;
  }

  lemma Flat5<T>(a: seq<T>, b: seq<T>, c: seq<T>, d: seq<T>, t: seq<T>)
    ensures a + (b + (c + (d + t))) == a + b + c + d + t
  {
  }

  lemma FourBits(c: byte, d: byte, e: byte, f: byte, s: seq<byte>)
    requires 0 <= Index(c) && 0 <= Index(d) && 0 <= Index(e) && 0 <= Index(f)
    ensures SextetBits([c, d, e, f] + s)
         == Bits(Index(c), 6) + Bits(Index(d), 6) + Bits(Index(e), 6) + Bits(Index(f), 6) + SextetBits(s)
  {
    hide *;
    SextetFirst(f, s);
    SextetFirst(e, [f] + s);
    SextetFirst(d, [e] + ([f] + s));
    SextetFirst(c, [d] + ([e] + ([f] + s)));
    assert [c, d, e, f] + s == [c] + ([d] + ([e] + ([f] + s)));
    Flat5(Bits(Index(c), 6), Bits(Index(d), 6), Bits(Index(e), 6), Bits(Index(f), 6), SextetBits(s));
  }

  lemma ThreeBytes(u: seq<byte>)
    requires |u| >= 3
    ensures ByteBits(u) == Bits(u[0], 8) + Bits(u[1], 8) + Bits(u[2], 8) + ByteBits(u[3..])
  {
    hide Bits;
    assert u[1..][1..] == u[2..] && u[2..][1..] == u[3..] && u[1..][0] == u[1] && u[2..][0] == u[2];
    var a, b, c, t := Bits(u[0], 8), Bits(u[1], 8), Bits(u[2], 8), ByteBits(u[3..]);
    assert ByteBits(u[2..]) == c + t;
    assert ByteBits(u[1..]) == b + (c + t);
    assert a + (b + (c + t)) == a + b + c + t;
  }

  function Zeros(n: nat): seq<bool> { seq(n, _ => false) }

  lemma {:induction false} BitsOfZero(n: nat)
    ensures Bits(0, n) == Zeros(n)
  {
    if n > 0 {
      BitsOfZero(n - 1);
      assert Zeros(n) == Zeros(n - 1) + [false];
    }
  }

  predicate InAlphabet(s: seq<byte>) { forall i | 0 <= i < |s| :: s[i] as char in ALPHABET }

  lemma CharsIn(i: int)
    requires 0 <= i < 64
    ensures InAlphabet([Char(i)])
  {
    CharIs(i);
  }

  lemma InAppend(a: seq<byte>, b: seq<byte>)
    ensures InAlphabet(a + b) <==> InAlphabet(a) && InAlphabet(b)
  {
    hide ALPHABET;
    var s := a + b;
    assert forall i | 0 <= i < |a| :: s[i] == a[i];
    assert forall i | 0 <= i < |b| :: s[|a| + i] == b[i];
  }

  lemma FourIn(i: int, j: int, k: int, l: int)
    requires 0 <= i < 64 && 0 <= j < 64 && 0 <= k < 64 && 0 <= l < 64
    ensures InAlphabet([Char(i), Char(j), Char(k), Char(l)])
    ensures InAlphabet([Char(i), Char(j), Char(k)])
    ensures InAlphabet([Char(i), Char(j)])
  {
    CharsIn(i);
    CharsIn(j);
    CharsIn(k);
    CharsIn(l);
    hide InAlphabet, Char;
    InAppend([Char(i)], [Char(j)]);
    InAppend([Char(i), Char(j)], [Char(k)]);
    InAppend([Char(i), Char(j), Char(k)], [Char(l)]);
    assert [Char(i), Char(j)] == [Char(i)] + [Char(j)];
    assert [Char(i), Char(j), Char(k)] == [Char(i), Char(j)] + [Char(k)];
    assert [Char(i), Char(j), Char(k), Char(l)] == [Char(i), Char(j), Char(k)] + [Char(l)];
  }

  lemma SixthsMore(n: nat)
    ensures (8 * (n + 3) + 5) / 6 == 4 + (8 * n + 5) / 6
  {
  }

  lemma NoneIn()
    ensures InAlphabet([])
  {
  }

  lemma {:induction false} EncodedIn(u: seq<byte>)
    ensures InAlphabet(B64Encode(u)) && |B64Encode(u)| == (8 * |u| + 5) / 6
    decreases |u|
  {
    hide ALPHABET, Char, InAlphabet;
    NoneIn();
    if |u| == 1 {
      FourIn(u[0] / 4, u[0] % 4 * 16, 0, 0);
    } else if |u| == 2 {
      FourIn(u[0] / 4, u[0] % 4 * 16 + u[1] / 16, u[1] % 16 * 4, 0);
    } else if |u| >= 3 {
      FourIn(u[0] / 4, u[0] % 4 * 16 + u[1] / 16, u[1] % 16 * 4 + u[2] / 64, u[2] % 64);
      EncodedIn(u[3..]);
      SixthsMore(|u| - 3);
      InAppend([Char(u[0] / 4), Char(u[0] % 4 * 16 + u[1] / 16), Char(u[1] % 16 * 4 + u[2] / 64), Char(u[2] % 64)],
               B64Encode(u[3..]));
    }
  }

  function Sextet0(a: byte): (i: int)
    ensures 0 <= i < 64
  {
    a / 4
  }

  function Sextet1(a: byte, b: byte): (i: int)
    ensures 0 <= i < 64
  {
    a % 4 * 16 + b / 16
  }

  function Sextet2(b: byte, c: byte): (i: int)
    ensures 0 <= i < 64
  {
    b % 16 * 4 + c / 64
  }

  function Sextet3(c: byte): (i: int)
    ensures 0 <= i < 64
  {
    c % 64
  }

  lemma SextetsAre(a: byte, b: byte, c: byte)
    ensures Bits(Sextet0(a), 6) == Bits(a / 4, 6)
    ensures Bits(Sextet1(a, b), 6) == Bits(a % 4, 2) + Bits(b / 16, 4)
    ensures Bits(Sextet2(b, c), 6) == Bits(b % 16, 4) + Bits(c / 64, 2)
    ensures Bits(Sextet3(c), 6) == Bits(c % 64, 6)
  {
    hide Bits;
    SextetJoin(a % 4, b / 16);
    SextetJoin(b % 16, c / 64);
  }

  /** What a block is encoded as, by its length. */
  lemma BlockBytes(a: byte, b: byte, c: byte, u: seq<byte>)
    ensures B64Encode([]) == []
    ensures B64Encode([a]) == [Char(Sextet0(a))] + ([Char(Sextet1(a, 0))] + [])
    ensures B64Encode([a, b]) == [Char(Sextet0(a))] + ([Char(Sextet1(a, b))] + ([Char(Sextet2(b, 0))] + []))
    ensures B64Encode([a, b, c] + u)
         == [Char(Sextet0(a)), Char(Sextet1(a, b)), Char(Sextet2(b, c)), Char(Sextet3(c))] + B64Encode(u)
  {
    hide Char;
    assert ([a, b, c] + u)[3..] == u;
  }

  lemma CharFirst(i: int, s: seq<byte>)
    requires 0 <= i < 64
    ensures SextetBits([Char(i)] + s) == Bits(i, 6) + SextetBits(s)
  {
    IndexChar(i);
    hide Char, Index, Bits, SextetBits;
    SextetFirst(Char(i), s);
  }

  lemma ZerosAre(n: nat)
    ensures n == 2 || n == 4 ==> Bits(0 / 16, n) == Bits(0 / 64, n) == Zeros(n)
  {
    BitsOfZero(n);
  }

  /** The sextets of an encoded block, looked up in the alphabet, are the bits of
      its bytes, the highest first, filled up with zeros. */
  lemma {:induction false} EncodedBits(u: seq<byte>)
    ensures InAlphabet(B64Encode(u)) && |B64Encode(u)| == (8 * |u| + 5) / 6
    ensures SextetBits(B64Encode(u)) == ByteBits(u) + Zeros(6 * |B64Encode(u)| - 8 * |u|)
    decreases |u|
  {
    hide *;
    EncodedIn(u);
    if u == [] {
      BlockBytes(0, 0, 0, []);
      NoBits();
      BitsOfZero(0);
    } else if |u| == 1 {
      OneByte(u[0]);
      assert u == [u[0]];
    } else if |u| == 2 {
      TwoBytes(u[0], u[1]);
      assert u == [u[0], u[1]];
    } else {
      EncodedBits(u[3..]);
      EncodedGroup(u[0], u[1], u[2], u[3..]);
      assert u == [u[0], u[1], u[2]] + u[3..];
    }
  }

  lemma EncodedGroup(a: byte, b: byte, c: byte, t: seq<byte>)
    requires var s := B64Encode(t); 6 * |s| >= 8 * |t| && SextetBits(s) == ByteBits(t) + Zeros(6 * |s| - 8 * |t|)
    ensures var u, s := [a, b, c] + t, B64Encode([a, b, c] + t);
      |s| == 4 + |B64Encode(t)| && SextetBits(s) == ByteBits(u) + Zeros(6 * |s| - 8 * |u|)
  {
    hide *;
    var s, u := B64Encode(t), [a, b, c] + t;
    assert u[3..] == t;
    BlockBytes(a, b, c, t);
    SextetsAre(a, b, c);
    ByteCut(a);
    ByteCut(b);
    ByteCut(c);
    ThreeBytes(u);
    var w, x, y, z := Char(Sextet0(a)), Char(Sextet1(a, b)), Char(Sextet2(b, c)), Char(Sextet3(c));
    CharFirst(Sextet3(c), s);
    CharFirst(Sextet2(b, c), [z] + s);
    CharFirst(Sextet1(a, b), [y] + ([z] + s));
    CharFirst(Sextet0(a), [x] + ([y] + ([z] + s)));
    assert [w, x, y, z] + s == [w] + ([x] + ([y] + ([z] + s)));
    GroupFlat(Bits(a / 4, 6), Bits(a % 4, 2), Bits(b / 16, 4), Bits(b % 16, 4), Bits(c / 64, 2), Bits(c % 64, 6),
              ByteBits(t), Zeros(6 * |s| - 8 * |t|));
  }

  lemma GroupFlat<T>(a: seq<T>, b: seq<T>, c: seq<T>, d: seq<T>, e: seq<T>, f: seq<T>, t: seq<T>, z: seq<T>)
    ensures a + ((b + c) + ((d + e) + (f + (t + z)))) == (a + b) + (c + d) + (e + f) + t + z
  {
  }

  lemma OneByte(a: byte)
    ensures |B64Encode([a])| == 2 && SextetBits(B64Encode([a])) == ByteBits([a]) + Zeros(4)
  {
    hide *;
    BlockBytes(a, 0, 0, []);
    SextetsAre(a, 0, 0);
    ByteCut(a);
    ZerosAre(4);
    CharFirst(Sextet1(a, 0), []);
    CharFirst(Sextet0(a), [Char(Sextet1(a, 0))] + []);
    BytesOne(a, []);
    NoBits();
    assert [a] + [] == [a];
    OneFlat(Bits(a / 4, 6), Bits(a % 4, 2), Zeros(4));
  }

  lemma OneFlat<T>(a: seq<T>, b: seq<T>, z: seq<T>)
    ensures a + ((b + z) + []) == (a + b) + [] + z
  {
  }

  lemma TwoBytes(a: byte, b: byte)
    ensures |B64Encode([a, b])| == 3 && SextetBits(B64Encode([a, b])) == ByteBits([a, b]) + Zeros(2)
  {
    hide *;
    BlockBytes(a, b, 0, []);
    SextetsAre(a, b, 0);
    ByteCut(a);
    ByteCut(b);
    ZerosAre(2);
    var x, y := [Char(Sextet1(a, b))], [Char(Sextet2(b, 0))];
    CharFirst(Sextet2(b, 0), []);
    CharFirst(Sextet1(a, b), y + []);
    CharFirst(Sextet0(a), x + (y + []));
    BytesOne(a, [b]);
    BytesOne(b, []);
    NoBits();
    assert [a] + [b] == [a, b] && [b] + [] == [b];
    TwoFlat(Bits(a / 4, 6), Bits(a % 4, 2), Bits(b / 16, 4), Bits(b % 16, 4), Zeros(2));
  }

  lemma TwoFlat<T>(a: seq<T>, b: seq<T>, c: seq<T>, d: seq<T>, z: seq<T>)
    ensures a + ((b + c) + ((d + z) + [])) == (a + b) + ((c + d) + []) + z
  {
  }

  lemma NoBits()
    ensures SextetBits([]) == [] && ByteBits([]) == []
  {
  }

  lemma BytesOne(a: byte, u: seq<byte>)
    ensures ByteBits([a] + u) == Bits(a, 8) + ByteBits(u)
  {
    assert ([a] + u)[1..] == u;
  }

  function Byte0(i: nat, j: nat): (b: byte)
    requires i < 64 && j < 64
  {
    i * 4 + j / 16
  }

  function Byte1(j: nat, k: nat): (b: byte)
    requires j < 64 && k < 64
  {
    j % 16 * 16 + k / 4
  }

  function Byte2(k: nat, l: nat): (b: byte)
    requires k < 64 && l < 64
  {
    k % 4 * 64 + l
  }

  /** What is made of a group of two, three or four, and the rest. */
  lemma GroupIs(s: seq<byte>)
    ensures |s| == 1 ==> B64Groups(s) == None
    ensures |s| == 2 ==> (B64Groups(s) ==
      if Index(s[0]) < 0 || Index(s[1]) < 0 then None else Some([Byte0(Index(s[0]), Index(s[1]))]))
    ensures |s| == 3 ==> (B64Groups(s) ==
      if Index(s[0]) < 0 || Index(s[1]) < 0 || Index(s[2]) < 0 then None
      else Some([Byte0(Index(s[0]), Index(s[1])), Byte1(Index(s[1]), Index(s[2]))]))
    ensures |s| >= 4 ==> (B64Groups(s) ==
      if Index(s[0]) < 0 || Index(s[1]) < 0 || Index(s[2]) < 0 || Index(s[3]) < 0 || B64Groups(s[4..]).None? then None
      else
        Some([Byte0(Index(s[0]), Index(s[1])), Byte1(Index(s[1]), Index(s[2])), Byte2(Index(s[2]), Index(s[3]))]
             + B64Groups(s[4..]).value))
  {
    hide *;
    if |s| >= 4 {
      LongGroup(s);
    } else if |s| == 3 {
      ThreeGroup(s);
    } else {
      ShortGroup(s);
    }
  }

  lemma ShortGroup(s: seq<byte>)
    ensures |s| == 1 ==> B64Groups(s) == None
    ensures |s| == 2 ==> (B64Groups(s) ==
      if Index(s[0]) < 0 || Index(s[1]) < 0 then None else Some([Byte0(Index(s[0]), Index(s[1]))]))
  {
    hide Index;
  }

  lemma ThreeGroup(s: seq<byte>)
    requires |s| == 3
    ensures B64Groups(s) ==
      if Index(s[0]) < 0 || Index(s[1]) < 0 || Index(s[2]) < 0 then None
      else Some([Byte0(Index(s[0]), Index(s[1])), Byte1(Index(s[1]), Index(s[2]))])
  {
    hide Index;
  }

  lemma LongGroup(s: seq<byte>)
    requires |s| >= 4
    ensures B64Groups(s) ==
      if Index(s[0]) < 0 || Index(s[1]) < 0 || Index(s[2]) < 0 || Index(s[3]) < 0 || B64Groups(s[4..]).None? then None
      else
        Some([Byte0(Index(s[0]), Index(s[1])), Byte1(Index(s[1]), Index(s[2])), Byte2(Index(s[2]), Index(s[3]))]
             + B64Groups(s[4..]).value)
  {
    hide Index;
    if Index(s[0]) < 0 || Index(s[1]) < 0 {
    } else if Index(s[2]) < 0 {
    } else if Index(s[3]) < 0 {
    } else {
      FourGroup(s);
    }
  }

  lemma FourGroup(s: seq<byte>)
    requires |s| >= 4 && Index(s[0]) >= 0 && Index(s[1]) >= 0 && Index(s[2]) >= 0 && Index(s[3]) >= 0
    ensures B64Groups(s) ==
      match B64Groups(s[4..])
      case None => None
      case Some(t) =>
        Some([Byte0(Index(s[0]), Index(s[1])), Byte1(Index(s[1]), Index(s[2])), Byte2(Index(s[2]), Index(s[3]))] + t)
  {
    hide Index;
  }

  lemma BitsOf0(i: nat, j: nat)
    requires i < 64 && j < 64
    ensures Bits(Byte0(i, j), 8) == Bits(i, 6) + Bits(j / 16, 2)
  {
    hide Bits;
    ByteJoin(i, j / 16);
  }

  lemma BitsOf1(j: nat, k: nat)
    requires j < 64 && k < 64
    ensures Bits(Byte1(j, k), 8) == Bits(j % 16, 4) + Bits(k / 4, 4)
  {
    hide Bits;
    ByteJoin(j % 16, k / 4);
  }

  lemma BitsOf2(k: nat, l: nat)
    requires k < 64 && l < 64
    ensures Bits(Byte2(k, l), 8) == Bits(k % 4, 2) + Bits(l, 6)
  {
    hide Bits;
    ByteJoin(k % 4, l);
  }

  lemma DecodedTwo(s: seq<byte>)
    requires |s| == 2 && 0 <= Index(s[0]) && 0 <= Index(s[1])
    ensures B64Groups(s).Some? && |B64Groups(s).value| == 1
    ensures ByteBits(B64Groups(s).value) == SextetBits(s)[..8]
  {
    hide *;
    GroupIs(s);
    var i, j := Index(s[0]), Index(s[1]);
    BitsOf0(i, j);
    SextetCut(j);
    BytesOne(Byte0(i, j), []);
    assert [Byte0(i, j)] + [] == [Byte0(i, j)];
    assert s == [s[0]] + ([s[1]] + []);
    SextetFirst(s[0], [s[1]] + []);
    SextetFirst(s[1], []);
    NoBits();
    TwoUp(Bits(i, 6), Bits(j / 16, 2), Bits(j % 16, 4));
  }

  lemma TwoUp<T>(a: seq<T>, b: seq<T>, c: seq<T>)
    ensures (a + ((b + c) + []))[..|a| + |b|] == (a + b) + []
  {
  }

  lemma ThreeBits(i: nat, j: nat, k: nat)
    requires i < 64 && j < 64 && k < 64
    ensures ByteBits([Byte0(i, j), Byte1(j, k)]) == (Bits(i, 6) + (Bits(j, 6) + (Bits(k, 6) + [])))[..16]
  {
    hide *;
    var a, b := Byte0(i, j), Byte1(j, k);
    BitsOf0(i, j);
    BitsOf1(j, k);
    SextetCut(j);
    SextetCut(k);
    BytesOne(a, [b]);
    BytesOne(b, []);
    NoBits();
    assert [a] + [b] == [a, b] && [b] + [] == [b];
    ThreeFlat(Bits(i, 6), Bits(j / 16, 2), Bits(j % 16, 4), Bits(k / 4, 4), Bits(k % 4, 2));
  }

  lemma DecodedThree(s: seq<byte>)
    requires |s| == 3 && 0 <= Index(s[0]) && 0 <= Index(s[1]) && 0 <= Index(s[2])
    ensures B64Groups(s).Some? && |B64Groups(s).value| == 2
    ensures ByteBits(B64Groups(s).value) == SextetBits(s)[..16]
  {
    hide *;
    GroupIs(s);
    ThreeBits(Index(s[0]), Index(s[1]), Index(s[2]));
    assert s == [s[0]] + ([s[1]] + ([s[2]] + []));
    SextetFirst(s[0], [s[1]] + ([s[2]] + []));
    SextetFirst(s[1], [s[2]] + []);
    SextetFirst(s[2], []);
    NoBits();
  }

  lemma ThreeFlat<T>(a: seq<T>, b: seq<T>, c: seq<T>, d: seq<T>, e: seq<T>)
    ensures (a + ((b + c) + ((d + e) + [])))[..|a| + |b| + |c| + |d|] == (a + b) + ((c + d) + [])
  {
  }

  lemma GroupBits(i: nat, j: nat, k: nat, l: nat, v: seq<byte>)
    requires i < 64 && j < 64 && k < 64 && l < 64
    ensures ByteBits([Byte0(i, j), Byte1(j, k), Byte2(k, l)] + v)
         == Bits(i, 6) + Bits(j, 6) + Bits(k, 6) + Bits(l, 6) + ByteBits(v)
  {
    hide *;
    var u := [Byte0(i, j), Byte1(j, k), Byte2(k, l)] + v;
    assert u[3..] == v;
    ThreeBytes(u);
    BitsOf0(i, j);
    BitsOf1(j, k);
    BitsOf2(k, l);
    SextetCut(j);
    SextetCut(k);
    Lump(Bits(i, 6), Bits(j / 16, 2), Bits(j % 16, 4), Bits(k / 4, 4), Bits(k % 4, 2), Bits(l, 6));
  }

  lemma DecodedGroup(s: seq<byte>)
    requires |s| >= 4 && B64Groups(s).Some? && B64Groups(s[4..]).Some?
    requires 0 <= Index(s[0]) && 0 <= Index(s[1]) && 0 <= Index(s[2]) && 0 <= Index(s[3])
    requires var u := B64Groups(s[4..]).value; 8 * |u| <= 6 * |s[4..]| && ByteBits(u) == SextetBits(s[4..])[..8 * |u|]
    ensures var u := B64Groups(s).value;
      |u| == 3 + |B64Groups(s[4..]).value| && 8 * |u| <= 6 * |s| && ByteBits(u) == SextetBits(s)[..8 * |u|]
  {
    hide *;
    GroupIs(s);
    var r := s[4..];
    var v := B64Groups(r).value;
    GroupBits(Index(s[0]), Index(s[1]), Index(s[2]), Index(s[3]), v);
    FourBits(s[0], s[1], s[2], s[3], r);
    assert s == [s[0], s[1], s[2], s[3]] + r;
    Longer(Bits(Index(s[0]), 6) + Bits(Index(s[1]), 6) + Bits(Index(s[2]), 6) + Bits(Index(s[3]), 6), SextetBits(r), 8 * |v|);
  }

  lemma Longer<T>(h: seq<T>, t: seq<T>, n: nat)
    requires n <= |t|
    ensures (h + t)[..|h| + n] == h + t[..n]
  {
  }

  lemma AlphabetIs(s: seq<byte>)
    ensures InAlphabet(s) <==> forall i | 0 <= i < |s| :: 0 <= Index(s[i])
  {
    forall i | 0 <= i < |s|
      ensures 0 <= Index(s[i]) <==> s[i] as char in ALPHABET
    {
      IndexIs(s[i]);
    }
    hide ALPHABET, Index;
  }

  lemma AlphabetMore(s: seq<byte>)
    requires |s| >= 4
    ensures InAlphabet(s) <==>
      0 <= Index(s[0]) && 0 <= Index(s[1]) && 0 <= Index(s[2]) && 0 <= Index(s[3]) && InAlphabet(s[4..])
  {
    hide *;
    AlphabetIs(s);
    AlphabetIs(s[4..]);
    assert forall i | 4 <= i < |s| :: s[i] == s[4..][i - 4];
  }

  /** Which texts are decoded, and to what: all their bytes are of the alphabet,
      there is no sextet left alone, and the bytes are the bits of the sextets, as
      far as there are eight of them. */
  lemma {:induction false} DecodedGroups(s: seq<byte>)
    ensures B64Groups(s).Some? <==> InAlphabet(s) && |s| % 4 != 1
    ensures B64Groups(s).Some? ==>
      var u := B64Groups(s).value;
      |u| == 6 * |s| / 8 && ByteBits(u) == SextetBits(s)[..8 * |u|]
    decreases |s|
  {
    AlphabetIs(s);
    hide *;
    GroupIs(s);
    if |s| >= 4 {
      var r := s[4..];
      AlphabetMore(s);
      DecodedGroups(r);
      if B64Groups(s).Some? {
        DecodedGroup(s);
      }
    } else if s == [] {
      B64Nothing();
      NoBits();
      assert SextetBits(s)[..0] == [];
    } else if |s| == 2 && B64Groups(s).Some? {
      DecodedTwo(s);
    } else if |s| == 3 && B64Groups(s).Some? {
      DecodedThree(s);
    }
  }

  lemma {:induction false} StripAppend(a: seq<byte>, b: seq<byte>)
    ensures StripNewlines(a + b) == StripNewlines(a) + StripNewlines(b)
    decreases |a|
  {
    if a == [] {
      assert a + b == b;
    } else {
      assert (a + b)[1..] == a[1..] + b;
      StripAppend(a[1..], b);
    }
  }

  /** A line end in a block does not count, wherever it is, and all else does. */
  lemma LineEndsDrop(a: seq<byte>, c: byte, b: seq<byte>)
    ensures StripNewlines(a + ([c] + b))
         == StripNewlines(a) + ((if c as char == '\r' || c as char == '\n' then [] else [c]) + StripNewlines(b))
  {
    StripAppend(a, [c] + b);
    StripAppend([c], b);
    assert [c][1..] == [] && StripNewlines([c]) == if c == CR || c == LF then [] else [c];
  }

  // ------------------------------------------------------------- the units

  /** A rune is one big-endian unit, or a high and a low surrogate that make it
      up (section 2.1 of RFC 2781). */
  lemma Utf16Is(r: int)
    requires 0 <= r <= 0x10FFFF
    ensures var u := Utf16(r);
      if r < 0x10000 then |u| == 2 && u[0] as int * 256 + u[1] as int == r
      else
        && |u| == 4
        && var h, l := u[0] as int * 256 + u[1] as int, u[2] as int * 256 + u[3] as int;
        0xD800 <= h < 0xDC00 <= l < 0xE000 && r == 0x10000 + (h - 0xD800) * 0x400 + (l - 0xDC00)
  {
  }

  /** What a unit at the front of a block decodes to: itself, or with the next
      one a pair, or U+FFFD in the place of both; or nothing, if it is a surrogate
      and the last. */
  lemma UnitsMean(a: byte, b: byte, c: byte, d: byte, u: seq<byte>)
    ensures var h, l := a as int * 256 + b as int, c as int * 256 + d as int;
      && (!(0xD800 <= h < 0xE000) ==> Units([a, b] + u) == Prepend(EncodeScalar(h), Units(u)))
      && (0xD800 <= h < 0xDC00 && 0xDC00 <= l < 0xE000 ==>
           var r := 0x10000 + (h - 0xD800) * 0x400 + (l - 0xDC00);
           Units([a, b, c, d] + u) == Prepend(EncodeScalar(r), Units(u)))
      && (0xD800 <= h < 0xE000 && !(h < 0xDC00 && 0xDC00 <= l < 0xE000) ==>
           Units([a, b, c, d] + u) == Prepend([0xEF, 0xBF, 0xBD], Units(u)))
      && (0xD800 <= h < 0xE000 ==> Units([a, b]) == Invalid)
  {
    var v, w := [a, b] + u, [a, b, c, d] + u;
    assert v[0] == a && v[1] == b && v[2..] == u;
    assert w[0] == a && w[1] == b && w[2] == c && w[3] == d && w[4..] == u;
    assert EncodeScalar(RUNE_ERROR) == [0xEF, 0xBF, 0xBD];
    hide EncodeScalar;
  }

  // -------------------------------------------------------------- the text

  /** Any text is nothing, or begins with a plain byte, with "&-", with a block,
      or with an "&" that no "-" follows: what each of them decodes to. */
  lemma DecodeMeans(c: byte, e: seq<byte>, rest: seq<byte>)
    ensures Decode([]) == Ok([])
    ensures c != '&' as int ==> Decode([c] + rest) == Prepend([c], Decode(rest))
    ensures Decode(['&' as int, '-' as int] + rest) == Prepend(['&' as int], Decode(rest))
    ensures '-' as int !in e ==> Decode(['&' as int] + e) == Invalid
    ensures '-' as int !in e && e != [] ==>
      Decode(['&' as int] + e + ['-' as int] + rest) ==
        match B64Decode(e)
        case None => BadBase64
        case Some(u) => if Units(u).Ok? then Prepend(Units(u).out, Decode(rest)) else Units(u)
  {
    DecodePlainByte(c, rest);
    DecodeAmpersand(rest);
    if DASH !in e {
      DecodeOpen(e);
      if e != [] {
        DecodeClosed(e, rest);
      }
    }
  }

  lemma DecodePlainByte(c: byte, rest: seq<byte>)
    ensures c != AMP ==> Decode([c] + rest) == Prepend([c], Decode(rest))
  {
    if c != AMP {
      DecodePlain(c, rest);
    }
  }

  lemma DecodeOpen(e: seq<byte>)
    requires DASH !in e
    ensures Decode([AMP] + e) == Invalid
  {
    assert ([AMP] + e)[1..] == e;
  }

  lemma DecodeClosed(e: seq<byte>, rest: seq<byte>)
    requires DASH !in e && e != []
    ensures Decode([AMP] + e + [DASH] + rest) ==
        match B64Decode(e)
        case None => BadBase64
        case Some(u) => if Units(u).Ok? then Prepend(Units(u).out, Decode(rest)) else Units(u)
  {
    hide B64Decode, Units;
    var src := [AMP] + e + [DASH] + rest;
    assert src[1..] == e + [DASH] + rest;
    IndexByteAfter(e, DASH, rest);
    assert src[1..][..|e|] == e && src[1..][|e| + 1..] == rest;
  }

  /** A run of other runes, and what it is made of. */
  lemma {:induction false} RunHigh(src: seq<byte>) returns (n: nat)
    ensures n <= |src| && Run(src).1 == src[n..] && forall i | 0 <= i < n :: src[i] >= 0x80
    decreases |src|
  {
    n := 0;
    if src != [] && DecodeRune(src).rn >= 0x80 {
      var d := DecodeRune(src);
      RuneBound(src);
      HighBytes(src);
      var k := RunHigh(src[d.size..]);
      n := d.size + k;
    }
  }

  lemma HighBytes(p: seq<byte>)
    requires p != [] && p[0] >= 0x80
    ensures forall i | 0 <= i < DecodeRune(p).size :: p[i] >= 0x80
  {
  }

  /** A byte of ASCII that is no letter of the encoding occurs in the encoded name
      if and only if it occurs in the name: so does "/". */
  lemma {:induction false} OtherBytes(s: seq<byte>, c: byte)
    requires c < 0x80 && c as char !in ALPHABET && c != '&' as int && c != '-' as int
    ensures c in Encode(s) <==> c in s
    decreases |s|
  {
    if s == [] {
    } else if s[0] < 0x80 {
      OtherBytes(s[1..], c);
      assert s == [s[0]] + s[1..];
    } else {
      var (u, rest) := Run(s);
      var n := RunHigh(s);
      OtherBytes(rest, c);
      EncodedIn(u);
      hide Run, B64Encode, ALPHABET;
      assert s == s[..n] + rest && c !in s[..n];
      assert c !in B64Encode(u);
      assert Encode(s) == [AMP] + B64Encode(u) + [DASH] + Encode(rest);
    }
  }

  lemma SlashStays(s: seq<byte>)
    ensures '/' as int in Encode(s) <==> '/' as int in s
  {
    NoSlash();
    hide ALPHABET;
    OtherBytes(s, '/' as int);
  }

  lemma NoSlash()
    ensures '/' !in ALPHABET
  {
  }

  /** ASCII text without "&" stands for itself, whatever is behind it. */
  lemma {:induction false} PlainStays(a: seq<byte>, s: seq<byte>)
    requires forall i | 0 <= i < |a| :: a[i] < 0x80 && a[i] != '&' as int
    ensures Encode(a + s) == a + Encode(s)
    decreases |a|
  {
    if a == [] {
      assert a + s == s;
    } else {
      assert (a + s)[1..] == a[1..] + s;
      PlainStays(a[1..], s);
    }
  }

  /** Two runes of three bytes, and whatever ASCII is behind them. */
  lemma RunOfTwo(r: int, q: int, rest: seq<byte>)
    requires 0x800 <= r < 0xD800 && 0x800 <= q < 0xD800 && (rest == [] || rest[0] < 0x80)
    ensures Run(EncodeScalar(r) + (EncodeScalar(q) + rest)) == (Utf16(r) + (Utf16(q) + []), rest)
  {
    RunOne(q, rest);
    RunOne(r, EncodeScalar(q) + rest);
    RunEnds(rest);
  }

  lemma RunEnds(rest: seq<byte>)
    ensures rest == [] || rest[0] < 0x80 ==> Run(rest) == ([], rest)
  {
  }

  lemma RunOne(r: int, rest: seq<byte>)
    requires 0x80 <= r && Scalar(r)
    ensures Run(EncodeScalar(r) + rest) == (Utf16(r) + Run(rest).0, Run(rest).1)
  {
    var s := EncodeScalar(r) + rest;
    DecodeEncode(r, rest);
    hide DecodeRune, EncodeScalar, Utf16;
    assert s[DecodeRune(s).size..] == rest;
  }

  lemma BlockIs(u: seq<byte>, src: seq<byte>, rest: seq<byte>)
    requires src != [] && src[0] >= 0x80 && Run(src) == (u, rest)
    ensures Encode(src) == [AMP] + B64Encode(u) + [DASH] + Encode(rest)
  {
    hide Run, B64Encode;
  }

  lemma TaipeiUnits()
    ensures Utf16(0x53F0) + (Utf16(0x5317) + []) == [0x53, 0xF0, 0x53, 0x17]
    ensures B64Encode([0x53, 0xF0, 0x53, 0x17]) == [0x55, 0x2C, 0x42, 0x54] + [0x46, 0x77]
    ensures EncodeScalar(0x53F0)[0] >= 0x80 && Scalar(0x53F0) && Scalar(0x5317)
  {
    var u: seq<byte> := [0x53, 0xF0, 0x53, 0x17];
    assert u[3..] == [0x17];
    assert B64Encode([0x17]) == [0x46, 0x77];
  }

  lemma TaipeiText()
    ensures Octets("&U,BTFw-") == [AMP] + ([0x55, 0x2C, 0x42, 0x54] + [0x46, 0x77]) + [DASH]
  {
  }

  lemma Taipei(rest: seq<byte>)
    requires rest == [] || rest[0] < 0x80
    ensures Encode(EncodeScalar(0x53F0) + (EncodeScalar(0x5317) + rest)) == Octets("&U,BTFw-") + Encode(rest)
  {
    TaipeiUnits();
    hide *;
    TaipeiText();
    RunOfTwo(0x53F0, 0x5317, rest);
    var src := EncodeScalar(0x53F0) + (EncodeScalar(0x5317) + rest);
    assert src[0] == EncodeScalar(0x53F0)[0];
    BlockIs([0x53, 0xF0, 0x53, 0x17], src, rest);
  }

  lemma NihongoUnits()
    ensures Utf16(0x65E5) + (Utf16(0x672C) + (Utf16(0x8A9E) + [])) == [0x65, 0xE5, 0x67, 0x2C, 0x8A, 0x9E]
    ensures EncodeScalar(0x65E5)[0] >= 0x80 && Encode([]) == []
    ensures Scalar(0x65E5) && Scalar(0x672C) && Scalar(0x8A9E)
  {
  }

  lemma NihongoBlock()
    ensures B64Encode([0x65, 0xE5, 0x67, 0x2C, 0x8A, 0x9E]) == [0x5A, 0x65, 0x56, 0x6E] + [0x4C, 0x49, 0x71, 0x65]
  {
    var u: seq<byte> := [0x65, 0xE5, 0x67, 0x2C, 0x8A, 0x9E];
    assert u[3..] == [0x2C, 0x8A, 0x9E];
    NihongoHalf();
    assert B64Encode(u) == [Char(0x19), Char(0x1E), Char(0x15), Char(0x27)] + B64Encode(u[3..]);
  }

  lemma NihongoHalf()
    ensures B64Encode([0x2C, 0x8A, 0x9E]) == [0x4C, 0x49, 0x71, 0x65]
  {
    var u: seq<byte> := [0x2C, 0x8A, 0x9E];
    assert u[3..] == [] && B64Encode([]) == [];
    assert B64Encode(u) == [Char(0x0B), Char(0x08), Char(0x2A), Char(0x1E)] + B64Encode(u[3..]);
  }

  lemma NihongoText()
    ensures Octets("&ZeVnLIqe-") == [AMP] + ([0x5A, 0x65, 0x56, 0x6E] + [0x4C, 0x49, 0x71, 0x65]) + [DASH]
  {
  }

  lemma Nihongo()
    ensures Encode(EncodeScalar(0x65E5) + (EncodeScalar(0x672C) + (EncodeScalar(0x8A9E) + []))) == Octets("&ZeVnLIqe-")
  {
    NihongoUnits();
    hide *;
    NihongoBlock();
    NihongoText();
    RunOne(0x8A9E, []);
    RunOne(0x672C, EncodeScalar(0x8A9E) + []);
    RunOne(0x65E5, EncodeScalar(0x672C) + (EncodeScalar(0x8A9E) + []));
    RunEnds([]);
    var src := EncodeScalar(0x65E5) + (EncodeScalar(0x672C) + (EncodeScalar(0x8A9E) + []));
    assert src[0] == EncodeScalar(0x65E5)[0];
    BlockIs([0x65, 0xE5, 0x67, 0x2C, 0x8A, 0x9E], src, []);
  }

  lemma NameText()
    ensures Octets("~peter/mail/") + (Octets("&U,BTFw-") + (Octets("/") + Octets("&ZeVnLIqe-")))
         == Octets("~peter/mail/&U,BTFw-/&ZeVnLIqe-")
    ensures forall i | 0 <= i < |Octets("~peter/mail/")| ::
              Octets("~peter/mail/")[i] < 0x80 && Octets("~peter/mail/")[i] != '&' as int
    ensures |Octets("/")| == 1 && Octets("/")[0] == 0x2F
  {
  }

  /** The example of the RFC: a name in English, Chinese and Japanese. */
  lemma RfcExample()
    ensures Encode(Octets("~peter/mail/") + (EncodeScalar(0x53F0) + (EncodeScalar(0x5317) + (Octets("/")
                   + (EncodeScalar(0x65E5) + (EncodeScalar(0x672C) + (EncodeScalar(0x8A9E) + [])))))))
         == Octets("~peter/mail/&U,BTFw-/&ZeVnLIqe-")
  {
    TaipeiUnits();
    NihongoUnits();
    hide *;
    NameText();
    Nihongo();
    var ja := EncodeScalar(0x65E5) + (EncodeScalar(0x672C) + (EncodeScalar(0x8A9E) + []));
    PlainStays(Octets("/"), ja);
    var rest := Octets("/") + ja;
    assert rest[0] == Octets("/")[0];
    Taipei(rest);
    PlainStays(Octets("~peter/mail/"), EncodeScalar(0x53F0) + (EncodeScalar(0x5317) + rest));
  }
}
