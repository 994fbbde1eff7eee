/** UTF-8 as Go's unicode/utf8 package reads and writes it: an invalid byte
    decodes to U+FFFD and is one byte wide. */
module Utf8 {
  import opened Bytes

  const RUNE_ERROR: int := 0xFFFD
  const UTF_MAX: nat := 4

  datatype Decoded = Decoded(rn: int, size: nat)

  /** How many bytes a first byte announces; 0 for a byte that starts nothing. */
  function LeadLen(b: byte): (n: nat)
    ensures n <= 4
  {
    if b < 0x80 then 1
    else if 0xC2 <= b <= 0xDF then 2
    else if 0xE0 <= b <= 0xEF then 3
    else if 0xF0 <= b <= 0xF4 then 4
    else 0
  }

  /** The range of the second byte depends on the first one. */
  predicate SecondOk(b0: byte, b1: byte) {
    var lo := if b0 == 0xE0 then 0xA0 else if b0 == 0xF0 then 0x90 else 0x80;
    var hi := if b0 == 0xED then 0x9F else if b0 == 0xF4 then 0x8F else 0xBF;
    lo <= b1 <= hi
  }

  predicate Continues(b: byte) { 0x80 <= b <= 0xBF }

  function DecodeRune(p: seq<byte>): (d: Decoded)
    requires p != []
    ensures 1 <= d.size <= |p| && d.size <= 4
    ensures 0 <= d.rn
    ensures p[0] < 0x80 <==> d.rn < 0x80
  {
    var n := LeadLen(p[0]);
    var bad := Decoded(RUNE_ERROR, 1);
    if n == 1 then Decoded(p[0], 1)
    else if n == 0 || |p| < n || !SecondOk(p[0], p[1]) then bad
    else if n == 2 then Decoded((p[0] as int - 0xC0) * 64 + (p[1] as int - 0x80), 2)
    else if !Continues(p[2]) then bad
    else if n == 3 then
      Decoded((p[0] as int - 0xE0) * 4096 + (p[1] as int - 0x80) * 64 + (p[2] as int - 0x80), 3)
    else if !Continues(p[3]) then bad
    else
      Decoded((p[0] as int - 0xF0) * 262144 + (p[1] as int - 0x80) * 4096
              + (p[2] as int - 0x80) * 64 + (p[3] as int - 0x80), 4)
  }

  /** Whether the bytes decide the first rune without reading any more. */
  predicate FullRune(p: seq<byte>) {
    if p == [] then false
    else
      var n := LeadLen(p[0]);
      || n <= |p|
      || (1 < |p| && !SecondOk(p[0], p[1]))
      || (2 < |p| && !Continues(p[2]))
  }

  predicate Scalar(r: int) {
    0 <= r < 0xD800 || 0xE000 <= r <= 0x10FFFF
  }

  function EncodeScalar(r: int): (b: seq<byte>)
    requires Scalar(r)
    ensures 1 <= |b| <= 4
  {
    if r < 0x80 then [r]
    else if r < 0x800 then [0xC0 + r / 64, 0x80 + r % 64]
    else if r < 0x10000 then [0xE0 + r / 4096, 0x80 + r / 64 % 64, 0x80 + r % 64]
    else [0xF0 + r / 262144, 0x80 + r / 4096 % 64, 0x80 + r / 64 % 64, 0x80 + r % 64]
  }

  /** A rune that is no scalar value is written as U+FFFD. */
  function EncodeRune(r: int): (b: seq<byte>)
    ensures 1 <= |b| <= 4
  {
    if Scalar(r) then EncodeScalar(r) else EncodeScalar(RUNE_ERROR)
  }

  /** The first byte of `p` is no part of a valid rune. */
  predicate BadByte(p: seq<byte>)
    requires p != []
  {
    0x80 <= p[0] && DecodeRune(p).size == 1
  }

  lemma DecodeOne(a: byte, rest: seq<byte>)
    requires a < 0x80
    ensures DecodeRune([a] + rest) == Decoded(a, 1)
  {
    assert ([a] + rest)[0] == a;
  }

  lemma AsciiRune(p: seq<byte>)
    requires p != [] && p[0] < 0x80
    ensures DecodeRune(p) == Decoded(p[0], 1)
  {
  }

  lemma DecodeTwo(a: int, b: int, rest: seq<byte>)
    requires 2 <= a < 32 && 0 <= b < 64
    ensures DecodeRune([0xC0 + a, 0x80 + b] + rest) == Decoded(a * 64 + b, 2)
  {
    var p: seq<byte> := [0xC0 + a, 0x80 + b] + rest;
    assert p[0] == 0xC0 + a && p[1] == 0x80 + b;
  }

  lemma DecodeThree(a: int, b: int, c: int, rest: seq<byte>)
    requires 0 <= a < 16 && 0 <= b < 64 && 0 <= c < 64
    requires a == 0 ==> 32 <= b
    requires a == 13 ==> b < 32
    ensures DecodeRune([0xE0 + a, 0x80 + b, 0x80 + c] + rest) == Decoded(a * 4096 + b * 64 + c, 3)
  {
    var p: seq<byte> := [0xE0 + a, 0x80 + b, 0x80 + c] + rest;
    assert p[0] == 0xE0 + a && p[1] == 0x80 + b && p[2] == 0x80 + c;
  }

  lemma DecodeFour(a: int, b: int, c: int, d: int, rest: seq<byte>)
    requires 0 <= a <= 4 && 0 <= b < 64 && 0 <= c < 64 && 0 <= d < 64
    requires a == 0 ==> 16 <= b
    requires a == 4 ==> b < 16
    ensures DecodeRune([0xF0 + a, 0x80 + b, 0x80 + c, 0x80 + d] + rest)
         == Decoded(a * 262144 + b * 4096 + c * 64 + d, 4)
  {
    var p: seq<byte> := [0xF0 + a, 0x80 + b, 0x80 + c, 0x80 + d] + rest;
    assert p[0] == 0xF0 + a && p[1] == 0x80 + b && p[2] == 0x80 + c && p[3] == 0x80 + d;
  }

  /** The bits in `acc`, and behind them the last six of each byte. */
  function Bits(acc: int, b: seq<byte>): int
    decreases |b|
  {
    if b == [] then acc else Bits(64 * acc + b[0] as int % 64, b[1..])
  }

  /** The bits of a rune as RFC 3629 lays them out: 7, 11, 16 or 21 of them,
      behind 0, 110, 1110 or 11110, and six behind 10 in each byte that follows. */
  lemma Layout(r: int)
    requires Scalar(r)
    ensures var b := EncodeScalar(r);
      && |b| == (if r < 0x80 then 1 else if r < 0x800 then 2 else if r < 0x10000 then 3 else 4)
      && (forall i | 0 < i < |b| :: b[i] / 64 == 2)
      && match |b|
         case 1 => r == b[0] as int
         case 2 => b[0] / 32 == 6 && r == Bits(b[0] as int % 32, b[1..])
         case 3 => b[0] / 16 == 14 && r == Bits(b[0] as int % 16, b[1..])
         case _ => b[0] / 8 == 30 && r == Bits(b[0] as int % 8, b[1..])
  {
    if r >= 0x80 {
      LayoutHigh(r);
    }
  }

  lemma LayoutHigh(r: int)
    requires Scalar(r) && r >= 0x80
    ensures var b := EncodeScalar(r);
      && (forall i | 0 < i < |b| :: b[i] / 64 == 2)
      && (r < 0x800 ==> |b| == 2 && b[0] / 32 == 6 && r == Bits(b[0] as int % 32, b[1..]))
      && (0x800 <= r < 0x10000 ==> |b| == 3 && b[0] / 16 == 14 && r == Bits(b[0] as int % 16, b[1..]))
      && (0x10000 <= r ==> |b| == 4 && b[0] / 8 == 30 && r == Bits(b[0] as int % 8, b[1..]))
  {
    hide Bits;
    InSixes(r);
    var b := EncodeScalar(r);
    if r < 0x800 {
      BitsOne(r / 64, b[1]);
    } else if r < 0x10000 {
      BitsTwo(r / 4096, b[1], b[2]);
    } else {
      BitsThree(r / 262144, b[1], b[2], b[3]);
      assert b[1..] == [b[1], b[2], b[3]];
    }
  }

  lemma BitsOne(acc: int, x: byte)
    ensures Bits(acc, [x]) == 64 * acc + x as int % 64
  {
    assert [x][1..] == [];
  }

  lemma BitsTwo(acc: int, x: byte, y: byte)
    ensures Bits(acc, [x, y]) == 4096 * acc + 64 * (x as int % 64) + y as int % 64
  {
    assert [x, y][1..] == [y];
    BitsOne(64 * acc + x as int % 64, y);
  }

  lemma BitsThree(acc: int, x: byte, y: byte, z: byte)
    ensures Bits(acc, [x, y, z]) == 262144 * acc + 4096 * (x as int % 64) + 64 * (y as int % 64) + z as int % 64
  {
    assert [x, y, z][1..] == [y, z];
    BitsTwo(64 * acc + x as int % 64, y, z);
  }

  /** A high byte begins a rune if and only if the encoding of one stands there. */
  lemma GoodIsEncoded(p: seq<byte>)
    requires p != []
    ensures !BadByte(p) <==> exists r :: Scalar(r) && EncodeScalar(r) <= p
  {
    if !BadByte(p) {
      EncodeDecode(p);
      assert EncodeScalar(DecodeRune(p).rn) <= p;
    }
    if r :| Scalar(r) && EncodeScalar(r) <= p {
      var e := EncodeScalar(r);
      DecodeEncode(r, p[|e|..]);
      assert p == e + p[|e|..];
      Layout(r);
    }
  }

  /** Reading back what was written gives the same rune, whatever follows. */
  lemma DecodeEncode(r: int, rest: seq<byte>)
    requires Scalar(r)
    ensures DecodeRune(EncodeScalar(r) + rest) == Decoded(r, |EncodeScalar(r)|)
  {
    hide DecodeRune;
    if r < 0x80 {
      DecodeOne(r, rest);
    } else if r < 0x800 {
      DecodeTwo(r / 64, r % 64, rest);
    } else if r < 0x10000 {
      DecodeThree(r / 4096, r / 64 % 64, r % 64, rest);
      InSixes(r);
    } else {
      DecodeFour(r / 262144, r / 4096 % 64, r / 64 % 64, r % 64, rest);
      InSixes(r);
    }
  }

  lemma InSixes(r: nat)
    ensures r == r / 4096 * 4096 + r / 64 % 64 * 64 + r % 64
    ensures r == r / 262144 * 262144 + r / 4096 % 64 * 4096 + r / 64 % 64 * 64 + r % 64
  {
    var q := r / 64;
    var t := q / 64;
    assert r == q * 64 + r % 64;
    assert q == t * 64 + q % 64;
    assert t == t / 64 * 64 + t % 64;
    assert r / 4096 == t;
    assert r / 262144 == t / 64;
  }

  /** A rune read from good bytes is written back as those bytes. */
  lemma EncodeDecode(p: seq<byte>)
    requires p != [] && !BadByte(p)
    ensures Scalar(DecodeRune(p).rn)
    ensures EncodeScalar(DecodeRune(p).rn) == p[..DecodeRune(p).size]
  {
    var d := DecodeRune(p);
    var n := LeadLen(p[0]);
    if n == 2 {
      assert d.rn / 64 == p[0] as int - 0xC0;
    } else if n == 3 {
      assert d.rn / 64 == (p[0] as int - 0xE0) * 64 + (p[1] as int - 0x80);
      assert d.rn / 4096 == p[0] as int - 0xE0;
    } else if n == 4 {
      assert d.rn / 64 == (p[0] as int - 0xF0) * 4096 + (p[1] as int - 0x80) * 64 + (p[2] as int - 0x80);
      assert d.rn / 4096 == (p[0] as int - 0xF0) * 64 + (p[1] as int - 0x80);
      assert d.rn / 262144 == p[0] as int - 0xF0;
    }
  }

  /** Once the first rune is decided, more bytes do not change it. */
  lemma FullRuneStable(p: seq<byte>, q: seq<byte>)
    requires FullRune(p)
    ensures DecodeRune(p + q) == DecodeRune(p)
  {
  }

  /** The runes of a byte string. */
  function Runes(s: seq<byte>): (rs: seq<int>)
  {
    if s == [] then [] else
      var d := DecodeRune(s);
      [d.rn] + Runes(s[d.size..])
  }

  /** `s` with every invalid byte replaced by U+FFFD. */
  function Sanitize(s: seq<byte>): (t: seq<byte>)
  {
    if s == [] then []
    else if BadByte(s) then EncodeScalar(RUNE_ERROR) + Sanitize(s[1..])
    else
      var n := DecodeRune(s).size;
      s[..n] + Sanitize(s[n..])
  }

  predicate Valid(s: seq<byte>) {
    s != [] ==> !BadByte(s) && Valid(s[DecodeRune(s).size..])
  }

  /** Sanitizing keeps exactly the valid strings as they are: every invalid
      byte makes the result two bytes longer. */
  lemma {:induction false} SanitizeKeepsValid(s: seq<byte>)
    ensures |s| <= |Sanitize(s)|
    ensures Sanitize(s) == s <==> Valid(s)
    ensures Valid(s) <==> |Sanitize(s)| == |s|
  {
    if s != [] {
      var n := DecodeRune(s).size;
      SanitizeKeepsValid(s[n..]);
      assert s == s[..n] + s[n..];
    }
  }
}
