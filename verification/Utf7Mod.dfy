/** Modified UTF-7 (section 5.1.3 of RFC 3501), imap/imapparser/utf7mod. */
module Utf7Mod {
  import opened Bytes
  import opened Wrappers
  import opened Utf8

  const AMP: byte := 0x26
  const DASH: byte := 0x2D

  // ---------------------------------------------------------------- base64

  /** The alphabet, with ',' in the place of '/'. */
  function Char(i: int): (c: byte)
    requires 0 <= i < 64
    ensures c < 0x80 && c != DASH && c != CR && c != LF
  {
    if i < 26 then 0x41 + i
    else if i < 52 then 0x61 + (i - 26)
    else if i < 62 then 0x30 + (i - 52)
    else if i == 62 then 0x2B
    else 0x2C
  }

  function Index(c: byte): (i: int)
    ensures -1 <= i < 64
    ensures 0 <= i ==> Char(i) == c
  {
    if 0x41 <= c <= 0x5A then c - 0x41
    else if 0x61 <= c <= 0x7A then c as int - 0x61 + 26
    else if 0x30 <= c <= 0x39 then c as int - 0x30 + 52
    else if c == 0x2B then 62
    else if c == 0x2C then 63
    else -1
  }

  function B64Encode(u: seq<byte>): (s: seq<byte>)
    ensures forall c | c in s :: c < 0x80 && c != DASH && c != CR && c != LF
    ensures u != [] ==> s != []
  {
    if |u| == 0 then []
    else if |u| == 1 then [Char(u[0] / 4), Char(u[0] % 4 * 16)]
    else if |u| == 2 then [Char(u[0] / 4), Char(u[0] % 4 * 16 + u[1] / 16), Char(u[1] % 16 * 4)]
    else
      [Char(u[0] / 4), Char(u[0] % 4 * 16 + u[1] / 16),
       Char(u[1] % 16 * 4 + u[2] / 64), Char(u[2] % 64)] + B64Encode(u[3..])
  }

  function StripNewlines(s: seq<byte>): seq<byte> {
    if s == [] then []
    else (if s[0] == CR || s[0] == LF then [] else [s[0]]) + StripNewlines(s[1..])
  }

  /** Unpadded and not strict: left-over bits are ignored. */
  function B64Groups(s: seq<byte>): Option<seq<byte>> {
    if |s| == 0 then Some([])
    else if |s| == 1 || Index(s[0]) < 0 || Index(s[1]) < 0 then None
    else
      var i0, i1 := Index(s[0]), Index(s[1]);
      if |s| == 2 then Some([i0 * 4 + i1 / 16])
      else if Index(s[2]) < 0 then None
      else
        var i2 := Index(s[2]);
        if |s| == 3 then Some([i0 * 4 + i1 / 16, i1 % 16 * 16 + i2 / 4])
        else if Index(s[3]) < 0 then None
        else
          var i3 := Index(s[3]);
          match B64Groups(s[4..])
          case None => None
          case Some(t) => Some([i0 * 4 + i1 / 16, i1 % 16 * 16 + i2 / 4, i2 % 4 * 64 + i3] + t)
  }

  function B64Decode(s: seq<byte>): Option<seq<byte>> {
    B64Groups(StripNewlines(s))
  }

  lemma IndexChar(i: int)
    requires 0 <= i < 64
    ensures Index(Char(i)) == i
  {
  }

  lemma {:induction false} StripNothing(s: seq<byte>)
    requires forall c | c in s :: c != CR && c != LF
    ensures StripNewlines(s) == s
  {
    if s != [] {
      assert s[0] in s && forall c | c in s[1..] :: c in s;
      StripNothing(s[1..]);
    }
  }

  lemma {:induction false} B64RoundTrip(u: seq<byte>)
    ensures B64Decode(B64Encode(u)) == Some(u)
  {
    StripNothing(B64Encode(u));
    B64GroupsRoundTrip(u);
  }

  /** Three bytes cut into four sextets and put together again. */
  lemma Sextets(a: byte, b: byte, c: byte)
    ensures a / 4 * 4 + (a % 4 * 16 + b / 16) / 16 == a
    ensures (a % 4 * 16 + b / 16) % 16 * 16 + (b % 16 * 4 + c / 64) / 4 == b
    ensures (b % 16 * 4 + c / 64) % 4 * 64 + c % 64 == c
  {
  }

  lemma B64One(a: byte)
    ensures B64Groups([Char(a / 4), Char(a % 4 * 16)]) == Some([a])
  {
    Sextets(a, 0, 0);
    IndexChar(a / 4);
    IndexChar(a % 4 * 16);
  }

  lemma B64Two(a: byte, b: byte)
    ensures B64Groups([Char(a / 4), Char(a % 4 * 16 + b / 16), Char(b % 16 * 4)]) == Some([a, b])
  {
    Sextets(a, b, 0);
    IndexChar(a / 4);
    IndexChar(a % 4 * 16 + b / 16);
    IndexChar(b % 16 * 4);
  }

  lemma B64Group(a: byte, b: byte, c: byte, s: seq<byte>)
    requires B64Groups(s).Some?
    ensures B64Groups([Char(a / 4), Char(a % 4 * 16 + b / 16), Char(b % 16 * 4 + c / 64), Char(c % 64)] + s)
         == Some([a, b, c] + B64Groups(s).value)
  {
    Sextets(a, b, c);
    IndexChar(a / 4);
    IndexChar(a % 4 * 16 + b / 16);
    IndexChar(b % 16 * 4 + c / 64);
    IndexChar(c % 64);
    var g := [Char(a / 4), Char(a % 4 * 16 + b / 16), Char(b % 16 * 4 + c / 64), Char(c % 64)] + s;
    assert g[4..] == s;
  }

  lemma B64Nothing()
    ensures B64Groups([]) == Some([])
  {
  }

  lemma {:induction false} B64GroupsRoundTrip(u: seq<byte>)
    ensures B64Groups(B64Encode(u)) == Some(u)
  {
    hide B64Groups;
    if u == [] {
      B64Nothing();
    } else if |u| == 1 {
      B64One(u[0]);
      assert u == [u[0]];
    } else if |u| == 2 {
      B64Two(u[0], u[1]);
      assert u == [u[0], u[1]];
    } else if |u| >= 3 {
      B64GroupsRoundTrip(u[3..]);
      B64Group(u[0], u[1], u[2], B64Encode(u[3..]));
      assert u == [u[0], u[1], u[2]] + u[3..];
    }
  }

  // ----------------------------------------------------------------- UTF-16

  predicate Surrogate(r: int) { 0xD800 <= r < 0xE000 }

  function Unit(r: int): seq<byte>
    requires 0 <= r < 0x10000
  {
    [r / 256, r % 256]
  }

  /** The big-endian UTF-16 form of a rune. */
  function Utf16(r: int): (u: seq<byte>)
    requires 0 <= r <= 0x10FFFF
    ensures |u| == 2 || |u| == 4
  {
    if r < 0x10000 then Unit(r)
    else Unit(0xD800 + (r - 0x10000) / 1024) + Unit(0xDC00 + (r - 0x10000) % 1024)
  }

  /** utf16.DecodeRune: anything but a high and a low surrogate is U+FFFD. */
  function Pair(r1: int, r2: int): (r: int) {
    if 0xD800 <= r1 < 0xDC00 && 0xDC00 <= r2 < 0xE000
    then (r1 - 0xD800) * 1024 + (r2 - 0xDC00) + 0x10000
    else RUNE_ERROR
  }

  /** What decoding can end in. `OddLength` is the slice index that runs off
      the end: the guard meant to catch it compares a remainder by one. */
  datatype Outcome = Ok(out: seq<byte>) | Invalid | BadBase64 | OddLength

  function Prepend(a: seq<byte>, o: Outcome): Outcome {
    if o.Ok? then Ok(a + o.out) else o
  }

  datatype Next = Rune(rn: int, size: nat) | Stop(why: Outcome)

  /** One turn of the loop over a decoded block. */
  function NextUnit(u: seq<byte>): (n: Next)
    requires u != []
    ensures n.Rune? ==> (n.size == 2 || n.size == 4) && n.size <= |u|
    ensures n.Stop? ==> n.why == if |u| % 2 == 1 then OddLength else Invalid
  {
    if |u| == 1 then Stop(OddLength)
    else
      var r := u[0] as int * 256 + u[1] as int;
      if !Surrogate(r) then Rune(r, 2)
      else if |u| == 2 then Stop(Invalid)
      else if |u| == 3 then Stop(OddLength)
      else Rune(Pair(r, u[2] as int * 256 + u[3] as int), 4)
  }

  function Units(u: seq<byte>): Outcome
  {
    if u == [] then Ok([])
    else
      match NextUnit(u)
      case Stop(why) => why
      case Rune(rn, size) => Prepend(EncodeRune(rn), Units(u[size..]))
  }

  // ---------------------------------------------------- the whole encoding

  /** The UTF-16 form of the longest run of non-ASCII runes at the front. */
  function Run(src: seq<byte>): (r: (seq<byte>, seq<byte>))
    ensures |r.1| <= |src|
    ensures src != [] && src[0] >= 0x80 ==> r.0 != [] && |r.1| < |src|
  {
    if src == [] || DecodeRune(src).rn < 0x80 then ([], src)
    else
      var d := DecodeRune(src);
      RuneBound(src);
      var (u, rest) := Run(src[d.size..]);
      (Utf16(d.rn) + u, rest)
  }

  lemma RuneBound(p: seq<byte>)
    requires p != []
    ensures Scalar(DecodeRune(p).rn)
  {
    if !BadByte(p) {
      EncodeDecode(p);
    }
  }

  function Encode(src: seq<byte>): seq<byte>
    decreases |src|
  {
    if src == [] then []
    else if src[0] == AMP then [AMP, DASH] + Encode(src[1..])
    else if src[0] < 0x80 then [src[0]] + Encode(src[1..])
    else
      var (u, rest) := Run(src);
      [AMP] + B64Encode(u) + [DASH] + Encode(rest)
  }

  function Decode(src: seq<byte>): Outcome
    decreases |src|
  {
    if src == [] then Ok([])
    else if src[0] != AMP then Prepend([src[0]], Decode(src[1..]))
    else
      var s := src[1..];
      var i := IndexByte(s, DASH);
      if i == -1 then Invalid
      else if i == 0 then Prepend([AMP], Decode(s[1..]))
      else
        match B64Decode(s[..i])
        case None => BadBase64
        case Some(u) =>
          var o := Units(u);
          if o.Ok? then Prepend(o.out, Decode(s[i + 1..])) else o
  }

  // ------------------------------------------------------------- theorems

  lemma UnitsStep(r: int, u: seq<byte>)
    requires Scalar(r)
    ensures Units(Utf16(r) + u) == Prepend(EncodeScalar(r), Units(u))
  {
    var w := Utf16(r) + u;
    if r < 0x10000 {
      assert w[0] == r / 256 && w[1] == r % 256 && w[2..] == u;
    } else {
      var hi, lo := 0xD800 + (r - 0x10000) / 1024, 0xDC00 + (r - 0x10000) % 1024;
      assert w[0] == hi / 256 && w[1] == hi % 256 && w[2] == lo / 256 && w[3] == lo % 256;
      assert w[4..] == u;
      assert Pair(hi, lo) == r;
    }
  }

  /** A run decodes to its own bytes, sanitized, and stops at an ASCII byte. */
  lemma {:induction false} RunDecodes(src: seq<byte>)
    ensures var (u, rest) := Run(src);
            && Units(u).Ok?
            && Sanitize(src) == Units(u).out + Sanitize(rest)
  {
    if src != [] && DecodeRune(src).rn >= 0x80 {
      var d := DecodeRune(src);
      RuneBound(src);
      var (u, rest) := Run(src[d.size..]);
      RunDecodes(src[d.size..]);
      UnitsStep(d.rn, u);
      if !BadByte(src) {
        EncodeDecode(src);
      }
    }
  }

  lemma DecodeBlock(u: seq<byte>, rest: seq<byte>)
    requires u != [] && Units(u).Ok?
    ensures Decode([AMP] + B64Encode(u) + [DASH] + rest) == Prepend(Units(u).out, Decode(rest))
  {
    var e := B64Encode(u);
    var src := [AMP] + e + [DASH] + rest;
    assert src[1..] == e + [DASH] + rest;
    IndexByteAfter(e, DASH, rest);
    assert src[1..][..|e|] == e && src[1..][|e| + 1..] == rest;
    B64RoundTrip(u);
  }

  lemma DecodePlain(c: byte, rest: seq<byte>)
    requires c != AMP
    ensures Decode([c] + rest) == Prepend([c], Decode(rest))
  {
    assert ([c] + rest)[1..] == rest;
  }

  lemma DecodeAmpersand(rest: seq<byte>)
    ensures Decode([AMP, DASH] + rest) == Prepend([AMP], Decode(rest))
  {
    var src := [AMP, DASH] + rest;
    assert src[1..] == [DASH] + rest;
    assert src[1..][1..] == rest;
  }

  /** Decoding undoes encoding on every byte string, up to U+FFFD in the
      place of each invalid byte. */
  lemma {:induction false} RoundTrip(s: seq<byte>)
    ensures Decode(Encode(s)) == Ok(Sanitize(s))
    decreases |s|
  {
    if s == [] {
    } else if s[0] == AMP {
      RoundTrip(s[1..]);
      DecodeAmpersand(Encode(s[1..]));
    } else if s[0] < 0x80 {
      RoundTrip(s[1..]);
      DecodePlain(s[0], Encode(s[1..]));
    } else {
      var (u, rest) := Run(s);
      RunDecodes(s);
      RoundTrip(rest);
      DecodeBlock(u, Encode(rest));
    }
  }

  /** The text survives unchanged exactly when it is valid UTF-8. */
  lemma RoundTripExact(s: seq<byte>)
    ensures Decode(Encode(s)) == Ok(s) <==> Valid(s)
  {
    RoundTrip(s);
    SanitizeKeepsValid(s);
  }

  /** No two valid names share an encoding. */
  lemma EncodeInjective(s: seq<byte>, t: seq<byte>)
    requires Valid(s) && Valid(t) && Encode(s) == Encode(t)
    ensures s == t
  {
    RoundTripExact(s);
    RoundTripExact(t);
  }

  lemma {:induction false} EncodeIs7Bit(s: seq<byte>)
    ensures forall c | c in Encode(s) :: c < 0x80
    decreases |s|
  {
    if s == [] {
    } else if s[0] < 0x80 {
      EncodeIs7Bit(s[1..]);
    } else {
      EncodeIs7Bit(Run(s).1);
    }
  }

  /** A block overruns exactly when it holds an odd number of bytes, so the
      intended length check rejects nothing. */
  lemma {:induction false} OddBlocks(u: seq<byte>)
    ensures Units(u) == OddLength <==> |u| % 2 == 1
    decreases |u|
  {
    hide NextUnit, EncodeRune;
    if u != [] && NextUnit(u).Rune? {
      OddBlocks(u[NextUnit(u).size..]);
    }
  }

  // ------------------------------------------------------------- the loops

  method AppendEncode(dst: seq<byte>, src: seq<byte>) returns (out: seq<byte>)
    ensures out == dst + Encode(src)
  {
    hide DecodeRune, Utf16, B64Encode;
    out := dst;
    var rest := src;
    while rest != []
      invariant dst + Encode(src) == out + Encode(rest)
      decreases |rest|
    {
      var d := DecodeRune(rest);
      if rest[0] < 0x80 {
        AsciiRune(rest);
      }
      if d.rn == AMP {
        out := out + [AMP, DASH];
        rest := rest[1..];
        continue;
      } else if d.rn < 0x80 {
        out := out + [d.rn as byte];
        rest := rest[1..];
        continue;
      }
      ghost var before := rest;
      var scratch: seq<byte> := [];
      while rest != []
        invariant Run(before).0 == scratch + Run(rest).0
        invariant Run(before).1 == Run(rest).1
        invariant |rest| <= |before|
        decreases |rest|
      {
        var e := DecodeRune(rest);
        if e.rn < 0x80 {
          break;
        }
        RuneBound(rest);
        rest := rest[e.size..];
        scratch := scratch + Utf16(e.rn);
      }
      assert Run(before).0 == scratch && Run(before).1 == rest;
      out := out + [AMP];
      out := out + B64Encode(scratch);
      out := out + [DASH];
    }
  }

  lemma PrependTwice(a: seq<byte>, b: seq<byte>, o: Outcome)
    ensures Prepend(a, Prepend(b, o)) == Prepend(a + b, o)
  {
    if o.Ok? {
      assert a + (b + o.out) == a + b + o.out;
    }
  }

  /** The inner loop of AppendDecode: runes of one block onto `dst`. */
  method AppendUnits(dst: seq<byte>, u: seq<byte>) returns (r: Outcome)
    ensures r == Prepend(dst, Units(u))
  {
    hide EncodeRune, Pair, Surrogate;
    var out, scratch := dst, u;
    while scratch != []
      invariant Prepend(dst, Units(u)) == Prepend(out, Units(scratch))
      decreases |scratch|
    {
      if |scratch| == 1 {
        return OddLength;
      }
      var rn := scratch[0] as int * 256 + scratch[1] as int;
      var tail := scratch[2..];
      if Surrogate(rn) {
        if tail == [] {
          return Invalid;
        }
        if |tail| == 1 {
          return OddLength;
        }
        rn := Pair(rn, tail[0] as int * 256 + tail[1] as int);
        tail := tail[2..];
      }
      PrependTwice(out, EncodeRune(rn), Units(tail));
      out := out + EncodeRune(rn);
      scratch := tail;
    }
    return Ok(out);
  }

  method AppendDecode(dst: seq<byte>, src: seq<byte>) returns (r: Outcome)
    ensures r == Prepend(dst, Decode(src))
  {
    var out, rest := dst, src;
    while rest != []
      invariant Prepend(dst, Decode(src)) == Prepend(out, Decode(rest))
      decreases |rest|
    {
      var c := rest[0];
      rest := rest[1..];
      if c != AMP {
        PrependTwice(out, [c], Decode(rest));
        out := out + [c];
        continue;
      }
      var i := IndexByte(rest, DASH);
      if i == -1 {
        return Invalid;
      }
      if i == 0 {
        rest := rest[1..];
        PrependTwice(out, [AMP], Decode(rest));
        out := out + [AMP];
        continue;
      }
      var decoded := B64Decode(rest[..i]);
      rest := rest[i + 1..];
      if decoded.None? {
        return BadBase64;
      }
      var scratch := decoded.value;
      if |scratch| % 1 == 1 {
        return Invalid;
      }
      var units := AppendUnits(out, scratch);
      if !units.Ok? {
        return units;
      }
      PrependTwice(out, Units(scratch).out, Decode(rest));
      out := units.out;
    }
    return Ok(out);
  }
}
