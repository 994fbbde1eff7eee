/** CSS strings and urls as the formatter writes them and as the scanner takes
    them apart again (html/css), on the bytes of the style sheet. */
module CssString {
  import opened Bytes
  import opened Utf8
  import opened SourceReader

  const QUOTE: byte := 0x22
  const APOSTROPHE: byte := 0x27
  const BACKSLASH: byte := 0x5C
  const LEFT: byte := 0x28
  const RIGHT: byte := 0x29
  const URL_NAME: seq<byte> := [0x75, 0x72, 0x6C]

  // ------------------------------------------------------------ the formatter

  predicate Special(c: byte) { c == BACKSLASH || c == LF || c == QUOTE }

  function Escape(text: seq<byte>): seq<byte> {
    if text == [] then []
    else (if Special(text[0]) then [BACKSLASH, text[0]] else [text[0]]) + Escape(text[1..])
  }

  method AppendEscapedString(dst: seq<byte>, src: seq<byte>) returns (out: seq<byte>)
    ensures out == dst + Escape(src)
  {
    out := dst;
    assert src[0..] == src;
    for i := 0 to |src|
      invariant out + Escape(src[i..]) == dst + Escape(src)
    {
      var c := src[i];
      assert src[i..][1..] == src[i + 1..];
      ghost var e: seq<byte> := if Special(c) then [BACKSLASH, c] else [c];
      Assoc(out, e, Escape(src[i + 1..]));
      if c == BACKSLASH {
        out := out + [BACKSLASH, BACKSLASH];
      } else if c == LF {
        out := out + [BACKSLASH, LF];
      } else if c == QUOTE {
        out := out + [BACKSLASH, QUOTE];
      } else {
        out := out + [c];
      }
    }
    assert out + [] == out;
  }

  function StringText(text: seq<byte>): seq<byte> { [QUOTE] + (Escape(text) + [QUOTE]) }

  function UrlText(text: seq<byte>): seq<byte> {
    URL_NAME + ([LEFT] + (StringText(text) + [RIGHT]))
  }

  /** AppendValue for strings and for urls. */
  method AppendValue(dst: seq<byte>, isUrl: bool, value: seq<byte>) returns (out: seq<byte>)
    ensures out == dst + if isUrl then UrlText(value) else StringText(value)
  {
    out := dst;
    if isUrl {
      out := out + (URL_NAME + [LEFT, QUOTE]);
      out := AppendEscapedString(out, value);
      out := out + [QUOTE, RIGHT];
      assert out == dst + UrlText(value);
    } else {
      out := out + [QUOTE];
      out := AppendEscapedString(out, value);
      out := out + [QUOTE];
      assert out == dst + StringText(value);
    }
  }

  // -------------------------------------------------------------- the scanner

  datatype Token = StringToken | BadString | UrlToken | BadURL | Ident | Function

  /** The two buffers of a token: its text and its value. */
  datatype Bufs = Bufs(literal: seq<byte>, value: seq<byte>)

  datatype Scan = Scan(token: Token, bufs: Bufs, rest: seq<byte>)

  /** The rune in front, -1 at the end, and what is behind it. */
  function First(s: seq<byte>): int {
    if s == [] then -1 else Shown(DecodeRune(s).rn, true)
  }

  function After(s: seq<byte>): (t: seq<byte>)
    ensures s != [] ==> |t| < |s|
  {
    if s == [] then [] else s[DecodeRune(s).size..]
  }

  function Both(b: Bufs, r: int): Bufs { Bufs(b.literal + EncodeRune(r), b.value + EncodeRune(r)) }

  function HexDigit(c: int): int {
    if 0x30 <= c <= 0x39 then c - 0x30
    else if 0x61 <= c <= 0x66 then c - 0x61 + 10
    else if 0x41 <= c <= 0x46 then c - 0x41 + 10
    else -1
  }

  predicate IsHex(c: int) { HexDigit(c) >= 0 }

  predicate IsWhitespace(c: int) { c == 0x20 || c == 9 || c == 10 || c == 13 }

  /** At most `max` digits. */
  datatype HexRun = HexRun(d: int, literal: seq<byte>, rest: seq<byte>)

  function Hex(s: seq<byte>, max: nat, d: int, literal: seq<byte>): (h: HexRun)
    requires 0 <= d
    ensures 0 <= h.d && |h.rest| <= |s|
    decreases max
  {
    if max == 0 || !IsHex(First(s)) then HexRun(d, literal, s)
    else Hex(After(s), max - 1, 16 * d + HexDigit(First(s)), literal + EncodeRune(First(s)))
  }

  /** An escaped rune, behind the backslash. */
  datatype Escaped = Escaped(rn: int, literal: seq<byte>, rest: seq<byte>)

  function Unescape(s: seq<byte>, literal: seq<byte>): (e: Escaped)
    ensures |e.rest| <= |s|
    ensures s != [] ==> |e.rest| < |s|
  {
    var c := First(s);
    if c == -1 then Escaped(RUNE_ERROR, literal, s)
    else if IsHex(c) then
      var h := Hex(s, 6, 0, literal);
      assert h == Hex(After(s), 5, HexDigit(c), literal + EncodeRune(c));
      Escaped(if 0xD800 <= h.d <= 0xDFFF || h.d >= 0x10FFFF then RUNE_ERROR else h.d, h.literal,
              if IsWhitespace(First(h.rest)) then After(h.rest) else h.rest)
    else Escaped(c, literal + EncodeRune(c), After(s))
  }

  /** The rest of a string, behind its opening quote. */
  function ScanString(quote: int, s: seq<byte>, b: Bufs): Scan
    decreases |s|
  {
    var c, t := First(s), After(s);
    if c == -1 then Scan(BadString, Bufs([], []), [])
    else if c == quote then Scan(StringToken, b.(literal := b.literal + EncodeRune(c)), t)
    else if c == LF then Scan(BadString, Bufs([], []), t)
    else if c == BACKSLASH then
      var b1 := b.(literal := b.literal + [BACKSLASH]);
      if t == [] then Scan(BadString, Bufs([], []), [])
      else if First(t) == LF then ScanString(quote, After(t), Bufs(b1.literal + [LF], b1.value + [LF]))
      else
        var e := Unescape(t, b1.literal);
        ScanString(quote, e.rest, Bufs(e.literal, b1.value + EncodeRune(e.rn)))
    else ScanString(quote, t, Both(b, c))
  }

  /** What is left behind a bad url: it ends at the first ")". */
  function Remnants(s: seq<byte>): (t: seq<byte>)
    ensures |t| <= |s|
  {
    if s == [] then [] else if First(s) == RIGHT as int then After(s) else Remnants(After(s))
  }

  function DropSpaces(s: seq<byte>): (t: seq<byte>)
    ensures |t| <= |s|
  {
    if IsWhitespace(First(s)) then DropSpaces(After(s)) else s
  }

  function Bad(b: Bufs, s: seq<byte>): Scan { Scan(BadURL, b.(literal := []), Remnants(s)) }

  predicate NonPrintable(c: int) { 0 <= c <= 8 || c == 0xB || 0xE <= c <= 0x1F || c == 0x7F }

  /** A url without quotes. */
  function ScanRaw(s: seq<byte>, b: Bufs): Scan
    decreases |s|
  {
    var c, t := First(s), After(s);
    if c == -1 then Scan(UrlToken, b, [])
    else if IsWhitespace(c) then ScanRaw(t, b)
    else if c == RIGHT as int then Scan(UrlToken, b.(literal := b.literal + [RIGHT]), t)
    else if c == QUOTE as int || c == APOSTROPHE as int || c == LEFT as int then Bad(b, t)
    else if c == BACKSLASH as int then
      if First(t) == LF as int then Bad(b, t)
      else
        var e := Unescape(t, b.literal + [BACKSLASH]);
        ScanRaw(e.rest, Bufs(e.literal, b.value + EncodeRune(e.rn)))
    else if NonPrintable(c) then Bad(b, t)
    else ScanRaw(t, Both(b, c))
  }

  /** A url, behind its opening parenthesis. */
  function ScanUrl(s: seq<byte>, b: Bufs): Scan {
    var s1 := DropSpaces(s);
    var c := First(s1);
    if c == QUOTE as int || c == APOSTROPHE as int then
      var r := ScanString(c, After(s1), b.(literal := b.literal + EncodeRune(c)));
      if r.token == BadString then Bad(r.bufs, r.rest)
      else
        var s2 := DropSpaces(r.rest);
        if First(s2) == RIGHT as int then Scan(UrlToken, r.bufs.(literal := r.bufs.literal + [RIGHT]), After(s2))
        else Bad(r.bufs, s2)
    else ScanRaw(s1, b)
  }

  predicate NameStart(c: int) { 0x61 <= c <= 0x7A || 0x41 <= c <= 0x5A || c >= 0x80 || c == 0x5F }

  predicate NameRune(c: int) { NameStart(c) || 0x30 <= c <= 0x39 || c == 0x2D }

  function ScanName(s: seq<byte>, b: Bufs): (r: (Bufs, seq<byte>))
    ensures |r.1| <= |s|
    decreases |s|
  {
    var c, t := First(s), After(s);
    if NameRune(c) then ScanName(t, Both(b, c))
    else if c == BACKSLASH as int then
      if First(t) == LF as int then (b, t)
      else
        var e := Unescape(t, b.literal + [BACKSLASH]);
        ScanName(e.rest, Bufs(e.literal, b.value + EncodeRune(e.rn)))
    else (b, s)
  }

  /** A name, a function or a url. */
  function ScanIdentLike(s: seq<byte>): Scan {
    var (b, t) := ScanName(s, Bufs([], []));
    if First(t) == LEFT as int then
      if b.literal == URL_NAME then ScanUrl(After(t), Bufs(b.literal + [LEFT], []))
      else Scan(Function, b, After(t))
    else Scan(Ident, b, t)
  }

  // ----------------------------------------------------- what the value is

  /** What is left of a text once it was read rune by rune: invalid bytes and
      NULs have become U+FFFD. */
  function Clean(text: seq<byte>): seq<byte> {
    if text == [] then [] else EncodeRune(First(text)) + Clean(After(text))
  }

  /** How long the first rune of the text is once it is read and written. */
  lemma CleanRune(text: seq<byte>)
    requires text != []
    ensures var n := DecodeRune(text).size;
      if BadByte(text) || text[0] == 0 then |EncodeRune(First(text))| > n
      else EncodeRune(First(text)) == text[..n]
    ensures text[0] == 0 ==> DecodeRune(text).size == 1
    ensures !BadByte(text) && text[0] != 0 ==> 0 !in text[..DecodeRune(text).size]
  {
    if !BadByte(text) {
      EncodeDecode(text);
    }
  }

  /** The text comes through unchanged exactly when it is valid UTF-8 without
      NUL. */
  lemma {:induction false} CleanExact(text: seq<byte>)
    ensures |Clean(text)| >= |text|
    ensures Clean(text) == text <==> Valid(text) && 0 !in text
    ensures Valid(text) && 0 !in text <==> |Clean(text)| == |text|
  {
    if text != [] {
      hide EncodeRune, DecodeRune, First, BadByte;
      var n := DecodeRune(text).size;
      CleanRune(text);
      CleanExact(text[n..]);
      assert text == text[..n] + text[n..];
      assert text[0] in text;
    }
  }

  // ------------------------------------------------------- escape, then scan

  /** As long as the escaped text goes on with high bytes, it is the text. */
  lemma {:induction false} HighPrefix(text: seq<byte>, q: seq<byte>, n: nat)
    requires q != [] && q[0] < 0x80
    requires n <= |Escape(text) + q| && forall i | 0 <= i < n :: (Escape(text) + q)[i] >= 0x80
    ensures n <= |text| && text[..n] == (Escape(text) + q)[..n]
    ensures n <= |Escape(text)| && Escape(text)[n..] == Escape(text[n..])
    decreases n
  {
    var e := Escape(text) + q;
    if n > 0 {
      assert e[0] >= 0x80;
      assert text != [];
      var t := text[1..];
      var f := Escape(t) + q;
      assert e[1..] == f;
      forall i | 0 <= i < n - 1
        ensures f[i] >= 0x80
      {
        assert f[i] == e[i + 1];
      }
      HighPrefix(t, q, n - 1);
      assert text[..n] == [text[0]] + t[..n - 1];
      assert e[..n] == [e[0]] + f[..n - 1];
      assert text[n..] == t[n - 1..];
      assert Escape(text)[n..] == Escape(t)[n - 1..];
    } else {
      assert text[..0] == e[..0];
      assert Escape(text)[0..] == Escape(text) && text[0..] == text;
    }
  }

  /** A valid rune is there already in its own bytes. */
  lemma GoodPrefix(p: seq<byte>)
    requires p != [] && p[0] >= 0x80 && !BadByte(p)
    ensures var n := DecodeRune(p).size;
      && (forall i | 0 <= i < n :: p[i] >= 0x80)
      && FullRune(p[..n]) && DecodeRune(p[..n]) == DecodeRune(p)
  {
  }

  lemma BadRune(p: seq<byte>)
    requires p != [] && BadByte(p)
    ensures DecodeRune(p) == Decoded(RUNE_ERROR, 1)
  {
  }

  lemma SameGoodRune(text: seq<byte>, e: seq<byte>, q: seq<byte>)
    requires q != [] && q[0] < 0x80 && e == Escape(text) + q && e != [] && e[0] >= 0x80 && !BadByte(e)
    ensures text != [] && DecodeRune(e) == DecodeRune(text)
    ensures var n := DecodeRune(text).size; e[n..] == Escape(text[n..]) + q
  {
    hide *;
    var n := DecodeRune(e).size;
    GoodPrefix(e);
    HighPrefix(text, q, n);
    BehindPrefix(text, e, q, n);
    FullRuneStable(e[..n], text[n..]);
    FullRuneStable(e[..n], e[n..]);
  }

  lemma BehindPrefix(text: seq<byte>, e: seq<byte>, q: seq<byte>, n: nat)
    requires n <= |text| && n <= |Escape(text)| && e == Escape(text) + q && text[..n] == e[..n]
    requires Escape(text)[n..] == Escape(text[n..])
    ensures text == e[..n] + text[n..] && e == e[..n] + e[n..] && e[n..] == Escape(text[n..]) + q
  {
    hide *;
  }

  lemma GoodInEscape(text: seq<byte>, e: seq<byte>, q: seq<byte>)
    requires e == Escape(text) + q && text != [] && text[0] >= 0x80 && !BadByte(text)
    ensures e != [] && !BadByte(e)
  {
    assert e[0] == text[0];
    var n := DecodeRune(text).size;
    GoodPrefix(text);
    HighKept(text, n);
    hide DecodeRune, FullRune, Escape, LeadLen;
    var rest := Escape(text[n..]) + q;
    FullRuneStable(text[..n], rest);
    Assoc(text[..n], Escape(text[n..]), q);
  }

  lemma EscapeHead(text: seq<byte>, q: seq<byte>)
    requires text != [] && text[0] >= 0x80
    ensures var e := Escape(text) + q; e != [] && e[0] == text[0] && e[1..] == Escape(text[1..]) + q
  {
    var t := Escape(text[1..]);
    assert Escape(text) == [text[0]] + t;
    hide Escape;
    Assoc([text[0]], t, q);
  }

  /** The escaped text shows the same high rune as the text does. */
  lemma SameRune(text: seq<byte>, q: seq<byte>)
    requires q != [] && q[0] < 0x80 && text != [] && text[0] >= 0x80
    ensures Escape(text) + q != [] && DecodeRune(Escape(text) + q) == DecodeRune(text)
    ensures var n := DecodeRune(text).size; (Escape(text) + q)[n..] == Escape(text[n..]) + q
  {
    hide *;
    var e := Escape(text) + q;
    EscapeHead(text, q);
    if !BadByte(e) {
      SameGoodRune(text, e, q);
    } else {
      BadInText(text, e, q);
      BadRune(text);
      BadRune(e);
    }
  }

  lemma BadInText(text: seq<byte>, e: seq<byte>, q: seq<byte>)
    requires e == Escape(text) + q && text != [] && text[0] >= 0x80 && e != [] && BadByte(e)
    ensures BadByte(text)
  {
    hide *;
    if !BadByte(text) {
      GoodInEscape(text, e, q);
    }
  }

  lemma {:induction false} HighKept(text: seq<byte>, n: nat)
    requires n <= |text| && forall i | 0 <= i < n :: text[i] >= 0x80
    ensures Escape(text) == text[..n] + Escape(text[n..])
    decreases n
  {
    if n > 0 {
      HighKept(text[1..], n - 1);
      assert text[..n] == [text[0]] + text[1..][..n - 1];
      assert text[n..] == text[1..][n - 1..];
    } else {
      assert text[0..] == text;
    }
  }

  lemma LowRune(c: byte, s: seq<byte>)
    requires c < 0x80
    ensures First([c] + s) == Shown(c, true) && After([c] + s) == s
  {
    AsciiRune([c] + s);
  }

  /** One step over an escaped text: one rune of it goes into the value. */
  lemma ScanStep(text: seq<byte>, rest: seq<byte>, b: Bufs) returns (b': Bufs)
    requires text != []
    ensures b'.value == b.value + EncodeRune(First(text))
    ensures ScanString(QUOTE, Escape(text) + ([QUOTE] + rest), b)
         == ScanString(QUOTE, Escape(After(text)) + ([QUOTE] + rest), b')
  {
    assert ([QUOTE] + rest)[0] < 0x80;
    hide *;
    if text[0] >= 0x80 {
      b' := HighStep(text, [QUOTE] + rest, b);
    } else {
      b' := LowStep(text, [QUOTE] + rest, b);
    }
  }

  lemma HighFirst(s: seq<byte>)
    requires s != [] && s[0] >= 0x80
    ensures First(s) >= 0x80
  {
  }

  lemma HighStep(text: seq<byte>, q: seq<byte>, b: Bufs) returns (b': Bufs)
    requires text != [] && text[0] >= 0x80 && q != [] && q[0] < 0x80
    ensures b'.value == b.value + EncodeRune(First(text))
    ensures ScanString(QUOTE, Escape(text) + q, b) == ScanString(QUOTE, Escape(After(text)) + q, b')
  {
    hide DecodeRune, EncodeRune, Escape, Shown;
    SameRune(text, q);
    HighFirst(text);
    b' := Both(b, First(text));
  }

  lemma LowStep(text: seq<byte>, q: seq<byte>, b: Bufs) returns (b': Bufs)
    requires text != [] && text[0] < 0x80
    ensures b'.value == b.value + EncodeRune(First(text))
    ensures ScanString(QUOTE, Escape(text) + q, b) == ScanString(QUOTE, Escape(After(text)) + q, b')
  {
    AsciiRune(text);
    var c, more := text[0], Escape(text[1..]) + q;
    assert After(text) == text[1..] && First(text) == Shown(c, true);
    if Special(c) {
      assert Escape(text) + q == [BACKSLASH] + ([c] + more);
      hide *;
      b' := EscapedStep(c, more, b);
      SpecialShown(c);
    } else {
      assert Escape(text) + q == [c] + more;
      PlainStep(c, more, b);
      b' := Both(b, Shown(c, true));
    }
  }

  lemma SpecialShown(c: byte)
    ensures Special(c) ==> Shown(c, true) == c as int
  {
  }

  lemma PlainStep(c: byte, more: seq<byte>, b: Bufs)
    requires c < 0x80 && !Special(c)
    ensures ScanString(QUOTE, [c] + more, b) == ScanString(QUOTE, more, Both(b, Shown(c, true)))
  {
    hide DecodeRune, EncodeRune;
    LowRune(c, more);
  }

  lemma EscapedStep(c: byte, more: seq<byte>, b: Bufs) returns (b': Bufs)
    requires Special(c)
    ensures b'.value == b.value + EncodeRune(c)
    ensures ScanString(QUOTE, [BACKSLASH] + ([c] + more), b) == ScanString(QUOTE, more, b')
  {
    LowRune(BACKSLASH, [c] + more);
    LowRune(c, more);
    b' := Bufs(b.literal + [BACKSLASH] + [c], b.value + [c]);
    assert EncodeRune(c) == [c];
    var e := Unescape([c] + more, b.literal + [BACKSLASH]);
    if c != LF {
      assert !IsHex(c);
      assert e == Escaped(c, b.literal + [BACKSLASH] + [c], more);
    }
  }

  /** Whatever the text and whatever follows: scanning its quoted form gives
      one string whose value is the text, cleaned, and stops behind the closing
      quote. */
  lemma {:induction false} StringRoundTrip(text: seq<byte>, rest: seq<byte>, b: Bufs)
    ensures var r := ScanString(QUOTE, Escape(text) + ([QUOTE] + rest), b);
      r.token == StringToken && r.bufs.value == b.value + Clean(text) && r.rest == rest
    decreases |text|
  {
    if text == [] {
      LowRune(QUOTE, rest);
      assert [] + ([QUOTE] + rest) == [QUOTE] + rest;
      assert b.value + [] == b.value;
    } else {
      hide ScanString, Escape, DecodeRune, EncodeRune;
      var b' := ScanStep(text, rest, b);
      StringRoundTrip(After(text), rest, b');
      Assoc(b.value, EncodeRune(First(text)), Clean(After(text)));
    }
  }

  /** So the value is the text exactly when the text is valid UTF-8 without
      NUL. */
  lemma StringValueExact(text: seq<byte>, rest: seq<byte>)
    ensures ScanString(QUOTE, Escape(text) + ([QUOTE] + rest), Bufs([QUOTE], [])).bufs.value == text
       <==> Valid(text) && 0 !in text
  {
    hide ScanString, Clean, Valid;
    StringRoundTrip(text, rest, Bufs([QUOTE], []));
    CleanExact(text);
    assert [] + Clean(text) == Clean(text);
  }

  /** The same for the url form, which is one url token to its parenthesis. */
  lemma UrlRoundTrip(text: seq<byte>, rest: seq<byte>)
    ensures var r := ScanIdentLike(UrlText(text) + rest);
      && r.token == UrlToken && r.bufs.value == Clean(text) && r.rest == rest
      && (r.bufs.value == text <==> Valid(text) && 0 !in text)
  {
    hide *;
    var t := [QUOTE] + ([RIGHT] + rest);
    var inner := Escape(text) + t;
    UrlParts(text, rest, inner);
    IdentIsUrl([QUOTE] + inner);
    var b := Bufs(URL_NAME + [LEFT], []);
    StringRoundTrip(text, [RIGHT] + rest, Bufs(b.literal + [QUOTE], []));
    QuotedUrl(inner, b, rest);
    CleanExact(text);
    assert [] + Clean(text) == Clean(text);
  }

  lemma QuotedUrl(t: seq<byte>, b: Bufs, rest: seq<byte>)
    requires var r := ScanString(QUOTE, t, Bufs(b.literal + [QUOTE], b.value));
      r.token == StringToken && r.rest == [RIGHT] + rest
    ensures var r := ScanString(QUOTE, t, Bufs(b.literal + [QUOTE], b.value));
      ScanUrl([QUOTE] + t, b) == Scan(UrlToken, r.bufs.(literal := r.bufs.literal + [RIGHT]), rest)
  {
    LowRune(QUOTE, t);
    LowRune(RIGHT, rest);
    assert EncodeRune(QUOTE) == [QUOTE];
    hide ScanString, DecodeRune, EncodeRune, First, After;
    assert DropSpaces([QUOTE] + t) == [QUOTE] + t;
    assert DropSpaces([RIGHT] + rest) == [RIGHT] + rest;
  }

  lemma IdentIsUrl(t: seq<byte>)
    ensures ScanIdentLike([0x75] + ([0x72] + ([0x6C] + ([LEFT] + t)))) == ScanUrl(t, Bufs(URL_NAME + [LEFT], []))
  {
    NameIsUrl([LEFT] + t);
    LowRune(LEFT, t);
    hide ScanName, ScanUrl, First, After;
  }

  lemma UrlParts(text: seq<byte>, rest: seq<byte>, inner: seq<byte>)
    requires inner == Escape(text) + ([QUOTE] + ([RIGHT] + rest))
    ensures UrlText(text) + rest == [0x75] + ([0x72] + ([0x6C] + ([LEFT] + ([QUOTE] + inner))))
  {
    hide Escape;
  }

  lemma NameIsUrl(s: seq<byte>)
    requires s != [] && s[0] == LEFT
    ensures ScanName([0x75] + ([0x72] + ([0x6C] + s)), Bufs([], [])) == (Bufs(URL_NAME, URL_NAME), s)
  {
    hide *;
    UrlLetters();
    LetterStep(0x6C, s, Bufs([0x75, 0x72], [0x75, 0x72]));
    LetterStep(0x72, [0x6C] + s, Bufs([0x75], [0x75]));
    LetterStep(0x75, [0x72] + ([0x6C] + s), Bufs([], []));
    NameStops(s, Bufs(URL_NAME, URL_NAME));
    assert [] + [0x75] == [0x75] && [0x75] + [0x72] == [0x75, 0x72] && [0x75, 0x72] + [0x6C] == [0x75, 0x72, 0x6C];
  }

  lemma UrlLetters()
    ensures URL_NAME == [0x75, 0x72, 0x6C] && LEFT < 0x80 && LEFT != BACKSLASH && !NameRune(LEFT as int)
  {
  }

  lemma NameStops(s: seq<byte>, b: Bufs)
    requires s != [] && s[0] == LEFT
    ensures ScanName(s, b) == (b, s)
  {
    UrlLetters();
    AsciiRune(s);
    hide DecodeRune, NameRune, Unescape, Both;
  }

  lemma LetterStep(c: byte, s: seq<byte>, b: Bufs)
    requires 0x61 <= c <= 0x7A
    ensures ScanName([c] + s, b) == ScanName(s, Bufs(b.literal + [c], b.value + [c]))
  {
    LowRune(c, s);
    assert EncodeRune(c) == [c];
    hide First, After, EncodeRune;
  }

  // ----------------------------------------------- the remnants of bad urls

  predicate EscapeAhead(s: seq<byte>) { First(s) == BACKSLASH as int && First(After(s)) != LF as int }

  /** What is left behind a bad url by section 4.3.14 of CSS Syntax: escapes are
      consumed whole, so the end is the first ")" that is not escaped. */
  function RuleRemnants(s: seq<byte>): (t: seq<byte>)
    ensures |t| <= |s|
    ensures s != [] ==> |t| < |s|
    decreases |s|
  {
    if s == [] then []
    else if First(s) == RIGHT as int then After(s)
    else if EscapeAhead(s) then RuleRemnants(Unescape(After(s), []).rest)
    else RuleRemnants(After(s))
  }

  /** There is an escaped ")" in front of the first one that is not, and
      something behind it. */
  predicate EscapedEnd(s: seq<byte>)
    decreases |s|
  {
    if s == [] || First(s) == RIGHT as int then false
    else if EscapeAhead(s) && First(After(s)) == RIGHT as int then After(After(s)) != []
    else if EscapeAhead(s) then EscapedEnd(Unescape(After(s), []).rest)
    else EscapedEnd(After(s))
  }

  lemma RemnantsStep(s: seq<byte>)
    ensures First(s) == RIGHT as int ==> Remnants(s) == After(s)
    ensures First(s) != RIGHT as int ==> Remnants(s) == Remnants(After(s))
  {
    if s == [] {
      assert First(s) == -1;
    }
  }

  /** Hex digits hold no parenthesis, */
  lemma {:induction false} RemnantsHex(s: seq<byte>, max: nat, d: int, l: seq<byte>)
    requires 0 <= d
    ensures Remnants(Hex(s, max, d, l).rest) == Remnants(s)
    decreases max
  {
    hide First, After, EncodeRune, Remnants;
    if max > 0 && IsHex(First(s)) {
      RemnantsStep(s);
      assert HexDigit(First(s)) >= 0;
      RemnantsHex(After(s), max - 1, 16 * d + HexDigit(First(s)), l + EncodeRune(First(s)));
    }
  }

  /** and neither does an escape, unless it is that of one. */
  lemma RemnantsEscape(s: seq<byte>, l: seq<byte>)
    ensures First(s) != RIGHT as int ==> Remnants(Unescape(s, l).rest) == Remnants(s)
    ensures First(s) == RIGHT as int ==> Unescape(s, l).rest == After(s)
  {
    hide After, EncodeRune, Remnants, Hex;
    var c := First(s);
    RemnantsStep(s);
    if c != -1 && IsHex(c) {
      var h := Hex(s, 6, 0, l);
      RemnantsHex(s, 6, 0, l);
      RemnantsStep(h.rest);
    }
  }

  /** The scanner ends the remnants of a bad url where the rule does if and only
      if no escaped ")" comes before the first one that is not escaped, or
      nothing comes behind it. */
  lemma {:induction false} RemnantsExact(s: seq<byte>)
    ensures Remnants(s) == RuleRemnants(s) <==> !EscapedEnd(s)
    decreases |s|
  {
    hide First, After, Unescape, Remnants;
    if s != [] {
      RemnantsStep(s);
      Shortens(s);
      var t := After(s);
      if First(s) == RIGHT as int {
      } else if EscapeAhead(s) {
        RemnantsEscape(t, []);
        RemnantsStep(t);
        if First(t) != RIGHT as int {
          RemnantsExact(Unescape(t, []).rest);
        } else {
          EndsAt();
        }
      } else {
        RemnantsExact(t);
      }
    } else {
      EndsAt();
    }
  }

  lemma EndsAt()
    ensures Remnants([]) == [] && RuleRemnants([]) == []
  {
  }

  lemma Shortens(s: seq<byte>)
    ensures s != [] ==> |After(s)| < |s|
  {
  }

  /** For one, an escaped parenthesis right in front ends the remnants. */
  lemma RemnantsIgnoreEscapes(rest: seq<byte>)
    ensures Remnants([BACKSLASH] + ([RIGHT] + rest)) == rest
    ensures EscapedEnd([BACKSLASH] + ([RIGHT] + rest)) <==> rest != []
  {
    LowRune(BACKSLASH, [RIGHT] + rest);
    LowRune(RIGHT, rest);
  }
}
