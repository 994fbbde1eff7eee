/** What the scanner makes of ordinary style sheets (html/css): the value of an
    escape, of a string, of a url without quotes and of a name, in the terms of
    CSS Syntax Module Level 3. */
module CssMeaning {
  import opened Bytes
  import opened Utf8
  import opened SourceReader
  import opened CssString

  // --------------------------------------------------------------- hex digits

  const LOWER_HEX := "0123456789abcdef"
  const UPPER_HEX := "0123456789ABCDEF"

  /** The character stands for the digit `v`. */
  predicate Stands(c: byte, v: nat) {
    v < 16 && (c as char == LOWER_HEX[v] || c as char == UPPER_HEX[v])
  }

  lemma HexDigitIs(c: byte, v: nat)
    requires v < 16
    ensures HexDigit(c) == v <==> Stands(c, v)
  {
  }

  predicate IsDigits(ds: seq<byte>, vs: seq<nat>) {
    |ds| == |vs| && forall i | 0 <= i < |ds| :: Stands(ds[i], vs[i])
  }

  function Power(n: nat): (p: nat)
    ensures p > 0
  {
    if n == 0 then 1 else 16 * Power(n - 1)
  }

  /** The number the digits write, each with its weight. */
  function Number(vs: seq<nat>): nat {
    if vs == [] then 0 else vs[0] * Power(|vs| - 1) + Number(vs[1..])
  }

  lemma Weigh(d: nat, v: nat, p: nat, n: nat)
    ensures (16 * d + v) * p + n == d * (16 * p) + (v * p + n)
  {
  }

  lemma HexStep(c: byte, v: nat, s: seq<byte>, max: nat, d: nat, literal: seq<byte>)
    requires Stands(c, v) && max > 0
    ensures First([c] + s) == c as int && IsHex(c)
    ensures Hex([c] + s, max, d, literal) == Hex(s, max - 1, 16 * d + v, literal + [c])
  {
    HexDigitIs(c, v);
    LowRune(c, s);
    assert EncodeRune(c) == [c];
    hide First, After, EncodeRune, HexDigit, Stands;
  }

  lemma HexDone(s: seq<byte>, max: nat, d: nat, literal: seq<byte>)
    requires max == 0 || !IsHex(First(s))
    ensures Hex(s, max, d, literal) == HexRun(d, literal, s)
  {
  }

  lemma {:induction false} HexReads(ds: seq<byte>, vs: seq<nat>, rest: seq<byte>, max: nat, d: nat, literal: seq<byte>)
    requires IsDigits(ds, vs) && |ds| <= max && (|ds| == max || !IsHex(First(rest)))
    ensures Hex(ds + rest, max, d, literal) == HexRun(d * Power(|ds|) + Number(vs), literal + ds, rest)
    decreases |ds|
  {
    hide Hex, First, IsHex, Stands;
    if ds == [] {
      assert ds + rest == rest && literal + ds == literal;
      HexDone(rest, max, d, literal);
    } else {
      var c, v, t := ds[0], vs[0], ds[1..];
      assert ds + rest == [c] + (t + rest);
      assert IsDigits(t, vs[1..]);
      HexStep(c, v, t + rest, max, d, literal);
      HexReads(t, vs[1..], rest, max - 1, 16 * d + v, literal + [c]);
      assert literal + [c] + t == literal + ds;
      Weigh(d, v, Power(|t|), Number(vs[1..]));
    }
  }

  /** What an escaped number stands for by section 4.3.7. */
  function RuleRune(n: nat): int {
    if n == 0 || 0xD800 <= n <= 0xDFFF || n > 0x10FFFF then 0xFFFD else n
  }

  /** Behind a backslash, up to six hex digits write a number, and one white space
      behind them goes with it. The rune is the one the rule asks for if and only
      if the number is neither 0, which is let through, nor 10FFFF, which is
      replaced. */
  lemma EscapeMeans(ds: seq<byte>, vs: seq<nat>, rest: seq<byte>, literal: seq<byte>)
    requires IsDigits(ds, vs) && 1 <= |ds| <= 6 && (|ds| == 6 || !IsHex(First(rest)))
    ensures var e, n := Unescape(ds + rest, literal), Number(vs);
      && e.literal == literal + ds
      && e.rest == (if First(rest) in {0x20, 0x09, 0x0A, 0x0D} then After(rest) else rest)
      && (e.rn == RuleRune(n) <==> n != 0 && n != 0x10FFFF)
      && (e.rn == n || e.rn == 0xFFFD)
  {
    hide First, After, EncodeRune, Hex, Unescape, RuleRune, Stands, IsHex, Number, Power;
    var c, t := ds[0], ds[1..];
    assert ds + rest == [c] + (t + rest);
    HexStep(c, vs[0], t + rest, 6, 0, literal);
    HexReads(ds, vs, rest, 6, 0, literal);
    UnescapeHex(ds + rest, literal, HexRun(Number(vs), literal + ds, rest));
  }

  lemma UnescapeHex(s: seq<byte>, literal: seq<byte>, h: HexRun)
    requires IsHex(First(s)) && Hex(s, 6, 0, literal) == h && h.d >= 0
    ensures var e := Unescape(s, literal);
      && e.literal == h.literal
      && e.rest == (if First(h.rest) in {0x20, 0x09, 0x0A, 0x0D} then After(h.rest) else h.rest)
      && (e.rn == RuleRune(h.d) <==> h.d != 0 && h.d != 0x10FFFF)
      && (e.rn == h.d || e.rn == 0xFFFD)
  {
    assert First(s) != -1;
    hide First, After, EncodeRune, Hex;
  }

  /** Any other rune stands for itself, and at the end there is U+FFFD. */
  lemma PlainEscape(c: byte, rest: seq<byte>, literal: seq<byte>)
    requires 0 < c < 0x80 && forall v | 0 <= v < 16 :: !Stands(c, v)
    ensures Unescape([c] + rest, literal) == Escaped(c, literal + [c], rest)
    ensures Unescape([], literal) == Escaped(0xFFFD, literal, [])
  {
    LowRune(c, rest);
    if IsHex(c) {
      HexDigitIs(c, HexDigit(c));
    }
    assert EncodeRune(c) == [c];
  }

  // ------------------------------------------------------------ text of runes

  /** Runes as they are written into the value; NUL is replaced. */
  function Spelled(rs: seq<int>): seq<byte> {
    if rs == [] then [] else EncodeRune(if rs[0] == 0 then 0xFFFD else rs[0]) + Spelled(rs[1..])
  }

  /** A low byte, or the end, behind a text does not change its first rune. */
  lemma SameFirst(text: seq<byte>, q: seq<byte>)
    requires text != [] && (q == [] || q[0] < 0x80)
    ensures DecodeRune(text + q) == DecodeRune(text)
    ensures First(text + q) == First(text) && After(text + q) == After(text) + q
  {
    var d := DecodeRune(text);
    if q == [] {
      assert text + q == text && After(text) + q == After(text);
    } else {
      SameDecoded(text, q);
      hide DecodeRune;
      assert (text + q)[d.size..] == text[d.size..] + q;
    }
  }

  lemma SameDecoded(text: seq<byte>, q: seq<byte>)
    requires text != [] && q != [] && q[0] < 0x80
    ensures DecodeRune(text + q) == DecodeRune(text)
  {
    var s := text + q;
    assert forall i | 0 <= i < |text| :: s[i] == text[i];
    assert s[|text|] == q[0];
  }

  /** The text in front of the others, rune by rune. */
  lemma RunesStep(text: seq<byte>)
    requires text != []
    ensures var rs := Runes(text);
      && rs != [] && rs[0] == DecodeRune(text).rn && rs[1..] == Runes(After(text)) && |After(text)| < |text|
      && First(text) == (if rs[0] == 0 then 0xFFFD else rs[0]) && rs[0] >= 0
  {
  }

  // ------------------------------------------------------------------- strings

  predicate InString(quote: int, r: int) { r != quote && r != 0x0A && r != 0x5C }

  ghost predicate AllIn(quote: int, rs: seq<int>) { forall i | 0 <= i < |rs| :: InString(quote, rs[i]) }

  lemma {:induction false} PlainString(quote: byte, text: seq<byte>, q: seq<byte>, b: Bufs)
    requires quote == QUOTE || quote == APOSTROPHE
    requires AllIn(quote, Runes(text)) && (q == [] || q[0] < 0x80)
    ensures var s := Spelled(Runes(text));
      ScanString(quote, text + q, b) == ScanString(quote, q, Bufs(b.literal + s, b.value + s))
    decreases |text|
  {
    hide ScanString, First, After, EncodeRune, DecodeRune;
    if text == [] {
      assert text + q == q && b.value + [] == b.value && b.literal + [] == b.literal;
    } else {
      RunesStep(text);
      SameFirst(text, q);
      var rs, t := Runes(text), After(text);
      assert InString(quote, rs[0]);
      assert AllIn(quote, Runes(t)) by {
        assert forall i | 0 <= i < |Runes(t)| :: Runes(t)[i] == rs[i + 1];
      }
      StringStep(quote, text + q, b);
      PlainString(quote, t, q, Both(b, First(text)));
      SpelledStep(rs, Runes(t), b, First(text));
    }
  }

  lemma StringStep(quote: byte, s: seq<byte>, b: Bufs)
    requires s != [] && First(s) != quote as int && First(s) != 0x0A && First(s) != 0x5C && First(s) >= 0
    ensures ScanString(quote, s, b) == ScanString(quote, After(s), Both(b, First(s)))
  {
    hide First, After, EncodeRune;
  }

  lemma SpelledStep(rs: seq<int>, rest: seq<int>, b: Bufs, c: int)
    requires rs != [] && rs[1..] == rest && c == (if rs[0] == 0 then 0xFFFD else rs[0])
    ensures Both(b, c).value + Spelled(rest) == b.value + Spelled(rs)
    ensures Both(b, c).literal + Spelled(rest) == b.literal + Spelled(rs)
  {
    hide EncodeRune;
    Assoc(b.value, EncodeRune(c), Spelled(rest));
    Assoc(b.literal, EncodeRune(c), Spelled(rest));
  }

  lemma StringEnds(quote: byte, rest: seq<byte>, b: Bufs)
    requires quote == QUOTE || quote == APOSTROPHE
    ensures var r := ScanString(quote, [quote] + rest, b);
      r.token == StringToken && r.bufs.value == b.value && r.rest == rest
    ensures var r := ScanString(quote, [LF] + rest, b); r.token == BadString && r.rest == rest
    ensures ScanString(quote, [], b).token == BadString
  {
    LowRune(quote, rest);
    LowRune(LF, rest);
    hide After, EncodeRune, DecodeRune;
  }

  /** Behind either quote, text without that quote, a line end or a backslash: up
      to the quote it is a string of that value; up to a line end, or the end,
      it is none. */
  lemma StringMeans(quote: byte, text: seq<byte>, rest: seq<byte>, b: Bufs)
    requires quote == QUOTE || quote == APOSTROPHE
    requires AllIn(quote, Runes(text))
    ensures var r := ScanString(quote, text + ([quote] + rest), b);
      r.token == StringToken && r.bufs.value == b.value + Spelled(Runes(text)) && r.rest == rest
    ensures var r := ScanString(quote, text + ([LF] + rest), b); r.token == BadString && r.rest == rest
    ensures ScanString(quote, text, b).token == BadString
  {
    hide *;
    var s := Spelled(Runes(text));
    var b1 := Bufs(b.literal + s, b.value + s);
    assert ([quote] + rest)[0] < 0x80 && ([LF] + rest)[0] < 0x80 by {
      LowQuote(quote);
    }
    PlainString(quote, text, [quote] + rest, b);
    PlainString(quote, text, [LF] + rest, b);
    PlainString(quote, text, [], b);
    assert text + [] == text;
    StringEnds(quote, rest, b1);
  }

  lemma LowQuote(quote: byte)
    ensures quote == QUOTE || quote == APOSTROPHE ==> quote < 0x80
    ensures LF < 0x80
  {
  }

  /** A backslash takes a line end into the value, which the rule drops, */
  lemma StringLineEnd(quote: byte, s: seq<byte>, b: Bufs)
    requires quote == QUOTE || quote == APOSTROPHE
    ensures ScanString(quote, [BACKSLASH] + ([LF] + s), b)
         == ScanString(quote, s, Bufs(b.literal + [BACKSLASH] + [LF], b.value + [0x0A]))
  {
    LowRune(BACKSLASH, [LF] + s);
    LowRune(LF, s);
    hide First, After, EncodeRune, DecodeRune, Unescape;
  }

  /** and it takes either quote into it. */
  lemma StringQuote(quote: byte, c: byte, s: seq<byte>, b: Bufs)
    requires quote == QUOTE || quote == APOSTROPHE
    requires c == QUOTE || c == APOSTROPHE
    ensures ScanString(quote, [BACKSLASH] + ([c] + s), b)
         == ScanString(quote, s, Bufs(b.literal + [BACKSLASH] + [c], b.value + [c]))
  {
    LowRune(BACKSLASH, [c] + s);
    LowRune(c, s);
    QuoteEscape(c, s, b.literal + [BACKSLASH]);
    hide First, After, EncodeRune, DecodeRune, Unescape;
  }

  lemma QuoteEscape(c: byte, s: seq<byte>, literal: seq<byte>)
    requires c == QUOTE || c == APOSTROPHE
    ensures EncodeRune(c) == [c]
    ensures Unescape([c] + s, literal) == Escaped(c, literal + [c], s)
  {
    LowRune(c, s);
    assert !IsHex(c);
  }

  // --------------------------------------------------------- urls without quotes

  predicate White(r: int) { r in {0x20, 0x09, 0x0A, 0x0D} }

  /** What makes a bad url: a quote, a parenthesis, or a non-printable code point
      of section 4.2. NUL has been replaced and is none. */
  predicate Forbidden(r: int) {
    r in {0x22, 0x27, 0x28} || 1 <= r <= 8 || r == 0x0B || 0x0E <= r <= 0x1F || r == 0x7F
  }

  function NoWhite(rs: seq<int>): seq<int> {
    if rs == [] then [] else (if White(rs[0]) then [] else [rs[0]]) + NoWhite(rs[1..])
  }

  ghost predicate NoneForbidden(rs: seq<int>) { forall i | 0 <= i < |rs| :: !Forbidden(rs[i]) }

  /** Neither a closing parenthesis nor a backslash. */
  ghost predicate Inside(rs: seq<int>) { forall i | 0 <= i < |rs| :: rs[i] != 0x29 && rs[i] != 0x5C }

  lemma InsideStep(rs: seq<int>)
    requires rs != []
    ensures Inside(rs) <==> rs[0] != 0x29 && rs[0] != 0x5C && Inside(rs[1..])
    ensures NoneForbidden(rs) <==> !Forbidden(rs[0]) && NoneForbidden(rs[1..])
  {
    var t := rs[1..];
    assert rs == [rs[0]] + t;
    assert forall i | 0 <= i < |t| :: t[i] == rs[i + 1];
  }

  lemma {:induction false} RemnantsInside(text: seq<byte>, rest: seq<byte>)
    requires Inside(Runes(text))
    ensures Remnants(text + ([RIGHT] + rest)) == rest
    decreases |text|
  {
    var q := [RIGHT] + rest;
    if text == [] {
      LowRune(RIGHT, rest);
      assert text + q == q;
    } else {
      RunesStep(text);
      SameFirst(text, q);
      InsideStep(Runes(text));
      RemnantsStep(text + q);
      RemnantsInside(After(text), rest);
    }
  }

  lemma FirstNotNull(s: seq<byte>)
    ensures First(s) != 0
  {
  }

  /** One rune of a url without quotes. */
  lemma RawStep(s: seq<byte>, b: Bufs)
    requires s != [] && First(s) >= 0 && First(s) != 0x29 && First(s) != 0x5C
    ensures ScanRaw(s, b) ==
      if White(First(s)) then ScanRaw(After(s), b)
      else if Forbidden(First(s)) then Scan(BadURL, b.(literal := []), Remnants(After(s)))
      else ScanRaw(After(s), Both(b, First(s)))
  {
    FirstNotNull(s);
    hide First, After, EncodeRune, Remnants;
  }

  /** A url without quotes or escapes ends at its parenthesis. It is a good one if
      and only if nothing in it is forbidden, and then its value is the text
      without any white space, also where the rule calls the url bad for it. */
  lemma {:induction false} RawUrlExact(text: seq<byte>, rest: seq<byte>, b: Bufs)
    requires Inside(Runes(text))
    ensures var r := ScanRaw(text + ([RIGHT] + rest), b);
      && r.rest == rest
      && r.token == (if NoneForbidden(Runes(text)) then UrlToken else BadURL)
      && (r.token == UrlToken ==> r.bufs.value == b.value + Spelled(NoWhite(Runes(text))))
    decreases |text|
  {
    var q := [RIGHT] + rest;
    if text == [] {
      LowRune(RIGHT, rest);
      assert text + q == q && b.value + [] == b.value;
    } else {
      RunesStep(text);
      SameFirst(text, q);
      var rs, t, c := Runes(text), After(text), First(text);
      InsideStep(rs);
      RawStep(text + q, b);
      assert White(c) <==> White(rs[0]);
      assert Forbidden(c) <==> Forbidden(rs[0]);
      hide ScanRaw, Runes, First, After, EncodeRune, DecodeRune, Remnants, Forbidden, White, Inside, NoneForbidden;
      if White(rs[0]) {
        WhiteAllowed(rs[0]);
        RawUrlExact(t, rest, b);
        assert [] + NoWhite(Runes(t)) == NoWhite(Runes(t));
      } else if Forbidden(rs[0]) {
        RemnantsInside(t, rest);
      } else {
        RawUrlExact(t, rest, Both(b, c));
        SpelledStep([rs[0]] + NoWhite(Runes(t)), NoWhite(Runes(t)), b, c);
      }
    }
  }

  lemma WhiteAllowed(r: int)
    ensures White(r) ==> !Forbidden(r)
  {
  }

  /** An escape in such a url goes into its value, but an escaped line end makes it
      a bad one. */
  lemma RawEscapes(t: seq<byte>, b: Bufs)
    ensures ScanRaw([BACKSLASH] + t, b) ==
      if t != [] && t[0] == '\n' as int then Scan(BadURL, b.(literal := []), Remnants(t))
      else
        var e := Unescape(t, b.literal + [BACKSLASH]);
        ScanRaw(e.rest, Bufs(e.literal, b.value + EncodeRune(e.rn)))
  {
    hide *;
    BackslashFirst(t);
    RawBackslash([BACKSLASH] + t, b);
    FirstLineEnd(t);
  }

  lemma BackslashFirst(t: seq<byte>)
    ensures First([BACKSLASH] + t) == 0x5C && After([BACKSLASH] + t) == t
  {
    LowRune(BACKSLASH, t);
  }

  lemma RawBackslash(s: seq<byte>, b: Bufs)
    requires First(s) == 0x5C
    ensures ScanRaw(s, b) ==
      if First(After(s)) == 0x0A then Scan(BadURL, b.(literal := []), Remnants(After(s)))
      else
        var e := Unescape(After(s), b.literal + [BACKSLASH]);
        ScanRaw(e.rest, Bufs(e.literal, b.value + EncodeRune(e.rn)))
  {
    hide First, After, EncodeRune, Unescape, Remnants;
  }

  lemma FirstLineEnd(t: seq<byte>)
    ensures First(t) == 0x0A <==> t != [] && t[0] == '\n' as int
    ensures First(t) == 0x5C <==> t != [] && t[0] == '\\' as int
  {
  }

  /** Where an escape begins: at a backslash without a line end behind it. */
  lemma EscapeAheadMeans(s: seq<byte>)
    ensures EscapeAhead(s) <==> s != [] && s[0] == '\\' as int && !(|s| > 1 && s[1] == '\n' as int)
  {
    FirstLineEnd(s);
    if s != [] && s[0] == BACKSLASH {
      LowRune(BACKSLASH, s[1..]);
      assert s == [BACKSLASH] + s[1..];
      FirstLineEnd(s[1..]);
    }
    hide First, After;
  }

  // --------------------------------------------------------------------- names

  /** A name code point of section 4.2: a letter, a digit, "_", "-" or anything
      that is not ASCII; NUL has been replaced by one. */
  predicate OfName(r: int) {
    r >= 0x80 || r == 0 ||
    (0 < r < 0x80 && var c := r as char;
      'a' <= c <= 'z' || 'A' <= c <= 'Z' || '0' <= c <= '9' || c == '_' || c == '-')
  }

  ghost predicate AllOfName(rs: seq<int>) { forall i | 0 <= i < |rs| :: OfName(rs[i]) }

  lemma OfNameIs(s: seq<byte>)
    requires s != []
    ensures NameRune(First(s)) <==> OfName(DecodeRune(s).rn)
    ensures NameRune(First(s)) ==> First(s) != 0x5C
  {
    hide DecodeRune;
  }

  /** What is no part of a name behind it. */
  predicate NameEnds(q: seq<byte>) {
    q == [] || (0 < q[0] < 0x80 && !OfName(q[0]) && q[0] != 0x5C)
  }

  lemma NameStopsAt(q: seq<byte>, b: Bufs)
    requires NameEnds(q)
    ensures ScanName(q, b) == (b, q)
  {
    if q != [] {
      AsciiRune(q);
      OfNameIs(q);
    }
    hide DecodeRune, OfName, NameRune, Unescape, Both;
  }

  lemma {:induction false} NameReads(text: seq<byte>, q: seq<byte>, b: Bufs)
    requires AllOfName(Runes(text)) && NameEnds(q)
    ensures var s := Spelled(Runes(text));
      ScanName(text + q, b) == (Bufs(b.literal + s, b.value + s), q)
    decreases |text|
  {
    if text == [] {
      NameStopsAt(q, b);
      assert text + q == q && b.value + [] == b.value && b.literal + [] == b.literal;
    } else {
      RunesStep(text);
      SameFirst(text, q);
      OfNameIs(text);
      var rs, t := Runes(text), After(text);
      assert OfName(rs[0]);
      assert AllOfName(Runes(t)) by {
        assert forall i | 0 <= i < |Runes(t)| :: Runes(t)[i] == rs[i + 1];
      }
      var b1 := Both(b, First(text));
      NameStep(text + q, b);
      hide *;
      NameReads(t, q, b1);
      SpelledStep(rs, Runes(t), b, First(text));
    }
  }

  lemma NameStep(s: seq<byte>, b: Bufs)
    requires s != [] && NameRune(First(s))
    ensures ScanName(s, b) == ScanName(After(s), Both(b, First(s)))
  {
    hide First, After, EncodeRune, NameRune, Unescape;
  }

  /** An escape in a name goes into it, but at an escaped line end the name ends
      and the backslash is lost. */
  lemma NameEscapes(t: seq<byte>, b: Bufs)
    ensures ScanName([BACKSLASH] + t, b) ==
      if t != [] && t[0] == '\n' as int then (b, t)
      else
        var e := Unescape(t, b.literal + [BACKSLASH]);
        ScanName(e.rest, Bufs(e.literal, b.value + EncodeRune(e.rn)))
  {
    hide *;
    BackslashFirst(t);
    NameBackslash([BACKSLASH] + t, b);
    FirstLineEnd(t);
  }

  lemma NameBackslash(s: seq<byte>, b: Bufs)
    requires First(s) == 0x5C
    ensures ScanName(s, b) ==
      if First(After(s)) == 0x0A then (b, After(s))
      else
        var e := Unescape(After(s), b.literal + [BACKSLASH]);
        ScanName(e.rest, Bufs(e.literal, b.value + EncodeRune(e.rn)))
  {
    hide First, After, EncodeRune, Unescape;
  }

  /** Text of name code points is a function in front of a parenthesis and an
      identifier otherwise, with the text as its value; but "url", in small
      letters alone, begins a url. */
  lemma IdentMeans(text: seq<byte>, q: seq<byte>)
    requires AllOfName(Runes(text)) && NameEnds(q)
    ensures var r, s := ScanIdentLike(text + q), Spelled(Runes(text));
      if First(q) != 0x28 then r == Scan(Ident, Bufs(s, s), q)
      else if s != URL_NAME then r == Scan(Function, Bufs(s, s), After(q))
      else r == ScanUrl(After(q), Bufs(URL_NAME + [LEFT], []))
  {
    NameReads(text, q, Bufs([], []));
    var s := Spelled(Runes(text));
    assert [] + s == s;
    hide First, After, ScanName, ScanUrl, Spelled, Runes, AllOfName, NameEnds;
  }
}
