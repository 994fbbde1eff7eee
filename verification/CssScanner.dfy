/** The part of the CSS scanner that reads strings, urls, names and escapes
    (html/css/scanner.go), over a source that delivers bytes in any pieces. */
module CssScanner {
  import opened Bytes
  import IoReader
  import opened Utf8
  import opened SourceReader
  import opened CssString

  class Scanner {
    const source: Source
    var token: Token
    var literal: seq<byte>
    var value: seq<byte>
    var errors: nat

    ghost predicate Ok()
      reads source, source.src, source.buf
    {
      source.Valid() && source.replaceNULL && (source.err.Going? || source.err.Ended?)
    }

    /** The bytes still to be scanned. */
    ghost function Rest(): seq<byte>
      requires Ok()
      reads source, source.src, source.buf
    {
      source.Rest()
    }

    /** `r` are the bytes of the rune read last. */
    ghost predicate LastIs(r: seq<byte>)
      reads source
    {
      && 0 < |r| <= |source.consumed| && source.lastRuneLen == |r|
      && source.consumed[|source.consumed| - |r|..] == r
    }

    constructor (source: Source)
      requires source.Valid() && source.err.Going?
      modifies source`replaceNULL
      ensures this.source == source && Ok() && Rest() == old(source.Rest())
      ensures literal == [] && value == [] && errors == 0
    {
      this.source := source;
      token, literal, value, errors := Ident, [], [], 0;
      new;
      source.SetReplaceNULL(true);
    }

    method Get() returns (c: int, ghost r: seq<byte>)
      requires Ok()
      modifies source, source.buf, source.src`pos
      ensures Ok() && c == First(old(Rest())) && Rest() == After(old(Rest()))
      ensures old(Rest()) == r + Rest()
      ensures c == -1 <==> old(Rest()) == []
      ensures c != -1 ==> LastIs(r)
      ensures c == -1 ==> forall q :: old(LastIs(q)) ==> LastIs(q)
    {
      hide Source.Valid, Source.Rest, DecodeRune, Shown;
      ghost var before := Rest();
      NotEnd(before);
      c := source.GetRune();
      r := if before == [] then [] else before[..DecodeRune(before).size];
      if before != [] {
        assert before == r + before[DecodeRune(before).size..];
      }
    }

    lemma NotEnd(s: seq<byte>)
      ensures First(s) == -1 <==> s == []
    {
    }

    method PeekRune() returns (c: int)
      requires Ok()
      modifies source`len, source`off, source`err, source.buf, source.src`pos
      ensures Ok() && c == First(Rest()) && Rest() == old(Rest())
      ensures forall q :: old(LastIs(q)) ==> LastIs(q)
    {
      hide Source.Valid, Source.Rest, DecodeRune, Shown;
      var size;
      c, size := source.Peek();
    }

    method Unget(ghost r: seq<byte>)
      requires Ok() && LastIs(r)
      modifies source
      ensures Ok() && Rest() == r + old(Rest())
    {
      hide Source.Valid, Source.Rest;
      source.UngetRune();
    }

    method HexNext(max: nat, d: nat, ghost h: HexRun) returns (more: bool, d': nat)
      requires Ok() && 0 < max && h == Hex(Rest(), max, d, literal)
      modifies this`literal, source, source.buf, source.src`pos
      ensures Ok()
      ensures more ==> h == Hex(Rest(), max - 1, d', literal)
      ensures !more ==> h == HexRun(d', literal, Rest())
    {
      hide *;
      HexStep(Rest(), max, d, literal);
      d' := d;
      var p := PeekRune();
      if !IsHex(p) {
        return false, d;
      }
      HexIsNat(p);
      var c, r := Get();
      literal := literal + EncodeRune(c);
      return true, 16 * d + HexDigit(c);
    }

    lemma HexIsNat(c: int)
      ensures IsHex(c) ==> HexDigit(c) >= 0
    {
    }

    lemma HexStep(s: seq<byte>, max: nat, d: nat, lit: seq<byte>)
      ensures max == 0 || !IsHex(First(s)) ==> Hex(s, max, d, lit) == HexRun(d, lit, s)
      ensures max > 0 && IsHex(First(s)) ==>
        && HexDigit(First(s)) >= 0
        && Hex(s, max, d, lit) == Hex(After(s), max - 1, 16 * d + HexDigit(First(s)), lit + EncodeRune(First(s)))
    {
      hide First, After, EncodeRune, HexDigit;
      HexIsNat(First(s));
    }

    /** Up to `max` hex digits. */
    method ReadHex(max: nat) returns (d: nat)
      requires Ok()
      modifies this`literal, source, source.buf, source.src`pos
      ensures Ok()
      ensures var h := Hex(old(Rest()), max, 0, old(literal)); d == h.d && literal == h.literal && Rest() == h.rest
    {
      hide *;
      d := 0;
      var count := 0;
      ghost var h := Hex(Rest(), max, 0, literal);
      while count < max
        invariant count <= max && Ok() && h == Hex(Rest(), max - count, d, literal)
      {
        var more;
        more, d := HexNext(max - count, d, h);
        if !more {
          return;
        }
        count := count + 1;
      }
      HexStep(Rest(), 0, d, literal);
    }

    /** An escaped code point, behind the backslash. */
    method ReadEscape() returns (rn: int)
      requires Ok()
      modifies this`literal, source, source.buf, source.src`pos
      ensures Ok()
      ensures var e := Unescape(old(Rest()), old(literal)); rn == e.rn && literal == e.literal && Rest() == e.rest
    {
      hide Ok, Rest, First, After, EncodeRune, Hex, HexDigit, LastIs, IsWhitespace;
      ghost var s := Rest();
      var c, r := Get();
      if c == -1 {
        EndsHere(s);
        return RUNE_ERROR;
      }
      NotEnd(s);
      if IsHex(c) {
        Unget(r);
        var d := ReadHex(6);
        var p := PeekRune();
        if IsWhitespace(p) {
          var ws, r2 := Get();
        }
        if 0xD800 <= d <= 0xDFFF || d >= 0x10FFFF {
          return RUNE_ERROR;
        }
        return d;
      }
      literal := literal + EncodeRune(c);
      return c;
    }

    lemma EndsHere(s: seq<byte>)
      ensures s == [] ==> First(s) == -1 && After(s) == []
    {
    }

    method BadStringHere()
      modifies this`literal, this`value, this`token, this`errors
      ensures literal == [] && value == [] && token == BadString && errors == old(errors) + 1
    {
      literal, value, token := [], [], BadString;
      errors := errors + 1;
    }

    /** A string has been scanned as `r` says. */
    ghost predicate StringDone(quote: byte, r: Scan, token0: Token, errors0: nat)
      requires Ok()
      reads this, source, source.src, source.buf
    {
      && r.bufs == Bufs(literal, value) && r.rest == Rest()
      && token == (if r.token == BadString then BadString else token0)
      && errors == errors0 + (if r.token == BadString then 1 else 0)
      && (r.token == StringToken || r.token == BadString)
      && (r.token == StringToken ==> LastIs([quote]))
    }

    /** One rune or escape of a string. */
    method StringNext(quote: byte, ghost r: Scan) returns (more: bool)
      requires quote == QUOTE || quote == APOSTROPHE
      requires Ok() && r == ScanString(quote, Rest(), Bufs(literal, value))
      modifies this`literal, this`value, this`token, this`errors, source, source.buf, source.src`pos
      ensures Ok() && |Rest()| <= old(|Rest()|)
      ensures more ==>
        && |Rest()| < old(|Rest()|) && token == old(token) && errors == old(errors)
        && r == ScanString(quote, Rest(), Bufs(literal, value))
      ensures !more ==> StringDone(quote, r, old(token), old(errors))
    {
      hide Ok, Rest, First, After, EncodeRune, Unescape, LastIs, IsHex;
      ghost var s := Rest();
      var c, last := Get();
      EndsHere(s);
      if c == quote as int {
        AsciiBytes(s, quote);
        CancelRight(last, [quote], Rest());
        literal := literal + EncodeRune(quote);
        return false;
      }
      if c == -1 || c == LF as int {
        BadStringHere();
        return false;
      }
      if c == BACKSLASH as int {
        literal := literal + [BACKSLASH];
        StringEscape(quote, r);
        return true;
      }
      literal := literal + EncodeRune(c);
      value := value + EncodeRune(c);
      return true;
    }

    /** What follows a backslash in a string. */
    method StringEscape(quote: byte, ghost r: Scan)
      requires Ok() && AfterBackslash(quote, r, Rest(), Bufs(literal, value))
      modifies this`literal, this`value, source, source.buf, source.src`pos
      ensures Ok() && |Rest()| <= old(|Rest()|)
      ensures r == ScanString(quote, Rest(), Bufs(literal, value))
    {
      hide Ok, Rest, First, After, EncodeRune, LastIs, IsHex, ScanString, Unescape;
      ghost var t := Rest();
      EndsHere(t);
      NotEnd(t);
      ScanEnd(quote);
      var p := PeekRune();
      if p == -1 {
        var c1, r1 := Get();
      } else if p == LF as int {
        var c1, r1 := Get();
        literal := literal + [LF];
        value := value + [LF];
      } else {
        var rn := ReadEscape();
        value := value + EncodeRune(rn);
      }
    }

    ghost predicate AfterBackslash(quote: byte, r: Scan, t: seq<byte>, b: Bufs) {
      if t == [] then r == Scan(BadString, Bufs([], []), [])
      else if First(t) == LF as int then r == ScanString(quote, After(t), Bufs(b.literal + [LF], b.value + [LF]))
      else
        var e := Unescape(t, b.literal);
        r == ScanString(quote, e.rest, Bufs(e.literal, b.value + EncodeRune(e.rn)))
    }

    lemma CancelRight(a: seq<byte>, b: seq<byte>, t: seq<byte>)
      requires a + t == b + t
      ensures a == b
    {
      assert |a| == |b| && (a + t)[..|a|] == a && (b + t)[..|b|] == b;
    }

    lemma ScanEnd(quote: byte)
      ensures forall b :: ScanString(quote, [], b) == Scan(BadString, Bufs([], []), [])
    {
    }

    lemma AsciiBytes(s: seq<byte>, c: byte)
      requires c < 0x80 && c != 0
      ensures First(s) == c as int ==> s != [] && DecodeRune(s).size == 1 && s[0] == c && s == [c] + After(s)
      ensures EncodeRune(c) == [c]
    {
    }

    /** The rest of a string, behind its opening quote. */
    method ReadString(quote: byte)
      requires Ok() && (quote == QUOTE || quote == APOSTROPHE)
      modifies this`literal, this`value, this`token, this`errors, source, source.buf, source.src`pos
      ensures Ok()
      ensures StringDone(quote, ScanString(quote, old(Rest()), Bufs(old(literal) + [quote], old(value))),
                         old(token), old(errors))
    {
      hide *;
      literal := literal + [quote];
      ghost var r := ScanString(quote, Rest(), Bufs(literal, value));
      var more := true;
      while more
        invariant Ok()
        invariant more ==>
          r == ScanString(quote, Rest(), Bufs(literal, value)) && token == old(token) && errors == old(errors)
        invariant !more ==> StringDone(quote, r, old(token), old(errors))
        decreases |Rest()|, more
      {
        more := StringNext(quote, r);
      }
    }

    /** The token at a quote: a string, or a bad one. */
    method NextString(ghost quote: byte)
      requires Ok() && literal == [] && value == [] && (quote == QUOTE || quote == APOSTROPHE)
      requires First(Rest()) == quote as int
      modifies this`literal, this`value, this`token, this`errors, source, source.buf, source.src`pos
      ensures Ok()
      ensures StringDone(quote, ScanString(quote, After(old(Rest())), Bufs([quote], [])), StringToken, old(errors))
    {
      hide *;
      assert [] + [quote] == [quote];
      var c, r := Get();
      token := StringToken;
      ReadString(if c == QUOTE as int then QUOTE else APOSTROPHE);
    }

    lemma StringIs(quote: byte, r: Scan)
      requires Ok() && r.token == StringToken && StringDone(quote, r, StringToken, 0)
      ensures value == r.bufs.value && Rest() == r.rest && token == StringToken && errors == 0
    {
    }

    /** What is left behind a bad url. */
    method BadURLRemnants()
      requires Ok()
      modifies this`literal, this`token, source, source.buf, source.src`pos
      ensures Ok() && token == BadURL && literal == [] && Rest() == Remnants(old(Rest()))
    {
      hide *;
      token := BadURL;
      ghost var t := Remnants(Rest());
      var more := true;
      while more
        invariant Ok() && token == BadURL
        invariant if more then t == Remnants(Rest()) else t == Rest() && literal == []
        decreases |Rest()|, more
      {
        more := RemnantsNext(t);
      }
    }

    /** A backslash is read again by the escape, which takes only it. */
    method RemnantsNext(ghost t: seq<byte>) returns (more: bool)
      requires Ok() && t == Remnants(Rest())
      modifies this`literal, source, source.buf, source.src`pos
      ensures Ok()
      ensures |Rest()| <= old(|Rest()|) && (more ==> |Rest()| < old(|Rest()|))
      ensures if more then t == Remnants(Rest()) else t == Rest() && literal == []
    {
      hide Ok, Rest, First, After, EncodeRune, LastIs, Hex, Remnants;
      ghost var s := Rest();
      EndsHere(s);
      NotEnd(s);
      RemnantsStep(s);
      var c, r := Get();
      if c == RIGHT as int || c == -1 {
        literal := [];
        return false;
      }
      if c == BACKSLASH as int {
        var p := PeekRune();
        if p != LF as int {
          Unget(r);
          var rn := ReadEscape();
        }
      }
      return true;
    }

    lemma RemnantsStep(s: seq<byte>)
      ensures Remnants(s) == if s == [] then [] else if First(s) == RIGHT as int then After(s) else Remnants(After(s))
    {
    }

    // --------------------------------------------------------------- urls

    /** A single ASCII character that does not end the remnants of a url. */
    ghost predicate Harmless(q: seq<byte>) { |q| == 1 && q[0] < 0x80 && q[0] != RIGHT }

    lemma HarmlessRest(q: seq<byte>)
      requires Harmless(q)
      ensures Remnants(q) == [] && q + [] == q
    {
      AsciiRune(q);
    }

    /** Reads the next rune that is no white space. At the end, the rune read
        last is white space, or what it was before. */
    method GetSkipping(ghost q0: seq<byte>) returns (c: int, ghost r: seq<byte>, ghost s: seq<byte>, ghost q: seq<byte>)
      requires Ok()
      modifies source, source.buf, source.src`pos
      ensures Ok() && s == DropSpaces(old(Rest())) && c == First(s) && Rest() == After(s) && s == r + Rest()
      ensures c == -1 <==> s == []
      ensures c != -1 ==> LastIs(r)
      ensures c == -1 && Harmless(q0) && old(LastIs(q0)) ==> Harmless(q) && LastIs(q)
    {
      hide *;
      s, q := Rest(), q0;
      ghost var all, kept := DropSpaces(s), Harmless(q0) && LastIs(q0);
      c, r := Get();
      while IsWhitespace(c)
        invariant Ok() && s == r + Rest() && all == DropSpaces(s) && c == First(s) && Rest() == After(s)
        invariant c == -1 <==> s == []
        invariant c == -1 && kept ==> Harmless(q) && LastIs(q)
        invariant c != -1 ==> LastIs(r)
        decreases |s|
      {
        DropOne(s, r, Rest());
        q := r;
        s := Rest();
        c, r := Get();
      }
      DropNone(s);
    }

    lemma DropOne(s: seq<byte>, r: seq<byte>, t: seq<byte>)
      requires IsWhitespace(First(s)) && s == r + t && t == After(s)
      ensures DropSpaces(s) == DropSpaces(t) && Harmless(r) && |t| < |s| && s != []
    {
    }

    lemma DropNone(s: seq<byte>)
      ensures !IsWhitespace(First(s)) ==> DropSpaces(s) == s
    {
    }

    /** A url has been scanned as `r` says. */
    ghost predicate TokenDone(r: Scan)
      requires Ok()
      reads this, source, source.src, source.buf
    {
      r == Scan(token, Bufs(literal, value), Rest())
    }

    lemma TokenIs(r: Scan)
      requires Ok() && TokenDone(r)
      ensures value == r.bufs.value && Rest() == r.rest
    {
    }

    /** One rune or escape of a url without quotes; `c` is read already. */
    method RawNext(c: int, ghost s: seq<byte>, ghost r: Scan) returns (more: bool)
      requires Ok() && c == First(s) && Rest() == After(s) && token == UrlToken
      requires (c == -1 <==> s == []) && r == ScanRaw(s, Bufs(literal, value))
      modifies this`literal, this`value, this`token, source, source.buf, source.src`pos
      ensures Ok() && (more ==> |Rest()| < |s| && token == UrlToken && r == ScanRaw(Rest(), Bufs(literal, value)))
      ensures !more ==> TokenDone(r)
    {
      hide Ok, Rest, First, After, EncodeRune, LastIs, IsHex, Unescape, Remnants, DecodeRune;
      EndsHere(s);
      Shorter(s);
      if c == RIGHT as int {
        literal := literal + [RIGHT];
        return false;
      }
      if c == -1 {
        return false;
      }
      if IsWhitespace(c) {
        return true;
      }
      if c == QUOTE as int || c == APOSTROPHE as int || c == LEFT as int {
        BadURLRemnants();
        return false;
      }
      if c == BACKSLASH as int {
        var p := PeekRune();
        if p == LF as int {
          BadURLRemnants();
          return false;
        }
        literal := literal + [BACKSLASH];
        var rn := ReadEscape();
        value := value + EncodeRune(rn);
        return true;
      }
      if NonPrintable(c) {
        BadURLRemnants();
        return false;
      }
      literal := literal + EncodeRune(c);
      value := value + EncodeRune(c);
      return true;
    }

    lemma Shorter(s: seq<byte>)
      ensures s != [] ==> |After(s)| < |s|
    {
    }

    method RawUrl(c0: int, ghost s0: seq<byte>)
      requires Ok() && c0 == First(s0) && Rest() == After(s0) && token == UrlToken && (c0 == -1 <==> s0 == [])
      modifies this`literal, this`value, this`token, source, source.buf, source.src`pos
      ensures Ok() && TokenDone(ScanRaw(s0, Bufs(old(literal), old(value))))
    {
      hide *;
      ghost var r, s := ScanRaw(s0, Bufs(literal, value)), s0;
      var c := c0;
      var more := true;
      while more
        invariant Ok()
        invariant more ==> c == First(s) && Rest() == After(s) && token == UrlToken && (c == -1 <==> s == [])
        invariant more ==> r == ScanRaw(s, Bufs(literal, value))
        invariant !more ==> TokenDone(r)
        decreases more, |s|
      {
        more := RawNext(c, s, r);
        if more {
          s := Rest();
          ghost var last;
          c, last := Get();
        }
      }
    }

    /** A url with quotes, behind the opening one. */
    method QuotedUrl(quote: byte)
      requires Ok() && token == UrlToken && (quote == QUOTE || quote == APOSTROPHE)
      modifies this`literal, this`value, this`token, this`errors, source, source.buf, source.src`pos
      ensures Ok() && TokenDone(AfterQuote(ScanString(quote, old(Rest()), Bufs(old(literal) + [quote], old(value)))))
    {
      HarmlessQuote(quote);
      EndOfRemnants();
      hide *;
      ghost var r := ScanString(quote, Rest(), Bufs(literal + [quote], value));
      AfterQuoteStep(r);
      ReadString(quote); // clobbers the token
      DoneIs(quote, r, UrlToken, old(errors));
      if token == BadString {
        BadURLRemnants();
        TokenMade(AfterQuote(r));
        return;
      }
      token := UrlToken;
      var c, last, s, q := GetSkipping([quote]);
      if c == RIGHT as int {
        literal := literal + [RIGHT];
        TokenMade(AfterQuote(r));
        return;
      }
      EndsHere(s);
      if c == -1 {
        HarmlessRest(q);
        Unget(q); // the rune before the end once more
      } else {
        Unget(last);
      }
      BadURLRemnants();
      TokenMade(AfterQuote(r));
    }

    lemma HarmlessQuote(quote: byte)
      ensures quote == QUOTE || quote == APOSTROPHE ==> Harmless([quote])
    {
    }

    lemma DoneIs(quote: byte, r: Scan, token0: Token, errors0: nat)
      requires Ok() && StringDone(quote, r, token0, errors0) && token0 != BadString
      ensures r.bufs == Bufs(literal, value) && r.rest == Rest()
      ensures token == BadString <==> r.token == BadString
      ensures token != BadString ==> LastIs([quote])
    {
    }

    lemma TokenMade(r: Scan)
      requires Ok() && r == Scan(token, Bufs(literal, value), Rest())
      ensures TokenDone(r)
    {
    }

    lemma AfterQuoteStep(r: Scan)
      ensures r.token == BadString ==> AfterQuote(r) == Scan(BadURL, Bufs([], r.bufs.value), Remnants(r.rest))
      ensures var s := DropSpaces(r.rest);
        r.token != BadString ==>
          AfterQuote(r) == if First(s) == RIGHT as int
                           then Scan(UrlToken, Bufs(r.bufs.literal + [RIGHT], r.bufs.value), After(s))
                           else Scan(BadURL, Bufs([], r.bufs.value), Remnants(s))
    {
    }

    lemma EndOfRemnants()
      ensures Remnants([]) == []
    {
    }

    /** What a url with quotes comes to, after its string. */
    ghost function AfterQuote(r: Scan): Scan {
      if r.token == BadString then Bad(r.bufs, r.rest)
      else
        var s := DropSpaces(r.rest);
        if First(s) == RIGHT as int then Scan(UrlToken, r.bufs.(literal := r.bufs.literal + [RIGHT]), After(s))
        else Bad(r.bufs, s)
    }

    /** A url, behind its opening parenthesis. */
    method Url()
      requires Ok()
      modifies this`literal, this`value, this`token, this`errors, source, source.buf, source.src`pos
      ensures Ok() && TokenDone(ScanUrl(old(Rest()), Bufs(old(literal), old(value))))
    {
      UrlStep(Rest(), Bufs(literal, value));
      assert QUOTE as int != -1 && APOSTROPHE as int != -1;
      hide *;
      token := UrlToken;
      var c, last, s, q := GetSkipping([]);
      if c == QUOTE as int {
        QuotedUrl(QUOTE);
      } else if c == APOSTROPHE as int {
        QuotedUrl(APOSTROPHE);
      } else {
        RawUrl(c, s);
      }
    }

    lemma UrlStep(s: seq<byte>, b: Bufs)
      ensures var s1 := DropSpaces(s);
        && (First(s1) == QUOTE as int ==>
              ScanUrl(s, b) == AfterQuote(ScanString(QUOTE, After(s1), Bufs(b.literal + [QUOTE], b.value))))
        && (First(s1) == APOSTROPHE as int ==>
              ScanUrl(s, b) == AfterQuote(ScanString(APOSTROPHE, After(s1), Bufs(b.literal + [APOSTROPHE], b.value))))
        && (First(s1) != QUOTE as int && First(s1) != APOSTROPHE as int ==> ScanUrl(s, b) == ScanRaw(s1, b))
    {
      assert EncodeRune(QUOTE) == [QUOTE] && EncodeRune(APOSTROPHE) == [APOSTROPHE];
      hide ScanString, ScanRaw, DropSpaces, First, After, EncodeRune, Remnants;
    }

    // -------------------------------------------------------------- names

    method NameNext(ghost r: (Bufs, seq<byte>)) returns (more: bool)
      requires Ok() && r == ScanName(Rest(), Bufs(literal, value))
      modifies this`literal, this`value, source, source.buf, source.src`pos
      ensures Ok() && |Rest()| <= old(|Rest()|) && (more ==> |Rest()| < old(|Rest()|))
      ensures if more then r == ScanName(Rest(), Bufs(literal, value)) else r == (Bufs(literal, value), Rest())
    {
      hide Ok, Rest, First, After, EncodeRune, LastIs, IsHex, Unescape, DecodeRune;
      ghost var s := Rest();
      EndsHere(s);
      Shorter(s);
      var c, last := Get();
      if NameRune(c) {
        literal := literal + EncodeRune(c);
        value := value + EncodeRune(c);
        return true;
      }
      if c == BACKSLASH as int {
        var p := PeekRune();
        if p != LF as int {
          literal := literal + [BACKSLASH];
          var rn := ReadEscape();
          value := value + EncodeRune(rn);
          return true;
        }
        return false; // the backslash stays read
      }
      if c == -1 {
        return false;
      }
      Unget(last);
      return false;
    }

    method Name()
      requires Ok()
      modifies this`literal, this`value, source, source.buf, source.src`pos
      ensures Ok() && (Bufs(literal, value), Rest()) == ScanName(old(Rest()), Bufs(old(literal), old(value)))
    {
      hide *;
      ghost var r := ScanName(Rest(), Bufs(literal, value));
      var more := true;
      while more
        invariant Ok()
        invariant if more then r == ScanName(Rest(), Bufs(literal, value)) else r == (Bufs(literal, value), Rest())
        decreases |Rest()|, more
      {
        more := NameNext(r);
      }
    }

    /** A name, a function or a url, from its first rune on. */
    method IdentLike()
      requires Ok() && literal == [] && value == []
      modifies this`literal, this`value, this`token, this`errors, source, source.buf, source.src`pos
      ensures Ok() && TokenDone(ScanIdentLike(old(Rest())))
    {
      hide *;
      ghost var s := Rest();
      IdentStep(s);
      Name();
      var p := PeekRune();
      if literal == URL_NAME && p == LEFT as int {
        var c, r := Get();
        literal := literal + EncodeRune(LEFT);
        value := [];
        Url();
      } else if p == LEFT as int {
        var c, r := Get();
        token := Function;
        TokenMade(ScanIdentLike(s));
      } else {
        token := Ident;
        TokenMade(ScanIdentLike(s));
      }
    }

    lemma IdentStep(s: seq<byte>)
      ensures var n := ScanName(s, Bufs([], []));
        ScanIdentLike(s) ==
        if First(n.1) != LEFT as int then Scan(Ident, n.0, n.1)
        else if n.0.literal == URL_NAME then ScanUrl(After(n.1), Bufs(n.0.literal + EncodeRune(LEFT), []))
        else Scan(Function, n.0, After(n.1))
    {
      assert EncodeRune(LEFT) == [LEFT];
      hide ScanName, ScanUrl, First, After, EncodeRune;
    }
  }

  /** The url form of any text, written by the formatter and followed by
      anything, comes back through the scanner as one url token with the text,
      cleaned, as its value, however the bytes are delivered. */
  method ReadBack(text: seq<byte>, rest: seq<byte>, last: IoReader.Err) returns (value: seq<byte>, ghost left: seq<byte>)
    requires last != IoReader.NoError
    ensures value == Clean(text) && left == rest
    ensures value == text <==> Utf8.Valid(text) && 0 !in text
  {
    var data := AppendValue([], true, text);
    UrlRoundTrip(text, rest);
    assert [] + UrlText(text) == UrlText(text);
    var reader := new IoReader.Reader(data + rest, last);
    var source := new Source(reader);
    var scanner := new Scanner(source);
    hide *;
    scanner.IdentLike();
    scanner.TokenIs(ScanIdentLike(UrlText(text) + rest));
    value := scanner.value;
    left := scanner.Rest();
  }

  /** So does the quoted form, as one string token without an error. */
  method ReadBackString(text: seq<byte>, rest: seq<byte>, last: IoReader.Err)
    returns (token: Token, value: seq<byte>, errors: nat, ghost left: seq<byte>)
    requires last != IoReader.NoError
    ensures token == StringToken && errors == 0 && value == Clean(text) && left == rest
    ensures value == text <==> Utf8.Valid(text) && 0 !in text
  {
    var data := AppendValue([], false, text);
    var s := data + rest;
    QuotedText(text, rest, s);
    var reader := new IoReader.Reader(s, last);
    var source := new Source(reader);
    var scanner := new Scanner(source);
    hide *;
    scanner.NextString(QUOTE);
    scanner.StringIs(QUOTE, ScanString(QUOTE, After(s), Bufs([QUOTE], [])));
    token, value, errors := scanner.token, scanner.value, scanner.errors;
    left := scanner.Rest();
  }

  lemma QuotedText(text: seq<byte>, rest: seq<byte>, s: seq<byte>)
    requires s == [] + StringText(text) + rest
    ensures First(s) == QUOTE as int
    ensures var r := ScanString(QUOTE, After(s), Bufs([QUOTE], []));
      r.token == StringToken && r.bufs.value == Clean(text) && r.rest == rest
    ensures Clean(text) == text <==> Utf8.Valid(text) && 0 !in text
  {
    var t := Escape(text) + ([QUOTE] + rest);
    assert s == [QUOTE] + t;
    assert DecodeRune(s).size == 1 && First(s) == QUOTE as int;
    assert After(s) == t;
    hide *;
    StringRoundTrip(text, rest, Bufs([QUOTE], []));
    assert [] + Clean(text) == Clean(text);
    CleanExact(text);
  }
}
