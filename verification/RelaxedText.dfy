/** What DKIM hashes, word by word and character by character
    (email/dkim/dkim_sign.go): the relaxed form of a header and of a body line
    (sections 3.4.2 and 3.4.4 of RFC 6376), and the text of a signature. */
module RelaxedText {
  import opened Bytes
  import opened BodyCanon
  import opened HeaderFold
  import opened DkimHeaders

  predicate Gap(c: byte) { c == ' ' as int || c == '\t' as int }

  /** The word in front. */
  function Word(v: seq<byte>): (w: seq<byte>)
    ensures w <= v && (forall i | 0 <= i < |w| :: !Gap(w[i]))
    ensures |w| < |v| ==> Gap(v[|w|])
  {
    if v == [] || Gap(v[0]) then [] else [v[0]] + Word(v[1..])
  }

  /** All the words: the longest pieces without white space. */
  function Words(v: seq<byte>): seq<seq<byte>>
    decreases |v|
  {
    if v == [] then []
    else if Gap(v[0]) then Words(v[1..])
    else [Word(v)] + Words(v[|Word(v)|..])
  }

  /** With one space between each two. */
  function Spaced(ws: seq<seq<byte>>): seq<byte> {
    if ws == [] then [] else if |ws| == 1 then ws[0] else ws[0] + [' ' as int] + Spaced(ws[1..])
  }

  function SpaceIf(b: bool): seq<byte> { if b then [' ' as int] else [] }

  lemma {:induction false} CollapseWord(w: seq<byte>, rest: seq<byte>)
    requires forall i | 0 <= i < |w| :: !Gap(w[i])
    ensures Collapse(w + rest) == w + Collapse(rest)
    decreases |w|
  {
    if w == [] {
      assert w + rest == rest;
    } else {
      assert (w + rest)[1..] == w[1..] + rest;
      CollapseWord(w[1..], rest);
    }
  }

  predicate GapFirst(l: seq<byte>) { l != [] && Gap(l[0]) }

  predicate GapLast(l: seq<byte>) { l != [] && Gap(l[|l| - 1]) }

  /** Runs of white space become one space, whatever they are made of. */
  lemma {:induction false} CollapseWords(l: seq<byte>)
    ensures Collapse(l) == SpaceIf(GapFirst(l)) + (Spaced(Words(l)) + SpaceIf(Words(l) != [] && GapLast(l)))
    decreases |l|
  {
    if l == [] {
    } else if Gap(l[0]) {
      var t := l[1..];
      CollapseWords(t);
      GapStep(l);
    } else {
      var w := Word(l);
      var t := l[|w|..];
      assert l == w + t && w != [];
      CollapseWords(t);
      CollapseWord(w, t);
      WordStep(l, w, t);
    }
  }

  lemma GapStep(l: seq<byte>)
    requires GapFirst(l)
    requires var t := l[1..];
      Collapse(t) == SpaceIf(GapFirst(t)) + (Spaced(Words(t)) + SpaceIf(Words(t) != [] && GapLast(t)))
    ensures Collapse(l) == SpaceIf(true) + (Spaced(Words(l)) + SpaceIf(Words(l) != [] && GapLast(l)))
  {
    var t := l[1..];
    GapFacts(l);
    var s := Spaced(Words(t)) + SpaceIf(Words(t) != [] && GapLast(t));
    hide Spaced, Words, Collapse, GapFirst, GapLast;
    assert SpaceIf(false) + s == s;
  }

  lemma GapFacts(l: seq<byte>)
    requires GapFirst(l)
    ensures Words(l) == Words(l[1..])
    ensures Words(l[1..]) != [] ==> GapLast(l[1..]) == GapLast(l)
    ensures Collapse(l) == if GapFirst(l[1..]) then Collapse(l[1..]) else SpaceIf(true) + Collapse(l[1..])
  {
  }

  lemma WordStep(l: seq<byte>, w: seq<byte>, t: seq<byte>)
    requires w != [] && l == w + t && w == Word(l) && !Gap(l[0])
    requires Collapse(l) == w + Collapse(t) && (t != [] ==> Gap(t[0]))
    requires Collapse(t) == SpaceIf(GapFirst(t)) + (Spaced(Words(t)) + SpaceIf(Words(t) != [] && GapLast(t)))
    ensures Words(l) != [] && !GapFirst(l)
    ensures Collapse(l) == SpaceIf(false) + (Spaced(Words(l)) + SpaceIf(GapLast(l)))
  {
    WordFacts(l, w, t);
    hide *;
    var ws := Words(t);
    SpacedMore(w, ws);
    NoWords();
    WordGlue(w, Spaced(ws), t != [], ws != [], GapLast(l));
    assert t == [] ==> ws == [];
  }

  /** The cases: nothing behind the word, white space alone, or more words. */
  lemma WordGlue(w: seq<byte>, s: seq<byte>, gap: bool, more: bool, last: bool)
    requires (!gap ==> !more && !last) && (!more ==> s == [] && last == gap)
    ensures w + (SpaceIf(gap) + (s + SpaceIf(more && last)))
         == SpaceIf(false) + ((w + if more then SpaceIf(true) + s else []) + SpaceIf(last))
  {
  }

  lemma NoWords()
    ensures Words([]) == [] && Spaced([]) == []
  {
  }

  lemma WordFacts(l: seq<byte>, w: seq<byte>, t: seq<byte>)
    requires w != [] && l == w + t && w == Word(l) && !Gap(l[0]) && (t != [] ==> Gap(t[0]))
    ensures Words(l) == [w] + Words(t) && !GapFirst(l)
    ensures GapFirst(t) == (t != [])
    ensures t == [] ==> !GapLast(l) && !GapLast(t)
    ensures t != [] ==> GapLast(l) == GapLast(t)
    ensures t != [] && Words(t) == [] ==> GapLast(t)
  {
    assert l[|w|..] == t;
    if t == [] {
      assert l[|l| - 1] == w[|w| - 1];
    } else if Words(t) == [] {
      OnlyGaps(t);
    }
  }

  lemma SpacedMore(w: seq<byte>, ws: seq<seq<byte>>)
    ensures Spaced([w] + ws) == w + if ws == [] then [] else SpaceIf(true) + Spaced(ws)
  {
    assert ([w] + ws)[1..] == ws;
  }

  /** Without a word there is white space only. */
  lemma {:induction false} OnlyGaps(t: seq<byte>)
    requires Words(t) == []
    ensures forall i | 0 <= i < |t| :: Gap(t[i])
    decreases |t|
  {
    if t != [] {
      OnlyGaps(t[1..]);
      assert forall i | 0 < i < |t| :: t[i] == t[1..][i - 1];
    }
  }

  lemma {:induction false} WordsBehind(l: seq<byte>, c: byte)
    requires Gap(c)
    ensures Words(l + [c]) == Words(l)
    decreases |l|
  {
    var s := l + [c];
    if l == [] {
      assert s[1..] == [];
    } else if Gap(l[0]) {
      assert s[1..] == l[1..] + [c];
      WordsBehind(l[1..], c);
    } else {
      WordBehind(l, c);
      var n := |Word(l)|;
      assert n > 0 && s[n..] == l[n..] + [c];
      WordsBehind(l[n..], c);
    }
  }

  lemma {:induction false} WordBehind(l: seq<byte>, c: byte)
    requires Gap(c)
    ensures Word(l + [c]) == Word(l)
    decreases |l|
  {
    if l != [] && !Gap(l[0]) {
      assert (l + [c])[1..] == l[1..] + [c];
      WordBehind(l[1..], c);
    }
  }

  lemma {:induction false} DropEndWords(l: seq<byte>)
    ensures var t := DropEndWSP(l);
      && Words(t) == Words(l) && !GapLast(t)
      && (Words(l) != [] ==> t != [] && t[0] == l[0])
    decreases |l|
  {
    if l != [] && IsWSP(l[|l| - 1]) {
      var n := |l| - 1;
      DropEndWords(l[..n]);
      assert l == l[..n] + [l[n]];
      WordsBehind(l[..n], l[n]);
    } else if l == [] {
    } else {
      assert DropEndWSP(l) == l;
    }
  }

  /** A relaxed body line: its words with one space between each two, and one in
      front if the line begins with white space. */
  lemma BodyLineIs(l: seq<byte>)
    ensures RelaxLine(l) == SpaceIf(Words(l) != [] && GapFirst(l)) + Spaced(Words(l))
  {
    var t := DropEndWSP(l);
    DropEndWords(l);
    CollapseWords(t);
    hide Collapse, Spaced;
    if Words(t) == [] {
      OnlyGaps(t);
      assert t != [] ==> GapLast(t);
    }
    assert Spaced(Words(t)) + [] == Spaced(Words(t));
  }

  // ---------------------------------------------------------- header values

  lemma {:induction false} TrimLeftWords(v: seq<byte>)
    requires IsValue(v)
    ensures Words(TrimLeft(v)) == Words(v) && !GapFirst(TrimLeft(v))
  {
    if v != [] && IsSpace(v[0]) {
      ValueSlice(v, 1, |v|);
      TrimLeftWords(v[1..]);
    }
  }

  /** The relaxed form of a header value: its words with one space between each
      two. */
  lemma ValueIs(v: seq<byte>)
    requires IsValue(v)
    ensures Relax(v) == Spaced(Words(v))
  {
    hide *;
    var t := TrimLeft(v);
    TrimLeftWords(v);
    LeftSlice(v);
    RelaxIsLine(v);
    BodyLineIs(t);
    NoLead(Spaced(Words(v)), Words(v) != [] && GapFirst(t));
  }

  lemma NoLead(s: seq<byte>, lead: bool)
    ensures !lead ==> SpaceIf(lead) + s == s
  {
  }

  lemma LeftSlice(v: seq<byte>)
    requires IsValue(v)
    ensures IsValue(TrimLeft(v))
  {
    var t := TrimLeft(v);
    ValueSlice(v, |v| - |t|, |v|);
  }

  lemma RelaxIsLine(v: seq<byte>)
    requires IsValue(v) && IsValue(TrimLeft(v))
    ensures Relax(v) == RelaxLine(TrimLeft(v))
  {
    hide Collapse, TrimLeft, TrimRight, DropEndWSP;
    TrimRightIsDropEnd(TrimLeft(v));
  }

  lemma Colons()
    ensures Octets(":") == [COLON] && Octets("\r\n") == CRLF
  {
  }

  /** What is hashed of a header: its name, a colon, the words of its value with
      one space between each two, and a line end. */
  lemma SignedLineIs(es: seq<Entry>, name: seq<byte>)
    requires IsValue(Get(es, name))
    ensures SignedLine(es, name) == name + Octets(":") + Spaced(Words(Get(es, name))) + Octets("\r\n")
  {
    Colons();
    ValueIs(Get(es, name));
    hide Relax, Get, Octets, Spaced, Words;
  }

  /** The value that is signed is that of the first header of the name, in letters
      of either case. */
  lemma {:induction false} GetIs(es: seq<Entry>, name: seq<byte>, i: nat)
    requires i < |es| && Named(es[i].key, name)
    requires forall j | 0 <= j < i :: !Named(es[j].key, name)
    ensures Get(es, name) == es[i].value
  {
    LowerIs(es[0].key, name);
    if i > 0 {
      assert forall j | 0 <= j < i - 1 :: es[1..][j] == es[j + 1];
      GetIs(es[1..], name, i - 1);
    }
  }

  predicate SameLetter(c: byte, d: byte) {
    if 'A' as int <= c <= 'Z' as int then c as int - 'A' as int == d as int - 'a' as int else c == d
  }

  predicate Named(key: seq<byte>, name: seq<byte>) {
    |key| == |name| && forall i | 0 <= i < |key| :: SameLetter(key[i], name[i])
  }

  lemma LowerIs(key: seq<byte>, name: seq<byte>)
    ensures Lower(key) == name <==> Named(key, name)
  {
    assert forall i | 0 <= i < |key| && i < |name| :: LowerByte(key[i]) == name[i] <==> SameLetter(key[i], name[i]);
  }

  // ---------------------------------------------------------- a folded header

  /** Lines with a line end and four spaces between them. */
  function Folds(ps: seq<seq<byte>>): seq<byte> {
    if ps == [] then [] else if |ps| == 1 then ps[0] else ps[0] + Octets("\r\n    ") + Folds(ps[1..])
  }

  lemma {:induction false} GlueIs(ps: seq<seq<byte>>)
    ensures Glue(ps) == Folds(ps)
  {
    if |ps| > 1 {
      GlueIs(ps[1..]);
      assert Octets("\r\n    ") == FOLD;
    }
  }

  /** The text of a header entry. */
  lemma FoldedTextIs(key: seq<byte>, value: seq<byte>)
    requires FoldEntry(key, value).Pieces?
    ensures HeaderFold.Text(key, value) ==
      if value == [] then key + Octets(":\r\n") else key + Octets(": ") + Folds(FoldEntry(key, value).ps) + Octets("\r\n")
  {
    GlueIs(FoldEntry(key, value).ps);
    Colons();
    assert Octets(": ") == [COLON, SP] && Octets(":\r\n") == [COLON] + CRLF;
    hide Octets, Glue, Folds, FoldEntry;
  }

  // ------------------------------------------------------------ the signature

  /** The text of a signature, tag by tag, and the name of its header. */
  lemma SignatureIs(d: seq<byte>, s: seq<byte>, h: seq<byte>, bh: seq<byte>, b: seq<byte>)
    ensures Signature(d, s, h, bh, b)
         == Octets("v=1") + Octets("; a=rsa-sha256") + Octets("; c=relaxed/relaxed") + (Octets("; d=") + d)
            + (Octets("; s=") + s) + (Octets("; h=") + h) + (Octets("; bh=") + bh) + (Octets("; b=") + b)
    ensures DKIM_SIGNATURE == Octets("dkim-signature")
  {
    var ts := [V_TAG] + (OtherTags(d, s, h, bh) + [BLANK_B + b]);
    JoinEight(ts, SEMI);
    FixedTags();
    NameIs();
    TagText([0x64], d);
    TagText([0x73], s);
    TagText([0x68], h);
    TagText([0x62, 0x68], bh);
    assert Octets("; d=") == [SEMI, SP] + [0x64] + [EQUALS];
    assert Octets("; s=") == [SEMI, SP] + [0x73] + [EQUALS];
    assert Octets("; h=") == [SEMI, SP] + [0x68] + [EQUALS];
    assert Octets("; bh=") == [SEMI, SP] + [0x62, 0x68] + [EQUALS];
    assert Octets("; b=") == [SEMI] + BLANK_B;
    Assoc([SEMI], BLANK_B, b);
    hide JoinWith, Octets, Tag;
  }

  lemma NameIs()
    ensures DKIM_SIGNATURE == Octets("dkim-signature")
  {
  }

  lemma TagText(k: seq<byte>, v: seq<byte>)
    ensures [SEMI] + Tag(k, v) == [SEMI, SP] + k + [EQUALS] + v
  {
  }

  lemma FixedTags()
    ensures Octets("v=1") == V_TAG
    ensures Octets("; a=rsa-sha256") == [SEMI] + Tag([0x61], RSA_SHA256)
    ensures Octets("; c=relaxed/relaxed") == [SEMI] + Tag([0x63], RELAXED + [0x2F] + RELAXED)
  {
  }

  lemma JoinStep(x: seq<byte>, ts: seq<seq<byte>>, k: nat, c: byte)
    requires k + 1 < |ts|
    ensures x + ([c] + JoinWith(ts[k..], c)) == x + ([c] + ts[k]) + ([c] + JoinWith(ts[k + 1..], c))
  {
    assert ts[k..][1..] == ts[k + 1..];
  }

  lemma JoinEight(ts: seq<seq<byte>>, c: byte)
    requires |ts| == 8
    ensures JoinWith(ts, c) == ts[0] + ([c] + ts[1]) + ([c] + ts[2]) + ([c] + ts[3]) + ([c] + ts[4])
                               + ([c] + ts[5]) + ([c] + ts[6]) + ([c] + ts[7])
  {
    assert JoinWith(ts[7..], c) == ts[7];
    assert JoinWith(ts, c) == ts[0] + ([c] + JoinWith(ts[1..], c));
    hide JoinWith;
    var x1 := ts[0];
    JoinStep(x1, ts, 1, c);
    var x2 := x1 + ([c] + ts[1]);
    JoinStep(x2, ts, 2, c);
    var x3 := x2 + ([c] + ts[2]);
    JoinStep(x3, ts, 3, c);
    var x4 := x3 + ([c] + ts[3]);
    JoinStep(x4, ts, 4, c);
    var x5 := x4 + ([c] + ts[4]);
    JoinStep(x5, ts, 5, c);
    JoinStep(x5 + ([c] + ts[5]), ts, 6, c);
  }
}
