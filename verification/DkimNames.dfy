/** How the verifier finds the signed names (email/dkim/dkim_verify.go): in the
    h= tag of the signature header, in the folded text of the message. */
module DkimNames {
  import opened Bytes
  import opened Wrappers
  import opened BodyCanon
  import opened HeaderFold
  import opened DkimHeaders
  import opened DkimFolding

  const H_KEY: seq<byte> := [0x68]

  // ------------------------------------------------- the header, as it is

  function RawContinuation(lines: seq<seq<byte>>): seq<byte> {
    if lines == [] || lines[0] == [] || !IsWSP(lines[0][0]) then []
    else lines[0] + CRLF + RawContinuation(lines[1..])
  }

  /** readHeader, for a name with its colon: the lines of the first header that
      begins so. */
  function RawHeader(lines: seq<seq<byte>>, name: seq<byte>): seq<byte> {
    if lines == [] || lines[0] == [] then []
    else if Matches(lines[0], name) then lines[0] + CRLF + RawContinuation(lines[1..])
    else RawHeader(lines[1..], name)
  }

  method ReadHeader(lines: seq<seq<byte>>, name: seq<byte>) returns (out: seq<byte>)
    ensures out == RawHeader(lines, name)
  {
    var i := 0;
    assert lines[0..] == lines;
    while i < |lines|
      invariant i <= |lines| && RawHeader(lines, name) == RawHeader(lines[i..], name)
    {
      var b := lines[i];
      assert lines[i..][0] == b && lines[i..][1..] == lines[i + 1..];
      i := i + 1;
      if b == [] {
        return [];
      }
      if Matches(b, name) {
        ghost var at := i;
        out := b + CRLF;
        while i < |lines|
          invariant at <= i <= |lines|
          invariant b + CRLF + RawContinuation(lines[at..]) == out + RawContinuation(lines[i..])
        {
          assert lines[i..][0] == lines[i] && lines[i..][1..] == lines[i + 1..];
          if lines[i] == [] || !IsWSP(lines[i][0]) {
            break;
          }
          Assoc(out, lines[i] + CRLF, RawContinuation(lines[i + 1..]));
          Assoc(out, lines[i], CRLF);
          out := out + lines[i];
          out := out + CRLF;
          i := i + 1;
        }
        assert out + [] == out;
        return;
      }
    }
    out := [];
  }

  // ------------------------------------------------------------- its tags

  /** A tag, without the white space around it and around its value. */
  function KeyOf(part: seq<byte>): seq<byte> {
    var p := TrimSpace(part);
    var i := IndexByte(p, EQUALS);
    if i == -1 then [] else TrimSpace(p[..i])
  }

  function ValueOf(part: seq<byte>): seq<byte> {
    var p := TrimSpace(part);
    var i := IndexByte(p, EQUALS);
    if i == -1 then [] else TrimSpace(p[i + 1..])
  }

  function NamesIn(parts: seq<seq<byte>>): seq<seq<byte>> {
    if parts == [] then []
    else (if KeyOf(parts[0]) == H_KEY then ParseNames(ValueOf(parts[0])) else []) + NamesIn(parts[1..])
  }

  /** All the names of the h= tags. */
  function TagNames(hdr: seq<byte>): seq<seq<byte>> { NamesIn(Split(hdr, SEMI)) }

  lemma EmptyKey()
    ensures KeyOf([]) == []
  {
  }

  function NamesOf(part: seq<byte>): seq<seq<byte>> {
    if KeyOf(part) == H_KEY then ParseNames(ValueOf(part)) else []
  }

  /** Neither a tag nor blank. */
  predicate IsBad(part: seq<byte>) { EQUALS !in TrimSpace(part) && TrimSpace(part) != [] }

  predicate AnyBad(parts: seq<seq<byte>>) { exists i | 0 <= i < |parts| :: IsBad(parts[i]) }

  lemma AnyBadStep(part: seq<byte>, parts: seq<seq<byte>>)
    ensures AnyBad([part] + parts) <==> IsBad(part) || AnyBad(parts)
  {
    hide IsBad;
    var all := [part] + parts;
    assert all[0] == part && forall i | 0 <= i < |parts| :: all[i + 1] == parts[i];
  }

  lemma BadStep(hdr: seq<byte>)
    ensures var i := IndexByte(hdr, SEMI);
      AnyBad(Split(hdr, SEMI)) <==> if i >= 0 then IsBad(hdr[..i]) || AnyBad(Split(hdr[i + 1..], SEMI)) else IsBad(hdr)
  {
    hide *;
    var i := IndexByte(hdr, SEMI);
    if i >= 0 {
      assert hdr == hdr[..i] + [SEMI] + hdr[i + 1..];
      SplitHere(hdr[..i], hdr[i + 1..]);
      AnyBadStep(hdr[..i], Split(hdr[i + 1..], SEMI));
    } else {
      SplitHere(hdr, []);
      AnyBadStep(hdr, []);
      NoneBad();
      assert [hdr] + [] == [hdr];
    }
  }

  lemma NoneBad()
    ensures !AnyBad([]) && !AnyBad(Split([], SEMI))
  {
    assert Split([], SEMI) == [[]];
  }

  lemma {:induction false} TrimLeftKeeps(v: seq<byte>, c: byte)
    requires !IsSpace(c)
    ensures c in TrimLeft(v) <==> c in v
  {
    if v != [] {
      var x, t := v[0], v[1..];
      assert v == [x] + t;
      hide TrimLeft;
      TrimOne(x, t);
      if IsSpace(x) {
        TrimLeftKeeps(t, c);
        assert c != x;
      }
    }
  }

  lemma {:induction false} TrimRightKeeps(v: seq<byte>, c: byte)
    requires !IsSpace(c)
    ensures c in TrimRight(v) <==> c in v
  {
    if v != [] && IsSpace(v[|v| - 1]) {
      TrimRightKeeps(v[..|v| - 1], c);
      assert v == v[..|v| - 1] + [v[|v| - 1]];
    }
  }

  lemma TrimKeeps(v: seq<byte>, c: byte)
    requires !IsSpace(c)
    ensures c in TrimSpace(v) <==> c in v
  {
    TrimLeftKeeps(v, c);
    TrimRightKeeps(TrimLeft(v), c);
  }

  lemma TrimmedEnds(v: seq<byte>)
    requires TrimSpace(v) != []
    ensures !IsSpace(TrimSpace(v)[|TrimSpace(v)| - 1])
  {
    TrimmedRight(TrimLeft(v));
  }

  lemma {:induction false} TrimmedRight(v: seq<byte>)
    ensures TrimRight(v) != [] ==> !IsSpace(TrimRight(v)[|TrimRight(v)| - 1])
  {
    if v != [] && IsSpace(v[|v| - 1]) {
      TrimmedRight(v[..|v| - 1]);
    }
  }

  /** Ink, and no equals sign. */
  ghost predicate IsMalformed(part: seq<byte>) { EQUALS !in part && exists k :: 0 <= k < |part| && !IsSpace(part[k]) }

  lemma BadMeans(part: seq<byte>)
    ensures IsBad(part) <==> IsMalformed(part)
  {
    TrimKeeps(part, EQUALS);
    hide TrimSpace;
    if TrimSpace(part) != [] {
      TrimmedEnds(part);
      var c := TrimSpace(part)[|TrimSpace(part)| - 1];
      TrimKeeps(part, c);
      var k :| 0 <= k < |part| && part[k] == c;
      assert !IsSpace(part[k]);
    } else if exists k :: 0 <= k < |part| && !IsSpace(part[k]) {
      var k :| 0 <= k < |part| && !IsSpace(part[k]);
      TrimKeeps(part, part[k]);
    }
  }

  /** hdr[a..b] lies between two semicolons, or an end of the header. */
  ghost predicate PartAt(hdr: seq<byte>, a: nat, b: nat) {
    && a <= b <= |hdr| && SEMI !in hdr[a..b]
    && (a == 0 || hdr[a - 1] == SEMI) && (b == |hdr| || hdr[b] == SEMI)
  }

  ghost predicate BadAt(hdr: seq<byte>, a: nat, b: nat) { PartAt(hdr, a, b) && IsMalformed(hdr[a..b]) }

  /** Some part has ink and no equals sign. */
  ghost predicate Malformed(hdr: seq<byte>) { exists a: nat, b: nat :: BadAt(hdr, a, b) }

  lemma PartShift(hdr: seq<byte>, i: nat, a: nat, b: nat)
    requires i < |hdr| && hdr[i] == SEMI && SEMI !in hdr[..i]
    ensures i < a <= |hdr| ==> a <= b <= |hdr| ==> hdr[a..b] == hdr[i + 1..][a - i - 1..b - i - 1]
    ensures i < a ==> (PartAt(hdr, a, b) <==> a <= b <= |hdr| && PartAt(hdr[i + 1..], a - i - 1, b - i - 1))
    ensures a <= i && PartAt(hdr, a, b) ==> a == 0 && b == i
  {
    var t := hdr[i + 1..];
    assert forall k | 0 <= k < i :: hdr[..i][k] == hdr[k] && hdr[k] in hdr[..i];
    if a <= i && PartAt(hdr, a, b) {
      assert forall k | a <= k < b :: hdr[a..b][k - a] == hdr[k] && hdr[k] in hdr[a..b];
    }
    if i < a <= b <= |hdr| {
      assert hdr[a..b] == t[a - i - 1..b - i - 1];
      if a > i + 1 {
        assert hdr[a - 1] == t[a - i - 2];
      }
      if b < |hdr| {
        assert hdr[b] == t[b - i - 1];
      }
    }
  }

  lemma {:induction false} BadIsMalformed(hdr: seq<byte>)
    ensures AnyBad(Split(hdr, SEMI)) <==> Malformed(hdr)
    decreases |hdr|
  {
    var i := IndexByte(hdr, SEMI);
    hide Split, IndexByte, AnyBad, IsBad;
    BadStep(hdr);
    if i >= 0 {
      BadIsMalformed(hdr[i + 1..]);
      BadMeans(hdr[..i]);
      MalformedStep(hdr, i);
    } else {
      BadMeans(hdr);
      MalformedWhole(hdr);
    }
  }

  lemma MalformedWhole(hdr: seq<byte>)
    requires SEMI !in hdr
    ensures Malformed(hdr) <==> IsMalformed(hdr)
  {
    hide IsMalformed;
    assert hdr[0..|hdr|] == hdr;
    if IsMalformed(hdr) {
      assert BadAt(hdr, 0, |hdr|);
    }
    if Malformed(hdr) {
      var a: nat, b: nat :| BadAt(hdr, a, b);
      assert a == 0 && b == |hdr|;
    }
  }

  lemma BadShift(hdr: seq<byte>, i: nat, a: nat, b: nat)
    requires i < |hdr| && hdr[i] == SEMI && SEMI !in hdr[..i]
    ensures i < a ==> (BadAt(hdr, a, b) <==> a <= b && BadAt(hdr[i + 1..], a - i - 1, b - i - 1))
    ensures a <= i && BadAt(hdr, a, b) ==> IsMalformed(hdr[..i])
    ensures IsMalformed(hdr[..i]) ==> BadAt(hdr, 0, i)
  {
    PartShift(hdr, i, a, b);
    assert hdr[0..i] == hdr[..i];
    assert PartAt(hdr, 0, i);
    var t := hdr[i + 1..];
    if i < a <= b && PartAt(t, a - i - 1, b - i - 1) {
      assert b - i - 1 <= |t|;
    }
    hide IsMalformed, PartAt;
  }

  lemma MalformedStep(hdr: seq<byte>, i: nat)
    requires i < |hdr| && hdr[i] == SEMI && SEMI !in hdr[..i]
    ensures Malformed(hdr) <==> IsMalformed(hdr[..i]) || Malformed(hdr[i + 1..])
  {
    hide IsMalformed, BadAt;
    var t := hdr[i + 1..];
    BadShift(hdr, i, 0, i);
    if Malformed(hdr) {
      var a: nat, b: nat :| BadAt(hdr, a, b);
      BadShift(hdr, i, a, b);
      assert a > i ==> BadAt(t, a - i - 1, b - i - 1);
    }
    if Malformed(t) {
      var a: nat, b: nat :| BadAt(t, a, b);
      BadOrder(t, a, b);
      BadShift(hdr, i, a + i + 1, b + i + 1);
      assert BadAt(hdr, a + i + 1, b + i + 1);
    }
  }

  lemma BadOrder(hdr: seq<byte>, a: nat, b: nat)
    requires BadAt(hdr, a, b)
    ensures a <= b
  {
  }

  /** One part, and the rest. */
  lemma NamesStep(hdr: seq<byte>)
    ensures var i := IndexByte(hdr, SEMI);
      TagNames(hdr) == if i >= 0 then NamesOf(hdr[..i]) + TagNames(hdr[i + 1..]) else NamesOf(hdr)
  {
    hide *;
    var i := IndexByte(hdr, SEMI);
    TagNamesAre(hdr);
    if i >= 0 {
      assert hdr == hdr[..i] + [SEMI] + hdr[i + 1..];
      SplitHere(hdr[..i], hdr[i + 1..]);
      NamesInCons(hdr[..i], Split(hdr[i + 1..], SEMI));
      TagNamesAre(hdr[i + 1..]);
    } else {
      SplitHere(hdr, []);
      NamesInCons(hdr, []);
      assert [hdr] + [] == [hdr];
      assert NamesOf(hdr) + [] == NamesOf(hdr);
    }
  }

  lemma NamesInCons(part: seq<byte>, parts: seq<seq<byte>>)
    ensures NamesIn([part] + parts) == NamesOf(part) + NamesIn(parts) && NamesIn([]) == []
  {
    hide KeyOf, ValueOf, ParseNames;
    assert ([part] + parts)[1..] == parts;
  }

  /** The names between the colons of an h= tag. */
  method ReadParts(v0: seq<byte>) returns (names: seq<seq<byte>>)
    ensures names == ParseNames(v0)
  {
    hide *;
    names := [];
    var v := v0;
    assert [] + ParseNames(v) == ParseNames(v);
    while v != []
      invariant ParseNames(v0) == names + ParseNames(v)
      decreases |v|
    {
      NamesHere(v);
      var i := IndexByte(v, COLON);
      var h := v;
      if i > 0 {
        h, v := v[..i], v[i + 1..];
      } else {
        v := [];
      }
      Assoc(names, [TrimSpace(h)], ParseNames(v));
      names := names + [TrimSpace(h)];
    }
    NoneParsed();
    assert names + [] == names;
  }

  /** One tag: its names if it is h=; what is neither a tag nor blank is an
      error. */
  method ReadTag(part: seq<byte>) returns (names: seq<seq<byte>>, malformed: bool)
    ensures !malformed ==> names == NamesOf(part)
    ensures malformed <==> IsMalformed(part)
    ensures malformed <==> IsBad(part)
  {
    BadMeans(part);
    hide TrimSpace, IndexByte, ParseNames, IsMalformed;
    var p := TrimSpace(part);
    var j := IndexByte(p, EQUALS);
    names := [];
    malformed := false;
    if j == -1 {
      malformed := p != [];
      return;
    }
    var k, v := TrimSpace(p[..j]), TrimSpace(p[j + 1..]);
    if k == H_KEY {
      names := ReadParts(v);
    }
  }

  lemma NoneParsed()
    ensures ParseNames([]) == []
  {
  }

  lemma NamesHere(v: seq<byte>)
    requires v != []
    ensures var i := IndexByte(v, COLON);
      && i < |v|
      && ParseNames(v) ==
          if i > 0 then [TrimSpace(v[..i])] + ParseNames(v[i + 1..]) else [TrimSpace(v)] + ParseNames([])
  {
    assert [TrimSpace(v)] + [] == [TrimSpace(v)];
  }

  /** The loop over the tags, which ends when nothing is left. */
  method ReadNames(hdr0: seq<byte>) returns (headers: seq<seq<byte>>, malformed: bool)
    ensures !malformed ==> headers == TagNames(hdr0)
    ensures malformed <==> Malformed(hdr0)
  {
    hide *;
    BadIsMalformed(hdr0);
    headers := [];
    var hdr := hdr0;
    assert [] + TagNames(hdr) == TagNames(hdr);
    NoneBad();
    while hdr != []
      invariant TagNames(hdr0) == headers + TagNames(hdr)
      invariant AnyBad(Split(hdr0, SEMI)) <==> AnyBad(Split(hdr, SEMI))
      decreases |hdr|
    {
      NamesStep(hdr);
      BadStep(hdr);
      SemiWithin(hdr);
      var i := IndexByte(hdr, SEMI);
      var part := hdr;
      if i >= 0 {
        part, hdr := hdr[..i], hdr[i + 1..];
      } else {
        hdr := [];
        NoNames();
        assert NamesOf(part) + [] == NamesOf(part);
      }
      var names, bad := ReadTag(part);
      if bad {
        return [], true;
      }
      Assoc(headers, names, TagNames(hdr));
      headers := headers + names;
    }
    NoNames();
    assert headers + [] == headers;
    malformed := false;
  }

  lemma SemiWithin(hdr: seq<byte>)
    ensures IndexByte(hdr, SEMI) < |hdr| || hdr == []
  {
  }

  lemma NoNames()
    ensures TagNames([]) == []
  {
    EmptyKey();
    assert Split([], SEMI) == [[]];
    var parts: seq<seq<byte>> := [[]];
    assert parts[1..] == [];
  }

  // ---------------------------------------------------- folded at spaces

  /** `t` is `v` with folds in front of some of its spaces. */
  predicate Spread(v: seq<byte>, t: seq<byte>)
    decreases |t|
  {
    || (v == [] && t == [])
    || (v != [] && t != [] && v[0] == t[0] && Spread(v[1..], t[1..]))
    || (v != [] && v[0] == SP && FOLD <= t && Spread(v, t[|FOLD|..]))
  }

  lemma {:induction false} SpreadBehind(a: seq<byte>, v: seq<byte>, t: seq<byte>)
    requires Spread(v, t)
    ensures Spread(a + v, a + t)
    decreases |a|
  {
    if a == [] {
      assert a + v == v && a + t == t;
    } else {
      SpreadBehind(a[1..], v, t);
      assert (a + v)[1..] == a[1..] + v && (a + t)[1..] == a[1..] + t;
    }
  }

  lemma SpreadNone()
    ensures Spread([], [])
  {
  }

  lemma {:induction false} SpreadSelf(v: seq<byte>)
    ensures Spread(v, v)
  {
    SpreadNone();
    SpreadBehind(v, [], []);
    assert v + [] == v;
  }

  /** A tidy value is written so. */
  lemma {:induction false} FoldSpreads(v: seq<byte>, spent: int)
    requires -1 <= spent <= 77 && !TooLong(v, spent)
    ensures Fold(v, spent).Pieces? && Spread(v, Glue(Fold(v, spent).ps))
    decreases |v|
  {
    FoldFits(v, spent);
    hide Spread;
    match NextCut(v, spent)
    case NoCut =>
      SpreadSelf(v);
    case CutAt(i) =>
      var rest := v[i..];
      FoldFits(rest, |PADDING|);
      if i == |v| || v[i] != SP {
        TornHere(v, spent, i);
      } else {
        SkipLine(v, spent, i);
        FoldSpreads(rest, |PADDING|);
        var qs := Fold(rest, |PADDING|).ps;
        assert ([v[..i]] + qs)[1..] == qs;
        FoldedSpreads(rest, Glue(qs));
        SpreadBehind(v[..i], rest, FOLD + Glue(qs));
        assert v == v[..i] + rest;
        Assoc(v[..i], FOLD, Glue(qs));
      }
  }

  lemma FoldedSpreads(v: seq<byte>, t: seq<byte>)
    requires v != [] && v[0] == SP && Spread(v, t)
    ensures Spread(v, FOLD + t)
  {
    assert (FOLD + t)[|FOLD|..] == t;
  }

  /** Taken apart at a byte that is not in a fold, the parts correspond. */
  lemma {:induction false} SpreadSplit(x: seq<byte>, y: seq<byte>, t: seq<byte>) returns (a: seq<byte>, b: seq<byte>)
    requires SEMI !in x && Spread(x + [SEMI] + y, t)
    ensures t == a + [SEMI] + b && SEMI !in a && Spread(x, a) && Spread(y, b)
    decreases |t|
  {
    var v := x + [SEMI] + y;
    if v[0] == t[0] && Spread(v[1..], t[1..]) {
      if x == [] {
        assert v[1..] == y;
        a, b := [], t[1..];
      } else {
        assert v[1..] == x[1..] + [SEMI] + y;
        var c;
        c, b := SpreadSplit(x[1..], y, t[1..]);
        a := [t[0]] + c;
        assert a[1..] == c && t == [t[0]] + t[1..];
      }
    } else {
      var c;
      c, b := SpreadSplit(x, y, t[|FOLD|..]);
      a := FOLD + c;
      FoldedSpreads(x, c);
      assert t == FOLD + t[|FOLD|..];
    }
  }

  lemma {:induction false} SpreadNoSemi(v: seq<byte>, t: seq<byte>)
    requires Spread(v, t) && SEMI !in v
    ensures SEMI !in t
    decreases |t|
  {
    if t != [] {
      if v[0] == t[0] && Spread(v[1..], t[1..]) {
        SpreadNoSemi(v[1..], t[1..]);
        assert t == [t[0]] + t[1..];
      } else {
        SpreadNoSemi(v, t[|FOLD|..]);
        assert t == FOLD + t[|FOLD|..];
      }
    }
  }

  ghost predicate AllSpread(ps: seq<seq<byte>>, qs: seq<seq<byte>>) {
    |ps| == |qs| && forall i | 0 <= i < |ps| :: Spread(ps[i], qs[i])
  }

  lemma SplitHere(a: seq<byte>, b: seq<byte>)
    requires SEMI !in a
    ensures Split(a + [SEMI] + b, SEMI) == [a] + Split(b, SEMI) && Split(a, SEMI) == [a]
  {
    IndexByteAfter(a, SEMI, b);
    var t := a + [SEMI] + b;
    assert t[..|a|] == a && t[|a| + 1..] == b;
    assert IndexByte(a, SEMI) == -1;
  }

  lemma {:induction false} SpreadJoin(ps: seq<seq<byte>>, t: seq<byte>)
    requires ps != [] && (forall i | 0 <= i < |ps| :: SEMI !in ps[i]) && Spread(JoinWith(ps, SEMI), t)
    ensures AllSpread(ps, Split(t, SEMI))
    decreases |ps|
  {
    JoinParts(ps, SEMI);
    hide Spread, JoinWith, Split;
    if |ps| == 1 {
      SpreadNoSemi(ps[0], t);
      SplitHere(t, []);
    } else {
      var a, b := SpreadSplit(ps[0], JoinWith(ps[1..], SEMI), t);
      SpreadJoin(ps[1..], b);
      SplitHere(a, b);
      var qs := Split(b, SEMI);
      forall i | 0 <= i < |ps|
        ensures Spread(ps[i], ([a] + qs)[i])
      {
        if i > 0 {
          assert ps[i] == ps[1..][i - 1] && ([a] + qs)[i] == qs[i - 1];
        }
      }
    }
  }

  // ------------------------------------------------------------ one tag

  predicate Word(w: seq<byte>) { forall i | 0 <= i < |w| :: !IsSpace(w[i]) }

  lemma {:induction false} SpreadWord(w: seq<byte>, y: seq<byte>, t: seq<byte>)
    requires Word(w) && Spread(w + y, t)
    ensures w <= t && Spread(y, t[|w|..])
    decreases |w|
  {
    if w == [] {
      assert w + y == y;
    } else {
      assert (w + y)[1..] == w[1..] + y;
      SpreadWord(w[1..], y, t[1..]);
      assert t[1..][|w| - 1..] == t[|w|..];
    }
  }

  /** In front of a word there is nothing but white space. */
  lemma {:induction false} SpreadPad(w: seq<byte>, y: seq<byte>, t: seq<byte>)
    requires Word(w) && w != [] && Spread([SP] + (w + y), t)
    ensures w <= TrimLeft(t) && Spread(y, TrimLeft(t)[|w|..])
    decreases |t|
  {
    var v := [SP] + (w + y);
    if v[0] == t[0] && Spread(v[1..], t[1..]) {
      assert v[1..] == w + y;
      SpreadWord(w, y, t[1..]);
      assert TrimLeft(t) == TrimLeft(t[1..]) == t[1..];
    } else {
      var u := t[|FOLD|..];
      SpreadPad(w, y, u);
      assert t == FOLD + u;
      TrimFold(u);
    }
  }

  lemma TrimOne(c: byte, t: seq<byte>)
    ensures TrimLeft([c] + t) == if IsSpace(c) then TrimLeft(t) else [c] + t
  {
    assert ([c] + t)[1..] == t;
  }

  lemma FoldIs(u: seq<byte>)
    ensures FOLD + u == [CR] + ([LF] + (PADDING + u)) && IsSpace(CR) && IsSpace(LF)
    ensures forall i | 0 <= i < |PADDING| :: PADDING[i] == SP
  {
  }

  lemma TrimFold(u: seq<byte>)
    ensures TrimLeft(FOLD + u) == TrimLeft(u)
  {
    hide *;
    var t := PADDING + u;
    FoldIs(u);
    TrimOne(CR, [LF] + t);
    TrimOne(LF, t);
    TrimLeftPadded(PADDING, u);
  }

  lemma {:induction false} TrimLeftMore(t: seq<byte>, tail: seq<byte>)
    requires TrimLeft(t) != []
    ensures TrimLeft(t + tail) == TrimLeft(t) + tail
    decreases |t|
  {
    assert t != [];
    var c, u := t[0], t[1..];
    assert t == [c] + u && t + tail == [c] + (u + tail);
    hide TrimLeft;
    TrimOne(c, u);
    TrimOne(c, u + tail);
    if IsSpace(c) {
      TrimLeftMore(u, tail);
    }
  }

  lemma {:induction false} TrimRightBehind(a: seq<byte>, b: seq<byte>)
    requires a != [] && !IsSpace(a[|a| - 1])
    ensures TrimRight(a + b) == a + TrimRight(b)
    decreases |b|
  {
    if b == [] {
      assert a + b == a == a + [];
    } else if IsSpace(b[|b| - 1]) {
      TrimRightBehind(a, b[..|b| - 1]);
      assert (a + b)[..|a + b| - 1] == a + b[..|b| - 1];
    }
  }

  lemma {:induction false} TrimWord(w: seq<byte>)
    requires Word(w)
    ensures TrimSpace(w) == w
  {
    if w != [] {
      assert TrimLeft(w) == w && TrimRight(w) == w;
    }
  }

  /** What is left of a tag when the white space around it is cut off. */
  lemma TagTrimmed(head: seq<byte>, w: seq<byte>, q: seq<byte>, tail: seq<byte>) returns (w': seq<byte>)
    requires Word(head) && head != [] && Spread([SP] + (head + w), q)
    ensures TrimSpace(q + tail) == head + TrimRight(w' + tail) && Spread(w, w')
  {
    hide TrimLeft, TrimRight, Spread;
    SpreadPad(head, w, q);
    var l := TrimLeft(q);
    w' := l[|head|..];
    assert l == head + w';
    TrimLeftMore(q, tail);
    Assoc(head, w', tail);
    TrimRightBehind(head, w' + tail);
  }

  /** A tag is cut at its equals sign. */
  lemma TagCut(part: seq<byte>, k: seq<byte>, v: seq<byte>)
    requires EQUALS !in k && TrimSpace(part) == k + [EQUALS] + v
    ensures KeyOf(part) == TrimSpace(k) && ValueOf(part) == TrimSpace(v)
  {
    hide TrimSpace, IndexByte;
    var p := k + [EQUALS] + v;
    IndexByteAfter(k, EQUALS, v);
    assert p[..|k|] == k && p[|k| + 1..] == v;
  }

  lemma SpreadOnlyWord(w: seq<byte>, t: seq<byte>)
    requires Word(w) && Spread(w, t)
    ensures t == w
  {
    hide Spread, Word;
    assert w + [] == w;
    SpreadWord(w, [], t);
    OnlyNone(t[|w|..]);
    assert t == t[..|w|] + t[|w|..];
  }

  /** A tag as it is folded, with something behind it: its key is as it was, and
      so is its value, if it is a word. */
  lemma TagRead(k: seq<byte>, w: seq<byte>, q: seq<byte>, tail: seq<byte>)
    requires Word(k) && k != [] && EQUALS !in k && Spread([SP] + (k + [EQUALS] + w), q)
    ensures KeyOf(q + tail) == k
    ensures Word(w) && tail == [] ==> ValueOf(q + tail) == w
  {
    KeyWord(k);
    hide *;
    var w' := TagTrimmed(k + [EQUALS], w, q, tail);
    TagCut(q + tail, k, TrimRight(w' + tail));
    TrimWord(k);
    if Word(w) && tail == [] {
      SpreadOnlyWord(w, w');
      assert w' + tail == w;
      TrimWord(w);
      WordRight(w);
    }
  }

  lemma KeyWord(k: seq<byte>)
    ensures Word(k) ==> Word(k + [EQUALS])
  {
  }

  lemma OnlyNone(t: seq<byte>)
    ensures Spread([], t) ==> t == []
  {
  }

  lemma WordRight(w: seq<byte>)
    ensures Word(w) ==> TrimRight(w) == w
  {
  }

  // ------------------------------------------------- from the whole message

  lemma LongerMatch(line: seq<byte>, name: seq<byte>)
    requires IsName(name) && Matches(line, name + [COLON])
    ensures Matches(line, name)
  {
    var n := name + [COLON];
    assert Lower(n)[..|name|] == Lower(name);
    assert Lower(line[..|n|])[..|name|] == Lower(line[..|name|]);
  }

  lemma {:induction false} SkipRaw(ps: seq<seq<byte>>, more: seq<seq<byte>>, name: seq<byte>)
    requires IsName(name)
    ensures RawHeader(Continuation(ps) + more, name + [COLON]) == RawHeader(more, name + [COLON])
    decreases |ps|
  {
    var lines := Continuation(ps) + more;
    hide Matches;
    if |ps| <= 1 {
      assert lines == more;
    } else {
      assert lines[0] == PADDING + ps[1] && lines[1..] == Continuation(ps[1..]) + more;
      PaddedNoMatch(ps[1], name);
      if Matches(lines[0], name + [COLON]) {
        LongerMatch(lines[0], name);
      }
      SkipRaw(ps[1..], more, name);
    }
  }

  lemma SkipRawEntry(e: Entry, more: seq<seq<byte>>, name: seq<byte>)
    requires IsEntry(e) && IsName(name) && !Extends(e.key, name)
    ensures RawHeader(EntryLines(e) + more, name + [COLON]) == RawHeader(more, name + [COLON])
  {
    FirstLine(e);
    MatchesKey(e.key, Pad(e) + PiecesOf(e)[0], name);
    var lines := EntryLines(e) + more;
    assert lines[0] == EntryLines(e)[0] && lines[1..] == Continuation(PiecesOf(e)) + more;
    hide Matches;
    if Matches(lines[0], name + [COLON]) {
      LongerMatch(lines[0], name);
    }
    SkipRaw(PiecesOf(e), more, name);
  }

  /** The lines of a folded value, joined again. */
  lemma {:induction false} RawGlue(head: seq<byte>, ps: seq<seq<byte>>, more: seq<seq<byte>>)
    requires ps != [] && Ends(more)
    ensures head + ps[0] + CRLF + RawContinuation(Continuation(ps) + more) == head + Glue(ps) + CRLF
    decreases |ps|
  {
    var lines := Continuation(ps) + more;
    if |ps| == 1 {
      assert lines == more && RawContinuation(more) == [];
      assert head + ps[0] + CRLF + [] == head + ps[0] + CRLF;
    } else {
      var l, rest := PADDING + ps[1], Continuation(ps[1..]) + more;
      assert lines[0] == l && lines[1..] == rest && l[0] == SP;
      RawGlue(PADDING, ps[1..], more);
      var tail := RawContinuation(rest);
      assert RawContinuation(lines) == l + CRLF + tail == PADDING + Glue(ps[1..]) + CRLF;
      assert Glue(ps) == ps[0] + FOLD + Glue(ps[1..]);
      var g := Glue(ps[1..]);
      assert head + ps[0] + CRLF + (PADDING + g + CRLF) == head + (ps[0] + (CRLF + PADDING) + g) + CRLF;
    }
  }

  lemma RawHere(l: seq<byte>, rest: seq<seq<byte>>, name: seq<byte>)
    requires l != [] && Matches(l, name)
    ensures RawHeader([l] + rest, name) == l + CRLF + RawContinuation(rest)
  {
    hide Matches, RawContinuation;
    assert ([l] + rest)[1..] == rest;
  }

  lemma OwnMatches(key: seq<byte>, name: seq<byte>, rest: seq<byte>)
    requires IsName(name) && Lower(key) == name
    ensures Matches(key + [COLON] + rest, name + [COLON])
  {
    var l := key + [COLON] + rest;
    assert l[..|name + [COLON]|] == key + [COLON];
    assert Lower(key + [COLON]) == Lower(key) + Lower([COLON]);
    assert Lower(name + [COLON]) == Lower(name) + Lower([COLON]);
    assert Lower(name) == name;
  }

  lemma OwnLines(e: Entry, more: seq<seq<byte>>)
    requires IsEntry(e) && e.value != []
    ensures PiecesOf(e) != []
    ensures EntryLines(e) + more == [e.key + [COLON] + ([SP] + PiecesOf(e)[0])] + (Continuation(PiecesOf(e)) + more)
  {
    FirstLine(e);
  }

  lemma RawOwn(e: Entry, more: seq<seq<byte>>, name: seq<byte>)
    requires IsEntry(e) && e.value != [] && IsName(name) && Lower(e.key) == name && Ends(more)
    ensures RawHeader(EntryLines(e) + more, name + [COLON]) == e.key + [COLON] + ([SP] + Glue(PiecesOf(e)) + CRLF)
  {
    hide *;
    var ps := PiecesOf(e);
    OwnLines(e, more);
    var head := e.key + [COLON];
    OwnMatches(e.key, name, [SP] + ps[0]);
    var rest := Continuation(ps) + more;
    RawHere(head + ([SP] + ps[0]), rest, name + [COLON]);
    RawGlue(head + [SP], ps, more);
    Assoc(head, [SP], ps[0]);
    var g := Glue(ps);
    assert head + [SP] + g + CRLF == head + ([SP] + g + CRLF);
  }

  lemma EntriesBehind(es: seq<Entry>, sig: Entry, name: seq<byte>)
    requires es != [] && AreEntries(es + [sig]) && FirstExtending(es, name) == None
    ensures (es + [sig])[0] == es[0] && (es + [sig])[1..] == es[1..] + [sig]
    ensures IsEntry(es[0]) && AreEntries(es[1..] + [sig])
    ensures !Extends(es[0].key, name) && FirstExtending(es[1..], name) == None
  {
    hide IsEntry, Extends;
    var all := es + [sig];
    assert all[0] == es[0] && all[1..] == es[1..] + [sig];
    assert forall i | 0 <= i < |all[1..]| :: all[1..][i] == all[i + 1];
  }

  lemma RawBehind(all: seq<Entry>, body: seq<byte>, name: seq<byte>)
    requires all != [] && AreEntries(all) && IsName(name) && !Extends(all[0].key, name)
    ensures AreEntries(all[1..])
    ensures RawHeader(MessageLines(all, body), name + [COLON])
         == RawHeader(MessageLines(all[1..], body), name + [COLON])
  {
    hide RawHeader, MessageLines, EntryLines, IsName, IsEntry, Extends;
    assert IsEntry(all[0]);
    LinesOfMessage(all, body);
    SkipRawEntry(all[0], MessageLines(all[1..], body), name);
  }

  lemma JustSignature(sig: Entry, body: seq<byte>)
    requires AreEntries([sig])
    ensures IsEntry(sig) && AreEntries([]) && MessageLines([sig], body) == EntryLines(sig) + MessageLines([], body)
  {
    assert [sig][0] == sig && [sig][1..] == [];
    LinesOfMessage([sig], body);
  }

  lemma {:induction false} RawMessage(es: seq<Entry>, sig: Entry, body: seq<byte>, name: seq<byte>)
    requires IsName(name) && IsEntry(sig) && AreEntries(es + [sig]) && sig.value != [] && Lower(sig.key) == name
    requires FirstExtending(es, name) == None
    ensures RawHeader(MessageLines(es + [sig], body), name + [COLON])
         == sig.key + [COLON] + ([SP] + Glue(PiecesOf(sig)) + CRLF)
    decreases |es|
  {
    hide *;
    if es == [] {
      assert es + [sig] == [sig];
      JustSignature(sig, body);
      MessageEnds([], body);
      RawOwn(sig, MessageLines([], body), name);
    } else {
      EntriesBehind(es, sig, name);
      RawMessage(es[1..], sig, body, name);
      RawBehind(es + [sig], body, name);
    }
  }

  lemma LastGrows(a: seq<byte>, qs: seq<seq<byte>>, x: seq<byte>)
    requires qs != []
    ensures [a] + (qs[..|qs| - 1] + [x]) == ([a] + qs)[..|qs|] + [x] && ([a] + qs)[|qs|] == qs[|qs| - 1]
  {
  }

  /** Behind the last part. */
  lemma {:induction false} SplitTail(t: seq<byte>, tail: seq<byte>)
    requires SEMI !in tail
    ensures var qs := Split(t, SEMI);
      qs != [] && Split(t + tail, SEMI) == qs[..|qs| - 1] + [qs[|qs| - 1] + tail]
    decreases |t|
  {
    hide Split, IndexByte;
    var i := IndexByte(t, SEMI);
    if i == -1 {
      SplitHere(t, []);
      SplitHere(t + tail, []);
      var qs := Split(t, SEMI);
      assert qs[..0] + [t + tail] == [t + tail];
    } else {
      var a, b := t[..i], t[i + 1..];
      assert t == a + [SEMI] + b;
      SplitHere(a, b);
      SplitTail(b, tail);
      Assoc(a + [SEMI], b, tail);
      SplitHere(a, b + tail);
      var qs := Split(b, SEMI);
      LastGrows(a, qs, qs[|qs| - 1] + tail);
    }
  }

  lemma {:induction false} NoOther(parts: seq<seq<byte>>)
    requires forall i | 0 <= i < |parts| :: KeyOf(parts[i]) != H_KEY
    ensures NamesIn(parts) == []
  {
    hide KeyOf, ValueOf, ParseNames;
    if parts != [] {
      NoOther(parts[1..]);
    }
  }

  lemma {:induction false} OnlyPart(parts: seq<seq<byte>>, j: nat)
    requires j < |parts| && KeyOf(parts[j]) == H_KEY
    requires forall i | 0 <= i < |parts| && i != j :: KeyOf(parts[i]) != H_KEY
    ensures NamesIn(parts) == ParseNames(ValueOf(parts[j]))
    decreases |parts|
  {
    hide KeyOf, ValueOf, ParseNames;
    if j == 0 {
      NoOther(parts[1..]);
      assert ParseNames(ValueOf(parts[0])) + [] == ParseNames(ValueOf(parts[0]));
    } else {
      OnlyPart(parts[1..], j - 1);
      assert [] + NamesIn(parts[1..]) == NamesIn(parts[1..]);
    }
  }

  /** A part of the signature and its key. */
  ghost predicate PartIs(part: seq<byte>, k: seq<byte>, w: seq<byte>) {
    Word(k) && k != [] && EQUALS !in k && SEMI !in part && part == [SP] + (k + [EQUALS] + w)
  }

  const KEYS: seq<seq<byte>> := [[0x76], [0x61], [0x63], [0x64], [0x73], H_KEY, [0x62, 0x68], [LOWER_B]]

  lemma PartHere(k: seq<byte>, w: seq<byte>)
    requires Word(k) && k != [] && EQUALS !in k && SEMI !in k && SEMI !in w
    ensures PartIs(Tag(k, w), k, w)
  {
    assert Tag(k, w) == [SP] + (k + [EQUALS] + w);
  }

  /** The parts of a signature with the space in front of it. */
  function PartsOf(d: seq<byte>, s: seq<byte>, h: seq<byte>, bh: seq<byte>, b: seq<byte>): seq<seq<byte>> {
    [[SP] + V_TAG] + (OtherTags(d, s, h, bh) + [BLANK_B + b])
  }

  function WordsOf(d: seq<byte>, s: seq<byte>, h: seq<byte>, bh: seq<byte>, b: seq<byte>): seq<seq<byte>> {
    [[0x31], RSA_SHA256, RELAXED + [0x2F] + RELAXED, d, s, h, bh, b]
  }

  lemma SignatureKeys(d: seq<byte>, s: seq<byte>, h: seq<byte>, bh: seq<byte>, b: seq<byte>)
    requires SEMI !in d && SEMI !in s && SEMI !in h && SEMI !in bh && SEMI !in b
    ensures var ps, ws := PartsOf(d, s, h, bh, b), WordsOf(d, s, h, bh, b);
      |ps| == 8 && forall i | 0 <= i < 8 :: PartIs(ps[i], KEYS[i], ws[i])
    ensures forall i | 0 <= i < 8 && i != 5 :: KEYS[i] != H_KEY
  {
    DkimSignatureFacts();
    assert [SP] + V_TAG == Tag([0x76], [0x31]) && BLANK_B + b == Tag([LOWER_B], b);
    var ws := WordsOf(d, s, h, bh, b);
    hide PartIs, Tag;
    forall i | 0 <= i < 8
      ensures PartIs(Tag(KEYS[i], ws[i]), KEYS[i], ws[i])
    {
      PartHere(KEYS[i], ws[i]);
    }
  }

  /** Taken apart at its semicolons, the folded signature has the parts it was
      made of. */
  lemma SignatureSplits(d: seq<byte>, s: seq<byte>, h: seq<byte>, bh: seq<byte>, b: seq<byte>, g: seq<byte>)
    requires SEMI !in d && SEMI !in s && SEMI !in h && SEMI !in bh && SEMI !in b
    requires Spread(Signature(d, s, h, bh, b), g)
    ensures AllSpread(PartsOf(d, s, h, bh, b), Split([SP] + g, SEMI))
  {
    SignatureKeys(d, s, h, bh, b);
    var ps, ws := PartsOf(d, s, h, bh, b), WordsOf(d, s, h, bh, b);
    JoinTags([SP], OtherTags(d, s, h, bh) + [BLANK_B + b]);
    hide AllSpread, OtherTags, Spread, Split, WordsOf, KEYS;
    SpreadBehind([SP], Signature(d, s, h, bh, b), g);
    forall i | 0 <= i < |ps|
      ensures SEMI !in ps[i]
    {
      assert PartIs(ps[i], KEYS[i], ws[i]);
    }
    SpreadJoin(ps, [SP] + g);
  }

  lemma PartRead(part: seq<byte>, k: seq<byte>, w: seq<byte>, q: seq<byte>, tail: seq<byte>)
    requires PartIs(part, k, w) && Spread(part, q)
    ensures KeyOf(q + tail) == k
    ensures Word(w) && tail == [] ==> ValueOf(q) == w
  {
    hide Spread, KeyOf, ValueOf, Word;
    TagRead(k, w, q, tail);
    assert q + [] == q;
  }

  /** With something behind the last of them, all keys are read, and the value
      of the sixth. */
  lemma AllRead(ps: seq<seq<byte>>, ws: seq<seq<byte>>, qs: seq<seq<byte>>, all: seq<seq<byte>>, tail: seq<byte>)
    requires |ps| == |ws| == 8 == |KEYS| && (forall i | 0 <= i < 8 :: PartIs(ps[i], KEYS[i], ws[i]))
    requires AllSpread(ps, qs) && all == qs[..7] + [qs[7] + tail] && Word(ws[5])
    ensures |all| == 8 && forall i | 0 <= i < 8 :: KeyOf(all[i]) == KEYS[i]
    ensures ValueOf(all[5]) == ws[5]
  {
    hide Spread, KeyOf, ValueOf, Word, PartIs, KEYS;
    forall i | 0 <= i < 8
      ensures KeyOf(all[i]) == KEYS[i] && (i == 5 ==> ValueOf(all[i]) == ws[i])
    {
      assert qs[i] + [] == qs[i];
      PartRead(ps[i], KEYS[i], ws[i], qs[i], if i == 7 then tail else []);
    }
  }

  lemma WordFive(d: seq<byte>, s: seq<byte>, h: seq<byte>, bh: seq<byte>, b: seq<byte>)
    ensures |WordsOf(d, s, h, bh, b)| == |PartsOf(d, s, h, bh, b)| == 8 && WordsOf(d, s, h, bh, b)[5] == h
  {
    hide Tag;
  }

  /** In the folded signature the tags are found again, and with them the names. */
  lemma FoldedNames(d: seq<byte>, s: seq<byte>, h: seq<byte>, bh: seq<byte>, b: seq<byte>, g: seq<byte>)
    requires SEMI !in d && SEMI !in s && SEMI !in h && SEMI !in bh && SEMI !in b && Word(h)
    requires Spread(Signature(d, s, h, bh, b), g)
    ensures TagNames([SP] + g + CRLF) == ParseNames(h) && !Malformed([SP] + g + CRLF)
  {
    hide *;
    var ps, ws := PartsOf(d, s, h, bh, b), WordsOf(d, s, h, bh, b);
    SignatureKeys(d, s, h, bh, b);
    SignatureSplits(d, s, h, bh, b, g);
    WordFive(d, s, h, bh, b);
    KeyFive();
    NoSemi();
    var qs := Split([SP] + g, SEMI);
    SpreadCount(ps, qs);
    SplitTail([SP] + g, CRLF);
    var all := qs[..7] + [qs[7] + CRLF];
    AllRead(ps, ws, qs, all, CRLF);
    OnlyPart(all, 5);
    TagNamesAre([SP] + g + CRLF);
    KeysThere();
    KeyedNotBad(all);
    BadIsMalformed([SP] + g + CRLF);
  }

  lemma KeysThere()
    ensures forall i | 0 <= i < |KEYS| :: KEYS[i] != []
  {
  }

  lemma KeyedNotBad(parts: seq<seq<byte>>)
    requires forall i | 0 <= i < |parts| :: KeyOf(parts[i]) != []
    ensures !AnyBad(parts)
  {
    forall i | 0 <= i < |parts|
      ensures !IsBad(parts[i])
    {
      KeyNotBad(parts[i]);
    }
    hide KeyOf, IsBad;
  }

  lemma KeyNotBad(part: seq<byte>)
    ensures KeyOf(part) != [] ==> !IsBad(part)
  {
    hide TrimSpace;
  }

  lemma SpreadCount(ps: seq<seq<byte>>, qs: seq<seq<byte>>)
    ensures AllSpread(ps, qs) ==> |ps| == |qs|
  {
  }

  lemma TagNamesAre(hdr: seq<byte>)
    ensures TagNames(hdr) == NamesIn(Split(hdr, SEMI))
  {
  }

  lemma NoSemi()
    ensures SEMI !in CRLF
  {
  }

  lemma KeyFive()
    ensures |KEYS| == 8 && KEYS[5] == H_KEY
  {
  }

  lemma {:induction false} JoinedWord(names: seq<seq<byte>>)
    requires forall i | 0 <= i < |names| :: IsKey(names[i])
    ensures Word(JoinWith(names, COLON))
    decreases |names|
  {
    if |names| > 1 {
      JoinedWord(names[1..]);
    }
  }

  /** In the text of a message whose signature is tidy and the first of its kind,
      the verifier finds exactly the names that were signed. */
  lemma NamesFromText(es: seq<Entry>, body: seq<byte>, names: seq<seq<byte>>, d: seq<byte>, s: seq<byte>,
                      bh: seq<byte>, b: seq<byte>, key: seq<byte>)
    requires AreNames(names) && SEMI !in d && SEMI !in s && SEMI !in bh && SEMI !in b
    requires var sig := Entry(key, Signature(d, s, JoinWith(SignedNames(es, names), COLON), bh, b));
      && AreEntries(es + [sig]) && Lower(key) == DKIM_SIGNATURE && FirstExtending(es, DKIM_SIGNATURE) == None
      && Tidy(sig)
    ensures var sig := Entry(key, Signature(d, s, JoinWith(SignedNames(es, names), COLON), bh, b));
      var raw := RawHeader(MessageLines(es + [sig], body), DKIM_SIGNATURE + [COLON]);
      && |DKIM_SIGNATURE| < |raw| && TagNames(raw[|DKIM_SIGNATURE| + 1..]) == SignedNames(es, names)
      && !Malformed(raw[|DKIM_SIGNATURE| + 1..])
  {
    var ks := SignedNames(es, names);
    var h := JoinWith(ks, COLON);
    var v := Signature(d, s, h, bh, b);
    var sig := Entry(key, v);
    SignedNamesFacts(es, names);
    forall i | 0 <= i < |ks|
      ensures IsName(ks[i])
    {
      assert ks[i] in ks;
    }
    NamesRoundTrip(ks);
    NamesHaveNoSemicolon(ks);
    JoinedWord(ks);
    SomeSignature(d, s, h, bh, b);
    assert (es + [sig])[|es|] == sig;
    hide Signature, DKIM_SIGNATURE, Spread, TagNames, RawHeader, MessageLines, Malformed;
    hide JoinWith, Fold, Glue, AreNames, ParseNames, Word;
    FoldSpreads(v, |key| - 2);
    var g := Glue(PiecesOf(sig));
    FoldedNames(d, s, h, bh, b, g);
    DkimSignatureIsName();
    RawMessage(es, sig, body, DKIM_SIGNATURE);
    var raw, tail := RawHeader(MessageLines(es + [sig], body), DKIM_SIGNATURE + [COLON]), [SP] + g + CRLF;
    assert raw[|key| + 1..] == tail;
  }

  lemma SomeSignature(d: seq<byte>, s: seq<byte>, h: seq<byte>, bh: seq<byte>, b: seq<byte>)
    ensures Signature(d, s, h, bh, b) != []
  {
    JoinParts([V_TAG] + (OtherTags(d, s, h, bh) + [BLANK_B + b]), SEMI);
  }

  /** Sign/verify agreement on the text alone: with the names it finds there, the
      verifier hashes the header bytes that the signer hashed. */
  lemma TextAgreement(es: seq<Entry>, body: seq<byte>, names: seq<seq<byte>>, d: seq<byte>, s: seq<byte>,
                      bh: seq<byte>, b: seq<byte>, key: seq<byte>)
    requires AreNames(names)
    requires SEMI !in d && SEMI !in s && SEMI !in bh && SEMI !in b
    requires b != [] && !IsBreak(b[|b| - 1])
    requires var sig := Entry(key, Signature(d, s, JoinWith(SignedNames(es, names), COLON), bh, b));
      var all := es + [sig];
      && AreEntries(all) && Lower(key) == DKIM_SIGNATURE && FirstExtending(es, DKIM_SIGNATURE) == None
      && (forall n | n in SignedNames(es, names) :: Unshadowed(all, n) && Tidy(FirstExtending(all, n).value))
      && Tidy(sig)
    ensures var sig := Entry(key, Signature(d, s, JoinWith(SignedNames(es, names), COLON), bh, b));
      var lines := MessageLines(es + [sig], body);
      var raw := RawHeader(lines, DKIM_SIGNATURE + [COLON]);
      && |DKIM_SIGNATURE| < |raw| && !Malformed(raw[|DKIM_SIGNATURE| + 1..])
      && VerifierHash(lines, TagNames(raw[|DKIM_SIGNATURE| + 1..])) == SignerHash(es, names, d, s, bh)
  {
    NamesFromText(es, body, names, d, s, bh, b, key);
    TidyAgreement(es, body, names, d, s, bh, b, key);
    var ks := SignedNames(es, names);
    SignedNamesFacts(es, names);
    forall i | 0 <= i < |ks|
      ensures IsName(ks[i])
    {
      assert ks[i] in ks;
    }
    NamesRoundTrip(ks);
  }

  // --------------------------------------------------------- the whole way

  /** findDKIMSignature and the loop over its tags. */
  method FindNames(lines: seq<seq<byte>>) returns (found: bool, malformed: bool, names: seq<seq<byte>>)
    ensures var raw := RawHeader(lines, DKIM_SIGNATURE + [COLON]);
      && (found <==> raw != []) && (!found ==> !malformed)
      && (found ==> |DKIM_SIGNATURE| < |raw|)
      && (found ==> (malformed <==> Malformed(raw[|DKIM_SIGNATURE| + 1..])))
      && (found && !malformed ==> names == TagNames(raw[|DKIM_SIGNATURE| + 1..]))
  {
    RawLength(lines, DKIM_SIGNATURE + [COLON]);
    hide Malformed, TagNames, RawHeader, DKIM_SIGNATURE;
    var hdr := ReadHeader(lines, DKIM_SIGNATURE + [COLON]);
    malformed, names := false, [];
    if hdr == [] {
      return false, false, [];
    }
    found := true;
    names, malformed := ReadNames(hdr[|DKIM_SIGNATURE| + 1..]);
  }

  lemma {:induction false} RawLength(lines: seq<seq<byte>>, name: seq<byte>)
    ensures RawHeader(lines, name) == [] || |name| <= |RawHeader(lines, name)|
  {
    if lines != [] && lines[0] != [] && !Matches(lines[0], name) {
      RawLength(lines[1..], name);
    }
  }

  /** On the text of a message whose signature and signed headers are tidy and not
      shadowed, the verifier finds the signature, meets no error in it, reads
      exactly the names that were signed, and hashes the bytes that were. */
  method VerifySigned(ghost es: seq<Entry>, ghost body: seq<byte>, ghost signed: seq<seq<byte>>, ghost d: seq<byte>,
                      ghost s: seq<byte>, ghost bh: seq<byte>, ghost b: seq<byte>, ghost key: seq<byte>,
                      lines: seq<seq<byte>>)
    returns (found: bool, malformed: bool, names: seq<seq<byte>>, hashed: seq<byte>)
    requires AreNames(signed)
    requires SEMI !in d && SEMI !in s && SEMI !in bh && SEMI !in b
    requires b != [] && !IsBreak(b[|b| - 1])
    requires var sig := Entry(key, Signature(d, s, JoinWith(SignedNames(es, signed), COLON), bh, b));
      var all := es + [sig];
      && AreEntries(all) && Lower(key) == DKIM_SIGNATURE && FirstExtending(es, DKIM_SIGNATURE) == None
      && (forall n | n in SignedNames(es, signed) :: Unshadowed(all, n) && Tidy(FirstExtending(all, n).value))
      && Tidy(sig)
      && lines == MessageLines(all, body)
    ensures found && !malformed && names == SignedNames(es, signed)
    ensures hashed == SignerHash(es, signed, d, s, bh)
  {
    TextAgreement(es, body, signed, d, s, bh, b, key);
    NamesFromText(es, body, signed, d, s, bh, b, key);
    hide *;
    found, malformed, names := FindNames(lines);
    hashed := [];
    if found && !malformed {
      hashed := RelaxedHeaders(lines, names);
    }
  }
}
