/** The header bytes that the signer hashes (email/dkim/dkim_sign.go) and the
    ones the verifier rebuilds from the folded text
    (email/dkim/dkim_verify.go), and exactly when they are the same. */
module DkimHeaders {
  import opened Bytes
  import opened Wrappers
  import opened BodyCanon
  import opened HeaderFold

  const SEMI: byte := 0x3B
  const EQUALS: byte := 0x3D
  const LOWER_B: byte := 0x62

  type Text = seq<byte>

  /** Seven bits, and no white space but spaces and tabs. */
  predicate IsValue(v: Text) {
    forall i | 0 <= i < |v| :: v[i] < 0x80 && !(LF <= v[i] <= CR)
  }

  /** ASCII white space as Go's TrimSpace sees it. */
  predicate IsSpace(c: byte) { c == SP || TAB <= c <= CR }

  function TrimLeft(v: Text): (r: Text)
    ensures |r| <= |v| && r == v[|v| - |r|..]
  {
    if v != [] && IsSpace(v[0]) then TrimLeft(v[1..]) else v
  }

  function TrimRight(v: Text): (r: Text)
    ensures r <= v
  {
    if v != [] && IsSpace(v[|v| - 1]) then TrimRight(v[..|v| - 1]) else v
  }

  function TrimSpace(v: Text): Text { TrimRight(TrimLeft(v)) }

  /** The relaxed form of a header value (section 3.4.2 of RFC 6376). */
  function Relax(v: Text): Text { Collapse(TrimSpace(v)) }

  /** writeFWS: runs of white space and line ends become one space. */
  function FWS(p: Text, lastWasWS: bool): Text
    decreases |p|
  {
    if p == [] then []
    else if IsWSP(p[0]) || IsBreak(p[0]) then (if lastWasWS then [] else [SP]) + FWS(p[1..], true)
    else [p[0]] + FWS(p[1..], false)
  }

  // --------------------------------------------------- one value, relaxed

  predicate Ink(v: Text) {
    exists i :: 0 <= i < |v| && !IsWSP(v[i])
  }

  lemma InkAppend(a: Text, b: Text)
    ensures Ink(a + b) <==> Ink(a) || Ink(b)
  {
    var s := a + b;
    if Ink(a) {
      var i :| 0 <= i < |a| && !IsWSP(a[i]);
      assert !IsWSP(s[i]);
    }
    if Ink(b) {
      var i :| 0 <= i < |b| && !IsWSP(b[i]);
      assert !IsWSP(s[|a| + i]);
    }
    if Ink(s) {
      var i :| 0 <= i < |s| && !IsWSP(s[i]);
      assert if i < |a| then !IsWSP(a[i]) else !IsWSP(b[i - |a|]);
    }
  }

  lemma InkTail(v: Text)
    requires v != []
    ensures Ink(v) <==> !IsWSP(v[0]) || Ink(v[1..])
  {
    InkAppend([v[0]], v[1..]);
    assert v == [v[0]] + v[1..];
    assert !IsWSP(v[0]) ==> !IsWSP([v[0]][0]);
  }

  lemma {:induction false} TrimRightIsDropEnd(v: Text)
    requires IsValue(v)
    ensures TrimRight(v) == DropEndWSP(v)
  {
    if v != [] && IsSpace(v[|v| - 1]) {
      TrimRightIsDropEnd(v[..|v| - 1]);
    }
  }

  lemma ValueSlice(v: Text, i: nat, j: nat)
    requires IsValue(v) && i <= j <= |v|
    ensures IsValue(v[i..j]) && IsLine(v[i..j])
  {
  }

  /** Relaxing is the body's white space reader behind the leading space. */
  lemma RelaxIsReduce(v: Text)
    requires IsValue(v)
    ensures Relax(v) == Reduce(false, TrimLeft(v))
  {
    var t := TrimLeft(v);
    ValueSlice(v, |v| - |t|, |v|);
    TrimRightIsDropEnd(t);
    ReduceIsRelax(false, t);
    assert [] + t == t;
  }

  lemma {:induction false} TrimLeftInk(v: Text)
    requires IsValue(v)
    ensures Ink(v) <==> TrimLeft(v) != []
    ensures Ink(v) ==> !IsWSP(TrimLeft(v)[0])
    ensures EndsInWSP(false, TrimLeft(v)) <==> Ink(v) && IsWSP(v[|v| - 1])
  {
    if v != [] && IsSpace(v[0]) {
      ValueSlice(v, 1, |v|);
      TrimLeftInk(v[1..]);
      assert forall i | 0 < i < |v| :: v[i] == v[1..][i - 1];
    }
  }

  lemma {:induction false} TrimLeftAppend(a: Text, b: Text)
    requires IsValue(a) && IsValue(b)
    ensures TrimLeft(a + b) == if Ink(a) then TrimLeft(a) + b else TrimLeft(b)
  {
    if a == [] {
      assert a + b == b;
    } else {
      InkTail(a);
      assert (a + b)[0] == a[0] && (a + b)[1..] == a[1..] + b;
      if IsWSP(a[0]) {
        ValueSlice(a, 1, |a|);
        TrimLeftAppend(a[1..], b);
      }
    }
  }

  lemma NothingReduced()
    ensures !Ink([]) && Reduce(false, []) == []
  {
  }

  /** A reader with white space pending, on text that has ink. */
  lemma {:induction false} ReducePending(ws: bool, b: Text)
    requires IsValue(b)
    ensures Reduce(ws, b) ==
      if Ink(b) then (if ws || IsWSP(b[0]) then [SP] else []) + Reduce(false, TrimLeft(b)) else []
    decreases |b|
  {
    if b == [] {
      NothingReduced();
    } else {
      InkTail(b);
      hide Ink;
      if IsWSP(b[0]) {
        ValueSlice(b, 1, |b|);
        ReducePending(true, b[1..]);
      }
    }
  }

  lemma ValueAppend(a: Text, b: Text)
    requires IsValue(a) && IsValue(b)
    ensures IsValue(a + b)
  {
  }

  /** Where two inked texts meet, one space stays of any white space. */
  lemma RelaxAppend(a: Text, b: Text)
    requires IsValue(a) && IsValue(b)
    ensures IsValue(a + b)
    ensures Relax(a + b) ==
      if !Ink(a) then Relax(b)
      else if !Ink(b) then Relax(a)
      else Relax(a) + (if IsWSP(a[|a| - 1]) || IsWSP(b[0]) then [SP] else []) + Relax(b)
  {
    ValueAppend(a, b);
    NothingReduced();
    hide Reduce, TrimLeft, Relax, Ink, EndsInWSP, IsValue;
    RelaxIsReduce(a);
    RelaxIsReduce(b);
    RelaxIsReduce(a + b);
    TrimLeftAppend(a, b);
    TrimLeftInk(a);
    if Ink(a) {
      var t, ws := TrimLeft(a), IsWSP(a[|a| - 1]);
      ReduceSplit(false, t, b);
      ReducePending(ws, b);
      if Ink(b) {
        Assoc(Reduce(false, t), if ws || IsWSP(b[0]) then [SP] else [], Reduce(false, TrimLeft(b)));
      }
    }
  }

  // ------------------------------------ a folded value, line by line

  /** What the verifier makes of the pieces: each line relaxed on its own,
      with one space for each fold. */
  function Refolded(ps: seq<Text>): Text {
    if ps == [] then []
    else if |ps| == 1 then Relax(ps[0])
    else Relax(ps[0]) + [SP] + Refolded(ps[1..])
  }

  /** Every piece has ink and every fold is next to white space. */
  ghost predicate FoldsAtSpace(ps: seq<Text>) {
    |ps| <= 1 ||
    (&& (forall i | 0 <= i < |ps| :: Ink(ps[i]))
     && (forall i | 0 <= i < |ps| - 1 :: AtSpace(ps[i], ps[i + 1])))
  }

  predicate AtSpace(a: Text, b: Text) {
    (a != [] && IsWSP(a[|a| - 1])) || (b != [] && IsWSP(b[0]))
  }

  ghost predicate AreValues(ps: seq<Text>) {
    forall i | 0 <= i < |ps| :: IsValue(ps[i])
  }

  lemma {:induction false} ConcatValue(ps: seq<Text>)
    requires AreValues(ps)
    ensures IsValue(Concat(ps))
  {
    if ps != [] {
      ConcatValue(ps[1..]);
    }
  }

  lemma ConcatFirst(ps: seq<Text>)
    requires ps != []
    ensures ps[0] != [] ==> Concat(ps) != [] && Concat(ps)[0] == ps[0][0]
    ensures Ink(ps[0]) ==> Ink(Concat(ps))
    ensures |ps| == 1 ==> Concat(ps) == ps[0]
  {
    InkAppend(ps[0], Concat(ps[1..]));
    assert |ps| == 1 ==> Concat(ps[1..]) == [];
  }

  lemma FoldsAtSpaceStep(ps: seq<Text>)
    requires |ps| > 1
    ensures var b := Concat(ps[1..]);
      FoldsAtSpace(ps) ==>
        Ink(ps[0]) && Ink(b) && AtSpace(ps[0], b) && FoldsAtSpace(ps[1..])
  {
    ConcatFirst(ps[1..]);
    if FoldsAtSpace(ps) {
      assert AtSpace(ps[0], ps[1]) && Ink(ps[1]);
    }
  }

  lemma FoldsAtSpaceBack(ps: seq<Text>)
    requires |ps| > 1 && Ink(ps[0]) && FoldsAtSpace(ps[1..])
    requires Ink(Concat(ps[1..])) && AtSpace(ps[0], Concat(ps[1..]))
    ensures FoldsAtSpace(ps)
  {
    ConcatFirst(ps[1..]);
    assert Ink(ps[1..][0]);
    forall i | 0 <= i < |ps|
      ensures Ink(ps[i])
    {
      assert 0 < i ==> ps[i] == ps[1..][i - 1];
    }
    forall i | 0 <= i < |ps| - 1
      ensures AtSpace(ps[i], ps[i + 1])
    {
      if 0 < i {
        assert AtSpace(ps[1..][i - 1], ps[1..][i]);
      }
    }
  }

  /** The verifier's value is never shorter than the signer's, and is the same
      exactly when every fold was made at white space and between ink. */
  lemma {:induction false} RefoldedExact(ps: seq<Text>)
    requires ps != [] && AreValues(ps)
    ensures |Relax(Concat(ps))| <= |Refolded(ps)|
    ensures Refolded(ps) == Relax(Concat(ps)) <==> FoldsAtSpace(ps)
  {
    var a, b := ps[0], Concat(ps[1..]);
    ConcatFirst(ps);
    if |ps| > 1 {
      var rest := Refolded(ps[1..]);
      RefoldedExact(ps[1..]);
      ConcatValue(ps[1..]);
      RelaxAppend(a, b);
      FoldsAtSpaceStep(ps);
      RelaxBlank(a);
      RelaxBlank(b);
      assert Refolded(ps) == Relax(a) + [SP] + rest;
      assert Concat(ps) == a + b;
      if Ink(a) && Ink(b) && AtSpace(a, b) {
        assert Relax(Concat(ps)) == Relax(a) + [SP] + Relax(b);
        Cancel(Relax(a) + [SP], rest, Relax(b));
        if FoldsAtSpace(ps[1..]) {
          FoldsAtSpaceBack(ps);
        }
      } else {
        assert |Relax(Concat(ps))| <= |Relax(a)| + |Relax(b)|;
      }
    }
  }

  lemma RelaxBlank(a: Text)
    requires IsValue(a)
    ensures !Ink(a) ==> Relax(a) == []
  {
    TrimLeftInk(a);
  }

  // ------------------------------------------- what the verifier writes

  lemma {:induction false} FWSIsCollapse(p: Text, last: bool)
    requires IsLine(p)
    ensures FWS(p, false) == Collapse(p)
    ensures p == [] || !IsWSP(p[0]) ==> FWS(p, true) == Collapse(p)
    ensures p != [] && IsWSP(p[0]) ==> Collapse(p) == [SP] + FWS(p[1..], true)
  {
    if p != [] {
      FWSIsCollapse(p[1..], last);
    }
  }

  lemma {:induction false} TrimSpaceEdges(v: Text)
    requires IsValue(v)
    ensures IsLine(TrimSpace(v))
    ensures TrimSpace(v) != [] ==> !IsWSP(TrimSpace(v)[0])
  {
    hide TrimLeft, TrimRight, Ink;
    TrimLeftInk(v);
    var t := TrimLeft(v);
    ValueSlice(v, |v| - |t|, |v|);
    var r := TrimRight(t);
    ValueSlice(t, 0, |r|);
  }

  lemma WrittenLine(v: Text, last: bool)
    requires IsValue(v)
    ensures FWS(TrimSpace(v), last) == Relax(v)
  {
    TrimSpaceEdges(v);
    FWSIsCollapse(TrimSpace(v), last);
  }

  lemma {:induction false} TrimLeftPadded(p: Text, v: Text)
    requires forall i | 0 <= i < |p| :: p[i] == SP
    ensures TrimLeft(p + v) == TrimLeft(v)
  {
    if p == [] {
      assert p + v == v;
    } else {
      TrimLeftPadded(p[1..], v);
      assert (p + v)[0] == SP && (p + v)[1..] == p[1..] + v;
    }
  }

  lemma RelaxPadded(p: Text, v: Text)
    requires forall i | 0 <= i < |p| :: p[i] == SP
    requires IsValue(v)
    ensures IsValue(p + v) && Relax(p + v) == Relax(v)
  {
    hide Collapse, TrimRight, TrimLeft;
    TrimLeftPadded(p, v);
  }

  // --------------------------------------------------- lines of a message

  function DropCR(l: Text): Text {
    if l != [] && l[|l| - 1] == CR then l[..|l| - 1] else l
  }

  /** bufio.ScanLines. */
  function ScanLines(t: Text): seq<Text>
    decreases |t|
  {
    if t == [] then []
    else
      var i := IndexByte(t, LF);
      if i == -1 then [DropCR(t)] else [DropCR(t[..i])] + ScanLines(t[i + 1..])
  }

  lemma ScanLine(l: Text, rest: Text)
    requires LF !in l
    ensures ScanLines(l + CRLF + rest) == [l] + ScanLines(rest)
  {
    var h := l + [CR];
    var t := h + [LF] + rest;
    assert t == l + CRLF + rest;
    IndexByteAfter(h, LF, rest);
    assert t[..|h|] == h && t[|h| + 1..] == rest;
    assert DropCR(h) == l;
  }

  /** A header name of fewer than 80 bytes. */
  predicate IsKey(k: Text) {
    0 < |k| < 80 && forall i | 0 <= i < |k| :: 33 <= k[i] < 127 && k[i] != COLON
  }

  ghost predicate IsEntry(e: Entry) { IsKey(e.key) && IsValue(e.value) }

  ghost predicate AreEntries(es: seq<Entry>) {
    forall i | 0 <= i < |es| :: IsEntry(es[i])
  }

  ghost function PiecesOf(e: Entry): (ps: seq<Text>)
    requires IsEntry(e)
    ensures ps != [] && Concat(ps) == e.value && AreValues(ps)
  {
    EncodeFits(e.key, e.value);
    var ps := FoldEntry(e.key, e.value).ps;
    PiecesAreValues(ps);
    ps
  }

  lemma {:induction false} PiecesAreValues(ps: seq<Text>)
    requires IsValue(Concat(ps))
    ensures AreValues(ps)
  {
    if ps != [] {
      var p, r := ps[0], Concat(ps[1..]);
      assert forall i | 0 <= i < |p| :: p[i] == Concat(ps)[i];
      assert forall i | 0 <= i < |r| :: r[i] == Concat(ps)[|p| + i];
      PiecesAreValues(ps[1..]);
      assert forall i | 0 < i < |ps| :: ps[i] == ps[1..][i - 1];
    }
  }

  ghost function EncodeAll(es: seq<Entry>): Text
    requires AreEntries(es)
  {
    if es == [] then CRLF
    else
      EncodeFits(es[0].key, es[0].value);
      HeaderFold.Text(es[0].key, es[0].value) + EncodeAll(es[1..])
  }

  ghost function FirstLineHead(e: Entry): Text {
    e.key + if e.value == [] then [COLON] else [COLON, SP]
  }

  /** The continuation lines of folded pieces. */
  function Continuation(ps: seq<Text>): seq<Text> {
    if |ps| <= 1 then [] else [PADDING + ps[1]] + Continuation(ps[1..])
  }

  ghost function EntryLines(e: Entry): seq<Text>
    requires IsEntry(e)
  {
    [FirstLineHead(e) + PiecesOf(e)[0]] + Continuation(PiecesOf(e))
  }

  lemma NoLF(v: Text)
    requires IsValue(v)
    ensures LF !in v
  {
  }

  lemma {:induction false} ScanGlue(head: Text, ps: seq<Text>, rest: Text)
    requires ps != [] && AreValues(ps) && LF !in head
    ensures ScanLines(head + Glue(ps) + CRLF + rest) == [head + ps[0]] + Continuation(ps) + ScanLines(rest)
    decreases |ps|
  {
    hide ScanLines, IsValue;
    NoLF(ps[0]);
    var l := head + ps[0];
    if |ps| == 1 {
      ScanLine(l, rest);
      assert [l] + [] + ScanLines(rest) == [l] + ScanLines(rest);
    } else {
      var more := PADDING + Glue(ps[1..]) + CRLF + rest;
      GlueSplit(head, ps, rest);
      ScanLine(l, more);
      ScanGlue(PADDING, ps[1..], rest);
      Assoc([l], [PADDING + ps[1]] + Continuation(ps[1..]), ScanLines(rest));
    }
  }

  lemma GlueSplit(head: Text, ps: seq<Text>, rest: Text)
    requires |ps| > 1
    ensures head + Glue(ps) + CRLF + rest == head + ps[0] + CRLF + (PADDING + Glue(ps[1..]) + CRLF + rest)
  {
    assert Glue(ps) == ps[0] + (CRLF + (PADDING + Glue(ps[1..])));
    var more := PADDING + Glue(ps[1..]);
    Assoc(head, ps[0], CRLF + more);
    Assoc(head + ps[0], CRLF + more, CRLF + rest);
    Assoc(CRLF, more, CRLF + rest);
    Assoc(head + ps[0], CRLF, more + (CRLF + rest));
    Assoc(more, CRLF, rest);
    Assoc(head + Glue(ps), CRLF, rest);
  }

  lemma ScanEntry(e: Entry, rest: Text)
    requires IsEntry(e)
    ensures FoldEntry(e.key, e.value).Pieces?
    ensures ScanLines(HeaderFold.Text(e.key, e.value) + rest) == EntryLines(e) + ScanLines(rest)
  {
    EncodeFits(e.key, e.value);
    var head, ps := FirstLineHead(e), PiecesOf(e);
    assert LF !in head;
    ScanGlue(head, ps, rest);
    if e.value == [] {
      assert Glue(ps) == [];
      assert head + [] == head;
    }
    assert HeaderFold.Text(e.key, e.value) + rest == head + Glue(ps) + CRLF + rest;
  }

  // ----------------------------------------------------- readRelaxedHeader

  function LowerByte(c: byte): byte {
    if 0x41 <= c <= 0x5A then c + 0x20 else c
  }

  function Lower(s: Text): (t: Text)
    ensures |t| == |s|
    ensures forall i | 0 <= i < |s| :: t[i] == LowerByte(s[i])
  {
    seq(|s|, i requires 0 <= i < |s| => LowerByte(s[i]))
  }

  /** A header name as the verifier looks for it. */
  predicate IsName(n: Text) { IsKey(n) && Lower(n) == n && SEMI !in n }

  predicate Matches(line: Text, name: Text) {
    |name| <= |line| && Lower(line[..|name|]) == Lower(name)
  }

  function AfterColon(b: Text): Text {
    var i := IndexByte(b, COLON);
    if i >= 0 then b[i + 1..] else b
  }

  function ReadContinuation(lines: seq<Text>): Text {
    if lines == [] || lines[0] == [] || !IsWSP(lines[0][0]) then []
    else [SP] + FWS(TrimSpace(lines[0]), true) + ReadContinuation(lines[1..])
  }

  function ReadRelaxed(lines: seq<Text>, name: Text): Text {
    if lines == [] || lines[0] == [] then []
    else if Matches(lines[0], name) then
      FWS(name, false) + [COLON] + FWS(TrimSpace(AfterColon(lines[0][|name|..])), false)
      + ReadContinuation(lines[1..]) + CRLF
    else ReadRelaxed(lines[1..], name)
  }

  /** What stands behind a header: the next one, or the empty line. */
  ghost predicate Ends(lines: seq<Text>) {
    lines != [] ==> lines[0] == [] || !IsWSP(lines[0][0])
  }

  /** The continuation lines of a folded value, relaxed. */
  function Refolds(ps: seq<Text>): Text {
    if |ps| <= 1 then [] else [SP] + Relax(ps[1]) + Refolds(ps[1..])
  }

  lemma {:induction false} RefoldedSplit(ps: seq<Text>)
    requires ps != []
    ensures Refolded(ps) == Relax(ps[0]) + Refolds(ps)
    decreases |ps|
  {
    if |ps| == 1 {
      assert Relax(ps[0]) + [] == Relax(ps[0]);
    } else {
      RefoldedSplit(ps[1..]);
      Assoc(Relax(ps[0]), [SP], Relax(ps[1]) + Refolds(ps[1..]));
      Assoc([SP], Relax(ps[1]), Refolds(ps[1..]));
    }
  }

  lemma ReadOneMore(p: Text, lines: seq<Text>)
    requires IsValue(p)
    ensures ReadContinuation([PADDING + p] + lines) == [SP] + Relax(p) + ReadContinuation(lines)
  {
    RelaxPadded(PADDING, p);
    WrittenLine(PADDING + p, true);
    assert ([PADDING + p] + lines)[1..] == lines;
  }

  lemma {:induction false} ReadFolded(ps: seq<Text>, more: seq<Text>)
    requires AreValues(ps) && Ends(more)
    ensures ReadContinuation(Continuation(ps) + more) == Refolds(ps)
    decreases |ps|
  {
    if |ps| <= 1 {
      assert Continuation(ps) + more == more;
    } else {
      ReadFolded(ps[1..], more);
      ReadOneMore(ps[1], Continuation(ps[1..]) + more);
      Assoc([PADDING + ps[1]], Continuation(ps[1..]), more);
    }
  }

  /** The key, lower-cased, begins with the name. */
  predicate Extends(key: Text, name: Text) {
    |name| <= |key| && Lower(key[..|name|]) == name
  }

  lemma MatchesKey(key: Text, v: Text, name: Text)
    requires IsKey(key) && IsName(name)
    ensures Matches(key + [COLON] + v, name) <==> Extends(key, name)
  {
    var l := key + [COLON] + v;
    if |name| <= |key| {
      assert l[..|name|] == key[..|name|];
    } else if |name| <= |l| {
      assert Lower(l[..|name|])[|key|] == COLON;
    }
  }

  lemma ColonAfter(key: Text, v: Text, name: Text)
    requires IsKey(key) && |name| <= |key|
    ensures AfterColon((key + [COLON] + v)[|name|..]) == v
  {
    var rest := key[|name|..];
    assert (key + [COLON] + v)[|name|..] == rest + [COLON] + v;
    IndexByteAfter(rest, COLON, v);
    assert (rest + [COLON] + v)[|rest| + 1..] == v;
  }

  ghost function Pad(e: Entry): Text {
    if e.value == [] then [] else [SP]
  }

  lemma FirstLine(e: Entry)
    requires IsEntry(e)
    ensures EntryLines(e)[0] == e.key + [COLON] + (Pad(e) + PiecesOf(e)[0])
    ensures EntryLines(e)[0] != [] && !IsWSP(EntryLines(e)[0][0])
  {
    assert EntryLines(e)[0][0] == e.key[0];
  }

  lemma PaddedNoMatch(p: Text, name: Text)
    requires IsName(name)
    ensures !Matches(PADDING + p, name)
  {
    var l := PADDING + p;
    if |name| <= |l| {
      assert l[..|name|][0] == SP;
      assert Lower(l[..|name|])[0] == SP;
    }
  }

  lemma {:induction false} SkipContinuation(ps: seq<Text>, more: seq<Text>, name: Text)
    requires IsName(name)
    ensures ReadRelaxed(Continuation(ps) + more, name) == ReadRelaxed(more, name)
    decreases |ps|
  {
    var lines := Continuation(ps) + more;
    if |ps| <= 1 {
      assert lines == more;
    } else {
      assert lines[0] == PADDING + ps[1] && lines[1..] == Continuation(ps[1..]) + more;
      PaddedNoMatch(ps[1], name);
      SkipContinuation(ps[1..], more, name);
    }
  }

  lemma ReadHit(l: Text, more: seq<Text>, name: Text, v: Text)
    requires l != [] && Matches(l, name) && AfterColon(l[|name|..]) == v && IsValue(v) && IsName(name)
    ensures ReadRelaxed([l] + more, name)
         == name + [COLON] + (Relax(v) + ReadContinuation(more)) + CRLF
  {
    WrittenLine(v, false);
    FWSWord(name);
    assert ([l] + more)[1..] == more;
    Assoc(name + [COLON], Relax(v), ReadContinuation(more));
  }

  lemma ReadOwnEntry(e: Entry, more: seq<Text>, name: Text)
    requires IsEntry(e) && IsName(name) && Extends(e.key, name) && Ends(more)
    ensures ReadRelaxed(EntryLines(e) + more, name) == name + [COLON] + Refolded(PiecesOf(e)) + CRLF
  {
    var ps, v := PiecesOf(e), Pad(e) + PiecesOf(e)[0];
    var l := EntryLines(e)[0];
    FirstLine(e);
    MatchesKey(e.key, v, name);
    ColonAfter(e.key, v, name);
    RelaxPadded(Pad(e), ps[0]);
    ReadHit(l, Continuation(ps) + more, name, v);
    ReadFolded(ps, more);
    RefoldedSplit(ps);
    Assoc([l], Continuation(ps), more);
  }

  lemma SkipEntry(e: Entry, more: seq<Text>, name: Text)
    requires IsEntry(e) && IsName(name) && !Extends(e.key, name)
    ensures ReadRelaxed(EntryLines(e) + more, name) == ReadRelaxed(more, name)
  {
    FirstLine(e);
    MatchesKey(e.key, Pad(e) + PiecesOf(e)[0], name);
    var lines := EntryLines(e) + more;
    assert lines[0] == EntryLines(e)[0] && lines[1..] == Continuation(PiecesOf(e)) + more;
    SkipContinuation(PiecesOf(e), more, name);
  }

  function FirstExtending(es: seq<Entry>, name: Text): (r: Option<Entry>)
    ensures r.Some? ==> r.value in es && Extends(r.value.key, name)
  {
    if es == [] then None
    else if Extends(es[0].key, name) then Some(es[0])
    else FirstExtending(es[1..], name)
  }

  ghost function MessageLines(es: seq<Entry>, body: Text): seq<Text>
    requires AreEntries(es)
  {
    ScanLines(EncodeAll(es) + body)
  }

  lemma LinesOfMessage(es: seq<Entry>, body: Text)
    requires AreEntries(es)
    ensures es == [] ==> MessageLines(es, body) == [[]] + ScanLines(body)
    ensures es != [] ==> MessageLines(es, body) == EntryLines(es[0]) + MessageLines(es[1..], body)
  {
    if es == [] {
      ScanLine([], body);
      assert [] + CRLF + body == EncodeAll(es) + body;
    } else {
      ScanEntry(es[0], EncodeAll(es[1..]) + body);
      Assoc(HeaderFold.Text(es[0].key, es[0].value), EncodeAll(es[1..]), body);
    }
  }

  lemma MessageEnds(es: seq<Entry>, body: Text)
    requires AreEntries(es)
    ensures Ends(MessageLines(es, body))
  {
    LinesOfMessage(es, body);
    if es != [] {
      FirstLine(es[0]);
      assert MessageLines(es, body)[0] == EntryLines(es[0])[0];
    }
  }

  /** The verifier reads the first header whose name begins with the name it
      looks for, folded as it stands in the text. */
  lemma {:induction false} ReadMessage(es: seq<Entry>, body: Text, name: Text)
    requires AreEntries(es) && IsName(name)
    ensures ReadRelaxed(MessageLines(es, body), name)
         == match FirstExtending(es, name)
            case None => []
            case Some(e) => name + [COLON] + Refolded(PiecesOf(e)) + CRLF
  {
    LinesOfMessage(es, body);
    if es != [] {
      var more := MessageLines(es[1..], body);
      if Extends(es[0].key, name) {
        MessageEnds(es[1..], body);
        ReadOwnEntry(es[0], more, name);
      } else {
        ReadMessage(es[1..], body, name);
        SkipEntry(es[0], more, name);
      }
    }
  }

  // --------------------------------------------------------------- signing

  /** email.Header.Get by a lower-case name: the first value, or nothing. */
  function Get(es: seq<Entry>, name: Text): Text {
    if es == [] then []
    else if Lower(es[0].key) == name then es[0].value
    else Get(es[1..], name)
  }

  function SignedLine(es: seq<Entry>, name: Text): Text {
    name + [COLON] + Relax(Get(es, name)) + CRLF
  }

  /** The names that end up in the h= tag, and the bytes that are hashed. */
  function SignedNames(es: seq<Entry>, names: seq<Text>): seq<Text> {
    if names == [] then []
    else (if Get(es, names[0]) == [] then [] else [names[0]]) + SignedNames(es, names[1..])
  }

  function SignedBytes(es: seq<Entry>, names: seq<Text>): Text {
    if names == [] then []
    else (if Get(es, names[0]) == [] then [] else SignedLine(es, names[0])) + SignedBytes(es, names[1..])
  }

  /** One header agrees exactly when the first header whose name extends the
      signed one has, as folded, the relaxed form of the signed value. */
  lemma HeaderAgrees(es: seq<Entry>, body: Text, name: Text, e: Entry)
    requires AreEntries(es) && IsName(name) && FirstExtending(es, name) == Some(e)
    ensures ReadRelaxed(MessageLines(es, body), name) == SignedLine(es, name)
       <==> Refolded(PiecesOf(e)) == Relax(Get(es, name))
  {
    ReadMessage(es, body, name);
    var a, b := Refolded(PiecesOf(e)), Relax(Get(es, name));
    CancelInside(name + [COLON], a, b, CRLF);
  }

  /** No header before the named one has a longer name that begins with it. */
  ghost predicate Unshadowed(es: seq<Entry>, name: Text) {
    FirstExtending(es, name).Some? && Lower(FirstExtending(es, name).value.key) == name
  }

  lemma {:induction false} UnshadowedGet(es: seq<Entry>, name: Text)
    requires Unshadowed(es, name)
    ensures Get(es, name) == FirstExtending(es, name).value.value
  {
    if Lower(es[0].key) == name {
      assert es[0].key[..|name|] == es[0].key;
    } else if !Extends(es[0].key, name) {
      UnshadowedGet(es[1..], name);
    }
  }

  /** For a header that no other one shadows, agreement means that its value
      was folded at white space only, with ink on every line. */
  lemma HeaderAgreesExact(es: seq<Entry>, body: Text, name: Text)
    requires AreEntries(es) && IsName(name) && Unshadowed(es, name)
    ensures ReadRelaxed(MessageLines(es, body), name) == SignedLine(es, name)
       <==> FoldsAtSpace(PiecesOf(FirstExtending(es, name).value))
  {
    var e := FirstExtending(es, name).value;
    UnshadowedGet(es, name);
    HeaderAgrees(es, body, name, e);
    RefoldedExact(PiecesOf(e));
  }

  // --------------------------------------- the signature header, blanked

  function Split(b: Text, c: byte): seq<Text>
    decreases |b|
  {
    var i := IndexByte(b, c);
    if i == -1 then [b] else [b[..i]] + Split(b[i + 1..], c)
  }

  function JoinWith(ps: seq<Text>, c: byte): Text {
    if ps == [] then [] else if |ps| == 1 then ps[0] else ps[0] + [c] + JoinWith(ps[1..], c)
  }

  lemma {:induction false} SplitJoin(ps: seq<Text>, c: byte)
    requires ps != [] && forall i | 0 <= i < |ps| :: c !in ps[i]
    ensures Split(JoinWith(ps, c), c) == ps
    decreases |ps|
  {
    if |ps| > 1 {
      var t := JoinWith(ps[1..], c);
      SplitJoin(ps[1..], c);
      IndexByteAfter(ps[0], c, t);
      var b := ps[0] + [c] + t;
      assert b[..|ps[0]|] == ps[0] && b[|ps[0]| + 1..] == t;
      assert ps == [ps[0]] + ps[1..];
    } else {
      assert ps == [ps[0]];
    }
  }

  const BLANK_B: Text := [SP, LOWER_B, EQUALS]

  /** A tag of the signature header as the verifier hashes it. */
  function BlankPart(part: Text): Text {
    var i := IndexByte(part, EQUALS);
    if 0 < i && TrimSpace(part[..i]) == [LOWER_B] then BLANK_B else part
  }

  function BlankParts(ps: seq<Text>): seq<Text> {
    if ps == [] then [] else [BlankPart(ps[0])] + BlankParts(ps[1..])
  }

  function TrimBreaks(b: Text): (r: Text)
    ensures r <= b
  {
    if b != [] && IsBreak(b[|b| - 1]) then TrimBreaks(b[..|b| - 1]) else b
  }

  function SignatureTail(buf: Text): Text {
    JoinWith(BlankParts(Split(TrimBreaks(buf), SEMI)), SEMI)
  }

  lemma BlankPartOf(k: Text, v: Text)
    requires EQUALS !in k
    ensures BlankPart(k + [EQUALS] + v)
         == if k != [] && TrimSpace(k) == [LOWER_B] then BLANK_B else k + [EQUALS] + v
  {
    hide TrimSpace, IndexByte;
    IndexByteAfter(k, EQUALS, v);
    assert (k + [EQUALS] + v)[..|k|] == k;
  }

  lemma TrimBreaksCRLF(b: Text)
    requires b == [] || !IsBreak(b[|b| - 1])
    ensures TrimBreaks(b + CRLF) == b
  {
    var t := b + CRLF;
    assert t[..|t| - 1] == b + [CR];
    assert (b + [CR])[..|b|] == b;
    assert TrimBreaks(b) == b;
    assert TrimBreaks(b + [CR]) == b;
  }

  lemma TrimSpaceWord(p: Text, w: Text)
    requires p == [] || p == [SP]
    requires w != [] && !IsSpace(w[0]) && !IsSpace(w[|w| - 1])
    ensures TrimSpace(p + w) == w
  {
    if p == [] {
      assert p + w == w;
    } else {
      assert (p + w)[0] == SP && (p + w)[1..] == w;
      assert TrimLeft(w) == w;
    }
  }

  /** "dkim-signature" */
  const DKIM_SIGNATURE: Text :=
    [0x64, 0x6B, 0x69, 0x6D, SP + 13, 0x73, 0x69, 0x67, 0x6E, 0x61, 0x74, 0x75, 0x72, 0x65]

  lemma DkimSignatureIsName()
    ensures IsName(DKIM_SIGNATURE)
  {
    assert Lower(DKIM_SIGNATURE) == DKIM_SIGNATURE;
  }

  /** Parts of the tags "v=1", "a=rsa-sha256" and "c=relaxed/relaxed". */
  const V_TAG: Text := [0x76, EQUALS, 0x31]
  const RSA_SHA256: Text := [0x72, 0x73, 0x61, 0x2D, 0x73, 0x68, 0x61, 0x32, 0x35, 0x36]
  const RELAXED: Text := [0x72, 0x65, 0x6C, 0x61, 0x78, 0x65, 0x64]

  function OtherTags(d: Text, s: Text, h: Text, bh: Text): seq<Text> {
    [Tag([0x61], RSA_SHA256), Tag([0x63], RELAXED + [0x2F] + RELAXED),
     Tag([0x64], d), Tag([0x73], s), Tag([0x68], h), Tag([0x62, 0x68], bh)]
  }

  function Tag(k: Text, v: Text): Text { [SP] + k + [EQUALS] + v }

  /** The value of the signature header, with `b` behind its last tag. */
  function Signature(d: Text, s: Text, h: Text, bh: Text, b: Text): Text {
    JoinWith([V_TAG] + (OtherTags(d, s, h, bh) + [BLANK_B + b]), SEMI)
  }

  /** A tag of one or two letters is kept unless it is b=. */
  lemma TagKept(k: Text, v: Text)
    requires |k| == 1 || k == [LOWER_B, 0x68]
    requires k != [LOWER_B] && SEMI !in k && EQUALS !in k && !IsSpace(k[0]) && SEMI !in v
    ensures BlankPart(Tag(k, v)) == Tag(k, v) && SEMI !in Tag(k, v)
  {
    TrimSpaceWord([SP], k);
    NotIn(EQUALS, [SP], k);
    BlankPartOf([SP] + k, v);
    NotIn(SEMI, [SP], k);
    NotIn(SEMI, [SP] + k, [EQUALS]);
    NotIn(SEMI, [SP] + k + [EQUALS], v);
    assert k != [LOWER_B];
  }

  lemma BKey(v: Text)
    ensures BlankPart(BLANK_B + v) == BLANK_B
  {
    hide *;
    BFacts(v);
    BlankPartOf([SP, LOWER_B], v);
    TrimSpaceWord([SP], [LOWER_B]);
  }

  lemma BFacts(v: Text)
    ensures BLANK_B + v == [SP, LOWER_B] + [EQUALS] + v && [SP] + [LOWER_B] == [SP, LOWER_B]
    ensures EQUALS !in [SP, LOWER_B] && !IsSpace(LOWER_B)
  {
  }

  lemma DkimSignatureFacts()
    ensures EQUALS !in DKIM_SIGNATURE && SEMI !in DKIM_SIGNATURE
    ensures DKIM_SIGNATURE != [] && !IsSpace(DKIM_SIGNATURE[0])
    ensures SEMI !in RSA_SHA256 && SEMI !in RELAXED
  {
  }

  lemma BlankPartKept(k: Text, v: Text)
    requires EQUALS !in k && TrimSpace(k) != [LOWER_B]
    ensures BlankPart(k + [EQUALS] + v) == k + [EQUALS] + v
  {
    BlankPartOf(k, v);
  }

  lemma VTag(k: Text)
    ensures k + V_TAG == (k + [0x76]) + [EQUALS] + [0x31]
  {
  }

  /** The first tag carries the header's name with it. */
  lemma FirstTag(name: Text)
    requires EQUALS !in name && SEMI !in name && |name| > 1 && !IsSpace(name[0])
    ensures var p := name + V_TAG; BlankPart(p) == p && SEMI !in p
  {
    var k := name + [0x76];
    VTag(name);
    NotIn(EQUALS, name, [0x76]);
    NotIn(SEMI, name, V_TAG);
    assert [] + k == k;
    TrimSpaceWord([], k);
    BlankPartKept(k, [0x31]);
  }

  /** Only the b= tag is blanked. */
  lemma TagsKept(d: Text, s: Text, h: Text, bh: Text)
    requires SEMI !in d && SEMI !in s && SEMI !in h && SEMI !in bh
    ensures var ts := OtherTags(d, s, h, bh);
      forall i | 0 <= i < |ts| :: BlankPart(ts[i]) == ts[i] && SEMI !in ts[i]
  {
    hide BlankPart;
    DkimSignatureFacts();
    var ts := OtherTags(d, s, h, bh);
    forall i | 0 <= i < |ts|
      ensures BlankPart(ts[i]) == ts[i] && SEMI !in ts[i]
    {
      if i == 0 {
        TagKept([0x61], RSA_SHA256);
      } else if i == 1 {
        TagKept([0x63], RELAXED + [0x2F] + RELAXED);
      } else if i == 2 {
        TagKept([0x64], d);
      } else if i == 3 {
        TagKept([0x73], s);
      } else if i == 4 {
        TagKept([0x68], h);
      } else {
        TagKept([0x62, 0x68], bh);
      }
    }
  }

  lemma JoinHead(head: Text, ps: seq<Text>, c: byte)
    requires ps != []
    ensures head + JoinWith(ps, c) == JoinWith([head + ps[0]] + ps[1..], c)
  {
    var qs := [head + ps[0]] + ps[1..];
    if |ps| > 1 {
      assert qs[1..] == ps[1..];
      Assoc(head, ps[0], [c] + JoinWith(ps[1..], c));
      Assoc(ps[0], [c], JoinWith(ps[1..], c));
      Assoc(head + ps[0], [c], JoinWith(ps[1..], c));
    }
  }

  lemma {:induction false} JoinEnd(ps: seq<Text>, c: byte)
    requires ps != [] && ps[|ps| - 1] != []
    ensures var j := JoinWith(ps, c);
      j != [] && j[|j| - 1] == ps[|ps| - 1][|ps[|ps| - 1]| - 1]
    decreases |ps|
  {
    if |ps| > 1 {
      JoinEnd(ps[1..], c);
    }
  }

  /** From the header the signer wrote, the verifier's blanking gives back the
      bytes that were hashed before the signature was there. */
  lemma SignatureBlanked(d: Text, s: Text, h: Text, bh: Text, b: Text)
    requires SEMI !in d && SEMI !in s && SEMI !in h && SEMI !in bh && SEMI !in b
    requires b != [] && !IsBreak(b[|b| - 1])
    ensures SignatureTail(DKIM_SIGNATURE + [COLON] + Signature(d, s, h, bh, b) + CRLF)
         == DKIM_SIGNATURE + [COLON] + Signature(d, s, h, bh, [])
  {
    var head, ts := DKIM_SIGNATURE + [COLON], OtherTags(d, s, h, bh);
    DkimSignatureFacts();
    NotIn(EQUALS, DKIM_SIGNATURE, [COLON]);
    NotIn(SEMI, DKIM_SIGNATURE, [COLON]);
    FirstTag(head);
    TagsKept(d, s, h, bh);
    SignatureParts(head, ts, b);
    assert BLANK_B + [] == BLANK_B;
  }

  lemma SignatureParts(head: Text, ts: seq<Text>, b: Text)
    requires SEMI !in b && b != [] && !IsBreak(b[|b| - 1])
    requires BlankPart(head + V_TAG) == head + V_TAG && SEMI !in head + V_TAG
    requires forall i | 0 <= i < |ts| :: BlankPart(ts[i]) == ts[i] && SEMI !in ts[i]
    ensures SignatureTail(head + JoinWith([V_TAG] + (ts + [BLANK_B + b]), SEMI) + CRLF)
         == head + JoinWith([V_TAG] + (ts + [BLANK_B]), SEMI)
  {
    var f, ps, qs := head + V_TAG, ts + [BLANK_B + b], ts + [BLANK_B];
    JoinTags(head, ps);
    JoinTags(head, qs);
    KeptTail(ts, b);
    BlankedCons(f, ps, qs);
    PartsBlanked([f] + ps, [f] + qs, b);
  }

  lemma JoinTags(head: Text, ts: seq<Text>)
    ensures head + JoinWith([V_TAG] + ts, SEMI) == JoinWith([head + V_TAG] + ts, SEMI)
  {
    JoinHead(head, [V_TAG] + ts, SEMI);
    assert ([V_TAG] + ts)[1..] == ts;
  }

  lemma BlankedCons(f: Text, ps: seq<Text>, qs: seq<Text>)
    requires BlankPart(f) == f && SEMI !in f && IsBlanked(ps, qs)
    ensures IsBlanked([f] + ps, [f] + qs)
  {
    assert ([f] + ps)[1..] == ps && ([f] + qs)[1..] == qs;
  }

  /** `qs` is `ps` with its b= tags blanked; no part holds a semicolon. */
  predicate IsBlanked(ps: seq<Text>, qs: seq<Text>) {
    |ps| == |qs| &&
    (ps != [] ==> SEMI !in ps[0] && qs[0] == BlankPart(ps[0]) && IsBlanked(ps[1..], qs[1..]))
  }

  lemma {:induction false} KeptTail(ts: seq<Text>, b: Text)
    requires SEMI !in b
    requires forall i | 0 <= i < |ts| :: BlankPart(ts[i]) == ts[i] && SEMI !in ts[i]
    ensures IsBlanked(ts + [BLANK_B + b], ts + [BLANK_B])
  {
    hide BlankPart;
    var ps, qs := ts + [BLANK_B + b], ts + [BLANK_B];
    if ts == [] {
      BKey(b);
      NotIn(SEMI, BLANK_B, b);
      assert IsBlanked([], []);
      assert ps[1..] == [] && qs[1..] == [];
    } else {
      KeptTail(ts[1..], b);
      assert ps[1..] == ts[1..] + [BLANK_B + b] && qs[1..] == ts[1..] + [BLANK_B];
    }
  }

  lemma {:induction false} BlankedAll(ps: seq<Text>, qs: seq<Text>)
    requires IsBlanked(ps, qs)
    ensures BlankParts(ps) == qs && forall i | 0 <= i < |ps| :: SEMI !in ps[i]
  {
    if ps != [] {
      BlankedAll(ps[1..], qs[1..]);
      assert qs == [qs[0]] + qs[1..];
    }
  }

  lemma PartsBlanked(ps: seq<Text>, qs: seq<Text>, b: Text)
    requires |ps| > 0 && ps[|ps| - 1] == BLANK_B + b && IsBlanked(ps, qs)
    requires b != [] && !IsBreak(b[|b| - 1])
    ensures SignatureTail(JoinWith(ps, SEMI) + CRLF) == JoinWith(qs, SEMI)
  {
    JoinEnd(ps, SEMI);
    TrimBreaksCRLF(JoinWith(ps, SEMI));
    BlankedAll(ps, qs);
    SplitJoin(ps, SEMI);
  }

  // ------------------------------------------------------ the whole hash

  /** Repeated names are hashed once. */
  function VerifiedBytes(lines: seq<Text>, names: seq<Text>, i: nat): Text
    requires i <= |names|
    decreases |names| - i
  {
    if i == |names| then []
    else (if names[i] in names[..i] then [] else ReadRelaxed(lines, names[i]))
         + VerifiedBytes(lines, names, i + 1)
  }

  function LowerAll(names: seq<Text>): (r: seq<Text>)
    ensures |r| == |names| && forall i | 0 <= i < |names| :: r[i] == Lower(names[i])
  {
    seq(|names|, i requires 0 <= i < |names| => Lower(names[i]))
  }

  function VerifierHash(lines: seq<Text>, names: seq<Text>): Text {
    VerifiedBytes(lines, LowerAll(names), 0) + SignatureTail(ReadRelaxed(lines, DKIM_SIGNATURE))
  }

  function SignerHash(es: seq<Entry>, names: seq<Text>, d: Text, s: Text, bh: Text): Text {
    SignedBytes(es, names) + (DKIM_SIGNATURE + [COLON]
      + Signature(d, s, JoinWith(SignedNames(es, names), COLON), bh, []))
  }

  /** The h= tag taken apart again. */
  function ParseNames(v: Text): seq<Text>
    decreases |v|
  {
    if v == [] then []
    else
      var i := IndexByte(v, COLON);
      if 0 < i then [TrimSpace(v[..i])] + ParseNames(v[i + 1..]) else [TrimSpace(v)]
  }

  lemma ParseName(n: Text, t: Text)
    requires IsKey(n)
    ensures ParseNames(n + [COLON] + t) == [n] + ParseNames(t)
    ensures ParseNames(n) == [n]
  {
    TrimSpaceWord([], n);
    assert [] + n == n;
    IndexByteAfter(n, COLON, t);
    var v := n + [COLON] + t;
    assert v[..|n|] == n && v[|n| + 1..] == t;
    assert COLON !in n;
  }

  lemma JoinParts(ps: seq<Text>, c: byte)
    ensures ps == [] ==> JoinWith(ps, c) == []
    ensures |ps| == 1 ==> JoinWith(ps, c) == ps[0]
    ensures |ps| > 1 ==> JoinWith(ps, c) == ps[0] + [c] + JoinWith(ps[1..], c)
  {
  }

  lemma NoneNamed()
    ensures ParseNames([]) == []
  {
  }

  lemma {:induction false} NamesRoundTrip(names: seq<Text>)
    requires forall i | 0 <= i < |names| :: IsKey(names[i])
    ensures ParseNames(JoinWith(names, COLON)) == names
    decreases |names|
  {
    hide *;
    JoinParts(names, COLON);
    NoneNamed();
    if |names| == 1 {
      ParseName(names[0], []);
      assert names == [names[0]];
    } else if |names| > 1 {
      NamesRoundTrip(names[1..]);
      ParseName(names[0], JoinWith(names[1..], COLON));
      assert names == [names[0]] + names[1..];
    }
  }

  /** The signed headers of the message all survive folding and lookup. */
  ghost predicate HeadersHold(es: seq<Entry>, names: seq<Text>)
    requires AreEntries(es)
  {
    forall i | 0 <= i < |names| ::
      Unshadowed(es, names[i]) && FoldsAtSpace(PiecesOf(FirstExtending(es, names[i]).value))
  }

  predicate AreNames(names: seq<Text>) {
    names == [] || (IsName(names[0]) && names[0] !in names[1..] && AreNames(names[1..]))
  }

  lemma {:induction false} NameAt(names: seq<Text>, i: nat)
    requires AreNames(names) && i < |names|
    ensures IsName(names[i]) && names[i] !in names[..i]
  {
    if 0 < i {
      NameAt(names[1..], i - 1);
      assert names[..i] == [names[0]] + names[1..][..i - 1];
    }
  }

  lemma {:induction false} SignedNamesFacts(es: seq<Entry>, names: seq<Text>)
    requires AreNames(names)
    ensures AreNames(SignedNames(es, names))
    ensures forall n | n in SignedNames(es, names) :: n in names && Get(es, n) != [] && IsName(n)
  {
    if names != [] {
      var tail := SignedNames(es, names[1..]);
      SignedNamesFacts(es, names[1..]);
      assert ([names[0]] + tail)[1..] == tail;
      assert [] + tail == tail;
    }
  }

  lemma {:induction false} SignedBytesOfSigned(es: seq<Entry>, names: seq<Text>)
    ensures SignedBytes(es, SignedNames(es, names)) == SignedBytes(es, names)
  {
    if names != [] {
      SignedBytesOfSigned(es, names[1..]);
      var tail := SignedNames(es, names[1..]);
      if Get(es, names[0]) != [] {
        assert ([names[0]] + tail)[1..] == tail;
      } else {
        assert [] + tail == tail;
      }
    }
  }

  lemma {:induction false} VerifiedIsSigned(es: seq<Entry>, all: seq<Entry>, body: Text, names: seq<Text>, i: nat)
    requires AreEntries(all) && AreNames(names) && i <= |names| && HeadersHold(all, names)
    requires forall n | n in names :: Get(es, n) != [] && Get(es, n) == Get(all, n)
    ensures VerifiedBytes(MessageLines(all, body), names, i) == SignedBytes(es, names[i..])
    decreases |names| - i
  {
    if i < |names| {
      NameAt(names, i);
      HeaderAgreesExact(all, body, names[i]);
      VerifiedIsSigned(es, all, body, names, i + 1);
      assert names[i..][0] == names[i] && names[i..][1..] == names[i + 1..];
    }
  }

  lemma {:induction false} GetAppend(es: seq<Entry>, e: Entry, name: Text)
    ensures Get(es, name) != [] ==> Get(es + [e], name) == Get(es, name)
  {
    if es != [] && Lower(es[0].key) != name {
      GetAppend(es[1..], e, name);
      assert (es + [e])[1..] == es[1..] + [e];
    }
  }

  /** Sign/verify agreement. The signer signs the entries `es`, the signature
      header is added behind them, everything is folded into lines, and the
      verifier reads the text with the names of the h= tag: it hashes the bytes
      that the signer hashed. */
  lemma Agreement(es: seq<Entry>, body: Text, names: seq<Text>, d: Text, s: Text, bh: Text, b: Text, key: Text)
    requires AreNames(names)
    requires SEMI !in d && SEMI !in s && SEMI !in bh && SEMI !in b
    requires b != [] && !IsBreak(b[|b| - 1])
    requires var h := JoinWith(SignedNames(es, names), COLON);
      var sig := Entry(key, Signature(d, s, h, bh, b));
      var all := es + [sig];
      && AreEntries(all)
      && HeadersHold(all, SignedNames(es, names) + [DKIM_SIGNATURE])
      && FirstExtending(all, DKIM_SIGNATURE) == Some(sig)
      && Relax(sig.value) == sig.value
    ensures var h := JoinWith(SignedNames(es, names), COLON);
      var all := es + [Entry(key, Signature(d, s, h, bh, b))];
      VerifierHash(MessageLines(all, body), ParseNames(h)) == SignerHash(es, names, d, s, bh)
  {
    var ks := SignedNames(es, names);
    var h := JoinWith(ks, COLON);
    var sig := Entry(key, Signature(d, s, h, bh, b));
    SignedNamesFacts(es, names);
    SignedBytesOfSigned(es, names);
    forall i | 0 <= i < |ks|
      ensures IsName(ks[i])
    {
      assert ks[i] in ks;
    }
    assert LowerAll(ks) == ks;
    NamesRoundTrip(ks);
    NamesHaveNoSemicolon(ks);
    AgreementHeaders(es, es + [sig], sig, body, ks);
    assert (ks + [DKIM_SIGNATURE])[|ks|] == DKIM_SIGNATURE;
    AgreementTail(es + [sig], sig, body);
    SignatureBlanked(d, s, h, bh, b);
  }

  lemma AgreementTail(all: seq<Entry>, sig: Entry, body: Text)
    requires AreEntries(all) && FirstExtending(all, DKIM_SIGNATURE) == Some(sig)
    requires FoldsAtSpace(PiecesOf(sig)) && Relax(sig.value) == sig.value
    ensures ReadRelaxed(MessageLines(all, body), DKIM_SIGNATURE)
         == DKIM_SIGNATURE + [COLON] + sig.value + CRLF
  {
    DkimSignatureIsName();
    ReadMessage(all, body, DKIM_SIGNATURE);
    RefoldedExact(PiecesOf(sig));
  }

  lemma AgreementHeaders(es: seq<Entry>, all: seq<Entry>, sig: Entry, body: Text, ks: seq<Text>)
    requires all == es + [sig] && AreEntries(all) && AreNames(ks)
    requires HeadersHold(all, ks + [DKIM_SIGNATURE])
    requires forall n | n in ks :: Get(es, n) != []
    ensures VerifiedBytes(MessageLines(all, body), ks, 0) == SignedBytes(es, ks)
  {
    forall i | 0 <= i < |ks|
      ensures Unshadowed(all, ks[i]) && FoldsAtSpace(PiecesOf(FirstExtending(all, ks[i]).value))
    {
      assert ks[i] == (ks + [DKIM_SIGNATURE])[i];
    }
    forall n | n in ks
      ensures Get(es, n) == Get(all, n)
    {
      GetAppend(es, sig, n);
    }
    VerifiedIsSigned(es, all, body, ks, 0);
    assert ks[0..] == ks;
  }

  lemma {:induction false} NamesHaveNoSemicolon(names: seq<Text>)
    requires forall i | 0 <= i < |names| :: IsName(names[i])
    ensures SEMI !in JoinWith(names, COLON)
    decreases |names|
  {
    if |names| > 1 {
      NamesHaveNoSemicolon(names[1..]);
    }
  }

  // -------------------------------------------- where the agreement fails

  lemma RelaxInked(v: Text)
    requires IsValue(v) && Ink(v)
    ensures Relax(v) != []
  {
    RelaxIsReduce(v);
    TrimLeftInk(v);
  }

  /** A header "Tox" without a value in front of "To": the signer hashes the
      one, the verifier reads the other. */
  lemma ShadowedHeader(v: Text, body: Text)
    requires IsValue(v) && Ink(v)
    ensures var es := [Entry([0x54, 0x6F, 0x78], []), Entry([0x54, 0x6F], v)];
      && AreEntries(es) && IsName([0x74, 0x6F]) && Get(es, [0x74, 0x6F]) == v
      && ReadRelaxed(MessageLines(es, body), [0x74, 0x6F]) != SignedLine(es, [0x74, 0x6F])
  {
    var tox: Entry, to: Entry := Entry([0x54, 0x6F, 0x78], []), Entry([0x54, 0x6F], v);
    var es: seq<Entry>, name: Text := [tox, to], [0x74, 0x6F];
    assert Lower(name) == name;
    assert tox.key[..2] == to.key && Lower(to.key) == name;
    assert Lower(tox.key)[2] == 0x78;
    assert es[1..] == [to];
    HeaderAgrees(es, body, name, tox);
    RelaxInked(v);
    RelaxBlank([]);
  }

  // ------------------------------------------------------------ the loops

  /** The signer's loop over the bytes of a value. */
  function CollapseFrom(inWS: bool, v: Text): Text
    decreases |v|
  {
    if v == [] then []
    else if IsWSP(v[0]) then (if inWS then [] else [SP]) + CollapseFrom(true, v[1..])
    else [v[0]] + CollapseFrom(false, v[1..])
  }

  lemma {:induction false} CollapseFromIs(v: Text)
    ensures CollapseFrom(false, v) == Collapse(v)
    ensures v == [] || !IsWSP(v[0]) ==> CollapseFrom(true, v) == Collapse(v)
    ensures v != [] && IsWSP(v[0]) ==> Collapse(v) == [SP] + CollapseFrom(true, v[1..])
    decreases |v|
  {
    if v != [] {
      CollapseFromIs(v[1..]);
    }
  }

  method WriteRelaxedValue(dst: Text, v: Text) returns (out: Text)
    ensures out == dst + Relax(v)
  {
    var t := TrimSpace(v);
    CollapseFromIs(t);
    out := dst;
    var inWhitespace := false;
    var i := 0;
    assert t[0..] == t;
    while i < |t|
      invariant i <= |t|
      invariant dst + Collapse(t) == out + CollapseFrom(inWhitespace, t[i..])
    {
      var c := t[i];
      assert t[i..][1..] == t[i + 1..];
      i := i + 1;
      if IsWSP(c) {
        if inWhitespace {
          continue;
        }
        inWhitespace := true;
        c := SP;
      } else {
        inWhitespace := false;
      }
      Assoc(out, [c], CollapseFrom(inWhitespace, t[i..]));
      out := out + [c];
    }
  }

  lemma Chain4(dst: Text, a: Text, b: Text, c: Text, d: Text)
    ensures dst + a + b + c + d == dst + (a + b + c + d)
  {
  }

  method WriteSignedLine(dst: Text, name: Text, v: Text) returns (out: Text)
    ensures out == dst + (name + [COLON] + Relax(v) + CRLF)
  {
    out := dst + name;
    out := out + [COLON];
    out := WriteRelaxedValue(out, v);
    out := out + CRLF;
    Chain4(dst, name, [COLON], Relax(v), CRLF);
  }

  /** collectRelaxedHeaders: the text of the h= tag and the hashed bytes. */
  method CollectRelaxedHeaders(es: seq<Entry>, names: seq<Text>) returns (keys: Text, hashed: Text)
    ensures keys == JoinWith(SignedNames(es, names), COLON)
    ensures hashed == SignedBytes(es, names)
  {
    assert JoinWith([], COLON) == [];
    hide JoinWith, Get, Relax;
    keys, hashed := [], [];
    var numHeaders := 0;
    ghost var done: seq<Text> := [];
    var i := 0;
    assert names[0..] == names;
    assert [] + SignedNames(es, names) == SignedNames(es, names);
    while i < |names|
      invariant i <= |names| && numHeaders == |done|
      invariant keys == JoinWith(done, COLON)
      invariant SignedNames(es, names) == done + SignedNames(es, names[i..])
      invariant SignedBytes(es, names) == hashed + SignedBytes(es, names[i..])
    {
      var name := names[i];
      assert names[i..][0] == name && names[i..][1..] == names[i + 1..];
      i := i + 1;
      var v := Get(es, name);
      if v == [] {
        assert [] + SignedNames(es, names[i..]) == SignedNames(es, names[i..]);
        assert [] + SignedBytes(es, names[i..]) == SignedBytes(es, names[i..]);
        continue;
      }
      JoinOneMore(done, name, COLON);
      if numHeaders > 0 {
        keys := keys + [COLON];
      }
      numHeaders := numHeaders + 1;
      keys := keys + name;
      Assoc(done, [name], SignedNames(es, names[i..]));
      done := done + [name];
      Assoc(hashed, SignedLine(es, name), SignedBytes(es, names[i..]));
      hashed := WriteSignedLine(hashed, name, v);
    }
    assert done + [] == done && hashed + [] == hashed;
  }

  lemma {:induction false} JoinOneMore(ps: seq<Text>, p: Text, c: byte)
    ensures JoinWith(ps + [p], c) == if ps == [] then p else JoinWith(ps, c) + [c] + p
    decreases |ps|
  {
    if |ps| > 1 {
      JoinOneMore(ps[1..], p, c);
      assert (ps + [p])[1..] == ps[1..] + [p];
      assert ps[0] + [c] + (JoinWith(ps[1..], c) + [c] + p) == ps[0] + [c] + JoinWith(ps[1..], c) + [c] + p;
    } else if |ps| == 1 {
      assert (ps + [p])[1..] == [p];
    } else {
      assert ps + [p] == [p];
    }
  }

  method WriteFWS(dst: Text, p: Text, last: bool) returns (out: Text)
    ensures out == dst + FWS(p, last)
  {
    out := dst;
    var lastWasWS := last;
    var i := 0;
    assert p[0..] == p;
    while i < |p|
      invariant i <= |p|
      invariant dst + FWS(p, last) == out + FWS(p[i..], lastWasWS)
    {
      var c := p[i];
      assert p[i..][1..] == p[i + 1..];
      i := i + 1;
      if IsWSP(c) || IsBreak(c) {
        if !lastWasWS {
          Assoc(out, [SP], FWS(p[i..], true));
          out := out + [SP];
          lastWasWS := true;
        }
      } else {
        Assoc(out, [c], FWS(p[i..], false));
        out := out + [c];
        lastWasWS := false;
      }
    }
  }

  /** The inner loop of readRelaxedHeader. */
  method WriteContinuation(dst: Text, lines: seq<Text>) returns (out: Text)
    ensures out == dst + ReadContinuation(lines)
  {
    out := dst;
    var i := 0;
    assert lines[0..] == lines;
    while i < |lines|
      invariant i <= |lines|
      invariant dst + ReadContinuation(lines) == out + ReadContinuation(lines[i..])
    {
      var b := lines[i];
      assert lines[i..][0] == b && lines[i..][1..] == lines[i + 1..];
      if b == [] || !IsWSP(b[0]) {
        break;
      }
      i := i + 1;
      ghost var before := out;
      out := WriteFWS(out + [SP], TrimSpace(b), true);
      ghost var w := FWS(TrimSpace(b), true);
      Assoc(before, [SP], w);
      Assoc(before, [SP] + w, ReadContinuation(lines[i..]));
    }
    assert ReadContinuation(lines[i..]) == [];
  }

  lemma Chain(dst: Text, a: Text, b: Text, c: Text, d: Text, e: Text)
    ensures dst + a + b + c + d + e == dst + (a + b + c + d + e)
  {
  }

  method WriteHeader(dst: Text, name: Text, b: Text, more: seq<Text>) returns (out: Text)
    ensures out == dst + (FWS(name, false) + [COLON] + FWS(TrimSpace(b), false) + ReadContinuation(more) + CRLF)
  {
    out := WriteFWS(dst, name, false);
    out := WriteFWS(out + [COLON], TrimSpace(b), false);
    out := WriteContinuation(out, more);
    out := out + CRLF;
    Chain(dst, FWS(name, false), [COLON], FWS(TrimSpace(b), false), ReadContinuation(more), CRLF);
  }

  /** readRelaxedHeader on the lines of the source. */
  method ReadRelaxedHeader(dst: Text, lines: seq<Text>, name: Text) returns (out: Text)
    ensures out == dst + ReadRelaxed(lines, name)
  {
    var i := 0;
    assert lines[0..] == lines;
    while i < |lines|
      invariant i <= |lines| && ReadRelaxed(lines, name) == ReadRelaxed(lines[i..], name)
    {
      var b := lines[i];
      assert lines[i..][0] == b && lines[i..][1..] == lines[i + 1..];
      i := i + 1;
      if b == [] {
        break; // headers are done
      }
      if Matches(b, name) {
        out := WriteHeader(dst, name, AfterColon(b[|name|..]), lines[i..]);
        return;
      }
    }
    assert dst + [] == dst;
    return dst;
  }

  lemma {:induction false} FWSWord(name: Text)
    requires forall i | 0 <= i < |name| :: !IsWSP(name[i]) && !IsBreak(name[i])
    ensures FWS(name, false) == name
  {
    if name != [] {
      FWSWord(name[1..]);
    }
  }

  /** relaxedHeaders: everything the verifier hashes of the header. */
  method RelaxedHeaders(lines: seq<Text>, headerNames: seq<Text>) returns (hashed: Text)
    ensures hashed == VerifierHash(lines, headerNames)
  {
    var names := LowerAll(headerNames);
    hashed := [];
    var i := 0;
    while i < |names|
      invariant i <= |names|
      invariant VerifiedBytes(lines, names, 0) == hashed + VerifiedBytes(lines, names, i)
    {
      if names[i] !in names[..i] {
        Assoc(hashed, ReadRelaxed(lines, names[i]), VerifiedBytes(lines, names, i + 1));
        hashed := ReadRelaxedHeader(hashed, lines, names[i]);
      } else {
        assert [] + VerifiedBytes(lines, names, i + 1) == VerifiedBytes(lines, names, i + 1);
      }
      i := i + 1;
    }
    var buf := ReadRelaxedHeader([], lines, DKIM_SIGNATURE);
    assert buf == ReadRelaxed(lines, DKIM_SIGNATURE);
    var tail := WriteBlanked(Split(TrimBreaks(buf), SEMI));
    assert hashed + [] == hashed;
    hashed := hashed + tail;
  }

  method WriteBlanked(parts: seq<Text>) returns (out: Text)
    ensures out == JoinWith(BlankParts(parts), SEMI)
  {
    hide *;
    out := [];
    ghost var done: seq<Text> := [];
    var i := 0;
    NothingBlanked();
    assert parts[0..] == parts && [] + BlankParts(parts) == BlankParts(parts);
    while i < |parts|
      invariant i <= |parts| && |done| == i
      invariant BlankParts(parts) == done + BlankParts(parts[i..])
      invariant out == JoinWith(done, SEMI)
    {
      var part := parts[i];
      BlankedFirst(parts, i);
      JoinOneMore(done, BlankPart(part), SEMI);
      Assoc(done, [BlankPart(part)], BlankParts(parts[i + 1..]));
      if i > 0 {
        out := out + [SEMI];
      }
      out := WritePart(out, part);
      done := done + [BlankPart(part)];
      i := i + 1;
    }
    assert parts[i..] == [] && done + [] == done;
  }

  /** One tag, b= without its value. */
  method WritePart(dst: Text, part: Text) returns (out: Text)
    ensures out == dst + BlankPart(part)
  {
    hide TrimSpace, IndexByte;
    var i := IndexByte(part, EQUALS);
    if 0 < i && TrimSpace(part[..i]) == [LOWER_B] {
      out := dst + BLANK_B;
    } else {
      out := dst + part;
    }
  }

  lemma NothingBlanked()
    ensures BlankParts([]) == [] && JoinWith([], SEMI) == []
  {
  }

  lemma BlankedFirst(parts: seq<Text>, i: nat)
    requires i < |parts|
    ensures BlankParts(parts[i..]) == [BlankPart(parts[i])] + BlankParts(parts[i + 1..])
  {
    hide BlankPart;
    assert parts[i..][0] == parts[i] && parts[i..][1..] == parts[i + 1..];
  }
}
