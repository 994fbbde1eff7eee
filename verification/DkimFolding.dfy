/** Which header values come through folding whole, told from the values
    themselves: those without a word that is too long for a line. */
module DkimFolding {
  import opened Bytes
  import opened Wrappers
  import opened BodyCanon
  import opened HeaderFold
  import opened DkimHeaders
  import HeaderIndex

  /** Single spaces only, and none at the end. */
  predicate Spaced(v: seq<byte>) {
    && (forall i | 0 <= i < |v| :: v[i] != TAB)
    && (forall i | 0 <= i < |v| - 1 :: v[i] != SP || v[i + 1] != SP)
    && (v != [] ==> v[|v| - 1] != SP)
  }

  function WordEnd(v: seq<byte>, i: nat): (j: nat)
    requires i <= |v|
    ensures i <= j <= |v|
    ensures j < |v| ==> v[j] == SP
    ensures forall k | i <= k < j :: v[k] != SP
    decreases |v| - i
  {
    if i == |v| || v[i] == SP then i else WordEnd(v, i + 1)
  }

  /** A word that does not fit a line on which `spent` bytes are taken, or just
      fits the last one: the first word, or with the space in front of it one
      of those behind it, which may start a line of their own. */
  predicate TooLong(v: seq<byte>, spent: int)
    decreases |v|
  {
    v != [] &&
    var j := WordEnd(v, 1);
    j > 998 - spent || (j == |v| && j == 998 - spent) || (j < |v| && TooLong(v[j..], |PADDING|))
  }

  // ------------------------------------------------- words and line breaks

  lemma {:induction false} ShortWords(v: seq<byte>)
    requires |v| < 994
    ensures !TooLong(v, |PADDING|)
    decreases |v|
  {
    if v != [] {
      ShortWords(v[WordEnd(v, 1)..]);
    }
  }

  /** Words in front of a space close by do not matter. */
  lemma {:induction false} SkipWords(v: seq<byte>, i: nat)
    requires 0 < i < |v| && i <= 994 && v[i] == SP
    ensures TooLong(v, |PADDING|) <==> TooLong(v[i..], |PADDING|)
    decreases |v|
  {
    var j := WordEnd(v, 1);
    if j < i {
      var w := v[j..];
      SkipWords(w, i - j);
      assert w[i - j..] == v[i..];
    }
  }

  lemma SkipLine(v: seq<byte>, spent: int, i: nat)
    requires -1 <= spent <= 77 && NextCut(v, spent) == CutAt(i) && 0 < i < |v| && v[i] == SP
    ensures TooLong(v, spent) <==> TooLong(v[i..], |PADDING|)
  {
    var j := WordEnd(v, 1);
    assert j <= i <= 998 - spent;
    if j < i {
      var w := v[j..];
      assert i - j <= 994;
      SkipWords(w, i - j);
      assert w[i - j..] == v[i..];
    }
  }

  lemma LastLine(v: seq<byte>, spent: int)
    requires -1 <= spent <= 77 && NextCut(v, spent) == NoCut
    ensures !TooLong(v, spent)
  {
    if v != [] {
      var j := WordEnd(v, 1);
      assert |v| < 998 - spent;
      if j < |v| {
        assert |v[j..]| < 994;
        ShortWords(v[j..]);
      }
    }
  }

  /** A forced break falls inside a word, or behind the last one, unless it
      meets a space. */
  lemma TornHere(v: seq<byte>, spent: int, i: nat)
    requires -1 <= spent <= 77 && NextCut(v, spent) == CutAt(i) && 0 < i <= |v| && (i < |v| ==> v[i] != SP)
    ensures i == 998 - spent && TooLong(v, spent) && v[i - 1] != SP
  {
    assert i == 998 - spent;
  }

  // ------------------------------------------------------------ one value

  /** A value of single spaces is folded at white space, and between ink, exactly
      when it has no word too long. */
  lemma {:induction false} FoldsWhole(v: seq<byte>, spent: int)
    requires -1 <= spent <= 77 && Spaced(v)
    ensures Fold(v, spent).Pieces?
    ensures FoldsAtSpace(Fold(v, spent).ps) <==> !TooLong(v, spent)
    decreases |v|
  {
    hide *;
    Spaces(v);
    FoldStep(v, spent);
    match NextCut(v, spent)
    case NoCut =>
      LastLine(v, spent);
      OneAtSpace(v);
    case CutAt(i) =>
      var rest := v[i..];
      FoldFits(rest, |PADDING|);
      var qs := Fold(rest, |PADDING|).ps;
      var ps := [v[..i]] + qs;
      assert ps[1..] == qs;
      FirstPiece(qs, rest);
      if i < |v| && v[i] == SP {
        Inked(v, i);
        FoldsWhole(rest, |PADDING|);
        SkipLine(v, spent, i);
        FoldsAtSpaceStep(ps);
        if FoldsAtSpace(qs) {
          FoldsAtSpaceBack(ps);
        }
      } else {
        TornHere(v, spent, i);
        NotAtSpace(ps);
      }
  }

  lemma FoldStep(v: seq<byte>, spent: int)
    requires -1 <= spent <= 77
    ensures match NextCut(v, spent)
      case NoCut => Fold(v, spent) == Pieces([v])
      case CutAt(i) =>
        && 0 < i <= |v| && Fold(v[i..], |PADDING|).Pieces?
        && Fold(v, spent) == Pieces([v[..i]] + Fold(v[i..], |PADDING|).ps)
  {
    FoldFits(v, spent);
  }

  lemma OneAtSpace(v: seq<byte>)
    ensures FoldsAtSpace([v])
  {
  }

  lemma Spaces(v: seq<byte>)
    requires Spaced(v)
    ensures IsWSP(SP) && |PADDING| <= 77 && forall i | 0 <= i < |v| :: IsWSP(v[i]) ==> v[i] == SP
  {
  }

  lemma FirstPiece(qs: seq<seq<byte>>, rest: seq<byte>)
    requires qs != [] && Concat(qs) == rest && forall j | 0 <= j < |qs| - 1 :: qs[j] != []
    ensures rest == [] ==> qs[0] == []
    ensures rest != [] ==> qs[0] != [] && qs[0][0] == rest[0]
  {
    if |qs| == 1 {
      assert Concat(qs[1..]) == [];
    }
  }

  lemma NotAtSpace(ps: seq<seq<byte>>)
    requires |ps| > 1 && ps[0] != [] && !IsWSP(ps[0][|ps[0]| - 1])
    requires ps[1] == [] || !IsWSP(ps[1][0])
    ensures !FoldsAtSpace(ps)
  {
    assert !AtSpace(ps[0], ps[1]);
  }

  lemma Inked(v: seq<byte>, i: nat)
    requires Spaced(v) && 0 < i < |v| && v[i] == SP
    ensures Ink(v[..i]) && Ink(v[i..]) && Spaced(v[i..])
  {
    var k := if v[0] == SP then 1 else 0;
    assert !IsWSP(v[..i][k]);
    var w := v[i..];
    assert w[|w| - 1] == v[|v| - 1] && !IsWSP(w[|w| - 1]);
  }

  // A relaxed value has single spaces.

  lemma {:induction false} TrimRightEnd(v: seq<byte>)
    ensures var r := TrimRight(v); r != [] ==> !IsSpace(r[|r| - 1])
    decreases |v|
  {
    if v != [] && IsSpace(v[|v| - 1]) {
      TrimRightEnd(v[..|v| - 1]);
    }
  }

  lemma {:induction false} CollapseSpaced(l: seq<byte>)
    requires l != [] ==> !IsWSP(l[|l| - 1])
    ensures Spaced(Collapse(l))
    ensures l != [] ==> Collapse(l) != [] && (Collapse(l)[0] == SP <==> IsWSP(l[0]))
  {
    if l != [] {
      var t := l[1..];
      assert t != [] ==> t[|t| - 1] == l[|l| - 1] && t[0] == l[1];
      CollapseSpaced(t);
      hide Spaced;
      SpacedBehind(l[0], Collapse(t));
      SpacedBehind(SP, Collapse(t));
      hide Collapse;
      CollapseOne(l);
      SpacedNone();
    }
  }

  lemma SpacedNone()
    ensures Spaced([])
  {
  }

  lemma CollapseOne(l: seq<byte>)
    requires l != []
    ensures Collapse(l) == if !IsWSP(l[0]) then [l[0]] + Collapse(l[1..])
      else if 2 <= |l| && IsWSP(l[1]) then Collapse(l[1..]) else [SP] + Collapse(l[1..])
  {
  }

  lemma SpacedBehind(c: byte, v: seq<byte>)
    requires Spaced(v)
    ensures Spaced([c] + v) <==> c != TAB && (c == SP ==> v != [] && v[0] != SP)
  {
    var w := [c] + v;
    assert forall i | 0 < i < |w| :: w[i] == v[i - 1];
    if c == SP && v != [] && v[0] == SP {
      assert w[0] == SP && w[1] == SP;
    }
    if c == TAB {
      assert w[0] == TAB;
    }
    if c == SP && v == [] {
      assert w[|w| - 1] == SP;
    }
  }

  lemma RelaxedSpaced(v: seq<byte>)
    requires Relax(v) == v
    ensures Spaced(v)
  {
    var t := TrimSpace(v);
    TrimRightEnd(TrimLeft(v));
    CollapseSpaced(t);
  }

  // ----------------------------------------------------------- agreement

  /** The text of a header is the text whose lines the verifier reads. */
  lemma {:induction false} HeaderTextIs(es: seq<Entry>)
    requires AreEntries(es)
    ensures HeaderIndex.HeaderText(es) == Some(EncodeAll(es))
  {
    if es != [] {
      EncodeFits(es[0].key, es[0].value);
      HeaderTextIs(es[1..]);
    }
  }

  /** A header value as it should be: relaxed already, and without a word too
      long for its line. */
  predicate Tidy(e: Entry) {
    Relax(e.value) == e.value && !TooLong(e.value, |e.key| - 2)
  }

  lemma EntryFolds(e: Entry)
    requires IsEntry(e) && Relax(e.value) == e.value
    ensures FoldsAtSpace(PiecesOf(e)) <==> Tidy(e)
  {
    RelaxedSpaced(e.value);
    hide Relax;
    if e.value != [] {
      FoldsWhole(e.value, |e.key| - 2);
    }
  }

  /** The verifier finds the bytes that were signed for a header of single
      spaces, which no other one shadows, exactly when it has no word too long. */
  lemma TidyExact(es: seq<Entry>, body: seq<byte>, name: seq<byte>)
    requires AreEntries(es) && IsName(name) && Unshadowed(es, name)
    requires var e := FirstExtending(es, name).value; Relax(e.value) == e.value
    ensures var e := FirstExtending(es, name).value;
      ReadRelaxed(MessageLines(es, body), name) == SignedLine(es, name) <==> !TooLong(e.value, |e.key| - 2)
  {
    HeaderAgreesExact(es, body, name);
    EntryFolds(FirstExtending(es, name).value);
  }

  /** Sign/verify agreement for any message whose signed headers are tidy, the
      signature with them, and not shadowed; the others may be as they like. */
  lemma TidyAgreement(es: seq<Entry>, body: seq<byte>, names: seq<seq<byte>>, d: seq<byte>, s: seq<byte>,
                      bh: seq<byte>, b: seq<byte>, key: seq<byte>)
    requires AreNames(names)
    requires SEMI !in d && SEMI !in s && SEMI !in bh && SEMI !in b
    requires b != [] && !IsBreak(b[|b| - 1])
    requires var sig := Entry(key, Signature(d, s, JoinWith(SignedNames(es, names), COLON), bh, b));
      var all := es + [sig];
      && AreEntries(all) && Lower(key) == DKIM_SIGNATURE && FirstExtending(es, DKIM_SIGNATURE) == None
      && (forall n | n in SignedNames(es, names) :: Unshadowed(all, n) && Tidy(FirstExtending(all, n).value))
      && Tidy(sig)
    ensures var h := JoinWith(SignedNames(es, names), COLON);
      var all := es + [Entry(key, Signature(d, s, h, bh, b))];
      VerifierHash(MessageLines(all, body), ParseNames(h)) == SignerHash(es, names, d, s, bh)
  {
    var ks := SignedNames(es, names);
    var h := JoinWith(ks, COLON);
    var sig := Entry(key, Signature(d, s, h, bh, b));
    var all := es + [sig];
    SignatureFound(es, sig);
    hide *;
    TidyHold(all, ks + [DKIM_SIGNATURE], sig);
    TidyIs(sig);
    Agreement(es, body, names, d, s, bh, b, key);
  }

  lemma TidyIs(e: Entry)
    requires Tidy(e)
    ensures Relax(e.value) == e.value
  {
  }

  lemma {:induction false} SignatureFound(es: seq<Entry>, sig: Entry)
    requires Lower(sig.key) == DKIM_SIGNATURE && FirstExtending(es, DKIM_SIGNATURE) == None
    ensures FirstExtending(es + [sig], DKIM_SIGNATURE) == Some(sig) && Unshadowed(es + [sig], DKIM_SIGNATURE)
    decreases |es|
  {
    hide DKIM_SIGNATURE;
    if es == [] {
      assert [] + [sig] == [sig];
      assert sig.key[..|sig.key|] == sig.key;
    } else {
      SignatureFound(es[1..], sig);
      assert (es + [sig])[1..] == es[1..] + [sig];
    }
  }

  lemma TidyHold(all: seq<Entry>, names: seq<seq<byte>>, sig: Entry)
    requires AreEntries(all) && names != [] && names[|names| - 1] == DKIM_SIGNATURE
    requires FirstExtending(all, DKIM_SIGNATURE) == Some(sig) && Unshadowed(all, DKIM_SIGNATURE) && Tidy(sig)
    requires forall n | n in names[..|names| - 1] :: Unshadowed(all, n) && Tidy(FirstExtending(all, n).value)
    ensures HeadersHold(all, names)
  {
    hide Tidy, FoldsAtSpace, PiecesOf;
    forall i | 0 <= i < |names|
      ensures Unshadowed(all, names[i]) && IsEntry(FirstExtending(all, names[i]).value)
      ensures FoldsAtSpace(PiecesOf(FirstExtending(all, names[i]).value))
    {
      assert i < |names| - 1 ==> names[i] in names[..|names| - 1];
      assert Unshadowed(all, names[i]);
      var e := FirstExtending(all, names[i]).value;
      TidyIs(e);
      EntryFolds(e);
    }
  }
}
