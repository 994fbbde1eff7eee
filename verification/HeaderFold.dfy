/** How a header entry is folded into lines (email/header.go). */
module HeaderFold {
  import opened Bytes

  const COLON: byte := 0x3A
  const PADDING: seq<byte> := [SP, SP, SP, SP]
  const FOLD: seq<byte> := CRLF + PADDING

  datatype Entry = Entry(key: seq<byte>, value: seq<byte>)

  /** Where the backward search for a space ends that starts at index `i`:
      at the last space behind index 0, or else at 0; `i` if that is lower. */
  function Find(v: seq<byte>, i: int): (j: int)
    requires i < |v|
    ensures j <= i
    ensures 0 <= i ==> 0 <= j
    ensures i < 0 ==> j == i
    ensures 0 < j ==> v[j] == SP
    ensures forall k | j < k <= i && 0 < k :: v[k] != SP
  {
    if i <= 0 || v[i] == SP then i else Find(v, i - 1)
  }

  datatype Cut = NoCut | CutAt(i: int)

  /** What happens to the rest `v` of a value on a line with `spent` bytes:
      a break at a space near column 78, or near 998, or a forced one. */
  function NextCut(v: seq<byte>, spent: int): Cut {
    if |v| < 78 - spent then NoCut
    else
      var i := Find(v, 77 - spent);
      if i != 0 then CutAt(i)
      else if |v| < 998 - spent then NoCut
      else
        var j := Find(v, 997 - spent);
        CutAt(if j == 0 then 998 - spent else j)
  }

  datatype Folded = Pieces(ps: seq<seq<byte>>) | Panics

  /** The pieces of a value; slicing at a negative index panics. */
  function Fold(v: seq<byte>, spent: int): Folded
    decreases |v|
  {
    match NextCut(v, spent)
    case NoCut => Pieces([v])
    case CutAt(i) =>
      if i < 0 then Panics
      else if i == 0 || |v| < i then assert false; Panics
      else
        match Fold(v[i..], |PADDING|)
        case Panics => Panics
        case Pieces(ps) => Pieces([v[..i]] + ps)
  }

  function Concat(ps: seq<seq<byte>>): seq<byte> {
    if ps == [] then [] else ps[0] + Concat(ps[1..])
  }

  /** The pieces with a line end and padding between them. */
  function Glue(ps: seq<seq<byte>>): seq<byte> {
    if ps == [] then []
    else if |ps| == 1 then ps[0]
    else ps[0] + FOLD + Glue(ps[1..])
  }

  function FoldEntry(key: seq<byte>, value: seq<byte>): Folded {
    if value == [] then Pieces([[]]) else Fold(value, |key| - 2)
  }

  /** The text of an entry, when it is written at all. */
  function Text(key: seq<byte>, value: seq<byte>): seq<byte>
    requires FoldEntry(key, value).Pieces?
  {
    if value == [] then key + [COLON] + CRLF
    else key + [COLON, SP] + Glue(FoldEntry(key, value).ps) + CRLF
  }

  /** The pieces make up the value, each fits its line, and none but the last
      is empty. */
  lemma {:induction false} FoldFits(v: seq<byte>, spent: int)
    requires spent <= 77
    ensures var f := Fold(v, spent);
      && f.Pieces? && f.ps != []
      && Concat(f.ps) == v
      && |f.ps[0]| <= 998 - spent
      && (forall j | 0 <= j < |f.ps| - 1 :: f.ps[j] != [])
      && (forall j | 1 <= j < |f.ps| :: |f.ps[j]| <= 994)
    decreases |v|
  {
    var cut := NextCut(v, spent);
    if cut.NoCut? {
      assert Concat([v]) == v + Concat([]);
    } else {
      var i := cut.i;
      assert 1 <= i <= 998 - spent;
      FoldFits(v[i..], 4);
      var ps := Fold(v[i..], 4).ps;
      assert ([v[..i]] + ps)[1..] == ps;
      assert v == v[..i] + v[i..];
    }
  }

  /** Encoding fails exactly for a value under a key of 80 bytes or more. */
  lemma EncodePanics(key: seq<byte>, value: seq<byte>)
    ensures FoldEntry(key, value).Panics? <==> |key| >= 80 && value != []
  {
    if value != [] {
      if |key| < 80 {
        FoldFits(value, |key| - 2);
      } else {
        assert NextCut(value, |key| - 2) == CutAt(79 - |key|);
      }
    }
  }

  /** The lines of an entry are at most 1002 bytes (the first one) and 998
      bytes (the others) long, and the value is there piece by piece. */
  lemma EncodeFits(key: seq<byte>, value: seq<byte>)
    requires |key| < 80
    ensures var f := FoldEntry(key, value);
      && f.Pieces? && f.ps != [] && Concat(f.ps) == value
      && |key + [COLON, SP] + f.ps[0]| <= 1002
      && (forall j | 1 <= j < |f.ps| :: |PADDING + f.ps[j]| <= 998)
  {
    if value != [] {
      FoldFits(value, |key| - 2);
    } else {
      assert Concat([[]]) == [] + Concat([]);
    }
  }

  /** A line of 1002 bytes does occur. */
  lemma LongestLine(v: seq<byte>)
    requires |v| == 1000 && forall i | 0 <= i < |v| :: v[i] != SP
    ensures var f := FoldEntry([0x41], v);
      f.Pieces? && f.ps == [v[..999], v[999..]] && |[0x41] + [COLON, SP] + f.ps[0]| == 1002
  {
    assert NextCut(v, -1) == CutAt(999);
    assert NextCut(v[999..], 4) == NoCut;
    assert Fold(v[999..], 4) == Pieces([v[999..]]);
  }

  /** A space from place `a` to place `b`. */
  predicate SpaceIn(v: seq<byte>, a: int, b: int) {
    exists j :: 0 <= j < |v| && a <= j <= b && v[j] == SP
  }

  lemma FirstCut(v: seq<byte>, spent: int)
    requires -2 <= spent <= 77 && v != []
    ensures Fold(v, spent).Pieces? && Fold(v, spent).ps != []
    ensures match NextCut(v, spent)
      case NoCut => Fold(v, spent).ps[0] == v
      case CutAt(i) => 0 < i <= |v| && |Fold(v, spent).ps[0]| == i
  {
    FoldFits(v, spent);
  }

  /** The first line exceeds 998 bytes if and only if the value does not fit it,
      has no space in front of column 80, and then either just fits the 1001
      bytes there are, or has its last space in the last three places for one,
      or none at all. */
  lemma FirstLineExact(key: seq<byte>, value: seq<byte>)
    requires |key| < 80 && value != []
    ensures var f, k := FoldEntry(key, value), |key|;
      && f.Pieces? && f.ps != []
      && (|key + [COLON, SP] + f.ps[0]| > 998 <==>
            && k + |value| > 996 && !SpaceIn(value, 1, 79 - k)
            && (k + |value| < 1000 || SpaceIn(value, 997 - k, 999 - k) || !SpaceIn(value, 1, 999 - k)))
  {
    var k, spent := |key|, |key| - 2;
    FirstCut(value, spent);
    if |value| >= 78 - spent {
      LastSpace(value, 77 - spent);
      if |value| >= 998 - spent {
        LastSpace(value, 997 - spent);
        assert SpaceIn(value, 1, 79 - k) ==> SpaceIn(value, 1, 999 - k);
        assert SpaceIn(value, 997 - k, 999 - k) <==> Find(value, 997 - spent) >= 997 - k;
      }
    }
  }

  /** The search ends at the last space behind place 0, if there is one. */
  lemma LastSpace(v: seq<byte>, i: int)
    requires 0 <= i < |v|
    ensures SpaceIn(v, 1, i) <==> Find(v, i) > 0
    ensures forall a | 0 < a :: SpaceIn(v, a, i) <==> Find(v, i) >= a
  {
    var j := Find(v, i);
    forall a | 0 < a
      ensures SpaceIn(v, a, i) <==> j >= a
    {
      if j >= a {
        assert v[j] == SP;
      }
    }
  }

  // ------------------------------------------------------------ the breaks

  /** A line with `spent` bytes on it takes all of `v`: it stays below 78, or
      nothing could be broken off for that and it stays below 998. */
  predicate Whole(v: seq<byte>, spent: int) {
    |v| + spent < 78 || (|v| + spent < 998 && !SpaceIn(v, 1, 77 - spent))
  }

  /** A line takes `i` bytes of `v`: up to the last space that keeps it below 78,
      or for want of one up to the last that keeps it below 998, or for want of
      that as many as make 998. */
  predicate Breaks(v: seq<byte>, spent: int, i: nat) {
    && 0 < i <= |v| && |v| + spent >= 78
    && if SpaceIn(v, 1, 77 - spent) then BreaksAt(v, i, 77 - spent)
       else |v| + spent >= 998 && if SpaceIn(v, 1, 997 - spent) then BreaksAt(v, i, 997 - spent) else i + spent == 998
  }

  predicate BreaksAt(v: seq<byte>, i: nat, last: int) {
    i < |v| && i <= last && v[i] == SP && !SpaceIn(v, i + 1, last)
  }

  lemma CutMeans(v: seq<byte>, spent: int)
    requires -2 <= spent <= 77
    ensures match NextCut(v, spent)
      case NoCut => Whole(v, spent)
      case CutAt(i) => 0 <= i && Breaks(v, spent, i)
  {
    if |v| >= 78 - spent {
      LastSpace(v, 77 - spent);
      if |v| >= 998 - spent {
        LastSpace(v, 997 - spent);
      }
    }
  }

  lemma CutShortens(v: seq<byte>, spent: int)
    requires -2 <= spent <= 77 && NextCut(v, spent).CutAt?
    ensures 0 < NextCut(v, spent).i <= |v|
  {
    CutMeans(v, spent);
  }

  /** So every line but the last is broken as far to the right as the limits
      allow, and a line is longer than 77 bytes only where it has no space to
      break it at. */
  lemma {:induction false} LinesBreak(v: seq<byte>, spent: int, k: nat)
    requires -2 <= spent <= 77
    requires Fold(v, spent).Pieces? && k < |Fold(v, spent).ps|
    ensures var ps := Fold(v, spent).ps;
      var room, rest := if k == 0 then spent else |PADDING|, Concat(ps[k..]);
      if k == |ps| - 1 then ps[k] == rest && Whole(rest, room)
      else |ps[k]| <= |rest| && ps[k] == rest[..|ps[k]|] && Breaks(rest, room, |ps[k]|)
    decreases |v|
  {
    hide Whole, Breaks, Find;
    FoldFits(v, spent);
    CutMeans(v, spent);
    var ps, cut := Fold(v, spent).ps, NextCut(v, spent);
    assert ps[0..] == ps;
    if cut.CutAt? {
      var t := v[cut.i..];
      CutShortens(v, spent);
      var qs := Fold(t, |PADDING|).ps;
      assert ps == [v[..cut.i]] + qs;
      FoldFits(t, |PADDING|);
      if k > 0 {
        LinesBreak(t, |PADDING|, k - 1);
        assert ps[k..] == qs[k - 1..];
      }
    }
  }

  // -------------------------------------------------------------- unfolding

  /** Deletes every line end with padding behind it. */
  function Unfold(t: seq<byte>): seq<byte>
    decreases |t|
  {
    if t == [] then []
    else if FOLD <= t then Unfold(t[|FOLD|..])
    else [t[0]] + Unfold(t[1..])
  }

  lemma {:induction false} UnfoldPiece(p: seq<byte>, t: seq<byte>)
    requires CR !in p
    ensures Unfold(p + t) == p + Unfold(t)
  {
    if p == [] {
      assert p + t == t;
    } else {
      var s := p + t;
      assert s[0] == p[0] && p[0] in p;
      assert !(FOLD <= s) by { assert FOLD[0] == CR; }
      assert s[1..] == p[1..] + t;
      UnfoldPiece(p[1..], t);
    }
  }

  lemma {:induction false} UnfoldGlue(ps: seq<seq<byte>>)
    requires CR !in Concat(ps)
    ensures Unfold(Glue(ps)) == Concat(ps)
  {
    if ps != [] {
      var p, rest := ps[0], Concat(ps[1..]);
      assert forall c | c in p :: c in Concat(ps);
      assert forall c | c in rest :: c in Concat(ps);
      if |ps| == 1 {
        UnfoldPiece(p, []);
        assert p + [] == p;
      } else {
        var g := Glue(ps[1..]);
        Assoc(p, FOLD, g);
        UnfoldPiece(p, FOLD + g);
        assert (FOLD + g)[|FOLD|..] == g;
        UnfoldGlue(ps[1..]);
      }
    }
  }

  /** Taking the folds out again gives back the value. */
  lemma FoldUnfold(key: seq<byte>, value: seq<byte>)
    requires |key| < 80 && CR !in value
    ensures FoldEntry(key, value).Pieces?
    ensures Unfold(Glue(FoldEntry(key, value).ps)) == value
  {
    EncodeFits(key, value);
    UnfoldGlue(FoldEntry(key, value).ps);
  }

  // ------------------------------------------------------------ the method

  /** With `text` written and `v` to go, the outcome is still that of the
      folding `f` behind `start`. */
  ghost predicate OnTrack(f: Folded, start: seq<byte>, text: seq<byte>, v: seq<byte>, spent: int) {
    && (f.Panics? <==> Fold(v, spent).Panics?)
    && (f.Pieces? ==> start + Glue(f.ps) == text + Glue(Fold(v, spent).ps))
  }

  lemma CutStep(f: Folded, start: seq<byte>, text: seq<byte>, v: seq<byte>, spent: int)
    requires OnTrack(f, start, text, v, spent)
    requires NextCut(v, spent).CutAt? && 0 < NextCut(v, spent).i <= |v|
    ensures var i := NextCut(v, spent).i;
      OnTrack(f, start, text + v[..i] + CRLF + PADDING, v[i..], 4)
  {
    var i := NextCut(v, spent).i;
    FoldFits(v[i..], 4);
    var p, ps := v[..i], Fold(v[i..], 4).ps;
    assert Fold(v, spent) == Pieces([p] + ps);
    assert ([p] + ps)[1..] == ps;
    assert text + (p + FOLD + Glue(ps)) == text + p + CRLF + PADDING + Glue(ps);
  }

  lemma LastStep(f: Folded, start: seq<byte>, text: seq<byte>, v: seq<byte>, spent: int)
    requires OnTrack(f, start, text, v, spent) && NextCut(v, spent).NoCut?
    ensures f.Pieces? && start + Glue(f.ps) == text + v
  {
    assert Fold(v, spent) == Pieces([v]);
  }

  method SearchBack(v: seq<byte>, start: int) returns (i: int)
    requires start < |v|
    ensures i == Find(v, start)
  {
    i := start;
    while 0 < i
      invariant i <= start && Find(v, start) == Find(v, i)
      decreases i
    {
      if v[i] == SP {
        break;
      }
      i := i - 1;
    }
  }

  /** HeaderEntry.Encode on a writer that never fails: the bytes written and
      the count returned, which leaves an entry without a value out. */
  method Encode(key: seq<byte>, value: seq<byte>)
    returns (text: seq<byte>, n: nat, panicked: bool)
    ensures panicked <==> FoldEntry(key, value).Panics?
    ensures !panicked ==> text == Text(key, value)
    ensures !panicked ==> n == if value == [] then 0 else |text|
  {
    if value == [] {
      return key + [COLON] + CRLF, 0, false;
    }
    text := key + [COLON, SP];
    ghost var f, start := FoldEntry(key, value), text;
    var v := value;
    var spent := |key| - 2;
    var limit := 78;
    while true
      invariant limit == 78 || (limit == 998 && 78 - spent <= |v| && Find(v, 77 - spent) == 0)
      invariant OnTrack(f, start, text, v, spent)
      decreases |v|, limit == 78
    {
      if |v| < limit - spent {
        LastStep(f, start, text, v, spent);
        text := text + v;
        break;
      }
      var i := SearchBack(v, limit - spent - 1);
      if i == 0 {
        // No space that far: widen the limit once, then cut where it ends.
        if limit == 78 {
          limit := 998;
          continue;
        }
        i := 998 - spent;
      }
      assert NextCut(v, spent) == CutAt(i);
      if i < 0 {
        return text, 0, true; // the slice v[:i] panics
      }
      CutStep(f, start, text, v, spent);
      text := text + v[..i] + CRLF + PADDING;
      spent := |PADDING|;
      limit := 78;
      v := v[i..];
    }
    text := text + CRLF;
    return text, |text|, false;
  }
}
