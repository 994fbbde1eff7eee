/** COPY, MOVE and EXPUNGE (spilldb/imapdb), and what a client that follows
    the reported numbers and UIDs ends up with. */
module MailMoves {
  import opened Bytes
  import opened Wrappers
  import opened SeqSet
  import opened ListReplay
  import opened MailTables
  import opened MailOps
  import MemoryStore

  /** What mailbox `d` has given out so far lies below `uid`. */
  ghost predicate Room(msgs: seq<Msg>, d: nat, uid: nat) {
    forall i | 0 <= i < |msgs| && msgs[i].box == d :: msgs[i].uid < uid
  }

  // ------------------------------------------------------------------- COPY

  function CopyOf(m: Msg, d: nat, uid: nat, v: nat): Msg {
    Msg(d, uid, v, Ready, m.flags, m.body)
  }

  datatype CopyOut = CopyOut(msgs: seq<Msg>, pairs: seq<(nat, nat)>)

  function CopyRows(msgs: seq<Msg>, ps: seq<Pick>, d: nat, uid: nat, v: nat): (o: CopyOut)
    requires InTable(ps, |msgs|)
    ensures |o.pairs| == |ps|
    decreases |ps|
  {
    if ps == [] then CopyOut(msgs, [])
    else
      var m := msgs[ps[0].row];
      var more := CopyRows(msgs + [CopyOf(m, d, uid, v)], ps[1..], d, uid + 1, v);
      CopyOut(more.msgs, [(m.uid, uid)] + more.pairs)
  }

  function CopyRanges(msgs: seq<Msg>, b: nat, d: nat, rs: seq<SeqRange>, useUid: bool, uid: nat, v: nat): CopyOut
    decreases |rs|
  {
    if rs == [] then CopyOut(msgs, [])
    else
      PicksInTable(msgs, b, rs[0], useUid, 0);
      var o := CopyRows(msgs, Picks(msgs, b, rs[0], useUid, 0), d, uid, v);
      var more := CopyRanges(o.msgs, b, d, rs[1..], useUid, uid + |o.pairs|, v);
      CopyOut(more.msgs, o.pairs + more.pairs)
  }

  /** The copies of the picked rows, with the next UIDs. */
  function Copies(msgs: seq<Msg>, ps: seq<Pick>, d: nat, uid: nat, v: nat): (cs: seq<Msg>)
    requires InTable(ps, |msgs|)
    ensures |cs| == |ps|
  {
    seq(|ps|, j requires 0 <= j < |ps| => CopyOf(msgs[ps[j].row], d, uid + j, v))
  }

  function PairsOf(msgs: seq<Msg>, ps: seq<Pick>, uid: nat): (rs: seq<(nat, nat)>)
    requires InTable(ps, |msgs|)
    ensures |rs| == |ps|
  {
    seq(|ps|, j requires 0 <= j < |ps| => (msgs[ps[j].row].uid, uid + j))
  }

  lemma {:induction false} CopyRowsAll(msgs: seq<Msg>, ps: seq<Pick>, d: nat, uid: nat, v: nat)
    requires InTable(ps, |msgs|)
    ensures CopyRows(msgs, ps, d, uid, v) == CopyOut(msgs + Copies(msgs, ps, d, uid, v), PairsOf(msgs, ps, uid))
    decreases |ps|
  {
    if ps == [] {
      assert msgs + [] == msgs;
    } else {
      var c, t := CopyOf(msgs[ps[0].row], d, uid, v), ps[1..];
      CopyRowsAll(msgs + [c], t, d, uid + 1, v);
      assert Copies(msgs, ps, d, uid, v) == [c] + Copies(msgs + [c], t, d, uid + 1, v);
      assert PairsOf(msgs, ps, uid) == [(msgs[ps[0].row].uid, uid)] + PairsOf(msgs + [c], t, uid + 1);
      Assoc(msgs, [c], Copies(msgs + [c], t, d, uid + 1, v));
    }
  }

  /** New rows of another mailbox do not show. */
  lemma OtherRows(msgs: seq<Msg>, new_: seq<Msg>, b: nat)
    requires UniqueUids(msgs + new_)
    requires forall k | 0 <= k < |new_| :: !Visible(new_[k], b)
    ensures UniqueUids(msgs) && Window(msgs + new_, b) == Window(msgs, b)
    ensures Uids(msgs + new_, Window(msgs, b)) == Uids(msgs, Window(msgs, b))
  {
    hide Window;
    var all := msgs + new_;
    assert forall i | 0 <= i < |msgs| :: all[i] == msgs[i];
    assert forall i | |msgs| <= i < |all| :: all[i] == new_[i - |msgs|];
    WindowIs(msgs, b);
    WindowUnique(Window(msgs, b), all, b);
  }

  lemma CopiesUnique(msgs: seq<Msg>, ps: seq<Pick>, d: nat, uid: nat, v: nat)
    requires InTable(ps, |msgs|) && UniqueUids(msgs) && Room(msgs, d, uid)
    ensures var all := msgs + Copies(msgs, ps, d, uid, v); UniqueUids(all) && Room(all, d, uid + |ps|)
  {
    var cs := Copies(msgs, ps, d, uid, v);
    var all := msgs + cs;
    assert forall i | 0 <= i < |msgs| :: all[i] == msgs[i];
    assert forall i | |msgs| <= i < |all| :: all[i] == cs[i - |msgs|];
  }

  lemma {:induction false} PicksAfterCopy(msgs: seq<Msg>, new_: seq<Msg>, b: nat, rs: seq<SeqRange>, useUid: bool)
    requires UniqueUids(msgs + new_)
    requires forall k | 0 <= k < |new_| :: !Visible(new_[k], b)
    ensures AllPicks(msgs + new_, b, rs, useUid) == AllPicks(msgs, b, rs, useUid)
  {
    OtherRows(msgs, new_, b);
    hide Window, PickMask, UniqueUids;
    if rs != [] {
      PicksAfterCopy(msgs, new_, b, rs[1..], useUid);
    }
  }

  lemma CopiesAppend(msgs: seq<Msg>, a: seq<Pick>, b: seq<Pick>, d: nat, uid: nat, v: nat)
    requires InTable(a, |msgs|) && InTable(b, |msgs|) && InTable(a + b, |msgs|)
    ensures var ca := Copies(msgs, a, d, uid, v);
      && Copies(msgs, a + b, d, uid, v) == ca + Copies(msgs + ca, b, d, uid + |a|, v)
      && PairsOf(msgs, a + b, uid) == PairsOf(msgs, a, uid) + PairsOf(msgs + ca, b, uid + |a|)
  {
  }

  /** One range, and the rest. */
  lemma CopyRangesStep(msgs: seq<Msg>, b: nat, d: nat, rs: seq<SeqRange>, useUid: bool, uid: nat, v: nat)
    requires rs != []
    ensures var ps := Picks(msgs, b, rs[0], useUid, 0);
      && AllPicks(msgs, b, rs, useUid) == ps + AllPicks(msgs, b, rs[1..], useUid)
      && InTable(ps, |msgs|)
      && var o := CopyRows(msgs, ps, d, uid, v);
      && var more := CopyRanges(o.msgs, b, d, rs[1..], useUid, uid + |o.pairs|, v);
      CopyRanges(msgs, b, d, rs, useUid, uid, v) == CopyOut(more.msgs, o.pairs + more.pairs)
  {
    hide Picks, CopyRows;
    PicksInTable(msgs, b, rs[0], useUid, 0);
  }

  lemma CopyNone(msgs: seq<Msg>, b: nat, d: nat, useUid: bool, uid: nat, v: nat)
    ensures AllPicks(msgs, b, [], useUid) == [] && InTable([], |msgs|)
    ensures CopyRanges(msgs, b, d, [], useUid, uid, v)
         == CopyOut(msgs + Copies(msgs, [], d, uid, v), PairsOf(msgs, [], uid))
  {
    assert msgs + [] == msgs;
  }

  /** To another mailbox, COPY adds one copy, flags and body alike, for each
      time a range covers a message, in that order and with the next UIDs; and
      reports just those pairs. */
  lemma {:induction false} CopyExact(msgs: seq<Msg>, b: nat, d: nat, rs: seq<SeqRange>, useUid: bool, uid: nat, v: nat)
    requires b != d && UniqueUids(msgs) && Room(msgs, d, uid)
    ensures InTable(AllPicks(msgs, b, rs, useUid), |msgs|)
    ensures var ps := AllPicks(msgs, b, rs, useUid);
      CopyRanges(msgs, b, d, rs, useUid, uid, v)
        == CopyOut(msgs + Copies(msgs, ps, d, uid, v), PairsOf(msgs, ps, uid))
    decreases |rs|
  {
    hide *;
    AllPicksInTable(msgs, b, rs, useUid);
    if rs == [] {
      CopyNone(msgs, b, d, useUid, uid, v);
    } else {
      CopyRangesStep(msgs, b, d, rs, useUid, uid, v);
      var ps, qs := Picks(msgs, b, rs[0], useUid, 0), AllPicks(msgs, b, rs[1..], useUid);
      PicksInTable(msgs, b, rs[0], useUid, 0);
      AllPicksInTable(msgs, b, rs[1..], useUid);
      var cs := Copies(msgs, ps, d, uid, v);
      CopyRowsAll(msgs, ps, d, uid, v);
      CopiesUnique(msgs, ps, d, uid, v);
      CopiesHidden(msgs, ps, b, d, uid, v);
      CopyExact(msgs + cs, b, d, rs[1..], useUid, uid + |ps|, v);
      PicksAfterCopy(msgs, cs, b, rs[1..], useUid);
      CopiesAppend(msgs, ps, qs, d, uid, v);
      Assoc(msgs, cs, Copies(msgs + cs, qs, d, uid + |ps|, v));
    }
  }

  lemma CopiesHidden(msgs: seq<Msg>, ps: seq<Pick>, b: nat, d: nat, uid: nat, v: nat)
    requires b != d && InTable(ps, |msgs|)
    ensures forall k | 0 <= k < |Copies(msgs, ps, d, uid, v)| :: !Visible(Copies(msgs, ps, d, uid, v)[k], b)
  {
  }

  // ------------------------------------------------------------------- MOVE

  datatype Report = Report(seqNum: nat, srcUid: nat, dstUid: nat)

  datatype MoveOut = MoveOut(msgs: seq<Msg>, reports: seq<Report>)

  /** What is left behind. It carries the mod-sequence of the destination. */
  function Tombstone(b: nat, uid: nat, v: nat): Msg { Msg(b, uid, v, Expunged, {}, []) }

  function Rehomed(m: Msg, d: nat, uid: nat, v: nat): Msg { m.(box := d, uid := uid, modSeq := v) }

  function MoveRow(msgs: seq<Msg>, i: nat, b: nat, d: nat, uid: nat, v: nat): (r: seq<Msg>)
    requires i < |msgs|
    ensures |r| == |msgs| + 1
  {
    msgs[i := Rehomed(msgs[i], d, uid, v)] + [Tombstone(b, msgs[i].uid, v)]
  }

  predicate Outrun(ps: seq<Pick>, gone: nat) {
    ps == [] || (gone < ps[0].seqNum && Outrun(ps[1..], gone + 1))
  }

  /** The numbers of picked rows, each lowered by what left before it. */
  function Lowered(ps: seq<Pick>, gone: nat): (r: seq<nat>)
    requires Outrun(ps, gone)
  {
    if ps == [] then [] else [ps[0].seqNum - gone] + Lowered(ps[1..], gone + 1)
  }

  /** The numbers come from one query, less what has left since. */
  function MoveRows(msgs: seq<Msg>, ps: seq<Pick>, gone: nat, b: nat, d: nat, uid: nat, v: nat): (o: MoveOut)
    requires InTable(ps, |msgs|) && Outrun(ps, gone)
    ensures |o.reports| == |ps| && |o.msgs| == |msgs| + |ps|
    decreases |ps|
  {
    if ps == [] then MoveOut(msgs, [])
    else
      var i := ps[0].row;
      var more := MoveRows(MoveRow(msgs, i, b, d, uid, v), ps[1..], gone + 1, b, d, uid + 1, v);
      MoveOut(more.msgs, [Report(ps[0].seqNum - gone, msgs[i].uid, uid)] + more.reports)
  }

  /** Picked rows come with their places, which outrun their count. */
  lemma {:induction false} PickNumbers(w: seq<nat>, m: seq<bool>, i: nat, gone: nat)
    requires |m| == |w| && gone < i
    ensures var ps := Chosen(NumberedFrom(w, i), m); Outrun(ps, gone) && Lowered(ps, gone) == Numbers(m, i, gone)
    decreases |w|
  {
    if w != [] {
      var ns := NumberedFrom(w, i);
      assert ns[1..] == NumberedFrom(w[1..], i + 1);
      PickNumbers(w[1..], m[1..], i + 1, if m[0] then gone + 1 else gone);
      var rest := Chosen(ns[1..], m[1..]);
      if m[0] {
        assert ([ns[0]] + rest)[1..] == rest;
      }
    }
  }

  function MoveAll(msgs: seq<Msg>, b: nat, d: nat, rs: seq<SeqRange>, useUid: bool, uid: nat, v: nat, delta: nat): MoveOut
    decreases |rs|
  {
    if rs == [] then MoveOut(msgs, [])
    else
      var ps := Picks(msgs, b, rs[0], useUid, delta);
      PicksInTable(msgs, b, rs[0], useUid, delta);
      var w := Window(msgs, b);
      PickNumbers(w, RangeMask(Uids(msgs, w), rs[0], useUid, delta), 1, 0);
      var o := MoveRows(msgs, ps, 0, b, d, uid, v);
      var more := MoveAll(o.msgs, b, d, rs[1..], useUid, uid + |ps|, v, delta + |ps|);
      MoveOut(more.msgs, o.reports + more.reports)
  }

  function Nums(rs: seq<Report>): (r: seq<nat>)
    ensures |r| == |rs|
  {
    seq(|rs|, k requires 0 <= k < |rs| => rs[k].seqNum)
  }

  function Srcs(rs: seq<Report>): (r: seq<nat>)
    ensures |r| == |rs|
  {
    seq(|rs|, k requires 0 <= k < |rs| => rs[k].srcUid)
  }

  function Dsts(rs: seq<Report>): (r: seq<nat>)
    ensures |r| == |rs|
  {
    seq(|rs|, k requires 0 <= k < |rs| => rs[k].dstUid)
  }

  function Next(uid: nat, n: nat): (r: seq<nat>)
    ensures |r| == n
  {
    seq(n, k requires 0 <= k => uid + k)
  }

  function RowsOf(ps: seq<Pick>): (r: seq<nat>)
    ensures |r| == |ps|
  {
    seq(|ps|, k requires 0 <= k < |ps| => ps[k].row)
  }

  /** The table after a MOVE of distinct rows: each of them is in the
      destination under its new UID, the other rows are as they were, and the
      new rows are tombstones. */
  ghost predicate Relocated(msgs: seq<Msg>, msgs': seq<Msg>, rows: seq<nat>, b: nat, d: nat, uid: nat, v: nat) {
    && |msgs'| == |msgs| + |rows|
    && (forall k | 0 <= k < |rows| :: rows[k] < |msgs|)
    && (forall k | 0 <= k < |rows| :: msgs'[rows[k]] == Rehomed(msgs[rows[k]], d, uid + k, v))
    && (forall i | 0 <= i < |msgs| && i !in rows :: msgs'[i] == msgs[i])
    && (forall k | 0 <= k < |rows| :: msgs'[|msgs| + k] == Tombstone(b, msgs[rows[k]].uid, v))
  }

  lemma {:induction false} MoveRowsPlaces(msgs: seq<Msg>, ps: seq<Pick>, gone: nat, b: nat, d: nat, uid: nat, v: nat)
    requires InTable(ps, |msgs|) && Outrun(ps, gone)
    requires Distinct(RowsOf(ps))
    ensures var o := MoveRows(msgs, ps, gone, b, d, uid, v);
      && Relocated(msgs, o.msgs, RowsOf(ps), b, d, uid, v)
      && Srcs(o.reports) == Uids(msgs, RowsOf(ps)) && Dsts(o.reports) == Next(uid, |ps|)
      && Nums(o.reports) == Lowered(ps, gone)
    decreases |ps|
  {
    if ps != [] {
      var i, t := ps[0].row, ps[1..];
      var next := MoveRow(msgs, i, b, d, uid, v);
      var rows := RowsOf(ps);
      assert rows == [i] + RowsOf(t);
      forall k | 0 <= k < |t|
        ensures RowsOf(t)[k] != i
      {
        assert rows[0] != rows[k + 1];
      }
      assert Distinct(RowsOf(t)) by {
        assert RowsOf(t) == rows[1..];
      }
      hide Relocated, Rehomed, Tombstone, Distinct;
      MoveRowsPlaces(next, t, gone + 1, b, d, uid + 1, v);
      var more := MoveRows(next, t, gone + 1, b, d, uid + 1, v);
      RelocatedCons(msgs, next, more.msgs, i, RowsOf(t), b, d, uid, v);
      ReportsCons(msgs, next, ps, gone, b, d, uid, v, more);
    }
  }

  lemma RelocatedCons(msgs: seq<Msg>, next: seq<Msg>, msgs': seq<Msg>, i: nat, rows: seq<nat>, b: nat, d: nat, uid: nat, v: nat)
    requires i < |msgs| && i !in rows && next == MoveRow(msgs, i, b, d, uid, v)
    requires forall k | 0 <= k < |rows| :: rows[k] < |msgs|
    requires Relocated(next, msgs', rows, b, d, uid + 1, v)
    ensures Relocated(msgs, msgs', [i] + rows, b, d, uid, v)
  {
    var all := [i] + rows;
    assert forall k | 0 < k < |all| :: all[k] == rows[k - 1];
    forall k | 0 <= k < |all|
      ensures msgs'[all[k]] == Rehomed(msgs[all[k]], d, uid + k, v)
      ensures msgs'[|msgs| + k] == Tombstone(b, msgs[all[k]].uid, v)
    {
      if k == 0 {
        assert msgs'[i] == next[i];
        assert msgs'[|msgs|] == next[|msgs|];
      } else {
        assert msgs'[rows[k - 1]] == Rehomed(next[rows[k - 1]], d, uid + 1 + (k - 1), v);
        assert next[rows[k - 1]] == msgs[rows[k - 1]];
        assert msgs'[|next| + (k - 1)] == Tombstone(b, next[rows[k - 1]].uid, v);
      }
    }
    forall j | 0 <= j < |msgs| && j !in all
      ensures msgs'[j] == msgs[j]
    {
      assert all[0] == i && forall x | x in rows :: x in all;
    }
  }

  lemma ReportsCons(msgs: seq<Msg>, next: seq<Msg>, ps: seq<Pick>, gone: nat, b: nat, d: nat, uid: nat, v: nat, more: MoveOut)
    requires ps != [] && InTable(ps, |msgs|) && Outrun(ps, gone)
    requires next == MoveRow(msgs, ps[0].row, b, d, uid, v) && Distinct(RowsOf(ps))
    requires |more.reports| == |ps| - 1
    requires Srcs(more.reports) == Uids(next, RowsOf(ps[1..])) && Dsts(more.reports) == Next(uid + 1, |ps| - 1)
    requires Nums(more.reports) == Lowered(ps[1..], gone + 1)
    ensures var rs := [Report(ps[0].seqNum - gone, msgs[ps[0].row].uid, uid)] + more.reports;
      && Srcs(rs) == Uids(msgs, RowsOf(ps)) && Dsts(rs) == Next(uid, |ps|)
      && Nums(rs) == Lowered(ps, gone)
  {
    var rs := [Report(ps[0].seqNum - gone, msgs[ps[0].row].uid, uid)] + more.reports;
    var rows, t := RowsOf(ps), RowsOf(ps[1..]);
    forall k | 0 <= k < |ps|
      ensures rs[k].srcUid == msgs[rows[k]].uid && rs[k].dstUid == uid + k
    {
      if k > 0 {
        assert rs[k] == more.reports[k - 1] && t[k - 1] == rows[k];
        assert Srcs(more.reports)[k - 1] == Uids(next, t)[k - 1] == next[rows[k]].uid;
        assert rows[0] != rows[k];
        assert Dsts(more.reports)[k - 1] == Next(uid + 1, |ps| - 1)[k - 1];
      }
    }
    assert Nums(rs) == [ps[0].seqNum - gone] + Nums(more.reports);
    assert Srcs(rs) == Uids(msgs, rows);
    assert Dsts(rs) == Next(uid, |ps|);
  }

  lemma {:induction false} RowsOfChosen(w: seq<nat>, m: seq<bool>, i: nat)
    requires |m| == |w|
    ensures RowsOf(Chosen(NumberedFrom(w, i), m)) == Chosen(w, m)
    decreases |w|
  {
    if w != [] {
      var ns := NumberedFrom(w, i);
      assert ns[1..] == NumberedFrom(w[1..], i + 1);
      RowsOfChosen(w[1..], m[1..], i + 1);
      if m[0] {
        var rest := Chosen(ns[1..], m[1..]);
        assert RowsOf([ns[0]] + rest) == [w[0]] + RowsOf(rest);
      }
    }
  }

  ghost predicate InRows(w: seq<nat>, n: nat) { forall k | 0 <= k < |w| :: w[k] < n }

  lemma {:induction false} ChosenInRows(w: seq<nat>, m: seq<bool>, n: nat)
    requires |m| == |w| && InRows(w, n)
    ensures InRows(Chosen(w, m), n) && InRows(Kept(w, m), n)
    decreases |w|
  {
    if w != [] {
      assert InRows(w[1..], n);
      ChosenInRows(w[1..], m[1..], n);
    }
  }

  lemma {:induction false} UidsOfChosen(msgs: seq<Msg>, w: seq<nat>, m: seq<bool>)
    requires |m| == |w| && InRows(w, |msgs|)
    ensures InRows(Chosen(w, m), |msgs|) && Uids(msgs, Chosen(w, m)) == Chosen(Uids(msgs, w), m)
    ensures InRows(Kept(w, m), |msgs|) && Uids(msgs, Kept(w, m)) == Kept(Uids(msgs, w), m)
    decreases |w|
  {
    ChosenInRows(w, m, |msgs|);
    if w != [] {
      var t, n := w[1..], m[1..];
      UidsOfChosen(msgs, t, n);
      assert Uids(msgs, w)[1..] == Uids(msgs, t);
      var c, r := Chosen(t, n), Kept(t, n);
      if m[0] {
        assert Uids(msgs, [w[0]] + c) == [msgs[w[0]].uid] + Uids(msgs, c);
      } else {
        assert Uids(msgs, [w[0]] + r) == [msgs[w[0]].uid] + Uids(msgs, r);
      }
    }
  }

  lemma {:induction false} ClimbsChosen(msgs: seq<Msg>, w: seq<nat>, m: seq<bool>)
    requires |m| == |w| && Climbs(msgs, w)
    ensures Climbs(msgs, Chosen(w, m)) && Climbs(msgs, Kept(w, m))
    decreases |w|
  {
    if w != [] {
      var t, n := w[1..], m[1..];
      assert Climbs(msgs, t);
      ClimbsChosen(msgs, t, n);
      assert forall x | x in t :: msgs[w[0]].uid < msgs[x].uid;
      ChosenSub(t, n);
      if m[0] {
        var r := Chosen(t, n);
        assert forall k | 0 <= k < |r| :: r[k] in t;
        ClimbsCons(msgs, w[0], r);
      } else {
        var r := Kept(t, n);
        assert forall k | 0 <= k < |r| :: r[k] in t;
        ClimbsCons(msgs, w[0], r);
      }
    }
  }

  lemma ClimbsDistinct(msgs: seq<Msg>, w: seq<nat>)
    requires Climbs(msgs, w)
    ensures Distinct(w)
  {
  }

  /** What the window query shows of `b` once the marked rows have gone. */
  lemma WindowWithout(msgs: seq<Msg>, msgs': seq<Msg>, w: seq<nat>, m: seq<bool>, b: nat)
    requires UniqueUids(msgs) && UniqueUids(msgs') && w == Window(msgs, b) && |m| == |w|
    requires |msgs| <= |msgs'|
    requires forall i | 0 <= i < |msgs| && i !in Chosen(w, m) :: msgs'[i].box == msgs[i].box
               && msgs'[i].uid == msgs[i].uid && msgs'[i].state == msgs[i].state
    requires forall i | 0 <= i < |msgs'| && (i >= |msgs| || i in Chosen(w, m)) :: !Visible(msgs'[i], b)
    ensures Window(msgs', b) == Kept(w, m)
    ensures Uids(msgs', Kept(w, m)) == Kept(Uids(msgs, w), m)
  {
    hide Window, Chosen, Kept, UniqueUids;
    WindowIs(msgs, b);
    ClimbsChosen(msgs, w, m);
    ChosenSub(w, m);
    ClimbsDistinct(msgs, w);
    UidsOfChosen(msgs, w, m);
    var r := Kept(w, m);
    forall k | 0 <= k < |r|
      ensures r[k] < |msgs| && r[k] !in Chosen(w, m) && Visible(msgs[r[k]], b)
    {
      assert r[k] in r && r[k] in w;
      var j :| 0 <= j < |w| && w[j] == r[k];
      ChosenAt(w, m, j);
    }
    forall i | 0 <= i < |msgs'| && Visible(msgs'[i], b)
      ensures i in r
    {
      assert i in w;
      var j :| 0 <= j < |w| && w[j] == i;
      ChosenAt(w, m, j);
    }
    assert IsWindow(r, msgs', b);
    WindowUnique(r, msgs', b);
  }

  // Where a row of the table came from.
  datatype Origin = Stayed(i: nat) | Went(k: nat) | Left(k: nat)

  ghost predicate Comes(msgs: seq<Msg>, msgs': seq<Msg>, rows: seq<nat>, b: nat, d: nat, uid: nat, x: nat, o: Origin) {
    && x < |msgs'|
    && match o
       case Stayed(i) => i == x && x < |msgs| && x !in rows && msgs'[x] == msgs[x]
       case Went(k) => k < |rows| && x == rows[k] && msgs'[x].box == d && msgs'[x].uid == uid + k
       case Left(k) => k < |rows| && x == |msgs| + k && rows[k] < |msgs|
                       && msgs'[x].box == b && msgs'[x].uid == msgs[rows[k]].uid
  }

  lemma ComesFrom(msgs: seq<Msg>, msgs': seq<Msg>, rows: seq<nat>, b: nat, d: nat, uid: nat, v: nat, x: nat)
    returns (o: Origin)
    requires Relocated(msgs, msgs', rows, b, d, uid, v) && x < |msgs'|
    ensures Comes(msgs, msgs', rows, b, d, uid, x, o)
  {
    if x >= |msgs| {
      o := Left(x - |msgs|);
      assert msgs'[|msgs| + (x - |msgs|)] == Tombstone(b, msgs[rows[x - |msgs|]].uid, v);
    } else if x in rows {
      var k :| 0 <= k < |rows| && rows[k] == x;
      o := Went(k);
      assert msgs'[rows[k]] == Rehomed(msgs[rows[k]], d, uid + k, v);
    } else {
      o := Stayed(x);
    }
  }

  lemma OriginsDiffer(msgs: seq<Msg>, msgs': seq<Msg>, rows: seq<nat>, b: nat, d: nat, uid: nat, x: nat, y: nat,
                      o: Origin, p: Origin)
    requires b != d && UniqueUids(msgs) && Room(msgs, d, uid) && Distinct(rows)
    requires forall k | 0 <= k < |rows| :: rows[k] < |msgs| && msgs[rows[k]].box == b
    requires Comes(msgs, msgs', rows, b, d, uid, x, o) && Comes(msgs, msgs', rows, b, d, uid, y, p) && x != y
    ensures msgs'[x].box == msgs'[y].box ==> msgs'[x].uid != msgs'[y].uid
  {
    assert forall k | 0 <= k < |rows| :: rows[k] in rows;
  }

  lemma RelocatedUnique(msgs: seq<Msg>, msgs': seq<Msg>, rows: seq<nat>, b: nat, d: nat, uid: nat, v: nat)
    requires b != d && UniqueUids(msgs) && Room(msgs, d, uid) && Distinct(rows)
    requires Relocated(msgs, msgs', rows, b, d, uid, v)
    requires forall k | 0 <= k < |rows| :: msgs[rows[k]].box == b
    ensures UniqueUids(msgs') && Room(msgs', d, uid + |rows|)
  {
    assert forall k | 0 <= k < |rows| :: rows[k] < |msgs|;
    forall x, y | 0 <= x < y < |msgs'|
      ensures msgs'[x].box == msgs'[y].box ==> msgs'[x].uid != msgs'[y].uid
    {
      hide Relocated, UniqueUids, Room, Distinct;
      var o := ComesFrom(msgs, msgs', rows, b, d, uid, v, x);
      var p := ComesFrom(msgs, msgs', rows, b, d, uid, v, y);
      OriginsDiffer(msgs, msgs', rows, b, d, uid, x, y, o, p);
    }
    forall x | 0 <= x < |msgs'| && msgs'[x].box == d
      ensures msgs'[x].uid < uid + |rows|
    {
      hide Relocated, UniqueUids;
      var o := ComesFrom(msgs, msgs', rows, b, d, uid, v, x);
    }
  }

  lemma RelocatedHides(msgs: seq<Msg>, msgs': seq<Msg>, rows: seq<nat>, b: nat, d: nat, uid: nat, v: nat)
    requires b != d && Relocated(msgs, msgs', rows, b, d, uid, v)
    ensures |msgs| <= |msgs'| && forall i | 0 <= i < |msgs| && i !in rows :: msgs'[i] == msgs[i]
    ensures forall i | 0 <= i < |msgs'| && (i >= |msgs| || i in rows) :: !Visible(msgs'[i], b)
  {
    forall i | 0 <= i < |msgs'| && (i >= |msgs| || i in rows)
      ensures !Visible(msgs'[i], b)
    {
      var o := ComesFrom(msgs, msgs', rows, b, d, uid, v, i);
      if i >= |msgs| {
        assert msgs'[|msgs| + (i - |msgs|)] == Tombstone(b, msgs[rows[i - |msgs|]].uid, v);
      }
    }
  }

  lemma MovedVisible(msgs: seq<Msg>, msgs': seq<Msg>, rows: seq<nat>, b: nat, d: nat, uid: nat, v: nat)
    requires Relocated(msgs, msgs', rows, b, d, uid, v)
    requires forall k | 0 <= k < |rows| :: Visible(msgs[rows[k]], b)
    ensures forall k | 0 <= k < |rows| :: rows[k] < |msgs| && Visible(msgs[rows[k]], b)
    ensures forall k | 0 <= k < |rows| :: Visible(msgs'[rows[k]], d) && msgs'[rows[k]].uid == uid + k
  {
  }

  lemma TombstonesHide(msgs: seq<Msg>, msgs': seq<Msg>, rows: seq<nat>, b: nat, d: nat, uid: nat, v: nat)
    requires Relocated(msgs, msgs', rows, b, d, uid, v)
    ensures forall i | |msgs| <= i < |msgs'| :: msgs'[i].state.Expunged?
  {
    forall i | |msgs| <= i < |msgs'|
      ensures msgs'[i].state.Expunged?
    {
      assert msgs'[|msgs| + (i - |msgs|)] == Tombstone(b, msgs[rows[i - |msgs|]].uid, v);
    }
  }

  /** The destination shows what it showed, and behind that what came. */
  lemma WindowWith(msgs: seq<Msg>, msgs': seq<Msg>, rows: seq<nat>, b: nat, d: nat, uid: nat, v: nat)
    requires b != d && UniqueUids(msgs) && Room(msgs, d, uid) && UniqueUids(msgs')
    requires Relocated(msgs, msgs', rows, b, d, uid, v)
    requires forall k | 0 <= k < |rows| :: Visible(msgs[rows[k]], b)
    ensures Window(msgs', d) == Window(msgs, d) + rows
    ensures Uids(msgs', Window(msgs, d) + rows) == Uids(msgs, Window(msgs, d)) + Next(uid, |rows|)
  {
    hide *;
    RelocatedHides(msgs, msgs', rows, b, d, uid, v);
    MovedVisible(msgs, msgs', rows, b, d, uid, v);
    WindowIs(msgs, d);
    TombstonesHide(msgs, msgs', rows, b, d, uid, v);
    WindowBehind(msgs, msgs', Window(msgs, d), rows, b, d, uid);
    WindowUnique(Window(msgs, d) + rows, msgs', d);
  }

  lemma WindowBehind(msgs: seq<Msg>, msgs': seq<Msg>, w: seq<nat>, rows: seq<nat>, b: nat, d: nat, uid: nat)
    requires b != d && IsWindow(w, msgs, d) && Room(msgs, d, uid) && |msgs| <= |msgs'|
    requires forall i | 0 <= i < |msgs| && i !in rows :: msgs'[i] == msgs[i]
    requires forall i | |msgs| <= i < |msgs'| :: msgs'[i].state.Expunged?
    requires forall k | 0 <= k < |rows| :: rows[k] < |msgs| && Visible(msgs[rows[k]], b)
    requires forall k | 0 <= k < |rows| :: Visible(msgs'[rows[k]], d) && msgs'[rows[k]].uid == uid + k
    ensures IsWindow(w + rows, msgs', d) && Uids(msgs', w + rows) == Uids(msgs, w) + Next(uid, |rows|)
  {
    var all := w + rows;
    forall k | 0 <= k < |w|
      ensures w[k] !in rows && msgs'[w[k]] == msgs[w[k]]
    {
      assert Visible(msgs[w[k]], d);
    }
    forall k | 0 <= k < |all|
      ensures all[k] < |msgs'| && Visible(msgs'[all[k]], d)
      ensures msgs'[all[k]].uid == if k < |w| then msgs[w[k]].uid else uid + (k - |w|)
    {
      if k >= |w| {
        assert all[k] == rows[k - |w|];
      }
    }
    forall i | 0 <= i < |msgs'| && Visible(msgs'[i], d)
      ensures i in all
    {
      assert i < |msgs|;
      if i !in rows {
        assert i in w;
      }
    }
  }

  /** One range of a MOVE. */
  lemma MoveOneRange(msgs: seq<Msg>, b: nat, d: nat, r: SeqRange, useUid: bool, uid: nat, v: nat, delta: nat)
    requires b != d && UniqueUids(msgs) && Room(msgs, d, uid)
    ensures var ps, w := Picks(msgs, b, r, useUid, delta), Window(msgs, b);
      var m := RangeMask(Uids(msgs, w), r, useUid, delta);
      InTable(ps, |msgs|) && Outrun(ps, 0) && |ps| == |Chosen(Uids(msgs, w), m)| &&
      var o := MoveRows(msgs, ps, 0, b, d, uid, v);
      && Nums(o.reports) == Reported(m) && Srcs(o.reports) == Chosen(Uids(msgs, w), m)
      && Dsts(o.reports) == Next(uid, |ps|)
      && UniqueUids(o.msgs) && Room(o.msgs, d, uid + |ps|)
      && Uids(o.msgs, Window(o.msgs, b)) == Kept(Uids(msgs, w), m)
      && Uids(o.msgs, Window(o.msgs, d)) == Uids(msgs, Window(msgs, d)) + Next(uid, |ps|)
  {
    var w := Window(msgs, b);
    var m := RangeMask(Uids(msgs, w), r, useUid, delta);
    var ps, rows := Picks(msgs, b, r, useUid, delta), Chosen(w, m);
    PicksInTable(msgs, b, r, useUid, delta);
    PickNumbers(w, m, 1, 0);
    RowsOfChosen(w, m, 1);
    UidsOfChosen(msgs, w, m);
    WindowIs(msgs, b);
    ClimbsChosen(msgs, w, m);
    ClimbsDistinct(msgs, rows);
    MoveRowsPlaces(msgs, ps, 0, b, d, uid, v);
    var msgs' := MoveRows(msgs, ps, 0, b, d, uid, v).msgs;
    ChosenSub(w, m);
    hide Window, RangeMask, Picks, UniqueUids, Room, Chosen, Kept, Climbs, Distinct, MoveRows;
    forall k | 0 <= k < |rows|
      ensures Visible(msgs[rows[k]], b)
    {
      assert rows[k] in rows && rows[k] in w;
    }
    RelocatedUnique(msgs, msgs', rows, b, d, uid, v);
    WindowWith(msgs, msgs', rows, b, d, uid, v);
    RelocatedHides(msgs, msgs', rows, b, d, uid, v);
    hide Relocated;
    WindowWithout(msgs, msgs', w, m, b);
  }

  lemma NextSum(uid: nat, a: nat, b: nat)
    ensures Next(uid, a + b) == Next(uid, a) + Next(uid + a, b)
  {
  }

  lemma ReportsAppend(a: seq<Report>, b: seq<Report>)
    ensures Nums(a + b) == Nums(a) + Nums(b)
    ensures Srcs(a + b) == Srcs(a) + Srcs(b)
    ensures Dsts(a + b) == Dsts(a) + Dsts(b)
  {
  }

  /** What a MOVE between two mailboxes comes to, in UIDs: range by range what
      the shifted ranges select goes, under the next UIDs, to the end of the
      destination; the rest stays. */
  ghost predicate MoveReads(msgs: seq<Msg>, o: MoveOut, b: nat, d: nat, uid: nat, m: ListReplay.Moved) {
    && Nums(o.reports) == m.nums && Srcs(o.reports) == m.moved
    && Dsts(o.reports) == Next(uid, |o.reports|)
    && UniqueUids(o.msgs) && Room(o.msgs, d, uid + |o.reports|)
    && Uids(o.msgs, Window(o.msgs, b)) == m.rest
    && Uids(o.msgs, Window(o.msgs, d)) == Uids(msgs, Window(msgs, d)) + Dsts(o.reports)
  }

  lemma MoveReadsJoin(msgs: seq<Msg>, o: MoveOut, p: MoveOut, b: nat, d: nat, uid: nat, out: seq<nat>, nums: seq<nat>,
                      kept: seq<nat>, m: ListReplay.Moved)
    requires Nums(o.reports) == nums && Srcs(o.reports) == out && Dsts(o.reports) == Next(uid, |o.reports|)
    requires Uids(o.msgs, Window(o.msgs, b)) == kept
    requires Uids(o.msgs, Window(o.msgs, d)) == Uids(msgs, Window(msgs, d)) + Next(uid, |o.reports|)
    requires MoveReads(o.msgs, p, b, d, uid + |o.reports|, m)
    ensures MoveReads(msgs, MoveOut(p.msgs, o.reports + p.reports), b, d, uid,
                      ListReplay.Moved(out + m.moved, nums + m.nums, m.rest))
  {
    hide Window, UniqueUids;
    ReportsAppend(o.reports, p.reports);
    NextSum(uid, |o.reports|, |p.reports|);
    Assoc(Uids(msgs, Window(msgs, d)), Dsts(o.reports), Dsts(p.reports));
  }

  lemma MoveNothing(msgs: seq<Msg>, b: nat, d: nat, useUid: bool, uid: nat, v: nat, delta: nat)
    requires UniqueUids(msgs) && Room(msgs, d, uid)
    ensures MoveReads(msgs, MoveAll(msgs, b, d, [], useUid, uid, v, delta), b, d, uid,
                      MoveRanges(Uids(msgs, Window(msgs, b)), [], useUid, delta))
  {
    hide Window;
    assert Uids(msgs, Window(msgs, d)) + [] == Uids(msgs, Window(msgs, d));
  }

  lemma MoveAllStep(msgs: seq<Msg>, b: nat, d: nat, rs: seq<SeqRange>, useUid: bool, uid: nat, v: nat, delta: nat)
    requires rs != []
    ensures var ps := Picks(msgs, b, rs[0], useUid, delta);
      InTable(ps, |msgs|) && Outrun(ps, 0) &&
      var o := MoveRows(msgs, ps, 0, b, d, uid, v);
      var more := MoveAll(o.msgs, b, d, rs[1..], useUid, uid + |ps|, v, delta + |ps|);
      MoveAll(msgs, b, d, rs, useUid, uid, v, delta) == MoveOut(more.msgs, o.reports + more.reports)
  {
    hide Window, RangeMask;
    PicksInTable(msgs, b, rs[0], useUid, delta);
    var w := Window(msgs, b);
    PickNumbers(w, RangeMask(Uids(msgs, w), rs[0], useUid, delta), 1, 0);
    hide MoveRows, Picks;
  }

  lemma MoveRangesStep(l: seq<nat>, rs: seq<SeqRange>, useUid: bool, delta: nat)
    requires rs != []
    ensures var m := RangeMask(l, rs[0], useUid, delta);
      var out := Chosen(l, m);
      var more := MoveRanges(Kept(l, m), rs[1..], useUid, delta + |out|);
      MoveRanges(l, rs, useUid, delta) == ListReplay.Moved(out + more.moved, Reported(m) + more.nums, more.rest)
  {
    hide RangeMask;
  }

  lemma {:induction false} MoveIsRanges(msgs: seq<Msg>, b: nat, d: nat, rs: seq<SeqRange>, useUid: bool, uid: nat, v: nat,
                                        delta: nat)
    requires b != d && UniqueUids(msgs) && Room(msgs, d, uid)
    ensures MoveReads(msgs, MoveAll(msgs, b, d, rs, useUid, uid, v, delta), b, d, uid,
                      MoveRanges(Uids(msgs, Window(msgs, b)), rs, useUid, delta))
    decreases |rs|
  {
    hide *;
    if rs == [] {
      MoveNothing(msgs, b, d, useUid, uid, v, delta);
      return;
    }
    MoveAllStep(msgs, b, d, rs, useUid, uid, v, delta);
    MoveOneRange(msgs, b, d, rs[0], useUid, uid, v, delta);
    var ps := Picks(msgs, b, rs[0], useUid, delta);
    var o := MoveRows(msgs, ps, 0, b, d, uid, v);
    MoveIsRanges(o.msgs, b, d, rs[1..], useUid, uid + |ps|, v, delta + |ps|);
    MoveOneMore(msgs, o, MoveAll(o.msgs, b, d, rs[1..], useUid, uid + |ps|, v, delta + |ps|), b, d, uid, rs, useUid, delta);
  }

  lemma MoveOneMore(msgs: seq<Msg>, o: MoveOut, p: MoveOut, b: nat, d: nat, uid: nat, rs: seq<SeqRange>, useUid: bool,
                    delta: nat)
    requires rs != []
    requires var l, n := Uids(msgs, Window(msgs, b)), |o.reports|;
      var m := RangeMask(l, rs[0], useUid, delta);
      && n == |Chosen(l, m)| && Nums(o.reports) == Reported(m) && Srcs(o.reports) == Chosen(l, m)
      && Dsts(o.reports) == Next(uid, n)
      && Uids(o.msgs, Window(o.msgs, b)) == Kept(l, m)
      && Uids(o.msgs, Window(o.msgs, d)) == Uids(msgs, Window(msgs, d)) + Next(uid, n)
      && MoveReads(o.msgs, p, b, d, uid + n, MoveRanges(Kept(l, m), rs[1..], useUid, delta + n))
    ensures MoveReads(msgs, MoveOut(p.msgs, o.reports + p.reports), b, d, uid,
                      MoveRanges(Uids(msgs, Window(msgs, b)), rs, useUid, delta))
  {
    var l := Uids(msgs, Window(msgs, b));
    MoveRangesStep(l, rs, useUid, delta);
    hide *;
    var m := RangeMask(l, rs[0], useUid, delta);
    MoveReadsJoin(msgs, o, p, b, d, uid, Chosen(l, m), Reported(m), Kept(l, m),
                  MoveRanges(Kept(l, m), rs[1..], useUid, delta + |o.reports|));
  }

  /** MOVE by sequence number on an ascending, disjoint set: exactly the
      messages whose original numbers are in the set arrive, in order and with
      the next UIDs, and a client that replays the numbers is left with what
      the mailbox shows. */
  lemma MoveByNumber(msgs: seq<Msg>, b: nat, d: nat, rs: seq<SeqRange>, uid: nat, v: nat)
    requires b != d && UniqueUids(msgs) && Room(msgs, d, uid)
    requires Ascending(rs) && |Window(msgs, b)| <= MAX_UINT32
    ensures var o, l := MoveAll(msgs, b, d, rs, false, uid, v, 0), Uids(msgs, Window(msgs, b));
      var m := SetMask(rs, 0, |l|);
      && Srcs(o.reports) == Chosen(l, m) && Dsts(o.reports) == Next(uid, |o.reports|)
      && Uids(o.msgs, Window(o.msgs, b)) == Kept(l, m)
      && Uids(o.msgs, Window(o.msgs, d)) == Uids(msgs, Window(msgs, d)) + Dsts(o.reports)
      && Replays(l, Nums(o.reports), Uids(o.msgs, Window(o.msgs, b)))
  {
    hide Window, UniqueUids, Room, MoveAll, MoveRanges;
    MoveIsRanges(msgs, b, d, rs, false, uid, v, 0);
    MoveBySequenceNumber(Uids(msgs, Window(msgs, b)), rs);
  }

  /** On any set the MOVE, and each of its beginnings, leaves exactly the
      messages whose numbers are not in it if and only if no place is shifted
      into a range or out of it; and then exactly the others arrive. */
  lemma MoveBySet(msgs: seq<Msg>, b: nat, d: nat, rs: seq<SeqRange>, uid: nat, v: nat)
    requires b != d && UniqueUids(msgs) && Room(msgs, d, uid) && |Window(msgs, b)| <= MAX_UINT32
    ensures var l := Uids(msgs, Window(msgs, b));
      && (Unshifted(rs, |l|) <==> forall j | 0 <= j <= |rs| ::
            var after := MoveAll(msgs, b, d, rs[..j], false, uid, v, 0).msgs;
            Uids(after, Window(after, b)) == Kept(l, SetMask(rs[..j], 0, |l|)))
      && var o := MoveAll(msgs, b, d, rs, false, uid, v, 0);
      && Dsts(o.reports) == Next(uid, |o.reports|)
      && Uids(o.msgs, Window(o.msgs, d)) == Uids(msgs, Window(msgs, d)) + Dsts(o.reports)
      && (Unshifted(rs, |l|) ==> multiset(Srcs(o.reports)) == multiset(Chosen(l, SetMask(rs, 0, |l|))))
  {
    var w := Window(msgs, b);
    WindowIs(msgs, b);
    var l := Uids(msgs, w);
    assert Different(l);
    hide *;
    MoveIsRanges(msgs, b, d, rs, false, uid, v, 0);
    MoveReadsIs(msgs, MoveAll(msgs, b, d, rs, false, uid, v, 0), b, d, uid, MoveRanges(l, rs, false, 0));
    forall j | 0 <= j <= |rs|
      ensures var after := MoveAll(msgs, b, d, rs[..j], false, uid, v, 0).msgs;
        Uids(after, Window(after, b)) == MoveRanges(l, rs[..j], false, 0).rest
    {
      MoveIsRanges(msgs, b, d, rs[..j], false, uid, v, 0);
      MoveReadsIs(msgs, MoveAll(msgs, b, d, rs[..j], false, uid, v, 0), b, d, uid, MoveRanges(l, rs[..j], false, 0));
    }
    MoveByNumberExact(l, rs);
    if Unshifted(rs, |l|) {
      UnshiftedMoves(l, rs);
    }
  }

  lemma MoveReadsIs(msgs: seq<Msg>, o: MoveOut, b: nat, d: nat, uid: nat, m: ListReplay.Moved)
    requires MoveReads(msgs, o, b, d, uid, m)
    ensures Srcs(o.reports) == m.moved && Dsts(o.reports) == Next(uid, |o.reports|)
    ensures Uids(o.msgs, Window(o.msgs, b)) == m.rest
    ensures Uids(o.msgs, Window(o.msgs, d)) == Uids(msgs, Window(msgs, d)) + Dsts(o.reports)
  {
  }

  /** By UID the ranges may come in any order and overlap. */
  lemma MoveByUids(msgs: seq<Msg>, b: nat, d: nat, rs: seq<SeqRange>, uid: nat, v: nat)
    requires b != d && UniqueUids(msgs) && Room(msgs, d, uid)
    requires ListReplay.Fits(Uids(msgs, Window(msgs, b)))
    ensures var o, l := MoveAll(msgs, b, d, rs, true, uid, v, 0), Uids(msgs, Window(msgs, b));
      var m := UidMask(l, rs);
      && multiset(Srcs(o.reports)) == multiset(Chosen(l, m)) && Dsts(o.reports) == Next(uid, |o.reports|)
      && Uids(o.msgs, Window(o.msgs, b)) == Kept(l, m)
      && Uids(o.msgs, Window(o.msgs, d)) == Uids(msgs, Window(msgs, d)) + Dsts(o.reports)
      && Replays(l, Nums(o.reports), Uids(o.msgs, Window(o.msgs, b)))
  {
    hide Window, UniqueUids, Room, MoveAll, MoveRanges;
    MoveIsRanges(msgs, b, d, rs, true, uid, v, 0);
    MoveByUid(Uids(msgs, Window(msgs, b)), rs);
  }

  lemma {:induction false} MoveRowsKeep(msgs: seq<Msg>, ps: seq<Pick>, gone: nat, b: nat, d: nat, uid: nat, v: nat, i: nat)
    requires InTable(ps, |msgs|) && Outrun(ps, gone) && i < |msgs|
    ensures var m := MoveRows(msgs, ps, gone, b, d, uid, v).msgs[i];
      m.flags == msgs[i].flags && m.body == msgs[i].body && m.state == msgs[i].state
    decreases |ps|
  {
    if ps != [] {
      MoveRowsKeep(MoveRow(msgs, ps[0].row, b, d, uid, v), ps[1..], gone + 1, b, d, uid + 1, v, i);
    }
  }

  /** However a message is moved, its flags and its body go along. */
  lemma {:induction false} MoveKeepsMail(msgs: seq<Msg>, b: nat, d: nat, rs: seq<SeqRange>, useUid: bool, uid: nat, v: nat,
                                         delta: nat, i: nat)
    requires i < |msgs|
    ensures var o := MoveAll(msgs, b, d, rs, useUid, uid, v, delta);
      && i < |o.msgs| && o.msgs[i].flags == msgs[i].flags && o.msgs[i].body == msgs[i].body
      && o.msgs[i].state == msgs[i].state
    decreases |rs|
  {
    if rs != [] {
      var ps := Picks(msgs, b, rs[0], useUid, delta);
      PicksInTable(msgs, b, rs[0], useUid, delta);
      var w := Window(msgs, b);
      PickNumbers(w, RangeMask(Uids(msgs, w), rs[0], useUid, delta), 1, 0);
      hide Picks, Window;
      MoveRowsKeep(msgs, ps, 0, b, d, uid, v, i);
      var o := MoveRows(msgs, ps, 0, b, d, uid, v);
      MoveKeepsMail(o.msgs, b, d, rs[1..], useUid, uid + |ps|, v, delta + |ps|, i);
    }
  }

  // ---------------------------------------------------------------- EXPUNGE

  predicate Goes(m: Msg, uidSeqs: Option<seq<SeqRange>>) {
    DELETED in m.flags && (uidSeqs.None? || SeqContains(uidSeqs.value, m.uid))
  }

  function ExpungeMask(msgs: seq<Msg>, w: seq<nat>, uidSeqs: Option<seq<SeqRange>>): (m: seq<bool>)
    requires forall k | 0 <= k < |w| :: w[k] < |msgs|
    ensures |m| == |w|
  {
    seq(|w|, k requires 0 <= k < |w| => Goes(msgs[w[k]], uidSeqs))
  }

  function ExpungeRows(msgs: seq<Msg>, rows: seq<nat>): (r: seq<Msg>)
    requires forall k | 0 <= k < |rows| :: rows[k] < |msgs|
    ensures |r| == |msgs|
  {
    seq(|msgs|, i requires 0 <= i < |msgs| => if i in rows then msgs[i].(state := Expunged) else msgs[i])
  }

  /** EXPUNGE leaves exactly the messages without \Deleted, or outside the UID
      set, in order, and no mod-sequence changes; replaying the numbers leads
      there. */
  lemma ExpungeExact(msgs: seq<Msg>, b: nat, uidSeqs: Option<seq<SeqRange>>)
    requires UniqueUids(msgs)
    ensures var w := Window(msgs, b);
      var m := ExpungeMask(msgs, w, uidSeqs);
      && InRows(Chosen(w, m), |msgs|)
      && var msgs' := ExpungeRows(msgs, Chosen(w, m));
      && Window(msgs', b) == Kept(w, m)
      && Uids(msgs', Kept(w, m)) == Kept(Uids(msgs, w), m)
      && Replays(Uids(msgs, w), Reported(m), Uids(msgs', Window(msgs', b)))
      && forall i | 0 <= i < |msgs| :: msgs'[i] == msgs[i].(state := msgs'[i].state)
  {
    var w := Window(msgs, b);
    var m := ExpungeMask(msgs, w, uidSeqs);
    UidsOfChosen(msgs, w, m);
    var msgs' := ExpungeRows(msgs, Chosen(w, m));
    assert UniqueUids(msgs');
    hide Window, UniqueUids;
    WindowWithout(msgs, msgs', w, m, b);
    ReportedReplay(Uids(msgs, w), m);
  }

  /** The store in memory, which removes and renumbers one at a time, reports
      the same numbers for the same messages. */
  lemma SameReports(l: seq<MemoryStore.Msg>, msgs: seq<Msg>, w: seq<nat>, uidSeqs: Option<seq<SeqRange>>)
    requires InRows(w, |msgs|) && |l| == |w|
    requires forall k | 0 <= k < |w| ::
      l[k].uid == msgs[w[k]].uid && (DELETED in l[k].mail.flags <==> DELETED in msgs[w[k]].flags)
    ensures Reported(MemoryStore.ExpungeMask(l, uidSeqs)) == Reported(ExpungeMask(msgs, w, uidSeqs))
  {
    assert MemoryStore.ExpungeMask(l, uidSeqs) == ExpungeMask(msgs, w, uidSeqs);
  }
}
