/** What STORE, COPY, MOVE and EXPUNGE do to the rows of the message table
    (spilldb/imapdb), as functions of the rows. */
module MailOps {
  import opened Bytes
  import opened SeqSet
  import opened ListReplay
  import opened MailTables

  const DELETED := "\\Deleted"
  const RECENT := "\\Recent"

  // ------------------------------------------- the window query of a mailbox

  predicate Visible(m: Msg, b: nat) { m.box == b && m.state.Ready? }

  /** Row `i` at its place among rows in the order of their UIDs. */
  function InOrder(msgs: seq<Msg>, w: seq<nat>, i: nat): seq<nat>
    requires i < |msgs| && forall k | 0 <= k < |w| :: w[k] < |msgs|
  {
    if w == [] || msgs[i].uid < msgs[w[0]].uid then [i] + w
    else [w[0]] + InOrder(msgs, w[1..], i)
  }

  /** The rows there are to see in mailbox `b` among the first `n`, by UID. */
  function WindowUpTo(msgs: seq<Msg>, b: nat, n: nat): (w: seq<nat>)
    requires n <= |msgs|
    ensures forall k | 0 <= k < |w| :: w[k] < n
  {
    if n == 0 then []
    else if Visible(msgs[n - 1], b) then
      var w := WindowUpTo(msgs, b, n - 1);
      InOrderIn(msgs, w, n - 1);
      var r := InOrder(msgs, w, n - 1);
      assert forall k | 0 <= k < |r| :: r[k] in r;
      r
    else WindowUpTo(msgs, b, n - 1)
  }

  function Window(msgs: seq<Msg>, b: nat): (w: seq<nat>)
    ensures forall k | 0 <= k < |w| :: w[k] < |msgs|
  {
    WindowUpTo(msgs, b, |msgs|)
  }

  lemma {:induction false} InOrderIn(msgs: seq<Msg>, w: seq<nat>, i: nat)
    requires i < |msgs| && forall k | 0 <= k < |w| :: w[k] < |msgs|
    ensures forall x :: x in InOrder(msgs, w, i) <==> x == i || x in w
    decreases |w|
  {
    if !(w == [] || msgs[i].uid < msgs[w[0]].uid) {
      InOrderIn(msgs, w[1..], i);
      assert w == [w[0]] + w[1..];
    }
  }

  ghost predicate Climbs(msgs: seq<Msg>, w: seq<nat>) {
    && (forall k | 0 <= k < |w| :: w[k] < |msgs|)
    && (forall j, k | 0 <= j < k < |w| :: msgs[w[j]].uid < msgs[w[k]].uid)
  }

  /** `w` is the window: what there is to see in `b`, all of it, by UID. */
  ghost predicate IsWindow(w: seq<nat>, msgs: seq<Msg>, b: nat) {
    && Climbs(msgs, w)
    && (forall k | 0 <= k < |w| :: Visible(msgs[w[k]], b))
    && (forall i | 0 <= i < |msgs| && Visible(msgs[i], b) :: i in w)
  }

  lemma ClimbsCons(msgs: seq<Msg>, x: nat, r: seq<nat>)
    requires x < |msgs| && Climbs(msgs, r)
    requires forall k | 0 <= k < |r| :: msgs[x].uid < msgs[r[k]].uid
    ensures Climbs(msgs, [x] + r)
  {
    var s := [x] + r;
    forall j, k | 0 <= j < k < |s|
      ensures msgs[s[j]].uid < msgs[s[k]].uid
    {
      assert s[k] == r[k - 1];
    }
  }

  lemma {:induction false} InOrderClimbs(msgs: seq<Msg>, w: seq<nat>, i: nat)
    requires i < |msgs| && Climbs(msgs, w)
    requires forall k | 0 <= k < |w| :: msgs[w[k]].uid != msgs[i].uid
    ensures Climbs(msgs, InOrder(msgs, w, i))
    decreases |w|
  {
    if !(w == [] || msgs[i].uid < msgs[w[0]].uid) {
      var t := w[1..];
      assert Climbs(msgs, t);
      InOrderClimbs(msgs, t, i);
      InOrderIn(msgs, t, i);
      var r := InOrder(msgs, t, i);
      forall k | 0 <= k < |r|
        ensures msgs[w[0]].uid < msgs[r[k]].uid
      {
        assert r[k] in r;
        if r[k] != i {
          var j :| 0 <= j < |t| && t[j] == r[k];
          assert w[j + 1] == r[k];
        }
      }
      hide InOrder;
      ClimbsCons(msgs, w[0], r);
    }
  }

  lemma ClimbsNone(msgs: seq<Msg>)
    ensures Climbs(msgs, [])
  {
  }

  lemma {:induction false} WindowUpToIs(msgs: seq<Msg>, b: nat, n: nat)
    requires n <= |msgs| && UniqueUids(msgs)
    ensures var w := WindowUpTo(msgs, b, n);
      && Climbs(msgs, w)
      && (forall k | 0 <= k < |w| :: Visible(msgs[w[k]], b))
      && (forall i | 0 <= i < n && Visible(msgs[i], b) :: i in w)
  {
    hide InOrder, UniqueUids, Climbs;
    if n == 0 {
      ClimbsNone(msgs);
    } else {
      WindowUpToIs(msgs, b, n - 1);
      if Visible(msgs[n - 1], b) {
        WindowGrows(msgs, b, WindowUpTo(msgs, b, n - 1), n - 1);
      }
    }
  }

  lemma WindowGrows(msgs: seq<Msg>, b: nat, w: seq<nat>, n: nat)
    requires n < |msgs| && UniqueUids(msgs) && Visible(msgs[n], b) && Climbs(msgs, w)
    requires forall k | 0 <= k < |w| :: w[k] < n && Visible(msgs[w[k]], b)
    ensures var r := InOrder(msgs, w, n);
      Climbs(msgs, r) && forall k | 0 <= k < |r| :: Visible(msgs[r[k]], b)
    ensures forall x :: x in InOrder(msgs, w, n) <==> x == n || x in w
  {
    InOrderIn(msgs, w, n);
    InOrderClimbs(msgs, w, n);
    var r := InOrder(msgs, w, n);
    hide InOrder;
    forall k | 0 <= k < |r|
      ensures Visible(msgs[r[k]], b)
    {
      assert r[k] in r;
    }
  }

  lemma WindowIs(msgs: seq<Msg>, b: nat)
    requires UniqueUids(msgs)
    ensures IsWindow(Window(msgs, b), msgs, b)
  {
    WindowUpToIs(msgs, b, |msgs|);
  }

  /** The rows and their order leave only one window. */
  lemma {:induction false} SameClimb(msgs: seq<Msg>, v: seq<nat>, w: seq<nat>)
    requires Climbs(msgs, v) && Climbs(msgs, w)
    requires forall x | x in v :: x in w
    requires forall x | x in w :: x in v
    ensures v == w
    decreases |v|
  {
    assert v != [] ==> v[0] in w;
    assert w != [] ==> w[0] in v;
    if v != [] && w != [] {
      assert v[0] in w && w[0] in v;
      assert v[0] == w[0];
      TailWithin(msgs, v, w);
      TailWithin(msgs, w, v);
      SameClimb(msgs, v[1..], w[1..]);
      assert v == [v[0]] + v[1..] && w == [w[0]] + w[1..];
    }
  }

  lemma TailWithin(msgs: seq<Msg>, v: seq<nat>, w: seq<nat>)
    requires v != [] && w != [] && v[0] == w[0] && Climbs(msgs, v)
    requires forall x | x in v :: x in w
    ensures forall x | x in v[1..] :: x in w[1..]
  {
    forall x | x in v[1..]
      ensures x in w[1..]
    {
      var k :| 0 <= k < |v[1..]| && v[1..][k] == x;
      assert v[k + 1] == x && x in v && msgs[v[0]].uid < msgs[v[k + 1]].uid;
      assert w == [w[0]] + w[1..];
    }
  }

  lemma WindowUnique(w: seq<nat>, msgs: seq<Msg>, b: nat)
    requires UniqueUids(msgs) && IsWindow(w, msgs, b)
    ensures w == Window(msgs, b)
  {
    WindowIs(msgs, b);
    SameClimb(msgs, w, Window(msgs, b));
  }

  function Uids(msgs: seq<Msg>, w: seq<nat>): (u: seq<nat>)
    requires forall k | 0 <= k < |w| :: w[k] < |msgs|
    ensures |u| == |w|
  {
    seq(|w|, k requires 0 <= k < |w| => msgs[w[k]].uid)
  }

  /** A row the query yields. */
  datatype Pick = Pick(row: nat, seqNum: nat)

  function NumberedFrom(w: seq<nat>, i: nat): (ps: seq<Pick>)
    ensures |ps| == |w|
  {
    seq(|w|, k requires 0 <= k < |w| => Pick(w[k], i + k))
  }

  function PickMask(msgs: seq<Msg>, w: seq<nat>, m: seq<bool>): seq<Pick>
    requires |m| == |w|
  {
    Chosen(NumberedFrom(w, 1), m)
  }

  /** The rows of one range of the set, shifted by `delta` in a MOVE. */
  function Picks(msgs: seq<Msg>, b: nat, r: SeqRange, useUid: bool, delta: nat): seq<Pick> {
    var w := Window(msgs, b);
    PickMask(msgs, w, RangeMask(Uids(msgs, w), r, useUid, delta))
  }

  lemma {:induction false} ChosenSub<T>(l: seq<T>, m: seq<bool>)
    requires |m| == |l|
    ensures forall x | x in Chosen(l, m) :: x in l
    ensures forall x | x in Kept(l, m) :: x in l
    decreases |l|
  {
    if l != [] {
      ChosenSub(l[1..], m[1..]);
      assert l == [l[0]] + l[1..];
    }
  }

  ghost predicate Distinct<T>(l: seq<T>) {
    forall j, k | 0 <= j < k < |l| :: l[j] != l[k]
  }

  /** In a list without repetition, an element is chosen exactly when its place
      is marked. */
  lemma {:induction false} ChosenAt<T>(l: seq<T>, m: seq<bool>, j: nat)
    requires |m| == |l| && j < |l| && Distinct(l)
    ensures l[j] in Chosen(l, m) <==> m[j]
    ensures l[j] in Kept(l, m) <==> !m[j]
    decreases |l|
  {
    var t, n := l[1..], m[1..];
    ChosenSub(t, n);
    if j == 0 {
      assert l[0] !in t;
    } else {
      assert l[j] == t[j - 1] && m[j] == n[j - 1];
      ChosenAt(t, n, j - 1);
    }
  }

  // ------------------------------------------------------------------ STORE

  datatype Mode = Add | Remove | Replace

  datatype Cmd = Cmd(mode: Mode, flags: set<string>, since: nat, useUid: bool)

  datatype Result = Result(seqNum: nat, uid: nat, flags: set<string>, modSeq: nat)

  function NewFlags(c: Cmd, flags: set<string>): set<string> {
    match c.mode
    case Add => flags + c.flags
    case Remove => flags - c.flags
    case Replace => c.flags
  }

  /** UNCHANGEDSINCE refuses to replace the flags. */
  predicate Refused(c: Cmd, m: Msg) {
    c.mode.Replace? && c.since != 0 && m.modSeq > c.since
  }

  predicate Changes(c: Cmd, m: Msg) { !Refused(c, m) && NewFlags(c, m.flags) != m.flags }

  /** One row after the command has come across it. */
  function Touched(c: Cmd, m: Msg, v: nat): Msg {
    if Changes(c, m) then m.(flags := NewFlags(c, m.flags), modSeq := v) else m
  }

  /** What is answered for it. */
  function Answers(c: Cmd, m: Msg, v: nat, seqNum: nat): seq<Result> {
    if Refused(c, m) then []
    else if Changes(c, m) then [Result(seqNum, m.uid, NewFlags(c, m.flags), v)]
    else if c.since != 0 && m.modSeq > c.since then [Result(seqNum, m.uid, m.flags, m.modSeq)]
    else []
  }

  datatype StoreOut = StoreOut(msgs: seq<Msg>, refused: seq<Pick>, stored: seq<Result>)

  ghost predicate InTable(ps: seq<Pick>, n: nat) { forall k | 0 <= k < |ps| :: ps[k].row < n }

  function StoreRows(msgs: seq<Msg>, ps: seq<Pick>, c: Cmd, v: nat): (o: StoreOut)
    requires InTable(ps, |msgs|)
    ensures |o.msgs| == |msgs|
    decreases |ps|
  {
    if ps == [] then StoreOut(msgs, [], [])
    else
      var p := ps[0];
      var m := msgs[p.row];
      assert InTable(ps[1..], |msgs|);
      var more := StoreRows(msgs[p.row := Touched(c, m, v)], ps[1..], c, v);
      StoreOut(more.msgs, (if Refused(c, m) then [p] else []) + more.refused, Answers(c, m, v, p.seqNum) + more.stored)
  }

  /** How often row `i` is come across. */
  function Hits(ps: seq<Pick>, i: nat): nat {
    if ps == [] then 0 else (if ps[0].row == i then 1 else 0) + Hits(ps[1..], i)
  }

  /** However often a row is come across, it is changed once at most, */
  lemma TouchedTwice(c: Cmd, m: Msg, v: nat)
    ensures Touched(c, Touched(c, m, v), v) == Touched(c, m, v)
  {
  }

  /** and so ends up as if it had been the only one. */
  lemma {:induction false} StoreRow(msgs: seq<Msg>, ps: seq<Pick>, c: Cmd, v: nat, i: nat)
    requires InTable(ps, |msgs|) && i < |msgs|
    ensures StoreRows(msgs, ps, c, v).msgs[i] == if Hits(ps, i) > 0 then Touched(c, msgs[i], v) else msgs[i]
    decreases |ps|
  {
    if ps != [] {
      var p := ps[0];
      hide Touched;
      StoreRow(msgs[p.row := Touched(c, msgs[p.row], v)], ps[1..], c, v, i);
      if p.row == i {
        TouchedTwice(c, msgs[i], v);
      }
    }
  }

  /** STORE changes a message's mod-sequence exactly when it changes its flags,
      and changes nothing else of any message. */
  lemma StoreStamps(msgs: seq<Msg>, ps: seq<Pick>, c: Cmd, v: nat, i: nat)
    requires InTable(ps, |msgs|) && i < |msgs| && msgs[i].modSeq < v
    ensures var m, m' := msgs[i], StoreRows(msgs, ps, c, v).msgs[i];
      && (m'.modSeq != m.modSeq <==> m'.flags != m.flags)
      && (m'.modSeq == m.modSeq || m'.modSeq == v)
      && m' == m.(flags := m'.flags, modSeq := m'.modSeq)
      && (m'.flags != m.flags ==> m'.flags == NewFlags(c, m.flags))
  {
    StoreRow(msgs, ps, c, v, i);
  }

  /** How often a row is refused: always, if it was changed since; if it was
      not, then from the second time on when the command itself changed it. */
  lemma {:induction false} RefusedExact(msgs: seq<Msg>, ps: seq<Pick>, c: Cmd, v: nat, i: nat)
    requires InTable(ps, |msgs|) && i < |msgs|
    ensures Hits(StoreRows(msgs, ps, c, v).refused, i)
         == if Refused(c, msgs[i]) then Hits(ps, i)
            else if Hits(ps, i) > 0 && Refused(c, Touched(c, msgs[i], v)) then Hits(ps, i) - 1
            else 0
    decreases |ps|
  {
    if ps != [] {
      var p := ps[0];
      var m := msgs[p.row];
      var more := StoreRows(msgs[p.row := Touched(c, m, v)], ps[1..], c, v);
      RefusedExact(msgs[p.row := Touched(c, m, v)], ps[1..], c, v, i);
      assert ([p] + more.refused)[1..] == more.refused;
      if p.row == i {
        TouchedTwice(c, m, v);
      }
      assert [] + more.refused == more.refused;
    }
  }

  /** A refused message is left alone, unless overlapping ranges come across it
      again after the command has changed it. */
  lemma RefusedUntouched(msgs: seq<Msg>, ps: seq<Pick>, c: Cmd, v: nat, i: nat)
    requires InTable(ps, |msgs|) && i < |msgs|
    ensures var o := StoreRows(msgs, ps, c, v);
      && (Hits(o.refused, i) > 0 && o.msgs[i] != msgs[i]
          <==> Hits(ps, i) > 1 && Changes(c, msgs[i]) && c.mode.Replace? && 0 < c.since < v)
      && (Hits(ps, i) > 0 && Refused(c, msgs[i]) ==> Hits(o.refused, i) > 0 && o.msgs[i] == msgs[i])
  {
    StoreRow(msgs, ps, c, v, i);
    RefusedExact(msgs, ps, c, v, i);
  }

  /** That happens: one message, come across twice, is both changed and
      refused. */
  lemma OverlapRefuses(m: Msg, v: nat)
    requires v > 1 && m.modSeq <= 1 && m.flags != {}
    ensures var o := StoreRows([m], [Pick(0, 1), Pick(0, 1)], Cmd(Replace, {}, 1, false), v);
      o.refused == [Pick(0, 1)] && o.msgs[0].flags == {}
  {
    var c := Cmd(Replace, {}, 1, false);
    var ps := [Pick(0, 1), Pick(0, 1)];
    var m' := Touched(c, m, v);
    assert ps[1..] == [Pick(0, 1)] && ps[1..][1..] == [];
    assert [m][0 := m'] == [m'] && [m'][0 := m'] == [m'];
    assert StoreRows([m'], [], c, v).refused == [];
    assert StoreRows([m'], ps[1..], c, v).refused == [Pick(0, 1)] + [];
  }

  // -------------------------------------------------- STORE, range by range

  lemma PicksInTable(msgs: seq<Msg>, b: nat, r: SeqRange, useUid: bool, delta: nat)
    ensures InTable(Picks(msgs, b, r, useUid, delta), |msgs|)
  {
    var w := Window(msgs, b);
    var ns, m := NumberedFrom(w, 1), RangeMask(Uids(msgs, w), r, useUid, delta);
    ChosenSub(ns, m);
    var ps := Chosen(ns, m);
    forall k | 0 <= k < |ps|
      ensures ps[k].row < |msgs|
    {
      assert ps[k] in ps && ps[k] in ns;
    }
  }

  /** Each range is a query of its own. */
  function StoreRanges(msgs: seq<Msg>, b: nat, rs: seq<SeqRange>, c: Cmd, v: nat): StoreOut
    decreases |rs|
  {
    if rs == [] then StoreOut(msgs, [], [])
    else
      PicksInTable(msgs, b, rs[0], c.useUid, 0);
      var o := StoreRows(msgs, Picks(msgs, b, rs[0], c.useUid, 0), c, v);
      var more := StoreRanges(o.msgs, b, rs[1..], c, v);
      StoreOut(more.msgs, o.refused + more.refused, o.stored + more.stored)
  }

  function AllPicks(msgs: seq<Msg>, b: nat, rs: seq<SeqRange>, useUid: bool): seq<Pick> {
    if rs == [] then [] else Picks(msgs, b, rs[0], useUid, 0) + AllPicks(msgs, b, rs[1..], useUid)
  }

  lemma {:induction false} AllPicksInTable(msgs: seq<Msg>, b: nat, rs: seq<SeqRange>, useUid: bool)
    ensures InTable(AllPicks(msgs, b, rs, useUid), |msgs|)
  {
    hide Picks;
    if rs != [] {
      PicksInTable(msgs, b, rs[0], useUid, 0);
      AllPicksInTable(msgs, b, rs[1..], useUid);
    }
  }

  /** The columns the window query selects and sorts by. */
  ghost predicate SamePlaces(msgs: seq<Msg>, msgs': seq<Msg>) {
    && |msgs'| == |msgs|
    && forall i | 0 <= i < |msgs| ::
         msgs'[i].box == msgs[i].box && msgs'[i].uid == msgs[i].uid && msgs'[i].state == msgs[i].state
  }

  lemma SameWindow(msgs: seq<Msg>, msgs': seq<Msg>, b: nat)
    requires UniqueUids(msgs) && SamePlaces(msgs, msgs')
    ensures UniqueUids(msgs') && Window(msgs', b) == Window(msgs, b)
    ensures Uids(msgs', Window(msgs', b)) == Uids(msgs, Window(msgs, b))
  {
    hide Window;
    WindowIs(msgs, b);
    WindowUnique(Window(msgs, b), msgs', b);
  }

  lemma {:induction false} StorePlaces(msgs: seq<Msg>, ps: seq<Pick>, c: Cmd, v: nat)
    requires InTable(ps, |msgs|)
    ensures SamePlaces(msgs, StoreRows(msgs, ps, c, v).msgs)
    decreases |ps|
  {
    if ps != [] {
      StorePlaces(msgs[ps[0].row := Touched(c, msgs[ps[0].row], v)], ps[1..], c, v);
    }
  }

  lemma {:induction false} StoreRowsAppend(msgs: seq<Msg>, a: seq<Pick>, b: seq<Pick>, c: Cmd, v: nat)
    requires InTable(a, |msgs|) && InTable(b, |msgs|) && InTable(a + b, |msgs|)
    ensures var o := StoreRows(msgs, a, c, v);
      var o2 := StoreRows(o.msgs, b, c, v);
      StoreRows(msgs, a + b, c, v) == StoreOut(o2.msgs, o.refused + o2.refused, o.stored + o2.stored)
    decreases |a|
  {
    if a == [] {
      assert a + b == b;
    } else {
      var p := a[0];
      var m := msgs[p.row];
      var next := msgs[p.row := Touched(c, m, v)];
      assert (a + b)[1..] == a[1..] + b;
      StoreRowsAppend(next, a[1..], b, c, v);
      var more := StoreRows(next, a[1..], c, v);
      var o2 := StoreRows(more.msgs, b, c, v);
      Assoc(if Refused(c, m) then [p] else [], more.refused, o2.refused);
      Assoc(Answers(c, m, v, p.seqNum), more.stored, o2.stored);
    }
  }

  lemma {:induction false} SamePicks(msgs: seq<Msg>, msgs': seq<Msg>, b: nat, rs: seq<SeqRange>, useUid: bool)
    requires UniqueUids(msgs) && SamePlaces(msgs, msgs')
    ensures AllPicks(msgs', b, rs, useUid) == AllPicks(msgs, b, rs, useUid)
  {
    SameWindow(msgs, msgs', b);
    hide Window, PickMask;
    if rs != [] {
      SamePicks(msgs, msgs', b, rs[1..], useUid);
    }
  }

  /** The queries in between see the places they saw at first. */
  lemma {:induction false} StoreRangesFlat(msgs: seq<Msg>, b: nat, rs: seq<SeqRange>, c: Cmd, v: nat)
    requires UniqueUids(msgs)
    ensures InTable(AllPicks(msgs, b, rs, c.useUid), |msgs|)
    ensures StoreRanges(msgs, b, rs, c, v) == StoreRows(msgs, AllPicks(msgs, b, rs, c.useUid), c, v)
    decreases |rs|
  {
    AllPicksInTable(msgs, b, rs, c.useUid);
    hide Picks, SamePlaces, UniqueUids, Window;
    if rs != [] {
      var ps := Picks(msgs, b, rs[0], c.useUid, 0);
      PicksInTable(msgs, b, rs[0], c.useUid, 0);
      AllPicksInTable(msgs, b, rs[1..], c.useUid);
      var o := StoreRows(msgs, ps, c, v);
      StorePlaces(msgs, ps, c, v);
      SameWindow(msgs, o.msgs, b);
      StoreRangesFlat(o.msgs, b, rs[1..], c, v);
      SamePicks(msgs, o.msgs, b, rs[1..], c.useUid);
      StoreRowsAppend(msgs, ps, AllPicks(msgs, b, rs[1..], c.useUid), c, v);
    }
  }

  /** How many of the ranges cover a number. */
  function Cover(rs: seq<SeqRange>, n: nat): nat {
    if rs == [] then 0 else (if Within(rs[0], n, 0) then 1 else 0) + Cover(rs[1..], n)
  }

  /** The number a client has for place `k` of the window. */
  function NumberOf(msgs: seq<Msg>, w: seq<nat>, useUid: bool, k: nat): nat
    requires k < |w| && w[k] < |msgs|
  {
    if useUid then msgs[w[k]].uid else k + 1
  }

  lemma {:induction false} HitsAppend(a: seq<Pick>, b: seq<Pick>, i: nat)
    ensures Hits(a + b, i) == Hits(a, i) + Hits(b, i)
    decreases |a|
  {
    if a == [] {
      assert a + b == b;
    } else {
      assert (a + b)[1..] == a[1..] + b;
      HitsAppend(a[1..], b, i);
    }
  }

  lemma {:induction false} NoHit(ps: seq<Pick>, i: nat)
    requires forall k | 0 <= k < |ps| :: ps[k].row != i
    ensures Hits(ps, i) == 0
  {
    if ps != [] {
      NoHit(ps[1..], i);
    }
  }

  lemma {:induction false} ChosenHits(w: seq<nat>, m: seq<bool>, i: nat, k: nat)
    requires |m| == |w| && k < |w| && Distinct(w)
    ensures Hits(Chosen(NumberedFrom(w, i), m), w[k]) == if m[k] then 1 else 0
    decreases |w|
  {
    var ns := NumberedFrom(w, i);
    assert ns[1..] == NumberedFrom(w[1..], i + 1);
    var rest := Chosen(ns[1..], m[1..]);
    assert m[0] ==> ([ns[0]] + rest)[1..] == rest;
    if k == 0 {
      ChosenSub(ns[1..], m[1..]);
      forall j | 0 <= j < |rest|
        ensures rest[j].row != w[0]
      {
        assert rest[j] in rest && rest[j] in ns[1..];
      }
      NoHit(rest, w[0]);
    } else {
      ChosenHits(w[1..], m[1..], i + 1, k - 1);
    }
  }

  lemma WindowDistinct(msgs: seq<Msg>, b: nat)
    requires UniqueUids(msgs)
    ensures Distinct(Window(msgs, b))
  {
    WindowIs(msgs, b);
    hide Window;
  }

  /** A message is come across once for each range that covers its number. */
  lemma {:induction false} HitsAreCover(msgs: seq<Msg>, b: nat, rs: seq<SeqRange>, useUid: bool, k: nat)
    requires UniqueUids(msgs) && k < |Window(msgs, b)|
    ensures var w := Window(msgs, b);
      Hits(AllPicks(msgs, b, rs, useUid), w[k]) == Cover(rs, NumberOf(msgs, w, useUid, k))
  {
    hide Window;
    if rs != [] {
      var w := Window(msgs, b);
      WindowDistinct(msgs, b);
      ChosenHits(w, RangeMask(Uids(msgs, w), rs[0], useUid, 0), 1, k);
      HitsAppend(Picks(msgs, b, rs[0], useUid, 0), AllPicks(msgs, b, rs[1..], useUid), w[k]);
      HitsAreCover(msgs, b, rs[1..], useUid, k);
    }
  }

  /** STORE on a set: of the messages it covers, and no others, the flags and
      with them the mod-sequence change, and those refused stay as they are
      and are listed, if no two ranges cover the same message. */
  lemma StoreBySet(msgs: seq<Msg>, b: nat, rs: seq<SeqRange>, c: Cmd, v: nat, k: nat)
    requires UniqueUids(msgs) && k < |Window(msgs, b)|
    ensures var w := Window(msgs, b);
      var i, n, o := w[k], Cover(rs, NumberOf(msgs, w, c.useUid, k)), StoreRanges(msgs, b, rs, c, v);
      && |o.msgs| == |msgs|
      && o.msgs[i] == (if n > 0 then Touched(c, msgs[i], v) else msgs[i])
      && (n > 0 && Refused(c, msgs[i]) ==> Hits(o.refused, i) > 0 && o.msgs[i] == msgs[i])
      && (n <= 1 ==> (Hits(o.refused, i) > 0 <==> n == 1 && Refused(c, msgs[i])))
  {
    hide Window;
    var i := Window(msgs, b)[k];
    var ps := AllPicks(msgs, b, rs, c.useUid);
    StoreRangesFlat(msgs, b, rs, c, v);
    HitsAreCover(msgs, b, rs, c.useUid, k);
    StoreRow(msgs, ps, c, v, i);
    RefusedUntouched(msgs, ps, c, v, i);
    RefusedExact(msgs, ps, c, v, i);
  }

  lemma {:induction false} OutsideHits(msgs: seq<Msg>, b: nat, rs: seq<SeqRange>, useUid: bool, i: nat)
    requires i !in Window(msgs, b)
    ensures Hits(AllPicks(msgs, b, rs, useUid), i) == 0
  {
    hide Window;
    if rs != [] {
      var w := Window(msgs, b);
      var ns, m := NumberedFrom(w, 1), RangeMask(Uids(msgs, w), rs[0], useUid, 0);
      var ps := Chosen(ns, m);
      ChosenSub(ns, m);
      forall k | 0 <= k < |ps|
        ensures ps[k].row != i
      {
        assert ps[k] in ps && ps[k] in ns;
      }
      NoHit(ps, i);
      HitsAppend(Picks(msgs, b, rs[0], useUid, 0), AllPicks(msgs, b, rs[1..], useUid), i);
      OutsideHits(msgs, b, rs[1..], useUid, i);
    }
  }

  /** Other mailboxes, and messages already expunged, are not touched. */
  lemma StoreOthers(msgs: seq<Msg>, b: nat, rs: seq<SeqRange>, c: Cmd, v: nat, i: nat)
    requires UniqueUids(msgs) && i < |msgs| && !Visible(msgs[i], b)
    ensures |StoreRanges(msgs, b, rs, c, v).msgs| == |msgs|
    ensures StoreRanges(msgs, b, rs, c, v).msgs[i] == msgs[i]
  {
    WindowIs(msgs, b);
    hide Window;
    StoreRangesFlat(msgs, b, rs, c, v);
    OutsideHits(msgs, b, rs, c.useUid, i);
    StoreRow(msgs, AllPicks(msgs, b, rs, c.useUid), c, v, i);
  }
}
