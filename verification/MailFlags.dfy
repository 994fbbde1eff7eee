/** What STORE does to messages, flag by flag, and what it answers
    (spilldb/imapdb/imapdb.go), said without the functions that carry it out. */
module MailFlags {
  import opened Bytes
  import opened SeqSet
  import opened ListReplay
  import opened MailTables
  import opened MailOps

  /** The set names this message, under the number the command uses. */
  ghost predicate Named(msgs: seq<Msg>, b: nat, rs: seq<SeqRange>, useUid: bool, k: nat)
    requires k < |Window(msgs, b)|
  {
    var n := if useUid then msgs[Window(msgs, b)[k]].uid else k + 1;
    exists j :: 0 <= j < |rs| && rs[j].min <= n <= if rs[j].max == 0 then MAX_UINT32 else rs[j].max
  }

  lemma {:induction false} NamedIsCover(rs: seq<SeqRange>, n: nat)
    ensures Cover(rs, n) > 0 <==>
      exists j :: 0 <= j < |rs| && rs[j].min <= n <= if rs[j].max == 0 then MAX_UINT32 else rs[j].max
  {
    if rs != [] {
      NamedIsCover(rs[1..], n);
      assert forall j | 0 < j < |rs| :: rs[j] == rs[1..][j - 1];
      if exists j :: 0 <= j < |rs| && rs[j].min <= n <= if rs[j].max == 0 then MAX_UINT32 else rs[j].max {
        var j :| 0 <= j < |rs| && rs[j].min <= n <= if rs[j].max == 0 then MAX_UINT32 else rs[j].max;
        if j > 0 {
          assert rs[1..][j - 1] == rs[j];
        }
      }
    }
  }

  /** The message was changed after the time the command names. */
  predicate ChangedSince(c: Cmd, m: Msg) { c.since != 0 && m.modSeq > c.since }

  /** Flag by flag: +FLAGS adds the flags given, -FLAGS takes them away, FLAGS
      puts them in the place of all others, unless the message was changed since.
      Nothing else of a message changes, and its mod-sequence just if its flags
      do. */
  lemma StoreMeans(msgs: seq<Msg>, b: nat, rs: seq<SeqRange>, c: Cmd, v: nat, k: nat, f: string)
    requires UniqueUids(msgs) && k < |Window(msgs, b)|
    ensures var i, o := Window(msgs, b)[k], StoreRanges(msgs, b, rs, c, v);
      && |o.msgs| == |msgs|
      && var m, m' := msgs[i], o.msgs[i];
      && var stored := Named(msgs, b, rs, c.useUid, k) && !(c.mode.Replace? && ChangedSince(c, m));
      && (stored && c.mode.Add? ==> (f in m'.flags <==> f in m.flags || f in c.flags))
      && (stored && c.mode.Remove? ==> (f in m'.flags <==> f in m.flags && f !in c.flags))
      && (stored && c.mode.Replace? ==> (f in m'.flags <==> f in c.flags))
      && (!stored ==> m' == m)
      && m'.modSeq == (if m'.flags == m.flags then m.modSeq else v)
      && m'.box == m.box && m'.uid == m.uid && m'.state == m.state && m'.body == m.body
  {
    StoreBySet(msgs, b, rs, c, v, k);
    hide Window, Cover, StoreRanges;
    NamedIsCover(rs, NumberOf(msgs, Window(msgs, b), c.useUid, k));
  }

  // -------------------------------------------------------- what is answered

  /** Each row is met at one place. */
  ghost predicate Placed(ps: seq<Pick>, n: nat, w: seq<nat>) {
    && InTable(ps, n)
    && forall j | 0 <= j < |ps| :: 0 < ps[j].seqNum <= |w| && w[ps[j].seqNum - 1] == ps[j].row
  }

  /** The answer for a row, as it is afterwards. */
  function AnswerOf(m: Msg, place: nat): Result { Result(place, m.uid, m.flags, m.modSeq) }

  /** Which rows are answered for. */
  ghost predicate Due(c: Cmd, m: Msg, m': Msg) {
    m'.flags != m.flags || (!c.mode.Replace? && ChangedSince(c, m))
  }

  ghost predicate DueAt(msgs: seq<Msg>, msgs': seq<Msg>, ps: seq<Pick>, c: Cmd, r: Result, j: nat)
    requires |msgs| == |msgs'| && j < |ps| && ps[j].row < |msgs|
  {
    Due(c, msgs[ps[j].row], msgs'[ps[j].row]) && r == AnswerOf(msgs'[ps[j].row], ps[j].seqNum)
  }

  /** Exactly the rows due are answered for, with what the table then holds. */
  lemma {:induction false} AnswersAre(msgs: seq<Msg>, ps: seq<Pick>, c: Cmd, v: nat, w: seq<nat>, r: Result)
    requires Placed(ps, |msgs|, w) && Distinct(w)
    ensures var o := StoreRows(msgs, ps, c, v);
      r in o.stored <==> exists j :: 0 <= j < |ps| && DueAt(msgs, o.msgs, ps, c, r, j)
    decreases |ps|
  {
    if ps != [] {
      var p, t := ps[0], ps[1..];
      var m := msgs[p.row];
      var next := msgs[p.row := Touched(c, m, v)];
      assert Placed(t, |next|, w) by {
        assert forall j | 0 <= j < |t| :: t[j] == ps[j + 1];
      }
      AnswersAre(next, t, c, v, w, r);
      AnswersStep(msgs, ps, c, v, w, r);
    }
  }

  lemma AnswersStep(msgs: seq<Msg>, ps: seq<Pick>, c: Cmd, v: nat, w: seq<nat>, r: Result)
    requires ps != [] && Placed(ps, |msgs|, w) && Distinct(w)
    requires var next := msgs[ps[0].row := Touched(c, msgs[ps[0].row], v)];
      InTable(ps[1..], |next|) &&
      var o := StoreRows(next, ps[1..], c, v);
      r in o.stored <==> exists j :: 0 <= j < |ps[1..]| && DueAt(next, o.msgs, ps[1..], c, r, j)
    ensures var o := StoreRows(msgs, ps, c, v);
      r in o.stored <==> exists j :: 0 <= j < |ps| && DueAt(msgs, o.msgs, ps, c, r, j)
  {
    var p, t := ps[0], ps[1..];
    var m := msgs[p.row];
    var next := msgs[p.row := Touched(c, m, v)];
    var more, o := StoreRows(next, t, c, v), StoreRows(msgs, ps, c, v);
    StoreRow(next, t, c, v, p.row);
    TouchedTwice(c, m, v);
    assert o.msgs == more.msgs && o.msgs[p.row] == Touched(c, m, v);
    assert o.stored == Answers(c, m, v, p.seqNum) + more.stored;
    assert r in Answers(c, m, v, p.seqNum) <==> DueAt(msgs, o.msgs, ps, c, r, 0);
    hide StoreRows, Answers;
    if exists j :: 0 <= j < |t| && DueAt(next, o.msgs, t, c, r, j) {
      var j :| 0 <= j < |t| && DueAt(next, o.msgs, t, c, r, j);
      DueShift(msgs, o.msgs, ps, c, v, w, r, j);
      assert DueAt(msgs, o.msgs, ps, c, r, j + 1);
    }
    if exists j :: 0 <= j < |ps| && DueAt(msgs, o.msgs, ps, c, r, j) {
      var j :| 0 <= j < |ps| && DueAt(msgs, o.msgs, ps, c, r, j);
      if j > 0 {
        DueShift(msgs, o.msgs, ps, c, v, w, r, j - 1);
      }
    }
  }

  lemma DueShift(msgs: seq<Msg>, msgs': seq<Msg>, ps: seq<Pick>, c: Cmd, v: nat, w: seq<nat>, r: Result, j: nat)
    requires j + 1 < |ps| && Placed(ps, |msgs|, w) && Distinct(w) && |msgs'| == |msgs|
    requires msgs'[ps[0].row] == Touched(c, msgs[ps[0].row], v)
    ensures var next := msgs[ps[0].row := Touched(c, msgs[ps[0].row], v)];
      && (DueAt(next, msgs', ps[1..], c, r, j) ==> DueAt(msgs, msgs', ps, c, r, j + 1))
      && (DueAt(msgs, msgs', ps, c, r, j + 1) ==> DueAt(next, msgs', ps[1..], c, r, j) || DueAt(msgs, msgs', ps, c, r, 0))
  {
    assert ps[1..][j] == ps[j + 1];
    if ps[j + 1].row == ps[0].row {
      assert ps[j + 1].seqNum == ps[0].seqNum;
    }
  }

  lemma {:induction false} PicksPlaced(msgs: seq<Msg>, b: nat, rs: seq<SeqRange>, useUid: bool)
    ensures var ps, w := AllPicks(msgs, b, rs, useUid), Window(msgs, b);
      Placed(ps, |msgs|, w) && forall j | 0 <= j < |ps| :: Cover(rs, NumberOf(msgs, w, useUid, ps[j].seqNum - 1)) > 0
    decreases |rs|
  {
    hide Window;
    if rs != [] {
      var w := Window(msgs, b);
      var ns, m := NumberedFrom(w, 1), RangeMask(Uids(msgs, w), rs[0], useUid, 0);
      var ps, qs := Chosen(ns, m), AllPicks(msgs, b, rs[1..], useUid);
      PicksPlaced(msgs, b, rs[1..], useUid);
      forall j | 0 <= j < |ps|
        ensures 0 < ps[j].seqNum <= |w| && w[ps[j].seqNum - 1] == ps[j].row && ps[j].row < |msgs|
        ensures Within(rs[0], NumberOf(msgs, w, useUid, ps[j].seqNum - 1), 0)
      {
        var k := ChosenWhere(ns, m, j);
      }
      assert forall j | |ps| <= j < |ps + qs| :: (ps + qs)[j] == qs[j - |ps|];
    }
  }

  lemma {:induction false} ChosenWhere<T>(l: seq<T>, m: seq<bool>, j: nat) returns (k: nat)
    requires |m| == |l| && j < |Chosen(l, m)|
    ensures k < |l| && m[k] && Chosen(l, m)[j] == l[k]
    decreases |l|
  {
    if m[0] && j == 0 {
      k := 0;
    } else {
      k := ChosenWhere(l[1..], m[1..], if m[0] then j - 1 else j);
      k := k + 1;
    }
  }

  /** All the answers of a STORE: of exactly the messages the set names that it
      changed, or that had been changed since, each with its number and with the
      UID, flags and mod-sequence it then has in the table. */
  lemma StoreAnswers(msgs: seq<Msg>, b: nat, rs: seq<SeqRange>, c: Cmd, v: nat, r: Result)
    requires UniqueUids(msgs)
    ensures var w, o := Window(msgs, b), StoreRanges(msgs, b, rs, c, v);
      && |o.msgs| == |msgs|
      && (r in o.stored <==>
            exists k :: 0 <= k < |w| && AnsweredFor(msgs, o.msgs, b, rs, c, r, k))
  {
    var w, ps, o := Window(msgs, b), AllPicks(msgs, b, rs, c.useUid), StoreRanges(msgs, b, rs, c, v);
    StoreRangesFlat(msgs, b, rs, c, v);
    PicksPlaced(msgs, b, rs, c.useUid);
    WindowDistinct(msgs, b);
    AnswersAre(msgs, ps, c, v, w, r);
    hide *;
    if exists j :: 0 <= j < |ps| && DueAt(msgs, o.msgs, ps, c, r, j) {
      var j :| 0 <= j < |ps| && DueAt(msgs, o.msgs, ps, c, r, j);
      var k := DueIsAnswered(msgs, o.msgs, b, rs, c, r, j);
    }
    if exists k :: 0 <= k < |w| && AnsweredFor(msgs, o.msgs, b, rs, c, r, k) {
      var k :| 0 <= k < |w| && AnsweredFor(msgs, o.msgs, b, rs, c, r, k);
      var j := AnsweredIsDue(msgs, o.msgs, b, rs, c, r, k);
    }
  }

  lemma DueIsAnswered(msgs: seq<Msg>, msgs': seq<Msg>, b: nat, rs: seq<SeqRange>, c: Cmd, r: Result, j: nat)
    returns (k: nat)
    requires |msgs'| == |msgs| && j < |AllPicks(msgs, b, rs, c.useUid)|
    requires InTable(AllPicks(msgs, b, rs, c.useUid), |msgs|) && DueAt(msgs, msgs', AllPicks(msgs, b, rs, c.useUid), c, r, j)
    ensures k < |Window(msgs, b)| && AnsweredFor(msgs, msgs', b, rs, c, r, k)
  {
    var w, ps := Window(msgs, b), AllPicks(msgs, b, rs, c.useUid);
    PicksPlaced(msgs, b, rs, c.useUid);
    k := ps[j].seqNum - 1;
    hide Window, AllPicks, Cover;
    NamedIsCover(rs, NumberOf(msgs, w, c.useUid, k));
  }

  lemma AnsweredIsDue(msgs: seq<Msg>, msgs': seq<Msg>, b: nat, rs: seq<SeqRange>, c: Cmd, r: Result, k: nat)
    returns (j: nat)
    requires UniqueUids(msgs) && |msgs'| == |msgs| && InTable(AllPicks(msgs, b, rs, c.useUid), |msgs|)
    requires k < |Window(msgs, b)| && AnsweredFor(msgs, msgs', b, rs, c, r, k)
    ensures j < |AllPicks(msgs, b, rs, c.useUid)| && DueAt(msgs, msgs', AllPicks(msgs, b, rs, c.useUid), c, r, j)
  {
    var w, ps := Window(msgs, b), AllPicks(msgs, b, rs, c.useUid);
    PicksPlaced(msgs, b, rs, c.useUid);
    WindowDistinct(msgs, b);
    HitsAreCover(msgs, b, rs, c.useUid, k);
    hide Window, AllPicks, Cover, Distinct, UniqueUids;
    NamedIsCover(rs, NumberOf(msgs, w, c.useUid, k));
    j := HitAt(ps, w[k]);
    assert ps[j].row == w[k] && w[ps[j].seqNum - 1] == w[k];
    SamePlace(w, ps[j].seqNum - 1, k);
  }

  ghost predicate AnsweredFor(msgs: seq<Msg>, msgs': seq<Msg>, b: nat, rs: seq<SeqRange>, c: Cmd, r: Result, k: nat)
    requires k < |Window(msgs, b)| && |msgs'| == |msgs|
  {
    var m, m' := msgs[Window(msgs, b)[k]], msgs'[Window(msgs, b)[k]];
    && Named(msgs, b, rs, c.useUid, k)
    && (m'.flags != m.flags || (!c.mode.Replace? && ChangedSince(c, m)))
    && r == Result(k + 1, m'.uid, m'.flags, m'.modSeq)
  }

  lemma SamePlace(w: seq<nat>, j: nat, k: nat)
    requires Distinct(w) && j < |w| && k < |w| && w[j] == w[k]
    ensures j == k
  {
  }

  lemma {:induction false} HitAt(ps: seq<Pick>, i: nat) returns (j: nat)
    requires Hits(ps, i) > 0
    ensures j < |ps| && ps[j].row == i
  {
    if ps[0].row == i {
      j := 0;
    } else {
      j := HitAt(ps[1..], i);
      j := j + 1;
    }
  }

  /** Which messages are listed as failed: those the set names that had been
      changed since; and those it names twice, when the first time changes them. */
  lemma StoreFailed(msgs: seq<Msg>, b: nat, rs: seq<SeqRange>, c: Cmd, v: nat, k: nat)
    requires UniqueUids(msgs) && k < |Window(msgs, b)|
    ensures var w, o := Window(msgs, b), StoreRanges(msgs, b, rs, c, v);
      var m, n := msgs[w[k]], Cover(rs, NumberOf(msgs, w, c.useUid, k));
      Hits(o.refused, w[k]) > 0 <==>
        c.mode.Replace? && ((n > 0 && ChangedSince(c, m)) || (n > 1 && m.flags != c.flags && 0 < c.since < v))
  {
    var i := Window(msgs, b)[k];
    StoreRangesFlat(msgs, b, rs, c, v);
    HitsAreCover(msgs, b, rs, c.useUid, k);
    RefusedExact(msgs, AllPicks(msgs, b, rs, c.useUid), c, v, i);
  }
}
