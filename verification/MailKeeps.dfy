/** What COPY, MOVE and EXPUNGE do to each single message (spilldb/imapdb): the
    flags and the body go along, under the UIDs that are reported. */
module MailKeeps {
  import opened Bytes
  import opened Wrappers
  import opened SeqSet
  import opened ListReplay
  import opened MailTables
  import opened MailOps
  import opened MailMoves

  // ------------------------------------------------------------------- COPY

  /** Row `from + j` is a copy of a message that was there to see in mailbox
      `b`: of the same flags and the same body, under the UIDs of the pair. */
  ghost predicate CopiedAt(all: seq<Msg>, from: nat, pairs: seq<(nat, nat)>, j: nat, b: nat, d: nat, uid: nat, v: nat)
    requires j < |pairs|
  {
    && from + j < |all| && pairs[j].1 == uid + j
    && exists i :: 0 <= i < from + j && Visible(all[i], b) && all[i].uid == pairs[j].0
         && all[from + j] == Msg(d, uid + j, v, Ready, all[i].flags, all[i].body)
  }

  ghost predicate Copied(msgs: seq<Msg>, o: CopyOut, b: nat, d: nat, uid: nat, v: nat) {
    && |o.msgs| == |msgs| + |o.pairs| && o.msgs[..|msgs|] == msgs
    && forall j | 0 <= j < |o.pairs| :: CopiedAt(o.msgs, |msgs|, o.pairs, j, b, d, uid, v)
  }

  ghost predicate AllVisible(msgs: seq<Msg>, ps: seq<Pick>, b: nat) {
    InTable(ps, |msgs|) && forall k | 0 <= k < |ps| :: Visible(msgs[ps[k].row], b)
  }

  lemma PicksVisible(msgs: seq<Msg>, b: nat, r: SeqRange, useUid: bool, delta: nat)
    requires UniqueUids(msgs)
    ensures AllVisible(msgs, Picks(msgs, b, r, useUid, delta), b)
  {
    var w := Window(msgs, b);
    var m := RangeMask(Uids(msgs, w), r, useUid, delta);
    var ps := Picks(msgs, b, r, useUid, delta);
    PicksInTable(msgs, b, r, useUid, delta);
    RowsOfChosen(w, m, 1);
    WindowIs(msgs, b);
    ChosenSub(w, m);
    hide Window, RangeMask, Picks, Chosen, Kept, UniqueUids, Climbs;
    forall k | 0 <= k < |ps|
      ensures Visible(msgs[ps[k].row], b)
    {
      assert RowsOf(ps)[k] in Chosen(w, m);
    }
  }

  lemma RowsCopied(msgs: seq<Msg>, ps: seq<Pick>, b: nat, d: nat, uid: nat, v: nat)
    requires AllVisible(msgs, ps, b)
    ensures Copied(msgs, CopyRows(msgs, ps, d, uid, v), b, d, uid, v)
  {
    CopyRowsAll(msgs, ps, d, uid, v);
    hide CopyRows;
    var all, pairs := msgs + Copies(msgs, ps, d, uid, v), PairsOf(msgs, ps, uid);
    forall j | 0 <= j < |pairs|
      ensures CopiedAt(all, |msgs|, pairs, j, b, d, uid, v)
    {
      var i := ps[j].row;
      assert all[i] == msgs[i] && Visible(all[i], b);
    }
  }

  lemma CopiedJoin(msgs: seq<Msg>, o: CopyOut, p: CopyOut, b: nat, d: nat, uid: nat, v: nat)
    requires Copied(msgs, o, b, d, uid, v) && Copied(o.msgs, p, b, d, uid + |o.pairs|, v)
    ensures Copied(msgs, CopyOut(p.msgs, o.pairs + p.pairs), b, d, uid, v)
  {
    hide Visible;
    var pairs := o.pairs + p.pairs;
    forall j | 0 <= j < |pairs|
      ensures CopiedAt(p.msgs, |msgs|, pairs, j, b, d, uid, v)
    {
      if j < |o.pairs| {
        assert CopiedAt(o.msgs, |msgs|, o.pairs, j, b, d, uid, v);
        assert forall i | 0 <= i < |o.msgs| :: p.msgs[i] == o.msgs[i];
      } else {
        assert CopiedAt(p.msgs, |o.msgs|, p.pairs, j - |o.pairs|, b, d, uid + |o.pairs|, v);
      }
    }
    assert p.msgs[..|msgs|] == p.msgs[..|o.msgs|][..|msgs|];
  }

  lemma CopyKeepsUnique(msgs: seq<Msg>, ps: seq<Pick>, d: nat, uid: nat, v: nat)
    requires InTable(ps, |msgs|) && UniqueUids(msgs) && Room(msgs, d, uid)
    ensures var o := CopyRows(msgs, ps, d, uid, v);
      UniqueUids(o.msgs) && Room(o.msgs, d, uid + |ps|) && |o.pairs| == |ps|
  {
    hide CopyRows, UniqueUids, Room;
    CopyRowsAll(msgs, ps, d, uid, v);
    CopiesUnique(msgs, ps, d, uid, v);
  }

  /** Each pair a COPY reports, into whichever mailbox, stands for a new message
      under the next UID, with the flags and the body of the one it copies; and
      nothing else changes. */
  lemma {:induction false} CopyKeepsMail(msgs: seq<Msg>, b: nat, d: nat, rs: seq<SeqRange>, useUid: bool, uid: nat, v: nat)
    requires UniqueUids(msgs) && Room(msgs, d, uid)
    ensures Copied(msgs, CopyRanges(msgs, b, d, rs, useUid, uid, v), b, d, uid, v)
    decreases |rs|
  {
    hide *;
    if rs == [] {
      CopiedNone(msgs, b, d, useUid, uid, v);
    } else {
      CopyRangesStep(msgs, b, d, rs, useUid, uid, v);
      PicksVisible(msgs, b, rs[0], useUid, 0);
      var ps := Picks(msgs, b, rs[0], useUid, 0);
      RowsCopied(msgs, ps, b, d, uid, v);
      CopyKeepsUnique(msgs, ps, d, uid, v);
      var o := CopyRows(msgs, ps, d, uid, v);
      CopyKeepsMail(o.msgs, b, d, rs[1..], useUid, uid + |o.pairs|, v);
      CopiedJoin(msgs, o, CopyRanges(o.msgs, b, d, rs[1..], useUid, uid + |o.pairs|, v), b, d, uid, v);
    }
  }

  lemma CopiedNone(msgs: seq<Msg>, b: nat, d: nat, useUid: bool, uid: nat, v: nat)
    ensures Copied(msgs, CopyRanges(msgs, b, d, [], useUid, uid, v), b, d, uid, v)
  {
  }

  // ------------------------------------------------------------------- MOVE

  /** Report `j` stands for a message that was there to see in `b` and is now,
      but for its UID and its mod-sequence as it was, in `d`; its old UID stays
      behind in an expunged row. */
  ghost predicate MovedAt(msgs: seq<Msg>, all: seq<Msg>, reports: seq<Report>, j: nat, b: nat, d: nat, uid: nat, v: nat)
    requires j < |reports|
  {
    && |msgs| + j < |all| && reports[j].dstUid == uid + j
    && all[|msgs| + j].box == b && all[|msgs| + j].uid == reports[j].srcUid && all[|msgs| + j].state.Expunged?
    && exists i :: 0 <= i < |msgs| && Visible(msgs[i], b) && msgs[i].uid == reports[j].srcUid
         && all[i] == Msg(d, uid + j, v, Ready, msgs[i].flags, msgs[i].body)
  }

  ghost predicate MovedAll(msgs: seq<Msg>, o: MoveOut, b: nat, d: nat, uid: nat, v: nat) {
    && |o.msgs| == |msgs| + |o.reports|
    && (forall j | 0 <= j < |o.reports| :: MovedAt(msgs, o.msgs, o.reports, j, b, d, uid, v))
    && (forall i | 0 <= i < |msgs| && !Visible(msgs[i], b) :: o.msgs[i] == msgs[i])
    && (forall i | 0 <= i < |msgs| && Visible(o.msgs[i], b) :: o.msgs[i] == msgs[i])
    && (forall i | |msgs| <= i < |o.msgs| :: !Visible(o.msgs[i], b))
  }

  lemma RowsMoved(msgs: seq<Msg>, ps: seq<Pick>, b: nat, d: nat, uid: nat, v: nat)
    requires b != d && AllVisible(msgs, ps, b) && Outrun(ps, 0) && Distinct(RowsOf(ps))
    ensures MovedAll(msgs, MoveRows(msgs, ps, 0, b, d, uid, v), b, d, uid, v)
  {
    MoveRowsPlaces(msgs, ps, 0, b, d, uid, v);
    var o, rows := MoveRows(msgs, ps, 0, b, d, uid, v), RowsOf(ps);
    RelocatedHides(msgs, o.msgs, rows, b, d, uid, v);
    hide MoveRows, Outrun, Lowered, Distinct;
    forall j | 0 <= j < |o.reports|
      ensures MovedAt(msgs, o.msgs, o.reports, j, b, d, uid, v)
    {
      var i := rows[j];
      assert o.reports[j].srcUid == Srcs(o.reports)[j] == msgs[i].uid;
      assert o.reports[j].dstUid == Dsts(o.reports)[j] == uid + j;
      assert o.msgs[rows[j]] == Rehomed(msgs[rows[j]], d, uid + j, v);
      assert o.msgs[|msgs| + j] == Tombstone(b, msgs[rows[j]].uid, v);
      assert Visible(msgs[i], b);
    }
    assert forall k | 0 <= k < |rows| :: Visible(msgs[rows[k]], b);
  }

  lemma MovedJoin(msgs: seq<Msg>, o: MoveOut, p: MoveOut, b: nat, d: nat, uid: nat, v: nat)
    requires b != d && MovedAll(msgs, o, b, d, uid, v) && MovedAll(o.msgs, p, b, d, uid + |o.reports|, v)
    ensures MovedAll(msgs, MoveOut(p.msgs, o.reports + p.reports), b, d, uid, v)
  {
    var reports := o.reports + p.reports;
    forall j | 0 <= j < |reports|
      ensures MovedAt(msgs, p.msgs, reports, j, b, d, uid, v)
    {
      if j < |o.reports| {
        MovedEarlier(msgs, o, p, reports, j, b, d, uid, v);
      } else {
        MovedLater(msgs, o, p, reports, j, b, d, uid, v);
      }
    }
    hide MovedAt;
    forall i | 0 <= i < |msgs| && !Visible(msgs[i], b)
      ensures p.msgs[i] == msgs[i]
    {
      assert o.msgs[i] == msgs[i];
    }
  }

  lemma MovedEarlier(msgs: seq<Msg>, o: MoveOut, p: MoveOut, reports: seq<Report>, j: nat, b: nat, d: nat, uid: nat, v: nat)
    requires b != d && j < |o.reports| && reports == o.reports + p.reports
    requires MovedAll(msgs, o, b, d, uid, v) && MovedAll(o.msgs, p, b, d, uid + |o.reports|, v)
    ensures MovedAt(msgs, p.msgs, reports, j, b, d, uid, v)
  {
    assert MovedAt(msgs, o.msgs, o.reports, j, b, d, uid, v);
    var i :| 0 <= i < |msgs| && Visible(msgs[i], b) && msgs[i].uid == o.reports[j].srcUid
      && o.msgs[i] == Msg(d, uid + j, v, Ready, msgs[i].flags, msgs[i].body);
    assert p.msgs[i] == o.msgs[i];
    assert p.msgs[|msgs| + j] == o.msgs[|msgs| + j];
  }

  lemma MovedLater(msgs: seq<Msg>, o: MoveOut, p: MoveOut, reports: seq<Report>, j: nat, b: nat, d: nat, uid: nat, v: nat)
    requires |o.reports| <= j < |reports| && reports == o.reports + p.reports
    requires MovedAll(msgs, o, b, d, uid, v) && MovedAll(o.msgs, p, b, d, uid + |o.reports|, v)
    ensures MovedAt(msgs, p.msgs, reports, j, b, d, uid, v)
  {
    var k := j - |o.reports|;
    assert MovedAt(o.msgs, p.msgs, p.reports, k, b, d, uid + |o.reports|, v);
    var i :| 0 <= i < |o.msgs| && Visible(o.msgs[i], b) && o.msgs[i].uid == p.reports[k].srcUid
      && p.msgs[i] == Msg(d, uid + |o.reports| + k, v, Ready, o.msgs[i].flags, o.msgs[i].body);
    assert i < |msgs| && o.msgs[i] == msgs[i];
  }

  lemma PicksDistinct(msgs: seq<Msg>, b: nat, r: SeqRange, useUid: bool, delta: nat)
    requires UniqueUids(msgs)
    ensures Distinct(RowsOf(Picks(msgs, b, r, useUid, delta)))
  {
    var w := Window(msgs, b);
    var m := RangeMask(Uids(msgs, w), r, useUid, delta);
    RowsOfChosen(w, m, 1);
    WindowIs(msgs, b);
    ClimbsChosen(msgs, w, m);
    ClimbsDistinct(msgs, Chosen(w, m));
    hide Window, RangeMask, Chosen, UniqueUids, Climbs, Distinct;
  }

  /** Each report of a MOVE to another mailbox stands for a message that was
      there, and is now in the destination under the reported UID, with its flags
      and its body; only its mark stays behind, and every message that was not
      there to see is as it was. */
  lemma {:induction false} MovePairs(msgs: seq<Msg>, b: nat, d: nat, rs: seq<SeqRange>, useUid: bool, uid: nat, v: nat,
                                     delta: nat)
    requires b != d && UniqueUids(msgs) && Room(msgs, d, uid)
    ensures MovedAll(msgs, MoveAll(msgs, b, d, rs, useUid, uid, v, delta), b, d, uid, v)
    decreases |rs|
  {
    hide *;
    if rs == [] {
      MovedNone(msgs, b, d, useUid, uid, v, delta);
    } else {
      var ps := Picks(msgs, b, rs[0], useUid, delta);
      MoveAllStep(msgs, b, d, rs, useUid, uid, v, delta);
      MoveOneRange(msgs, b, d, rs[0], useUid, uid, v, delta);
      PicksVisible(msgs, b, rs[0], useUid, delta);
      PicksDistinct(msgs, b, rs[0], useUid, delta);
      RowsMoved(msgs, ps, b, d, uid, v);
      var o := MoveRows(msgs, ps, 0, b, d, uid, v);
      MovePairs(o.msgs, b, d, rs[1..], useUid, uid + |ps|, v, delta + |ps|);
      MovedJoin(msgs, o, MoveAll(o.msgs, b, d, rs[1..], useUid, uid + |ps|, v, delta + |ps|), b, d, uid, v);
    }
  }

  lemma MovedNone(msgs: seq<Msg>, b: nat, d: nat, useUid: bool, uid: nat, v: nat, delta: nat)
    ensures MovedAll(msgs, MoveAll(msgs, b, d, [], useUid, uid, v, delta), b, d, uid, v)
  {
  }

  // ---------------------------------------------------------------- EXPUNGE

  /** EXPUNGE hides a message if and only if it is there to see in the mailbox,
      is flagged \Deleted and, if a UID set was given, has its UID in one of the
      ranges; of every other one nothing changes. */
  lemma ExpungeMeans(msgs: seq<Msg>, b: nat, uidSeqs: Option<seq<SeqRange>>, i: nat)
    requires UniqueUids(msgs) && i < |msgs|
    ensures var w := Window(msgs, b);
      var gone := Chosen(w, ExpungeMask(msgs, w, uidSeqs));
      && InRows(gone, |msgs|)
      && ExpungeRows(msgs, gone)[i] ==
           if Visible(msgs[i], b) && "\\Deleted" in msgs[i].flags
              && (uidSeqs.Some? ==> SeqContains(uidSeqs.value, msgs[i].uid))
           then msgs[i].(state := Expunged) else msgs[i]
  {
    var w := Window(msgs, b);
    var m := ExpungeMask(msgs, w, uidSeqs);
    ChosenInRows(w, m, |msgs|);
    WindowIs(msgs, b);
    ClimbsDistinct(msgs, w);
    ChosenSub(w, m);
    hide Window, Chosen, Kept, UniqueUids;
    if i in w {
      var k :| 0 <= k < |w| && w[k] == i;
      ChosenAt(w, m, k);
    }
  }
}
