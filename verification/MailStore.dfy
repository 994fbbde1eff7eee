/** A user's mailbox database (spilldb/imapdb over spilldb/spillbox): every
    operation is one transaction on the tables. */
module MailStore {
  import opened Bytes
  import opened Wrappers
  import opened SeqSet
  import opened ListReplay
  import opened MailTables
  import opened MailOps
  import opened MailMoves
  import MemoryStore

  /** Comparing two flag sets, one membership at a time. */
  method SetEq(s1: set<string>, s2: set<string>) returns (eq: bool)
    ensures eq == (s1 == s2)
  {
    if |s1| != |s2| {
      return false;
    }
    if |s1| == 0 {
      return true;
    }
    var left := s1;
    while left != {}
      invariant left <= s1 && s1 - left <= s2
      decreases left
    {
      var v :| v in left;
      if v !in s2 {
        return false;
      }
      left := left - {v};
    }
    left := s2;
    while left != {}
      invariant left <= s2 && s2 - left <= s1
      decreases left
    {
      var v :| v in left;
      if v !in s1 {
        return false;
      }
      left := left - {v};
    }
    return true;
  }

  method AddFlags(old_: set<string>, new_: set<string>) returns (flags: set<string>, changed: bool)
    ensures flags == old_ + new_ && changed == (flags != old_)
  {
    flags, changed := old_, false;
    var left := new_;
    while left != {}
      invariant left <= new_ && flags == old_ + (new_ - left)
      invariant changed == (flags != old_)
      decreases left
    {
      var flag :| flag in left;
      if flag !in flags {
        assert flag in old_ + (new_ - (left - {flag})) && flag !in old_;
        changed := true;
        flags := flags + {flag};
      }
      left := left - {flag};
      assert flags == old_ + (new_ - left);
    }
  }

  method RemoveFlags(old_: set<string>, gone: set<string>) returns (flags: set<string>, changed: bool)
    ensures flags == old_ - gone && changed == (flags != old_)
  {
    flags, changed := old_, false;
    var left := gone;
    while left != {}
      invariant left <= gone && flags == old_ - (gone - left)
      invariant changed == (flags != old_)
      decreases left
    {
      var flag :| flag in left;
      if flag in flags {
        assert flag in old_ && flag !in flags - {flag};
        changed := true;
        flags := flags - {flag};
      }
      left := left - {flag};
      assert flags == old_ - (gone - left);
    }
  }

  /** The UID just taken is not in use. */
  lemma TakenUnused(w: World, k: nat)
    requires Sound(w) && k < |w.db.boxes|
    ensures Unused(Do(w, TakeUid(k)).db, k, w.db.boxes[k].nextUid)
  {
    hide GivenOnce, Apart, Rising, UniqueUids;
    assert forall i | 0 <= i < |w.db.msgs| :: RowOk(w.db, w.db.msgs[i]);
  }

  /** What COPY and MOVE rely on holds in every run. */
  lemma RoomHere(w: World, k: nat)
    requires Sound(w) && k < |w.db.boxes|
    ensures UniqueUids(w.db.msgs) && Room(w.db.msgs, k, w.db.boxes[k].nextUid)
  {
    hide GivenOnce, Apart, Rising, UniqueUids;
    assert forall i | 0 <= i < |w.db.msgs| :: RowOk(w.db, w.db.msgs[i]);
  }

  /** In every run, whatever the ranges: a STORE changes the mod-sequence of a
      message exactly when it changes its flags, and then to the new one, which
      is higher than any the mailbox shows. */
  lemma StoreStampsExactly(w: World, b: nat, rs: seq<SeqRange>, c: Cmd, i: nat)
    requires Sound(w) && b < |w.db.boxes| && i < |w.db.msgs|
    ensures w.db.boxes[b].name in w.db.counters
    ensures var v := w.db.counters[w.db.boxes[b].name];
      var m, o := w.db.msgs[i], StoreRanges(w.db.msgs, b, rs, c, v);
      && |o.msgs| == |w.db.msgs|
      && (o.msgs[i].modSeq != m.modSeq <==> o.msgs[i].flags != m.flags)
      && (o.msgs[i].modSeq != m.modSeq ==> Visible(m, b) && m.modSeq < v == o.msgs[i].modSeq)
  {
    var msgs, v := w.db.msgs, w.db.counters[w.db.boxes[b].name];
    RoomHere(w, b);
    assert RowOk(w.db, msgs[i]);
    hide GivenOnce, Apart, Rising, UniqueUids, StoreRanges, Window;
    if Visible(msgs[i], b) {
      StoreRangesFlat(msgs, b, rs, c, v);
      StoreStamps(msgs, AllPicks(msgs, b, rs, c.useUid), c, v, i);
    } else {
      StoreOthers(msgs, b, rs, c, v, i);
    }
  }

  const SUBSCRIPTIONS := "Subscriptions"
  const INBOX := "INBOX"
  const NO_KIDS := [INBOX, "Archive", "Sent", "Drafts", "Trash"]

  predicate Below(outer: string, name: string) { outer + "/" <= name }

  predicate Under(outers: seq<string>, name: string) {
    exists i :: 0 <= i < |outers| && Below(outers[i], name)
  }

  class Box {
    var boxes: seq<Mailbox>
    var counters: map<string, nat>
    var msgs: seq<Msg>
    // All that was ever handed out.
    ghost var given: seq<Id>
    ghost var stamps: seq<Stamp>

    ghost function World(): World
      reads this
    {
      MailTables.World(Db(boxes, counters, msgs), given, stamps)
    }

    ghost predicate Valid()
      reads this
    {
      Sound(World())
    }

    lemma SoundNow()
      requires Valid()
      ensures Sound(World()) && World().db.msgs == msgs
    {
    }

    lemma UniqueNow()
      requires Valid()
      ensures UniqueUids(msgs)
    {
    }

    constructor ()
      ensures Valid() && World() == NEW
    {
      boxes, counters, msgs := [], map[], [];
      given, stamps := [], [];
    }

    // ------------------------------------------------------- the statements

    /** CreateMailbox for a name without "/", or under a mailbox that may have
        none below it. */
    method CreateMailbox(name: string) returns (ok: bool)
      requires Valid() && ('/' !in name || Under(NO_KIDS, name))
      modifies this
      ensures Valid()
      ensures ok <==> !Under(NO_KIDS, name) && Enabled(old(World()).db, Create(name))
      ensures World() == if ok then Do(old(World()), Create(name)) else old(World())
    {
      for i := 0 to |NO_KIDS|
        invariant forall j | 0 <= j < i :: !Below(NO_KIDS[j], name)
      {
        if Below(NO_KIDS[i], name) {
          return false;
        }
      }
      if Find(boxes, name) < |boxes| {
        return false; // UNIQUE(Name)
      }
      StepSound(World(), Create(name));
      boxes := boxes + [Mailbox(name, true, 1, Top(boxes) + 1)];
      if name !in counters {
        counters := counters[name := 1];
      }
      ok := true;
    }

    method DeleteMailbox(name: string) returns (ok: bool)
      requires Valid()
      modifies this
      ensures Valid()
      ensures ok <==> Enabled(old(World()).db, Delete(name))
      ensures World() == if ok then Do(old(World()), Delete(name)) else old(World())
    {
      if name in RESERVED {
        return false;
      }
      var k := Find(boxes, name);
      if k == |boxes| {
        return false;
      }
      StepSound(World(), Delete(name));
      boxes := boxes[k := boxes[k].(live := false, validity := Top(boxes) + 1)];
      ok := true;
    }

    method NextMsgUID(k: nat) returns (uid: nat)
      requires Valid() && k < |boxes|
      modifies `boxes, `given
      ensures Valid() && uid == old(boxes)[k].nextUid
      ensures World() == Do(old(World()), TakeUid(k))
    {
      StepSound(World(), TakeUid(k));
      var b := boxes[k];
      uid := b.nextUid;
      given := given + [Id(b.name, b.validity, uid)];
      boxes := boxes[k := b.(nextUid := uid + 1)];
    }

    /** The counter belongs to the name, so a deleted mailbox has none. */
    method NextMsgModSeq(k: nat) returns (ok: bool, modSeq: nat)
      requires Valid() && k < |boxes|
      modifies `counters, `stamps
      ensures Valid() && ok == boxes[k].live
      ensures !ok ==> World() == old(World())
      ensures ok ==>
        var n := boxes[k].name;
        && n in old(counters) && modSeq == old(counters)[n]
        && counters == old(counters)[n := modSeq + 1] && stamps == old(stamps) + [Stamp(n, modSeq)]
        && Issued(boxes, counters, k, modSeq)
    {
      if !boxes[k].live {
        return false, 0;
      }
      StepSound(World(), TakeSeq(k));
      var n := boxes[k].name;
      ok, modSeq := true, counters[n];
      stamps := stamps + [Stamp(n, modSeq)];
      counters := counters[n := modSeq + 1];
    }

    method InsertRow(m: Msg)
      requires Valid() && Enabled(World().db, Insert(m))
      modifies `msgs
      ensures Valid() && msgs == old(msgs) + [m]
    {
      StepSound(World(), Insert(m));
      msgs := msgs + [m];
    }

    method UpdateFlags(i: nat, flags: set<string>, v: nat)
      requires Valid() && Enabled(World().db, Restamp(i, flags, v))
      modifies `msgs
      ensures Valid() && msgs == old(msgs)[i := old(msgs)[i].(flags := flags, modSeq := v)]
    {
      StepSound(World(), Restamp(i, flags, v));
      msgs := msgs[i := msgs[i].(flags := flags, modSeq := v)];
    }

    method UpdateMailbox(i: nat, k: nat, uid: nat, v: nat)
      requires Valid() && Enabled(World().db, Relocate(i, k, uid, v))
      modifies `msgs
      ensures Valid() && msgs == old(msgs)[i := Rehomed(old(msgs)[i], k, uid, v)]
    {
      StepSound(World(), Relocate(i, k, uid, v));
      msgs := msgs[i := msgs[i].(box := k, uid := uid, modSeq := v)];
    }

    method SetExpunged(i: nat)
      requires Valid() && i < |msgs|
      modifies `msgs
      ensures Valid() && msgs == old(msgs)[i := old(msgs)[i].(state := Expunged)]
    {
      StepSound(World(), MailTables.Expunge(i));
      msgs := msgs[i := msgs[i].(state := Expunged)];
    }

    // ------------------------------------------------------- the operations

    /** A new message: UID first, then mod-sequence; for a deleted mailbox all
        of it is rolled back. */
    method Deliver(k: nat, flags: set<string>, body: seq<byte>) returns (ok: bool, uid: nat)
      requires Valid() && k < |boxes|
      modifies this
      ensures Valid() && ok == old(boxes)[k].live
      ensures !ok ==> World() == old(World())
      ensures ok ==>
        var b := old(boxes)[k];
        && uid == b.nextUid && boxes == old(boxes)[k := b.(nextUid := uid + 1)]
        && b.name in old(counters) && counters == old(counters)[b.name := old(counters)[b.name] + 1]
        && msgs == old(msgs) + [Msg(k, uid, old(counters)[b.name], Ready, flags, body)]
        && given == old(given) + [Id(b.name, b.validity, uid)]
        && stamps == old(stamps) + [Stamp(b.name, old(counters)[b.name])]
    {
      var boxes0 := boxes;
      ghost var given0 := given;
      TakenUnused(World(), k);
      uid := NextMsgUID(k);
      var v;
      ok, v := NextMsgModSeq(k);
      if !ok {
        boxes, given := boxes0, given0;
        return;
      }
      InsertRow(Msg(k, uid, v, Ready, flags, body));
    }

    /** assignMailbox: the mailbox that was given, or else Subscriptions or INBOX
        as the headers have it. */
    method Assign(given_: Option<nat>, subscription: bool, flags: set<string>, body: seq<byte>)
      returns (ok: bool, k: nat, uid: nat)
      requires Valid() && (given_.Some? ==> given_.value < |boxes|)
      modifies this
      ensures Valid()
      ensures k == if given_.Some? then given_.value else Find(old(boxes), if subscription then SUBSCRIPTIONS else INBOX)
      ensures ok <==> k < |old(boxes)| && old(boxes)[k].live
      ensures !ok ==> World() == old(World())
      ensures ok ==>
        var b := old(boxes)[k];
        && uid == b.nextUid && boxes == old(boxes)[k := b.(nextUid := uid + 1)]
        && b.name in old(counters) && msgs == old(msgs) + [Msg(k, uid, old(counters)[b.name], Ready, flags, body)]
    {
      hide *;
      uid := 0;
      if given_.Some? {
        k := given_.value;
      } else {
        k := Find(boxes, if subscription then SUBSCRIPTIONS else INBOX);
      }
      if k >= |boxes| {
        return false, k, uid;
      }
      ok, uid := Deliver(k, flags, body);
    }

    /** One row of a STORE. */
    method StoreRow(p: Pick, c: Cmd, v: nat, failed: seq<SeqRange>, stored: seq<Result>)
      returns (failed': seq<SeqRange>, stored': seq<Result>)
      requires Valid() && Enabled(World().db, Restamp(p.row, {}, v))
      modifies `msgs
      ensures Valid()
      ensures msgs == old(msgs)[p.row := Touched(c, old(msgs)[p.row], v)]
      ensures stored' == stored + Answers(c, old(msgs)[p.row], v, p.seqNum)
      ensures failed' == if Refused(c, old(msgs)[p.row])
                         then SeqSet.Append(failed, IdOf(old(msgs), p, c.useUid)) else failed
    {
      failed', stored' := failed, stored;
      var m := msgs[p.row];
      assert msgs == msgs[p.row := m];
      var flags, changed := m.flags, false;
      match c.mode {
        case Add =>
          flags, changed := AddFlags(m.flags, c.flags);
        case Remove =>
          flags, changed := RemoveFlags(m.flags, c.flags);
        case Replace =>
          if c.since != 0 && m.modSeq > c.since {
            failed' := AppendSeqRange(failed, if c.useUid then m.uid else p.seqNum);
            return;
          }
          flags := c.flags;
          var same := SetEq(m.flags, c.flags);
          changed := !same;
      }
      if !changed {
        assert flags == m.flags;
        if c.since != 0 && m.modSeq > c.since {
          stored' := stored + [Result(p.seqNum, m.uid, flags, m.modSeq)];
        }
        return;
      }
      UpdateFlags(p.row, flags, v);
      stored' := stored + [Result(p.seqNum, m.uid, flags, v)];
    }

    method StoreNext(b: nat, ps: seq<Pick>, c: Cmd, v: nat, k: nat, failed: seq<SeqRange>, stored: seq<Result>,
                     ghost ids: seq<nat>, ghost m0: seq<Msg>, ghost ids0: seq<nat>, ghost stored0: seq<Result>)
      returns (failed': seq<SeqRange>, stored': seq<Result>, ghost ids': seq<nat>)
      requires Valid() && Issued(boxes, counters, b, v) && k < |ps| && failed == Fold(ids)
      requires forall k | 0 <= k < |ps| :: ps[k].row < |m0| && m0[ps[k].row].box == b
      requires StoreState(m0, ps, c, v, ids0, stored0, k, msgs, ids, stored)
      modifies `msgs
      ensures Valid() && failed' == Fold(ids')
      ensures StoreState(m0, ps, c, v, ids0, stored0, k + 1, msgs, ids', stored')
    {
      hide *;
      StoreStep(m0, ps, c, v, ids0, stored0, k, msgs, ids, stored);
      RestampEnabled(ps[k].row, b, v);
      FoldOne(ids, IdOf(msgs, ps[k], c.useUid));
      ids' := if Refused(c, msgs[ps[k].row]) then ids + [IdOf(msgs, ps[k], c.useUid)] else ids;
      failed', stored' := StoreRow(ps[k], c, v, failed, stored);
    }

    lemma RestampEnabled(i: nat, b: nat, v: nat)
      requires i < |msgs| && msgs[i].box == b && Issued(boxes, counters, b, v)
      ensures Enabled(World().db, Restamp(i, {}, v))
    {
    }

    /** The rows of one range of a STORE, as the query found them. */
    method StoreRange(b: nat, ps: seq<Pick>, c: Cmd, v: nat, failed: seq<SeqRange>, ghost ids: seq<nat>,
                      stored: seq<Result>)
      returns (failed': seq<SeqRange>, stored': seq<Result>)
      requires Valid() && Issued(boxes, counters, b, v) && InTable(ps, |msgs|)
      requires forall k | 0 <= k < |ps| :: msgs[ps[k].row].box == b
      requires failed == Fold(ids)
      modifies `msgs
      ensures Valid()
      ensures var o := StoreRows(old(msgs), ps, c, v);
        && msgs == o.msgs && stored' == stored + o.stored
        && InTable(o.refused, |msgs|)
        && failed' == Fold(ids + IdsOf(old(msgs), o.refused, c.useUid))
    {
      failed', stored' := failed, stored;
      ghost var m0, ids' := msgs, ids;
      var k := 0;
      StoreStart(m0, ps, ids, stored, c, v);
      hide Issued, StoreState, Valid, World, Fold, Touched, Refused, StoreRows, IdsOf;
      while k < |ps|
        invariant k <= |ps| && Valid() && failed' == Fold(ids')
        invariant StoreState(m0, ps, c, v, ids, stored, k, msgs, ids', stored')
      {
        failed', stored', ids' := StoreNext(b, ps, c, v, k, failed', stored', ids', m0, ids, stored);
        k := k + 1;
      }
      StoreEnd(m0, ps, c, v, ids, stored, msgs, ids', stored');
    }

    /** STORE: the mod-sequence is taken even if nothing changes. */
    method Store(b: nat, rs: seq<SeqRange>, useUid: bool, mode: Mode, flags: set<string>, since: nat)
      returns (ok: bool, failed: seq<SeqRange>, stored: seq<Result>)
      requires Valid() && b < |boxes|
      modifies `counters, `stamps, `msgs
      ensures Valid() && ok == boxes[b].live
      ensures !ok ==> World() == old(World()) && failed == [] && stored == []
      ensures ok ==>
        var n, c := boxes[b].name, Cmd(mode, flags - {RECENT}, since, useUid);
        && n in old(counters) && counters == old(counters)[n := old(counters)[n] + 1]
        && stamps == old(stamps) + [Stamp(n, old(counters)[n])]
        && var o := StoreRanges(old(msgs), b, rs, c, old(counters)[n]);
        && msgs == o.msgs && stored == o.stored && InTable(o.refused, |old(msgs)|)
        && failed == Fold(IdsOf(old(msgs), o.refused, useUid))
        && Expand(failed) == IdsOf(old(msgs), o.refused, useUid)
    {
      hide *;
      failed, stored := [], [];
      var v;
      ok, v := NextMsgModSeq(b);
      if ok {
        SoundNow();
        FailedExpands(World(), b, rs, Cmd(mode, flags - {RECENT}, since, useUid), v);
        failed, stored := StoreSet(b, rs, Cmd(mode, flags - {RECENT}, since, useUid), v);
      }
    }

    method StoreSet(b: nat, rs: seq<SeqRange>, c: Cmd, v: nat) returns (failed: seq<SeqRange>, stored: seq<Result>)
      requires Valid() && Issued(boxes, counters, b, v)
      modifies `msgs
      ensures Valid()
      ensures var o := StoreRanges(old(msgs), b, rs, c, v);
        && msgs == o.msgs && stored == o.stored && InTable(o.refused, |old(msgs)|)
        && failed == Fold(IdsOf(old(msgs), o.refused, c.useUid))
    {
      failed, stored := [], [];
      ghost var m0, ids := msgs, [];
      var j := 0;
      RangesStart(m0, b, rs, c, v);
      assert Fold([]) == [];
      hide Valid, World, RangesState, Issued, Sound, Fold, StoreRows, StoreRanges, IdsOf, Picks, InTable, UniqueUids, RowsOf, Outrun, Distinct;
      while j < |rs|
        invariant j <= |rs| && Valid() && failed == Fold(ids)
        invariant RangesState(m0, b, rs, c, v, j, msgs, ids, stored)
      {
        UniqueNow();
        PicksVisible(msgs, b, rs[j], c.useUid, 0);
        RangesStep(m0, b, rs, c, v, j, msgs, ids, stored);
        ghost var more := RefusedIds(msgs, b, rs[j], c, v);
        failed, stored := StoreRange(b, Picks(msgs, b, rs[j], c.useUid, 0), c, v, failed, ids, stored);
        ids := ids + more;
        j := j + 1;
      }
      RangesEnd(m0, b, rs, c, v, msgs, ids, stored);
    }

    /** One message of a COPY. */
    method CopyMsg(p: Pick, d: nat, v: nat) returns (pair: (nat, nat))
      requires Valid() && p.row < |msgs| && Issued(boxes, counters, d, v)
      modifies `msgs, `boxes, `given
      ensures Valid() && Took(old(boxes), old(given), boxes, given, d, 1)
      ensures var uid := old(boxes)[d].nextUid;
        && msgs == old(msgs) + [CopyOf(old(msgs)[p.row], d, uid, v)] && pair == (old(msgs)[p.row].uid, uid)
    {
      TakenUnused(World(), d);
      var uid := NextMsgUID(d);
      pair := (msgs[p.row].uid, uid);
      InsertRow(CopyOf(msgs[p.row], d, uid, v));
    }

    method CopyRange(ps: seq<Pick>, d: nat, v: nat, pairs: seq<(nat, nat)>) returns (pairs': seq<(nat, nat)>)
      requires Valid() && InTable(ps, |msgs|) && Issued(boxes, counters, d, v)
      modifies `msgs, `boxes, `given
      ensures Valid() && d < |old(boxes)| && Took(old(boxes), old(given), boxes, given, d, |ps|)
      ensures var o := CopyRows(old(msgs), ps, d, old(boxes)[d].nextUid, v);
        msgs == o.msgs && pairs' == pairs + o.pairs
    {
      pairs' := pairs;
      ghost var m0, uid0, boxes0, given0 := msgs, boxes[d].nextUid, boxes, given;
      var k := 0;
      CopyStart(m0, ps, d, uid0, v, pairs);
      TookNone(boxes, given, d);
      hide CopyState, Took, Sound, CopyRows;
      while k < |ps|
        invariant k <= |ps| && Valid() && Took(boxes0, given0, boxes, given, d, k)
        invariant CopyState(m0, ps, d, uid0, v, pairs, k, msgs, pairs')
      {
        CopyStep(m0, ps, d, uid0, v, pairs, k, msgs, pairs');
        TookIssued(boxes0, given0, boxes, given, d, k, counters, v);
        ghost var boxes1, given1 := boxes, given;
        var pair := CopyMsg(ps[k], d, v);
        TookMore(boxes0, given0, boxes1, given1, boxes, given, d, k, 1);
        pairs' := pairs' + [pair];
        k := k + 1;
      }
      CopyEnd(m0, ps, d, uid0, v, pairs, msgs, pairs');
    }

    method Copy(b: nat, rs: seq<SeqRange>, useUid: bool, d: nat) returns (ok: bool, pairs: seq<(nat, nat)>)
      requires Valid() && b < |boxes| && d < |boxes|
      modifies this
      ensures Valid() && ok == old(boxes)[d].live
      ensures !ok ==> World() == old(World()) && pairs == []
      ensures ok ==>
        var n, uid := old(boxes)[d].name, old(boxes)[d].nextUid;
        && n in old(counters) && counters == old(counters)[n := old(counters)[n] + 1]
        && stamps == old(stamps) + [Stamp(n, old(counters)[n])]
        && var o := CopyRanges(old(msgs), b, d, rs, useUid, uid, old(counters)[n]);
        && msgs == o.msgs && pairs == o.pairs && Took(old(boxes), old(given), boxes, given, d, |pairs|)
    {
      hide *;
      pairs := [];
      var v;
      ok, v := NextMsgModSeq(d);
      if !ok {
        return;
      }
      pairs := CopySet(b, rs, useUid, d, v);
    }

    /** One range of a COPY: a query of its own. */
    method CopyNext(b: nat, rs: seq<SeqRange>, useUid: bool, d: nat, v: nat, j: nat, pairs: seq<(nat, nat)>,
                    ghost m0: seq<Msg>, ghost boxes0: seq<Mailbox>, ghost given0: seq<Id>)
      returns (pairs': seq<(nat, nat)>)
      requires Valid() && j < |rs| && Issued(boxes0, counters, d, v)
      requires d < |boxes0| && Took(boxes0, given0, boxes, given, d, |pairs|)
      requires CopiesState(m0, b, d, rs, useUid, boxes0[d].nextUid, v, j, msgs, pairs)
      modifies `msgs, `boxes, `given
      ensures Valid() && Took(boxes0, given0, boxes, given, d, |pairs'|)
      ensures CopiesState(m0, b, d, rs, useUid, boxes0[d].nextUid, v, j + 1, msgs, pairs')
    {
      hide *;
      var ps := Picks(msgs, b, rs[j], useUid, 0);
      CopiesStep(m0, b, d, rs, useUid, boxes0[d].nextUid, v, j, msgs, pairs);
      TookIssued(boxes0, given0, boxes, given, d, |pairs|, counters, v);
      ghost var boxes1, given1, n := boxes, given, |pairs|;
      pairs' := CopyRange(ps, d, v, pairs);
      TookMore(boxes0, given0, boxes1, given1, boxes, given, d, n, |ps|);
    }

    method CopySet(b: nat, rs: seq<SeqRange>, useUid: bool, d: nat, v: nat) returns (pairs: seq<(nat, nat)>)
      requires Valid() && Issued(boxes, counters, d, v)
      modifies `msgs, `boxes, `given
      ensures Valid() && Took(old(boxes), old(given), boxes, given, d, |pairs|)
      ensures d < |old(boxes)|
      ensures var o := CopyRanges(old(msgs), b, d, rs, useUid, old(boxes)[d].nextUid, v); msgs == o.msgs && pairs == o.pairs
    {
      pairs := [];
      ghost var m0, uid0, boxes0, given0 := msgs, boxes[d].nextUid, boxes, given;
      var j := 0;
      TookNone(boxes, given, d);
      CopiesStart(m0, b, d, rs, useUid, uid0, v);
      hide Valid, World, CopiesState, Took, Sound, CopyRows, CopyRanges, Issued, Picks, InTable, UniqueUids, RowsOf, Outrun, Distinct;
      while j < |rs|
        invariant j <= |rs| && Valid() && Took(boxes0, given0, boxes, given, d, |pairs|)
        invariant CopiesState(m0, b, d, rs, useUid, uid0, v, j, msgs, pairs)
      {
        pairs := CopyNext(b, rs, useUid, d, v, j, pairs, m0, boxes0, given0);
        j := j + 1;
      }
      CopiesEnd(m0, b, d, rs, useUid, uid0, v, msgs, pairs);
    }

    /** One message of a MOVE: to its new place, and a tombstone at the old. */
    method MoveMsg(i: nat, b: nat, d: nat, v: nat) returns (srcUid: nat, dstUid: nat)
      requires Valid() && i < |msgs| && msgs[i].box == b && Issued(boxes, counters, d, v)
      modifies `msgs, `boxes, `given
      ensures Valid() && Took(old(boxes), old(given), boxes, given, d, 1)
      ensures srcUid == old(msgs)[i].uid && dstUid == old(boxes)[d].nextUid
      ensures msgs == MoveRow(old(msgs), i, b, d, dstUid, v)
    {
      TakenUnused(World(), d);
      srcUid := msgs[i].uid;
      dstUid := NextMsgUID(d);
      LeftUnused(World(), i, d, dstUid, v);
      UpdateMailbox(i, d, dstUid, v);
      InsertRow(Tombstone(b, srcUid, v));
    }

    method MoveOne(ps: seq<Pick>, b: nat, d: nat, v: nat, seqDelta: nat, reports: seq<Report>,
                   ghost m0: seq<Msg>, ghost boxes0: seq<Mailbox>, ghost given0: seq<Id>, ghost reports0: seq<Report>)
      returns (reports': seq<Report>)
      requires Valid() && seqDelta < |ps| && Issued(boxes0, counters, d, v)
      requires d < |boxes0| && Took(boxes0, given0, boxes, given, d, seqDelta)
      requires MoveState(m0, ps, b, d, boxes0[d].nextUid, v, reports0, seqDelta, msgs, reports)
      modifies `msgs, `boxes, `given
      ensures Valid() && Took(boxes0, given0, boxes, given, d, seqDelta + 1)
      ensures MoveState(m0, ps, b, d, boxes0[d].nextUid, v, reports0, seqDelta + 1, msgs, reports')
    {
      hide *;
      MoveStep(m0, ps, b, d, boxes0[d].nextUid, v, reports0, seqDelta, msgs, reports);
      TookIssued(boxes0, given0, boxes, given, d, seqDelta, counters, v);
      ghost var boxes1, given1 := boxes, given;
      var p := ps[seqDelta];
      var srcUid, dstUid := MoveMsg(p.row, b, d, v);
      TookMore(boxes0, given0, boxes1, given1, boxes, given, d, seqDelta, 1);
      reports' := reports + [Report(p.seqNum - seqDelta, srcUid, dstUid)];
    }

    method MoveRange(ps: seq<Pick>, b: nat, d: nat, v: nat, reports: seq<Report>) returns (reports': seq<Report>)
      requires Valid() && Issued(boxes, counters, d, v)
      requires InTable(ps, |msgs|) && Outrun(ps, 0) && Distinct(RowsOf(ps))
      requires forall k | 0 <= k < |ps| :: msgs[ps[k].row].box == b
      modifies `msgs, `boxes, `given
      ensures Valid() && d < |old(boxes)| && Took(old(boxes), old(given), boxes, given, d, |ps|)
      ensures var o := MoveRows(old(msgs), ps, 0, b, d, old(boxes)[d].nextUid, v);
        msgs == o.msgs && reports' == reports + o.reports
    {
      reports' := reports;
      ghost var m0, uid0, boxes0, given0 := msgs, boxes[d].nextUid, boxes, given;
      var seqDelta := 0;
      MoveStart(m0, ps, b, d, uid0, v, reports);
      TookNone(boxes, given, d);
      hide MoveState, Took, Valid, World, MoveRows, MoveRow, Distinct, RowsOf, Outrun, Issued;
      while seqDelta < |ps|
        invariant seqDelta <= |ps| && Valid() && Took(boxes0, given0, boxes, given, d, seqDelta)
        invariant MoveState(m0, ps, b, d, uid0, v, reports, seqDelta, msgs, reports')
      {
        reports' := MoveOne(ps, b, d, v, seqDelta, reports', m0, boxes0, given0, reports);
        seqDelta := seqDelta + 1;
      }
      MoveEnd(m0, ps, b, d, uid0, v, reports, msgs, reports');
    }

    method Move(b: nat, rs: seq<SeqRange>, useUid: bool, d: nat) returns (ok: bool, reports: seq<Report>)
      requires Valid() && b < |boxes| && d < |boxes|
      modifies this
      ensures Valid() && ok == old(boxes)[d].live
      ensures !ok ==> World() == old(World()) && reports == []
      ensures ok ==>
        var n, uid := old(boxes)[d].name, old(boxes)[d].nextUid;
        && n in old(counters) && counters == old(counters)[n := old(counters)[n] + 1]
        && stamps == old(stamps) + [Stamp(n, old(counters)[n])]
        && var o := MailMoves.MoveAll(old(msgs), b, d, rs, useUid, uid, old(counters)[n], 0);
        && msgs == o.msgs && reports == o.reports && Took(old(boxes), old(given), boxes, given, d, |reports|)
    {
      hide *;
      reports := [];
      var v;
      ok, v := NextMsgModSeq(d);
      if !ok {
        return;
      }
      reports := MoveSet(b, rs, useUid, d, v);
    }

    /** One range of a MOVE. By number it is shifted by what has moved already. */
    method MoveNext(b: nat, rs: seq<SeqRange>, useUid: bool, d: nat, v: nat, j: nat, rangeSeqDelta: nat,
                    reports: seq<Report>, ghost m0: seq<Msg>, ghost boxes0: seq<Mailbox>, ghost given0: seq<Id>)
      returns (reports': seq<Report>)
      requires Valid() && j < |rs| && Issued(boxes0, counters, d, v) && rangeSeqDelta == |reports|
      requires d < |boxes0| && Took(boxes0, given0, boxes, given, d, |reports|)
      requires MovesState(m0, b, d, rs, useUid, boxes0[d].nextUid, v, j, msgs, reports)
      modifies `msgs, `boxes, `given
      ensures Valid() && Took(boxes0, given0, boxes, given, d, |reports'|) && |reports'| >= |reports|
      ensures MovesState(m0, b, d, rs, useUid, boxes0[d].nextUid, v, j + 1, msgs, reports')
    {
      hide *;
      var ps := Picks(msgs, b, rs[j], useUid, rangeSeqDelta);
      UniqueNow();
      PicksVisible(msgs, b, rs[j], useUid, rangeSeqDelta);
      MovesStep(m0, b, d, rs, useUid, boxes0[d].nextUid, v, j, msgs, reports);
      TookIssued(boxes0, given0, boxes, given, d, |reports|, counters, v);
      ghost var boxes1, given1, n := boxes, given, |reports|;
      reports' := MoveRange(ps, b, d, v, reports);
      TookMore(boxes0, given0, boxes1, given1, boxes, given, d, n, |ps|);
    }

    method MoveSet(b: nat, rs: seq<SeqRange>, useUid: bool, d: nat, v: nat) returns (reports: seq<Report>)
      requires Valid() && Issued(boxes, counters, d, v)
      modifies `msgs, `boxes, `given
      ensures Valid() && d < |old(boxes)| && Took(old(boxes), old(given), boxes, given, d, |reports|)
      ensures var o := MailMoves.MoveAll(old(msgs), b, d, rs, useUid, old(boxes)[d].nextUid, v, 0);
        msgs == o.msgs && reports == o.reports
    {
      reports := [];
      ghost var m0, uid0, boxes0, given0 := msgs, boxes[d].nextUid, boxes, given;
      var j, rangeSeqDelta := 0, 0;
      TookNone(boxes, given, d);
      MovesStart(m0, b, d, rs, useUid, uid0, v);
      hide Valid, World, MovesState, Took, Sound, MoveRows, MailMoves.MoveAll, Issued, Picks, InTable, UniqueUids, RowsOf, Outrun, Distinct;
      while j < |rs|
        invariant j <= |rs| && Valid() && Took(boxes0, given0, boxes, given, d, |reports|)
        invariant rangeSeqDelta == |reports|
        invariant MovesState(m0, b, d, rs, useUid, uid0, v, j, msgs, reports)
      {
        var n := |reports|;
        reports := MoveNext(b, rs, useUid, d, v, j, rangeSeqDelta, reports, m0, boxes0, given0);
        rangeSeqDelta := rangeSeqDelta + (|reports| - n);
        j := j + 1;
      }
      MovesEnd(m0, b, d, rs, useUid, uid0, v, msgs, reports);
    }

    method ExpungeNext(rows: seq<nat>, uidSeqs: Option<seq<SeqRange>>, k: nat, nums: seq<nat>, ghost m0: seq<Msg>,
                       ghost m: seq<bool>)
      returns (nums': seq<nat>)
      requires Valid() && k < |rows| && ExpungeState(m0, rows, m, k, msgs, nums)
      requires (forall j | 0 <= j < |rows| :: rows[j] < |m0|) && m == ExpungeMask(m0, rows, uidSeqs)
      modifies `msgs
      ensures Valid() && ExpungeState(m0, rows, m, k + 1, msgs, nums')
    {
      hide *;
      nums' := nums;
      ExpungeStep(m0, rows, m, uidSeqs, k, msgs, nums);
      if Goes(msgs[rows[k]], uidSeqs) {
        SetExpunged(rows[k]);
        nums' := nums + [k + 1 - |nums|];
      }
    }

    /** EXPUNGE: numbers from one query, less the count of those gone. */
    method Expunge(b: nat, uidSeqs: Option<seq<SeqRange>>) returns (nums: seq<nat>)
      requires Valid()
      modifies `msgs
      ensures Valid()
      ensures var w := Window(old(msgs), b);
        var m := ExpungeMask(old(msgs), w, uidSeqs);
        && InRows(Chosen(w, m), |old(msgs)|)
        && msgs == ExpungeRows(old(msgs), Chosen(w, m)) && nums == Reported(m)
    {
      ghost var m0, w := msgs, Window(msgs, b);
      ghost var m := ExpungeMask(msgs, w, uidSeqs);
      var rows := Window(msgs, b);
      nums := [];
      var k := 0;
      UniqueNow();
      WindowDistinct(msgs, b);
      ExpungeStart(m0, w, m);
      hide ExpungeState, ExpungeMask, Valid, World, Window, ExpungeRows, Goes, Numbers, Chosen, SeqContains;
      while k < |rows|
        invariant k <= |rows| && Valid() && |msgs| == |m0|
        invariant ExpungeState(m0, w, m, k, msgs, nums)
      {
        nums := ExpungeNext(rows, uidSeqs, k, nums, m0, m);
        k := k + 1;
      }
      ExpungeEnd(m0, w, m, msgs, nums);
    }
  }

  /** The number a refused message is listed under. */
  function IdOf(msgs: seq<Msg>, p: Pick, useUid: bool): nat
    requires p.row < |msgs|
  {
    if useUid then msgs[p.row].uid else p.seqNum
  }

  function IdsOf(msgs: seq<Msg>, ps: seq<Pick>, useUid: bool): (r: seq<nat>)
    requires InTable(ps, |msgs|)
    ensures |r| == |ps|
  {
    seq(|ps|, k requires 0 <= k < |ps| => IdOf(msgs, ps[k], useUid))
  }

  lemma {:induction false} RefusedAmong(msgs: seq<Msg>, ps: seq<Pick>, c: Cmd, v: nat)
    requires InTable(ps, |msgs|)
    ensures forall p | p in StoreRows(msgs, ps, c, v).refused :: p in ps
    decreases |ps|
  {
    hide Touched, Refused, Answers;
    if ps != [] {
      assert ps == [ps[0]] + ps[1..];
      RefusedAmong(msgs[ps[0].row := Touched(c, msgs[ps[0].row], v)], ps[1..], c, v);
    }
  }

  lemma {:induction false} PicksCount(msgs: seq<Msg>, b: nat, rs: seq<SeqRange>, useUid: bool)
    ensures forall p | p in AllPicks(msgs, b, rs, useUid) :: 0 < p.seqNum
  {
    if rs != [] {
      PicksCount(msgs, b, rs[1..], useUid);
      var w := Window(msgs, b);
      ChosenSub(NumberedFrom(w, 1), RangeMask(Uids(msgs, w), rs[0], useUid, 0));
    }
  }

  /** The set of failed messages is their list of UIDs or numbers, in order. */
  lemma FailedExpands(w: World, b: nat, rs: seq<SeqRange>, c: Cmd, v: nat)
    requires Sound(w)
    ensures var o := StoreRanges(w.db.msgs, b, rs, c, v);
      InTable(o.refused, |w.db.msgs|) &&
      var ids := IdsOf(w.db.msgs, o.refused, c.useUid);
      Expand(Fold(ids)) == ids
  {
    var msgs := w.db.msgs;
    StoreRangesFlat(msgs, b, rs, c, v);
    var ps := AllPicks(msgs, b, rs, c.useUid);
    var refused := StoreRows(msgs, ps, c, v).refused;
    RefusedAmong(msgs, ps, c, v);
    RefusedInTable(msgs, ps, c, v);
    PicksCount(msgs, b, rs, c.useUid);
    hide StoreRows, StoreRanges, AllPicks, UniqueUids, Fold, Expand;
    var ids := IdsOf(msgs, refused, c.useUid);
    forall i | 0 <= i < |ids|
      ensures ids[i] > 0
    {
      assert refused[i] in ps && RowOk(w.db, msgs[refused[i].row]);
    }
    FoldExpand(ids);
  }

  lemma FoldOne(ids: seq<nat>, id: nat)
    ensures Fold(ids + [id]) == SeqSet.Append(Fold(ids), id)
  {
    assert (ids + [id])[..|ids|] == ids;
  }

  lemma {:induction false} RefusedInTable(msgs: seq<Msg>, ps: seq<Pick>, c: Cmd, v: nat)
    requires InTable(ps, |msgs|)
    ensures InTable(StoreRows(msgs, ps, c, v).refused, |msgs|)
    decreases |ps|
  {
    if ps != [] {
      RefusedInTable(msgs[ps[0].row := Touched(c, msgs[ps[0].row], v)], ps[1..], c, v);
    }
  }

  /** After `k` rows: what is done and what the others will do is the whole. */
  ghost predicate StoreState(m0: seq<Msg>, ps: seq<Pick>, c: Cmd, v: nat, ids: seq<nat>, stored: seq<Result>, k: nat,
                             msgs: seq<Msg>, ids': seq<nat>, stored': seq<Result>)
  {
    && k <= |ps| && InTable(ps, |m0|) && InTable(ps[k..], |msgs|) && SamePlaces(m0, msgs)
    && var all, more := StoreRows(m0, ps, c, v), StoreRows(msgs, ps[k..], c, v);
    && all.msgs == more.msgs && stored + all.stored == stored' + more.stored
    && InTable(all.refused, |m0|) && InTable(more.refused, |m0|)
    && ids + IdsOf(m0, all.refused, c.useUid) == ids' + IdsOf(m0, more.refused, c.useUid)
  }

  lemma StoreStart(m0: seq<Msg>, ps: seq<Pick>, ids: seq<nat>, stored: seq<Result>, c: Cmd, v: nat)
    requires InTable(ps, |m0|)
    ensures StoreState(m0, ps, c, v, ids, stored, 0, m0, ids, stored)
  {
    assert ps[0..] == ps;
    RefusedInTable(m0, ps, c, v);
  }

  lemma StoreStep(m0: seq<Msg>, ps: seq<Pick>, c: Cmd, v: nat, ids: seq<nat>, stored: seq<Result>, k: nat,
                  msgs: seq<Msg>, ids': seq<nat>, stored': seq<Result>)
    requires StoreState(m0, ps, c, v, ids, stored, k, msgs, ids', stored') && k < |ps|
    ensures var p := ps[k];
      && p.row < |msgs| == |m0| && msgs[p.row].box == m0[p.row].box
      && var m := msgs[p.row];
      && var next := msgs[p.row := Touched(c, m, v)];
      && SamePlaces(m0, next)
      && StoreState(m0, ps, c, v, ids, stored, k + 1, next,
                    if Refused(c, m) then ids' + [IdOf(msgs, p, c.useUid)] else ids',
                    stored' + Answers(c, m, v, p.seqNum))
  {
    var p := ps[k];
    var m := msgs[p.row];
    var next := msgs[p.row := Touched(c, m, v)];
    assert ps[k..][0] == p && ps[k..][1..] == ps[k + 1..];
    var more := StoreRows(next, ps[k + 1..], c, v);
    Assoc(stored', Answers(c, m, v, p.seqNum), more.stored);
    RefusedInTable(next, ps[k + 1..], c, v);
    var id, rest := IdOf(m0, p, c.useUid), IdsOf(m0, more.refused, c.useUid);
    if Refused(c, m) {
      assert IdsOf(m0, [p] + more.refused, c.useUid) == [id] + rest;
      Assoc(ids', [id], rest);
    } else {
      assert [] + more.refused == more.refused;
    }
  }

  lemma StoreEnd(m0: seq<Msg>, ps: seq<Pick>, c: Cmd, v: nat, ids: seq<nat>, stored: seq<Result>,
                 msgs: seq<Msg>, ids': seq<nat>, stored': seq<Result>)
    requires StoreState(m0, ps, c, v, ids, stored, |ps|, msgs, ids', stored')
    ensures var o := StoreRows(m0, ps, c, v);
      && msgs == o.msgs && stored' == stored + o.stored
      && InTable(o.refused, |msgs|) && ids' == ids + IdsOf(m0, o.refused, c.useUid)
  {
    assert ps[|ps|..] == [];
    assert stored' + [] == stored' && ids' + [] == ids';
  }

  lemma PicksVisible(msgs: seq<Msg>, b: nat, r: SeqRange, useUid: bool, delta: nat)
    requires UniqueUids(msgs)
    ensures var ps := Picks(msgs, b, r, useUid, delta);
      && InTable(ps, |msgs|) && Distinct(RowsOf(ps)) && Outrun(ps, 0)
      && forall k | 0 <= k < |ps| :: msgs[ps[k].row].box == b
  {
    var w := Window(msgs, b);
    var ns, m := NumberedFrom(w, 1), RangeMask(Uids(msgs, w), r, useUid, delta);
    var ps := Chosen(ns, m);
    PicksInTable(msgs, b, r, useUid, delta);
    PickNumbers(w, m, 1, 0);
    WindowIs(msgs, b);
    RowsOfChosen(w, m, 1);
    ClimbsChosen(msgs, w, m);
    ClimbsDistinct(msgs, Chosen(w, m));
    ChosenSub(ns, m);
    forall k | 0 <= k < |ps|
      ensures msgs[ps[k].row].box == b
    {
      assert ps[k] in ps && ps[k] in ns;
    }
  }

  ghost function RefusedIds(msgs: seq<Msg>, b: nat, r: SeqRange, c: Cmd, v: nat): seq<nat> {
    var ps := Picks(msgs, b, r, c.useUid, 0);
    PicksInTable(msgs, b, r, c.useUid, 0);
    RefusedInTable(msgs, ps, c, v);
    IdsOf(msgs, StoreRows(msgs, ps, c, v).refused, c.useUid)
  }

  ghost predicate RangesState(m0: seq<Msg>, b: nat, rs: seq<SeqRange>, c: Cmd, v: nat, j: nat,
                              msgs: seq<Msg>, ids: seq<nat>, stored: seq<Result>)
  {
    && j <= |rs| && SamePlaces(m0, msgs)
    && var all, more := StoreRanges(m0, b, rs, c, v), StoreRanges(msgs, b, rs[j..], c, v);
    && all.msgs == more.msgs && all.stored == stored + more.stored
    && InTable(all.refused, |m0|) && InTable(more.refused, |m0|)
    && IdsOf(m0, all.refused, c.useUid) == ids + IdsOf(m0, more.refused, c.useUid)
  }

  lemma {:induction false} RangesInTable(msgs: seq<Msg>, b: nat, rs: seq<SeqRange>, c: Cmd, v: nat)
    ensures InTable(StoreRanges(msgs, b, rs, c, v).refused, |msgs|)
    decreases |rs|
  {
    hide Picks, StoreRows;
    if rs != [] {
      var ps := Picks(msgs, b, rs[0], c.useUid, 0);
      PicksInTable(msgs, b, rs[0], c.useUid, 0);
      RefusedInTable(msgs, ps, c, v);
      RangesInTable(StoreRows(msgs, ps, c, v).msgs, b, rs[1..], c, v);
    }
  }

  lemma RangesStart(m0: seq<Msg>, b: nat, rs: seq<SeqRange>, c: Cmd, v: nat)
    ensures RangesState(m0, b, rs, c, v, 0, m0, [], [])
  {
    hide StoreRanges;
    RangesInTable(m0, b, rs, c, v);
    assert rs[0..] == rs;
    var o := StoreRanges(m0, b, rs, c, v);
    assert [] + o.stored == o.stored;
    assert [] + IdsOf(m0, o.refused, c.useUid) == IdsOf(m0, o.refused, c.useUid);
  }

  lemma RangesStep(m0: seq<Msg>, b: nat, rs: seq<SeqRange>, c: Cmd, v: nat, j: nat,
                   msgs: seq<Msg>, ids: seq<nat>, stored: seq<Result>)
    requires RangesState(m0, b, rs, c, v, j, msgs, ids, stored) && j < |rs|
    ensures var ps := Picks(msgs, b, rs[j], c.useUid, 0);
      && InTable(ps, |msgs|)
      && var o := StoreRows(msgs, ps, c, v);
      && InTable(o.refused, |msgs|) && RefusedIds(msgs, b, rs[j], c, v) == IdsOf(msgs, o.refused, c.useUid)
      && RangesState(m0, b, rs, c, v, j + 1, o.msgs, ids + RefusedIds(msgs, b, rs[j], c, v), stored + o.stored)
  {
    hide Picks, StoreRows;
    var ps := Picks(msgs, b, rs[j], c.useUid, 0);
    PicksInTable(msgs, b, rs[j], c.useUid, 0);
    var o := StoreRows(msgs, ps, c, v);
    RefusedInTable(msgs, ps, c, v);
    StorePlaces(msgs, ps, c, v);
    assert rs[j..][0] == rs[j] && rs[j..][1..] == rs[j + 1..];
    RangesInTable(o.msgs, b, rs[j + 1..], c, v);
    var more := StoreRanges(o.msgs, b, rs[j + 1..], c, v);
    Assoc(stored, o.stored, more.stored);
    assert IdsOf(m0, o.refused + more.refused, c.useUid)
        == IdsOf(msgs, o.refused, c.useUid) + IdsOf(m0, more.refused, c.useUid);
    Assoc(ids, IdsOf(msgs, o.refused, c.useUid), IdsOf(m0, more.refused, c.useUid));
  }

  lemma RangesEnd(m0: seq<Msg>, b: nat, rs: seq<SeqRange>, c: Cmd, v: nat, msgs: seq<Msg>, ids: seq<nat>,
                  stored: seq<Result>)
    requires RangesState(m0, b, rs, c, v, |rs|, msgs, ids, stored)
    ensures var o := StoreRanges(m0, b, rs, c, v);
      && msgs == o.msgs && stored == o.stored && InTable(o.refused, |m0|) && |m0| == |msgs|
      && ids == IdsOf(m0, o.refused, c.useUid)
  {
    assert rs[|rs|..] == [];
    assert stored + [] == stored && ids + [] == ids;
  }

  // ------------------------------------------------------ UIDs taken in a row

  function GivenFrom(b: Mailbox, n: nat): (r: seq<Id>)
    ensures |r| == n
  {
    seq(n, k requires 0 <= k => Id(b.name, b.validity, b.nextUid + k))
  }

  /** `n` UIDs of mailbox `d` have been handed out, one after the other. */
  ghost predicate Took(boxes: seq<Mailbox>, given: seq<Id>, boxes': seq<Mailbox>, given': seq<Id>, d: nat, n: nat) {
    && d < |boxes|
    && boxes' == boxes[d := boxes[d].(nextUid := boxes[d].nextUid + n)]
    && given' == given + GivenFrom(boxes[d], n)
  }

  lemma TookNone(boxes: seq<Mailbox>, given: seq<Id>, d: nat)
    requires d < |boxes|
    ensures Took(boxes, given, boxes, given, d, 0)
  {
  }

  lemma TookMore(boxes: seq<Mailbox>, given: seq<Id>, boxes1: seq<Mailbox>, given1: seq<Id>,
                 boxes2: seq<Mailbox>, given2: seq<Id>, d: nat, n: nat, k: nat)
    requires Took(boxes, given, boxes1, given1, d, n) && Took(boxes1, given1, boxes2, given2, d, k)
    ensures Took(boxes, given, boxes2, given2, d, n + k)
  {
    assert GivenFrom(boxes[d], n + k) == GivenFrom(boxes[d], n) + GivenFrom(boxes1[d], k);
    Assoc(given, GivenFrom(boxes[d], n), GivenFrom(boxes1[d], k));
  }

  lemma TookIssued(boxes: seq<Mailbox>, given: seq<Id>, boxes': seq<Mailbox>, given': seq<Id>, d: nat, n: nat,
                   counters: map<string, nat>, v: nat)
    requires Took(boxes, given, boxes', given', d, n) && Issued(boxes, counters, d, v)
    ensures Issued(boxes', counters, d, v) && boxes'[d].nextUid == boxes[d].nextUid + n
  {
  }

  ghost predicate CopyState(m0: seq<Msg>, ps: seq<Pick>, d: nat, uid0: nat, v: nat, pairs: seq<(nat, nat)>, k: nat,
                            msgs: seq<Msg>, pairs': seq<(nat, nat)>)
  {
    && k <= |ps| && InTable(ps, |m0|) && InTable(ps[k..], |msgs|) && |m0| <= |msgs|
    && var all, more := CopyRows(m0, ps, d, uid0, v), CopyRows(msgs, ps[k..], d, uid0 + k, v);
    && all.msgs == more.msgs && pairs + all.pairs == pairs' + more.pairs
  }

  lemma CopyStart(m0: seq<Msg>, ps: seq<Pick>, d: nat, uid0: nat, v: nat, pairs: seq<(nat, nat)>)
    requires InTable(ps, |m0|)
    ensures CopyState(m0, ps, d, uid0, v, pairs, 0, m0, pairs)
  {
    assert ps[0..] == ps;
  }

  lemma CopyStep(m0: seq<Msg>, ps: seq<Pick>, d: nat, uid0: nat, v: nat, pairs: seq<(nat, nat)>, k: nat,
                 msgs: seq<Msg>, pairs': seq<(nat, nat)>)
    requires CopyState(m0, ps, d, uid0, v, pairs, k, msgs, pairs') && k < |ps|
    ensures ps[k].row < |msgs|
    ensures var m := msgs[ps[k].row];
      CopyState(m0, ps, d, uid0, v, pairs, k + 1, msgs + [CopyOf(m, d, uid0 + k, v)], pairs' + [(m.uid, uid0 + k)])
  {
    assert ps[k..][0] == ps[k] && ps[k..][1..] == ps[k + 1..];
    var m := msgs[ps[k].row];
    Assoc(pairs', [(m.uid, uid0 + k)], CopyRows(msgs + [CopyOf(m, d, uid0 + k, v)], ps[k + 1..], d, uid0 + k + 1, v).pairs);
  }

  lemma CopyEnd(m0: seq<Msg>, ps: seq<Pick>, d: nat, uid0: nat, v: nat, pairs: seq<(nat, nat)>,
                msgs: seq<Msg>, pairs': seq<(nat, nat)>)
    requires CopyState(m0, ps, d, uid0, v, pairs, |ps|, msgs, pairs')
    ensures var o := CopyRows(m0, ps, d, uid0, v); msgs == o.msgs && pairs' == pairs + o.pairs
  {
    assert ps[|ps|..] == [] && pairs' + [] == pairs';
  }

  ghost predicate CopiesState(m0: seq<Msg>, b: nat, d: nat, rs: seq<SeqRange>, useUid: bool, uid0: nat, v: nat, j: nat,
                              msgs: seq<Msg>, pairs: seq<(nat, nat)>)
  {
    && j <= |rs|
    && var all, more := CopyRanges(m0, b, d, rs, useUid, uid0, v), CopyRanges(msgs, b, d, rs[j..], useUid, uid0 + |pairs|, v);
    && all.msgs == more.msgs && all.pairs == pairs + more.pairs
  }

  lemma CopiesStart(m0: seq<Msg>, b: nat, d: nat, rs: seq<SeqRange>, useUid: bool, uid0: nat, v: nat)
    ensures CopiesState(m0, b, d, rs, useUid, uid0, v, 0, m0, [])
  {
    hide CopyRanges;
    assert rs[0..] == rs;
    var o := CopyRanges(m0, b, d, rs, useUid, uid0, v);
    assert [] + o.pairs == o.pairs;
  }

  lemma CopiesStep(m0: seq<Msg>, b: nat, d: nat, rs: seq<SeqRange>, useUid: bool, uid0: nat, v: nat, j: nat,
                   msgs: seq<Msg>, pairs: seq<(nat, nat)>)
    requires CopiesState(m0, b, d, rs, useUid, uid0, v, j, msgs, pairs) && j < |rs|
    ensures var ps := Picks(msgs, b, rs[j], useUid, 0);
      && InTable(ps, |msgs|)
      && var o := CopyRows(msgs, ps, d, uid0 + |pairs|, v);
      && CopiesState(m0, b, d, rs, useUid, uid0, v, j + 1, o.msgs, pairs + o.pairs)
  {
    hide Picks, CopyRows;
    PicksInTable(msgs, b, rs[j], useUid, 0);
    assert rs[j..][0] == rs[j] && rs[j..][1..] == rs[j + 1..];
    var o := CopyRows(msgs, Picks(msgs, b, rs[j], useUid, 0), d, uid0 + |pairs|, v);
    Assoc(pairs, o.pairs, CopyRanges(o.msgs, b, d, rs[j + 1..], useUid, uid0 + |pairs| + |o.pairs|, v).pairs);
  }

  lemma CopiesEnd(m0: seq<Msg>, b: nat, d: nat, rs: seq<SeqRange>, useUid: bool, uid0: nat, v: nat,
                  msgs: seq<Msg>, pairs: seq<(nat, nat)>)
    requires CopiesState(m0, b, d, rs, useUid, uid0, v, |rs|, msgs, pairs)
    ensures var o := CopyRanges(m0, b, d, rs, useUid, uid0, v); msgs == o.msgs && pairs == o.pairs
  {
    assert rs[|rs|..] == [] && pairs + [] == pairs;
  }

  /** Once its row has a new place, the old UID is free for the tombstone. */
  lemma LeftUnused(w: World, i: nat, d: nat, uid: nat, v: nat)
    requires Sound(w) && Enabled(w.db, Relocate(i, d, uid, v))
    ensures Unused(Do(w, Relocate(i, d, uid, v)).db, w.db.msgs[i].box, w.db.msgs[i].uid)
  {
    hide GivenOnce, Apart, Rising;
    assert RowOk(w.db, w.db.msgs[i]);
  }

  ghost predicate MoveState(m0: seq<Msg>, ps: seq<Pick>, b: nat, d: nat, uid0: nat, v: nat, reports: seq<Report>, k: nat,
                            msgs: seq<Msg>, reports': seq<Report>)
  {
    && k <= |ps| && InTable(ps, |m0|) && Outrun(ps, 0) && Distinct(RowsOf(ps))
    && InTable(ps[k..], |msgs|) && Outrun(ps[k..], k) && |m0| <= |msgs|
    && (forall j | k <= j < |ps| :: msgs[ps[j].row] == m0[ps[j].row] && m0[ps[j].row].box == b)
    && var all, more := MoveRows(m0, ps, 0, b, d, uid0, v), MoveRows(msgs, ps[k..], k, b, d, uid0 + k, v);
    && all.msgs == more.msgs && reports + all.reports == reports' + more.reports
  }

  lemma MoveStart(m0: seq<Msg>, ps: seq<Pick>, b: nat, d: nat, uid0: nat, v: nat, reports: seq<Report>)
    requires InTable(ps, |m0|) && Outrun(ps, 0) && Distinct(RowsOf(ps))
    requires forall k | 0 <= k < |ps| :: m0[ps[k].row].box == b
    ensures MoveState(m0, ps, b, d, uid0, v, reports, 0, m0, reports)
  {
    assert ps[0..] == ps;
  }

  lemma MoveStep(m0: seq<Msg>, ps: seq<Pick>, b: nat, d: nat, uid0: nat, v: nat, reports: seq<Report>, k: nat,
                 msgs: seq<Msg>, reports': seq<Report>)
    requires MoveState(m0, ps, b, d, uid0, v, reports, k, msgs, reports') && k < |ps|
    ensures var p := ps[k];
      && p.row < |msgs| && msgs[p.row].box == b && k < p.seqNum
      && MoveState(m0, ps, b, d, uid0, v, reports, k + 1, MoveRow(msgs, p.row, b, d, uid0 + k, v),
                   reports' + [Report(p.seqNum - k, msgs[p.row].uid, uid0 + k)])
  {
    assert ps[k..][0] == ps[k] && ps[k..][1..] == ps[k + 1..];
    var p := ps[k];
    var next := MoveRow(msgs, p.row, b, d, uid0 + k, v);
    forall j | k + 1 <= j < |ps|
      ensures next[ps[j].row] == m0[ps[j].row]
    {
      assert RowsOf(ps)[k] != RowsOf(ps)[j];
      assert ps[k..][j - k] == ps[j];
    }
    Assoc(reports', [Report(p.seqNum - k, msgs[p.row].uid, uid0 + k)],
          MoveRows(next, ps[k + 1..], k + 1, b, d, uid0 + k + 1, v).reports);
  }

  lemma MoveEnd(m0: seq<Msg>, ps: seq<Pick>, b: nat, d: nat, uid0: nat, v: nat, reports: seq<Report>,
                msgs: seq<Msg>, reports': seq<Report>)
    requires MoveState(m0, ps, b, d, uid0, v, reports, |ps|, msgs, reports')
    ensures InTable(ps, |m0|) && Outrun(ps, 0)
    ensures var o := MoveRows(m0, ps, 0, b, d, uid0, v); msgs == o.msgs && reports' == reports + o.reports
  {
    assert ps[|ps|..] == [] && reports' + [] == reports';
  }

  ghost predicate MovesState(m0: seq<Msg>, b: nat, d: nat, rs: seq<SeqRange>, useUid: bool, uid0: nat, v: nat, j: nat,
                             msgs: seq<Msg>, reports: seq<Report>)
  {
    && j <= |rs|
    && var all := MailMoves.MoveAll(m0, b, d, rs, useUid, uid0, v, 0);
       var more := MailMoves.MoveAll(msgs, b, d, rs[j..], useUid, uid0 + |reports|, v, |reports|);
    && all.msgs == more.msgs && all.reports == reports + more.reports
  }

  lemma MovesStart(m0: seq<Msg>, b: nat, d: nat, rs: seq<SeqRange>, useUid: bool, uid0: nat, v: nat)
    ensures MovesState(m0, b, d, rs, useUid, uid0, v, 0, m0, [])
  {
    hide MailMoves.MoveAll;
    assert rs[0..] == rs;
    var o := MailMoves.MoveAll(m0, b, d, rs, useUid, uid0, v, 0);
    assert [] + o.reports == o.reports;
  }

  lemma MovesStep(m0: seq<Msg>, b: nat, d: nat, rs: seq<SeqRange>, useUid: bool, uid0: nat, v: nat, j: nat,
                  msgs: seq<Msg>, reports: seq<Report>)
    requires MovesState(m0, b, d, rs, useUid, uid0, v, j, msgs, reports) && j < |rs|
    ensures var n := |reports|;
      var ps := Picks(msgs, b, rs[j], useUid, n);
      && InTable(ps, |msgs|) && Outrun(ps, 0)
      && var o := MoveRows(msgs, ps, 0, b, d, uid0 + n, v);
      && MovesState(m0, b, d, rs, useUid, uid0, v, j + 1, o.msgs, reports + o.reports)
  {
    hide Picks, MoveRows, MailMoves.MoveAll;
    var n := |reports|;
    assert rs[j..][0] == rs[j] && rs[j..][1..] == rs[j + 1..];
    MoveAllStep(msgs, b, d, rs[j..], useUid, uid0 + n, v, n);
    var o := MoveRows(msgs, Picks(msgs, b, rs[j], useUid, n), 0, b, d, uid0 + n, v);
    var k := |o.reports|;
    Assoc(reports, o.reports, MailMoves.MoveAll(o.msgs, b, d, rs[j + 1..], useUid, uid0 + n + k, v, n + k).reports);
  }

  lemma MovesEnd(m0: seq<Msg>, b: nat, d: nat, rs: seq<SeqRange>, useUid: bool, uid0: nat, v: nat,
                 msgs: seq<Msg>, reports: seq<Report>)
    requires MovesState(m0, b, d, rs, useUid, uid0, v, |rs|, msgs, reports)
    ensures var o := MailMoves.MoveAll(m0, b, d, rs, useUid, uid0, v, 0); msgs == o.msgs && reports == o.reports
  {
    assert rs[|rs|..] == [] && reports + [] == reports;
  }

  /** The first `k` rows of the query are dealt with. */
  ghost predicate ExpungeState(m0: seq<Msg>, w: seq<nat>, m: seq<bool>, k: nat, msgs: seq<Msg>, nums: seq<nat>) {
    && k <= |w| == |m| && InRows(w, |m0|) && Distinct(w) && |nums| <= k
    && InRows(Chosen(w[..k], m[..k]), |m0|)
    && msgs == ExpungeRows(m0, Chosen(w[..k], m[..k]))
    && nums + Numbers(m[k..], k + 1, |nums|) == Reported(m)
    && (forall j | k <= j < |w| :: w[j] < |msgs| && msgs[w[j]] == m0[w[j]])
  }

  lemma ExpungeStart(m0: seq<Msg>, w: seq<nat>, m: seq<bool>)
    requires |w| == |m| && InRows(w, |m0|) && Distinct(w)
    ensures ExpungeState(m0, w, m, 0, m0, [])
  {
    assert w[..0] == [] && m[..0] == [] && m[0..] == m;
    assert [] + Numbers(m, 1, 0) == Numbers(m, 1, 0);
    assert ExpungeRows(m0, []) == m0;
  }

  lemma ExpungeStep(m0: seq<Msg>, w: seq<nat>, m: seq<bool>, uidSeqs: Option<seq<SeqRange>>, k: nat, msgs: seq<Msg>,
                    nums: seq<nat>)
    requires ExpungeState(m0, w, m, k, msgs, nums) && k < |w|
    requires (forall j | 0 <= j < |w| :: w[j] < |m0|) && m == ExpungeMask(m0, w, uidSeqs)
    ensures w[k] < |msgs| && m[k] == Goes(msgs[w[k]], uidSeqs) && |nums| <= k
    ensures if m[k]
      then ExpungeState(m0, w, m, k + 1, msgs[w[k] := msgs[w[k]].(state := Expunged)], nums + [k + 1 - |nums|])
      else ExpungeState(m0, w, m, k + 1, msgs, nums)
  {
    hide Chosen, ExpungeRows, Numbers, Goes, Reported;
    ChosenSnoc(w, m, k);
    ChosenInRows(w[..k + 1], m[..k + 1], |m0|);
    MemoryStore.ReportedFrom(m, k, |nums|);
    var rows := Chosen(w[..k], m[..k]);
    if m[k] {
      ExpungeMore(m0, rows, w[k]);
      Assoc(nums, [k + 1 - |nums|], Numbers(m[k + 1..], k + 2, |nums| + 1));
    } else {
      assert rows + [] == rows;
    }
  }

  lemma ChosenSnoc(w: seq<nat>, m: seq<bool>, k: nat)
    requires |m| == |w| && k < |w|
    ensures Chosen(w[..k + 1], m[..k + 1]) == Chosen(w[..k], m[..k]) + if m[k] then [w[k]] else []
  {
    assert w[..k + 1] == w[..k] + [w[k]] && m[..k + 1] == m[..k] + [m[k]];
    ChosenAppend(w[..k], [w[k]], m[..k], [m[k]]);
    assert Chosen([w[k]], [m[k]]) == if m[k] then [w[k]] else [];
  }

  lemma ExpungeMore(msgs: seq<Msg>, rows: seq<nat>, i: nat)
    requires InRows(rows, |msgs|) && i < |msgs|
    ensures InRows(rows + [i], |msgs|)
    ensures var r := ExpungeRows(msgs, rows);
      i !in rows ==> ExpungeRows(msgs, rows + [i]) == r[i := r[i].(state := Expunged)]
    ensures ExpungeRows(msgs, rows + [i])[i] == msgs[i].(state := Expunged)
    ensures forall j | 0 <= j < |msgs| && j != i :: ExpungeRows(msgs, rows + [i])[j] == ExpungeRows(msgs, rows)[j]
  {
  }

  lemma ExpungeEnd(m0: seq<Msg>, w: seq<nat>, m: seq<bool>, msgs: seq<Msg>, nums: seq<nat>)
    requires ExpungeState(m0, w, m, |w|, msgs, nums)
    ensures InRows(Chosen(w, m), |m0|) && msgs == ExpungeRows(m0, Chosen(w, m)) && nums == Reported(m)
  {
    assert w[..|w|] == w && m[..|w|] == m && m[|w|..] == [] && nums + [] == nums;
  }
}
