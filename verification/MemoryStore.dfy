/** The in-memory mailbox store (imap/imaptest/memory.go): messages numbered by
    place, removed one at a time from the list they are counted in. */
module MemoryStore {
  import opened Bytes
  import opened Wrappers
  import opened SeqSet
  import opened ListReplay

  /** What moves along with a message. */
  datatype Mail = Mail(flags: set<string>, body: seq<byte>)

  datatype Msg = Msg(seqNum: nat, uid: nat, modSeq: nat, mail: Mail)

  /** What a MOVE reports for one message. */
  datatype Report = Report(seqNum: nat, srcUid: nat, dstUid: nat)

  const DELETED := "\\Deleted"
  const SEEN := "\\Seen"
  const RECENT := "\\Recent"

  // ----------------------------------------------- what the operations do

  function Uids(l: seq<Msg>): (r: seq<nat>)
    ensures |r| == |l|
  {
    seq(|l|, k requires 0 <= k < |l| => l[k].uid)
  }

  function Mails(l: seq<Msg>): seq<Mail> {
    if l == [] then [] else [l[0].mail] + Mails(l[1..])
  }

  /** The messages with new numbers from `i` on. */
  function Numbered(l: seq<Msg>, i: nat): seq<Msg> {
    if l == [] then [] else [l[0].(seqNum := i)] + Numbered(l[1..], i + 1)
  }

  /** The messages as they join a mailbox: next UIDs, next numbers. */
  function Placed(l: seq<Msg>, uid: nat, i: nat): seq<Msg> {
    if l == [] then [] else [l[0].(uid := uid, seqNum := i)] + Placed(l[1..], uid + 1, i + 1)
  }

  predicate Goes(x: Msg, uidSeqs: Option<seq<SeqRange>>) {
    (uidSeqs.None? || SeqContains(uidSeqs.value, x.uid)) && DELETED in x.mail.flags
  }

  function ExpungeMask(l: seq<Msg>, uidSeqs: Option<seq<SeqRange>>): (m: seq<bool>)
    ensures |m| == |l|
  {
    seq(|l|, k requires 0 <= k < |l| => Goes(l[k], uidSeqs))
  }

  predicate Picks(x: Msg, useUid: bool, seqs: seq<SeqRange>, place: nat) {
    SeqContains(seqs, if useUid then x.uid else place)
  }

  function CopyMask(l: seq<Msg>, useUid: bool, seqs: seq<SeqRange>): (m: seq<bool>)
    ensures |m| == |l|
  {
    seq(|l|, k requires 0 <= k < |l| => Picks(l[k], useUid, seqs, k + 1))
  }

  /** Moving counts as it goes: the number a message is tested by is already
      lowered by the `gone` ones that moved before it. */
  function MoveMask(l: seq<Msg>, useUid: bool, seqs: seq<SeqRange>, i: nat, gone: nat): (m: seq<bool>)
    requires gone < i
    ensures |m| == |l|
    decreases |l|
  {
    if l == [] then []
    else
      var yes := Picks(l[0], useUid, seqs, i - gone);
      [yes] + MoveMask(l[1..], useUid, seqs, i + 1, if yes then gone + 1 else gone)
  }

  function MoveReports(l: seq<Msg>, m: seq<bool>, i: nat, gone: nat, uid: nat): seq<Report>
    requires |m| == |l| && gone < i
    decreases |l|
  {
    if l == [] then []
    else if m[0] then [Report(i - gone, l[0].uid, uid)] + MoveReports(l[1..], m[1..], i + 1, gone + 1, uid + 1)
    else MoveReports(l[1..], m[1..], i + 1, gone, uid)
  }

  // ---------------------------------------------------------- invariants

  ghost predicate InPlace(l: seq<Msg>) {
    forall k | 0 <= k < |l| :: l[k].seqNum == k + 1
  }

  ghost predicate Ascend(l: seq<Msg>, below: nat) {
    && (forall k | 0 <= k < |l| :: l[k].uid < below)
    && (forall j, k | 0 <= j < k < |l| :: l[j].uid < l[k].uid)
  }

  lemma {:induction false} NumberedPlaces(l: seq<Msg>, i: nat)
    ensures |Numbered(l, i)| == |l|
    ensures forall k | 0 <= k < |l| :: Numbered(l, i)[k] == l[k].(seqNum := i + k)
    decreases |l|
  {
    if l != [] {
      NumberedPlaces(l[1..], i + 1);
    }
  }

  lemma {:induction false} PlacedPlaces(l: seq<Msg>, uid: nat, i: nat)
    ensures |Placed(l, uid, i)| == |l|
    ensures forall k | 0 <= k < |l| :: Placed(l, uid, i)[k] == l[k].(uid := uid + k, seqNum := i + k)
    decreases |l|
  {
    if l != [] {
      PlacedPlaces(l[1..], uid + 1, i + 1);
    }
  }

  lemma {:induction false} KeptIn(l: seq<Msg>, m: seq<bool>)
    requires |m| == |l|
    ensures forall k | 0 <= k < |Kept(l, m)| :: Kept(l, m)[k] in l
    decreases |l|
  {
    if l != [] {
      KeptIn(l[1..], m[1..]);
    }
  }

  lemma AscendCons(x: Msg, rest: seq<Msg>, tail: seq<Msg>, below: nat)
    requires Ascend([x] + tail, below) && Ascend(rest, below)
    requires forall k | 0 <= k < |rest| :: rest[k] in tail
    ensures Ascend([x] + rest, below)
  {
    forall k | 0 <= k < |rest|
      ensures x.uid < rest[k].uid
    {
      var j :| 0 <= j < |tail| && tail[j] == rest[k];
      assert ([x] + tail)[0] == x && ([x] + tail)[j + 1] == rest[k];
    }
    var r := [x] + rest;
    assert ([x] + tail)[0].uid < below;
    forall j, k | 0 <= j < k < |r|
      ensures r[j].uid < r[k].uid
    {
      assert j > 0 ==> r[j] == rest[j - 1];
      assert r[k] == rest[k - 1];
    }
  }

  lemma {:induction false} KeptAscend(l: seq<Msg>, m: seq<bool>, below: nat)
    requires |m| == |l| && Ascend(l, below)
    ensures Ascend(Kept(l, m), below)
    decreases |l|
  {
    if l != [] {
      assert Ascend(l[1..], below);
      KeptAscend(l[1..], m[1..], below);
      if !m[0] {
        KeptIn(l[1..], m[1..]);
        assert l == [l[0]] + l[1..];
        AscendCons(l[0], Kept(l[1..], m[1..]), l[1..], below);
      }
    }
  }

  /** Dropping messages and renumbering keeps both orders. */
  lemma DropKeeps(l: seq<Msg>, m: seq<bool>, below: nat)
    requires |m| == |l| && Ascend(l, below)
    ensures var r := Numbered(Kept(l, m), 1); InPlace(r) && Ascend(r, below)
  {
    KeptAscend(l, m, below);
    NumberedPlaces(Kept(l, m), 1);
  }

  /** So does joining messages with the next UIDs and numbers. */
  lemma JoinKeeps(l: seq<Msg>, new_: seq<Msg>, uid: nat)
    requires InPlace(l) && Ascend(l, uid)
    ensures var r := l + Placed(new_, uid, |l| + 1); InPlace(r) && Ascend(r, uid + |new_|)
  {
    PlacedPlaces(new_, uid, |l| + 1);
  }

  lemma {:induction false} MailsAppend(a: seq<Msg>, b: seq<Msg>)
    ensures Mails(a + b) == Mails(a) + Mails(b)
    decreases |a|
  {
    if a == [] {
      assert a + b == b;
    } else {
      assert (a + b)[1..] == a[1..] + b;
      MailsAppend(a[1..], b);
    }
  }

  lemma {:induction false} MailsNumbered(l: seq<Msg>, i: nat)
    ensures Mails(Numbered(l, i)) == Mails(l)
    decreases |l|
  {
    if l != [] {
      MailsNumbered(l[1..], i + 1);
      assert Numbered(l, i)[1..] == Numbered(l[1..], i + 1);
    }
  }

  lemma {:induction false} MailsPlaced(l: seq<Msg>, uid: nat, i: nat)
    ensures Mails(Placed(l, uid, i)) == Mails(l)
    decreases |l|
  {
    if l != [] {
      MailsPlaced(l[1..], uid + 1, i + 1);
      assert Placed(l, uid, i)[1..] == Placed(l[1..], uid + 1, i + 1);
    }
  }

  lemma {:induction false} MailsChosen(l: seq<Msg>, m: seq<bool>)
    requires |m| == |l|
    ensures |Mails(l)| == |l| && Mails(Chosen(l, m)) == Chosen(Mails(l), m)
    ensures Mails(Kept(l, m)) == Kept(Mails(l), m)
    decreases |l|
  {
    if l != [] {
      MailsChosen(l[1..], m[1..]);
      assert Mails(l)[1..] == Mails(l[1..]);
      if m[0] {
        assert ([l[0]] + Chosen(l[1..], m[1..]))[1..] == Chosen(l[1..], m[1..]);
      } else {
        assert ([l[0]] + Kept(l[1..], m[1..]))[1..] == Kept(l[1..], m[1..]);
      }
    }
  }

  /** A MOVE loses and doubles nothing: both mailboxes together hold the same
      mails before and after. */
  lemma MoveConserves(src: seq<Msg>, dst: seq<Msg>, m: seq<bool>, uid: nat)
    requires |m| == |src|
    ensures multiset(Mails(Numbered(Kept(src, m), 1))) + multiset(Mails(dst + Placed(Chosen(src, m), uid, |dst| + 1)))
         == multiset(Mails(src)) + multiset(Mails(dst))
  {
    var stay, go := Kept(src, m), Chosen(src, m);
    MailsNumbered(stay, 1);
    MailsPlaced(go, uid, |dst| + 1);
    MailsAppend(dst, Placed(go, uid, |dst| + 1));
    MailsChosen(src, m);
    ChosenAndKept(Mails(src), m);
  }

  // ------------------------------------------------- what a MOVE selects

  /** By UID it selects exactly the messages whose UIDs are in the set, */
  lemma {:induction false} MoveMaskByUid(l: seq<Msg>, seqs: seq<SeqRange>, i: nat, gone: nat)
    requires gone < i
    ensures MoveMask(l, true, seqs, i, gone) == UidMask(Uids(l), seqs)
    decreases |l|
  {
    if l != [] {
      var g := if SeqContains(seqs, l[0].uid) then gone + 1 else gone;
      MoveMaskByUid(l[1..], seqs, i + 1, g);
      assert UidMask(Uids(l), seqs)[1..] == UidMask(Uids(l[1..]), seqs);
    }
  }

  /** How many messages from place `i` on come before the first one in the set. */
  function Leading(n: nat, seqs: seq<SeqRange>, i: nat): (f: nat)
    ensures f <= n
  {
    if n == 0 || SeqContains(seqs, i) then 0 else 1 + Leading(n - 1, seqs, i + 1)
  }

  lemma {:induction false} AllTheRest(l: seq<Msg>, seqs: seq<SeqRange>, i: nat, gone: nat)
    requires gone < i && SeqContains(seqs, i - gone)
    ensures MoveMask(l, false, seqs, i, gone) == Flat(|l|, true)
    decreases |l|
  {
    if l != [] {
      AllTheRest(l[1..], seqs, i + 1, gone + 1);
      assert Flat(|l|, true) == [true] + Flat(|l| - 1, true);
    }
  }

  /** By number it selects the first message in the set and, since each later
      one has slipped into that place, everything behind it. */
  lemma {:induction false} MoveMaskByNumber(l: seq<Msg>, seqs: seq<SeqRange>, i: nat)
    requires 0 < i
    ensures var f := Leading(|l|, seqs, i); MoveMask(l, false, seqs, i, 0) == Flat(f, false) + Flat(|l| - f, true)
    decreases |l|
  {
    if l == [] {
      assert Flat(0, false) + Flat(0, true) == [];
    } else if SeqContains(seqs, i) {
      AllTheRest(l, seqs, i, 0);
      assert Flat(0, false) + Flat(|l|, true) == Flat(|l|, true);
    } else {
      MoveMaskByNumber(l[1..], seqs, i + 1);
      var f := Leading(|l| - 1, seqs, i + 1);
      assert [false] + Flat(f, false) == Flat(f + 1, false);
      Assoc([false], Flat(f, false), Flat(|l| - 1 - f, true));
    }
  }

  /** The set is open towards the end of the list: behind the first message in
      it all are. */
  predicate OpenEnded(n: nat, seqs: seq<SeqRange>) {
    forall p | Leading(n, seqs, 1) < p <= n :: SeqContains(seqs, p)
  }

  lemma {:induction false} LeadingNot(n: nat, seqs: seq<SeqRange>, i: nat)
    ensures forall p | i <= p < i + Leading(n, seqs, i) :: !SeqContains(seqs, p)
    decreases n
  {
    if n != 0 && !SeqContains(seqs, i) {
      LeadingNot(n - 1, seqs, i + 1);
    }
  }

  /** By number a MOVE takes the messages the set names exactly when the set
      runs to the end of the mailbox or names nothing in it. */
  lemma MoveByNumberExact(l: seq<Msg>, seqs: seq<SeqRange>)
    ensures MoveMask(l, false, seqs, 1, 0) == CopyMask(l, false, seqs) <==> OpenEnded(|l|, seqs)
  {
    var m, c, f := MoveMask(l, false, seqs, 1, 0), CopyMask(l, false, seqs), Leading(|l|, seqs, 1);
    MoveMaskByNumber(l, seqs, 1);
    LeadingNot(|l|, seqs, 1);
    forall k | 0 <= k < |l|
      ensures m[k] == c[k] <==> (k >= f ==> SeqContains(seqs, k + 1))
    {
      assert c[k] == SeqContains(seqs, k + 1);
    }
    if OpenEnded(|l|, seqs) {
      assert m == c;
    } else {
      var p :| f < p <= |l| && !SeqContains(seqs, p);
      assert m[p - 1] != c[p - 1];
    }
  }

  /** Asked to move the first of two messages, it moves both. */
  lemma MoveByNumberCounterexample(a: Msg, b: Msg)
    ensures MoveMask([a, b], false, [SeqRange(1, 1)], 1, 0) == [true, true]
    ensures CopyMask([a, b], false, [SeqRange(1, 1)]) == [true, false]
  {
    assert SeqContains([SeqRange(1, 1)], 1) && !SeqContains([SeqRange(1, 1)], 2);
    AllTheRest([a, b], [SeqRange(1, 1)], 1, 0);
    assert Flat(2, true) == [true, true];
  }

  // --------------------------------------------------- steps of the loops

  lemma ReportedFrom(m: seq<bool>, k: nat, gone: nat)
    requires k < |m| && gone <= k
    ensures Numbers(m[k..], k + 1, gone) ==
      if m[k] then [k + 1 - gone] + Numbers(m[k + 1..], k + 2, gone + 1) else Numbers(m[k + 1..], k + 2, gone)
  {
    assert m[k..][1..] == m[k + 1..];
  }

  lemma KeptFrom(l: seq<Msg>, m: seq<bool>, k: nat, i: nat)
    requires k < |l| == |m|
    ensures Numbered(Kept(l[k..], m[k..]), i) ==
      if m[k] then Numbered(Kept(l[k + 1..], m[k + 1..]), i)
      else [l[k].(seqNum := i)] + Numbered(Kept(l[k + 1..], m[k + 1..]), i + 1)
  {
    assert l[k..][1..] == l[k + 1..] && m[k..][1..] == m[k + 1..];
    if !m[k] {
      var rest := Kept(l[k + 1..], m[k + 1..]);
      assert ([l[k]] + rest)[1..] == rest;
    }
  }

  lemma ChosenFrom(l: seq<Msg>, m: seq<bool>, k: nat, uid: nat, i: nat)
    requires k < |l| == |m|
    ensures Placed(Chosen(l[k..], m[k..]), uid, i) ==
      if m[k] then [l[k].(uid := uid, seqNum := i)] + Placed(Chosen(l[k + 1..], m[k + 1..]), uid + 1, i + 1)
      else Placed(Chosen(l[k + 1..], m[k + 1..]), uid, i)
  {
    assert l[k..][1..] == l[k + 1..] && m[k..][1..] == m[k + 1..];
    if m[k] {
      var rest := Chosen(l[k + 1..], m[k + 1..]);
      assert ([l[k]] + rest)[1..] == rest;
    }
  }

  lemma ReportsFrom(l: seq<Msg>, m: seq<bool>, k: nat, gone: nat, uid: nat)
    requires k < |l| == |m| && gone <= k
    ensures MoveReports(l[k..], m[k..], k + 1, gone, uid) ==
      if m[k] then [Report(k + 1 - gone, l[k].uid, uid)] + MoveReports(l[k + 1..], m[k + 1..], k + 2, gone + 1, uid + 1)
      else MoveReports(l[k + 1..], m[k + 1..], k + 2, gone, uid)
  {
    assert l[k..][1..] == l[k + 1..] && m[k..][1..] == m[k + 1..];
  }

  lemma MaskFrom(l: seq<Msg>, m: seq<bool>, useUid: bool, seqs: seq<SeqRange>, k: nat, gone: nat)
    requires k < |l| == |m| && gone <= k
    requires m[k..] == MoveMask(l[k..], useUid, seqs, k + 1, gone)
    ensures m[k] == Picks(l[k], useUid, seqs, k + 1 - gone)
    ensures m[k + 1..] == MoveMask(l[k + 1..], useUid, seqs, k + 2, if m[k] then gone + 1 else gone)
  {
    assert l[k..][1..] == l[k + 1..] && m[k..][1..] == m[k + 1..];
    assert m[k] == m[k..][0];
  }

  lemma CutOut(msgs: seq<Msg>, i: nat, l: seq<Msg>, k: nat)
    requires i < |msgs| && k < |l| && msgs[i..] == l[k..]
    ensures msgs[i] == l[k] && msgs[i + 1..] == l[k + 1..]
    ensures (msgs[..i] + msgs[i + 1..])[..i] == msgs[..i]
    ensures (msgs[..i] + msgs[i + 1..])[i..] == l[k + 1..]
  {
    assert msgs[i] == msgs[i..][0];
    assert msgs[i..][1..] == l[k..][1..];
  }

  // ------------------------------------------------------------- the store

  class User {
    var modSequenceNext: nat

    constructor (next: nat)
      ensures modSequenceNext == next
    {
      modSequenceNext := next;
    }
  }

  class Mailbox {
    const user: User
    var msgs: seq<Msg>
    var uidnext: nat

    ghost predicate Valid()
      reads this
    {
      InPlace(msgs) && Ascend(msgs, uidnext)
    }

    constructor (user: User)
      ensures this.user == user && Valid() && msgs == [] && uidnext == 1
    {
      this.user := user;
      msgs, uidnext := [], 1;
    }

    method Append(flags: set<string>, body: seq<byte>) returns (uid: nat)
      requires Valid()
      modifies this, user
      ensures Valid()
      ensures uid == old(uidnext) && uidnext == uid + 1
      ensures user.modSequenceNext == old(user.modSequenceNext) + 1
      ensures msgs == old(msgs) +
                      [Msg(old(|msgs|) + 1, uid, old(user.modSequenceNext), Mail(flags - {RECENT}, body))]
    {
      var modSeq := user.modSequenceNext;
      user.modSequenceNext := user.modSequenceNext + 1;
      uid := uidnext;
      uidnext := uidnext + 1;
      msgs := msgs + [Msg(|msgs| + 1, uid, modSeq, Mail(flags - {RECENT}, body))];
    }

    /** Removes in place, lowering the numbers as it goes. */
    method Expunge(uidSeqs: Option<seq<SeqRange>>) returns (nums: seq<nat>)
      requires Valid()
      modifies `msgs
      ensures Valid()
      ensures nums == Reported(ExpungeMask(old(msgs), uidSeqs))
      ensures msgs == Numbered(Kept(old(msgs), ExpungeMask(old(msgs), uidSeqs)), 1)
    {
      ghost var l, m := msgs, ExpungeMask(msgs, uidSeqs);
      nums := [];
      var i, delta := 0, 0;
      assert m[0..] == m && l[0..] == l;
      assert ExpungeState(l, m, i, delta, msgs, nums);
      hide Kept, Numbered, Numbers, SeqContains;
      while i < |msgs|
        invariant ExpungeState(l, m, i, delta, msgs, nums)
        decreases |msgs| - i
      {
        ghost var src := msgs;
        var msg := msgs[i].(seqNum := msgs[i].seqNum - delta);
        ExpungeStep(l, m, i, delta, src, nums, msg);
        msgs := msgs[i := msg];
        if uidSeqs.Some? && !SeqContains(uidSeqs.value, msg.uid) {
          i := i + 1;
          continue;
        }
        if DELETED in msg.mail.flags {
          msgs := msgs[..i] + msgs[i + 1..];
          nums := nums + [msg.seqNum];
          delta := delta + 1;
        } else {
          i := i + 1;
        }
      }
      ExpungeEnd(l, m, i, delta, msgs, nums);
      DropKeeps(l, m, uidnext);
    }

    /** Moves message by message to the end of `dst`; moving to itself is an
        error. */
    method Move(useUid: bool, seqs: seq<SeqRange>, dst: Mailbox) returns (ok: bool, reports: seq<Report>)
      requires Valid() && dst.Valid()
      modifies `msgs, dst`msgs, dst`uidnext
      ensures Valid() && dst.Valid()
      ensures ok == (dst != this)
      ensures !ok ==> reports == [] && msgs == old(msgs) && uidnext == old(uidnext)
      ensures ok ==>
        var l, m := old(msgs), MoveMask(old(msgs), useUid, seqs, 1, 0);
        && uidnext == old(uidnext)
        && msgs == Numbered(Kept(l, m), 1)
        && dst.msgs == old(dst.msgs) + Placed(Chosen(l, m), old(dst.uidnext), old(|dst.msgs|) + 1)
        && dst.uidnext == old(dst.uidnext) + |Chosen(l, m)|
        && reports == MoveReports(l, m, 1, 0, old(dst.uidnext))
    {
      if dst == this {
        return false, [];
      }
      ok := true;
      ghost var m := MoveMask(msgs, useUid, seqs, 1, 0);
      DropKeeps(msgs, m, uidnext);
      JoinKeeps(dst.msgs, Chosen(msgs, m), dst.uidnext);
      reports := MoveAll(useUid, seqs, dst);
    }

    method MoveAll(useUid: bool, seqs: seq<SeqRange>, dst: Mailbox) returns (reports: seq<Report>)
      requires dst != this && InPlace(msgs)
      modifies `msgs, dst`msgs, dst`uidnext
      ensures var l, m := old(msgs), MoveMask(old(msgs), useUid, seqs, 1, 0);
        && msgs == Numbered(Kept(l, m), 1)
        && dst.msgs == old(dst.msgs) + Placed(Chosen(l, m), old(dst.uidnext), old(|dst.msgs|) + 1)
        && dst.uidnext == old(dst.uidnext) + |Chosen(l, m)|
        && reports == MoveReports(l, m, 1, 0, old(dst.uidnext))
    {
      ghost var l, dl, du := msgs, dst.msgs, dst.uidnext;
      reports := [];
      var i: nat, seqDelta: nat := 0, 0;
      MoveStart(l, useUid, seqs, dl, du);
      hide MoveState;
      while i < |msgs|
        invariant i <= |msgs|
        invariant MoveState(l, useUid, seqs, i, seqDelta, msgs, dst.msgs, dst.uidnext, reports, dl, du)
        decreases |msgs| - i
      {
        i, seqDelta, reports := MoveOne(i, seqDelta, useUid, seqs, dst, reports, l, dl, du);
      }
      MoveEnd(l, useUid, seqs, i, seqDelta, msgs, dst.msgs, dst.uidnext, reports, dl, du);
    }

    /** One round of a MOVE: renumbers message `i` and moves it if selected. */
    method MoveOne(i: nat, seqDelta: nat, useUid: bool, seqs: seq<SeqRange>, dst: Mailbox, reports: seq<Report>,
                   ghost l: seq<Msg>, ghost dl: seq<Msg>, ghost du: nat)
      returns (i': nat, seqDelta': nat, reports': seq<Report>)
      requires dst != this && i < |msgs| && InPlace(l)
      requires MoveState(l, useUid, seqs, i, seqDelta, msgs, dst.msgs, dst.uidnext, reports, dl, du)
      modifies `msgs, dst`msgs, dst`uidnext
      ensures MoveState(l, useUid, seqs, i', seqDelta', msgs, dst.msgs, dst.uidnext, reports', dl, du)
      ensures i' <= |msgs| && |msgs| - i' < old(|msgs|) - i
    {
      hide MoveState, SeqContains;
      i', seqDelta', reports' := i, seqDelta, reports;
      MoveStep(l, useUid, seqs, i, seqDelta, msgs, dst.msgs, dst.uidnext, reports, dl, du);
      var msg := msgs[i].(seqNum := msgs[i].seqNum - seqDelta);
      msgs := msgs[i := msg];
      if !SeqContains(seqs, if useUid then msg.uid else msg.seqNum) {
        i' := i + 1;
        return;
      }
      seqDelta' := seqDelta + 1;
      msgs := msgs[..i] + msgs[i + 1..];
      var uid := dst.uidnext;
      dst.uidnext := dst.uidnext + 1;
      reports' := reports + [Report(msg.seqNum, msg.uid, uid)];
      dst.msgs := dst.msgs + [msg.(uid := uid, seqNum := |dst.msgs| + 1)];
    }

    /** Copies to the end of `dst`, mod-sequence and all; copying to itself is
        an error. */
    method Copy(useUid: bool, seqs: seq<SeqRange>, dst: Mailbox) returns (ok: bool, pairs: seq<(nat, nat)>)
      requires Valid() && dst.Valid()
      modifies dst`msgs, dst`uidnext
      ensures Valid() && dst.Valid()
      ensures ok == (dst != this)
      ensures !ok ==> pairs == [] && msgs == old(msgs) && uidnext == old(uidnext)
      ensures ok ==>
        var go := Chosen(msgs, CopyMask(msgs, useUid, seqs));
        && msgs == old(msgs) && uidnext == old(uidnext)
        && dst.msgs == old(dst.msgs) + Placed(go, old(dst.uidnext), old(|dst.msgs|) + 1)
        && dst.uidnext == old(dst.uidnext) + |go|
        && |pairs| == |go|
        && forall k | 0 <= k < |go| :: pairs[k] == (go[k].uid, old(dst.uidnext) + k)
    {
      if dst == this {
        return false, [];
      }
      ok := true;
      JoinKeeps(dst.msgs, Chosen(msgs, CopyMask(msgs, useUid, seqs)), dst.uidnext);
      hide Chosen, Placed, CopyMask, InPlace, Ascend;
      pairs := CopyAll(useUid, seqs, dst);
    }

    method CopyAll(useUid: bool, seqs: seq<SeqRange>, dst: Mailbox) returns (pairs: seq<(nat, nat)>)
      requires dst != this && InPlace(msgs)
      modifies dst`msgs, dst`uidnext
      ensures var go := Chosen(msgs, CopyMask(msgs, useUid, seqs));
        && dst.msgs == old(dst.msgs) + Placed(go, old(dst.uidnext), old(|dst.msgs|) + 1)
        && dst.uidnext == old(dst.uidnext) + |go|
        && |pairs| == |go|
        && forall k | 0 <= k < |go| :: pairs[k] == (go[k].uid, old(dst.uidnext) + k)
    {
      hide *;
      pairs := [];
      ghost var l, m := msgs, CopyMask(msgs, useUid, seqs);
      ghost var dl, du := dst.msgs, dst.uidnext;
      CopyBegin(l, m, dl, du);
      var i := 0;
      while i < |msgs|
        invariant i <= |msgs|
        invariant CopyState(l, m, i, dst.msgs, dst.uidnext, pairs, dl, du)
      {
        CopyStep(l, m, i, dst.msgs, dst.uidnext, pairs, dl, du);
        PickedHere(l, useUid, seqs, i);
        var msg := msgs[i];
        var id := if useUid then msg.uid else msg.seqNum;
        if SeqContains(seqs, id) {
          var uid := dst.uidnext;
          dst.uidnext := dst.uidnext + 1;
          pairs := pairs + [(msg.uid, uid)];
          dst.msgs := dst.msgs + [msg.(uid := uid, seqNum := |dst.msgs| + 1)];
        }
        i := i + 1;
      }
      CopyEnd(l, m, dst.msgs, dst.uidnext, pairs, dl, du);
    }

    /** Marks one message seen, once. */
    method SetSeen(k: nat) returns (ok: bool)
      requires Valid() && k < |msgs|
      modifies `msgs
      ensures Valid()
      ensures ok == (SEEN !in old(msgs)[k].mail.flags)
      ensures var x := old(msgs)[k]; msgs == old(msgs)[k := x.(mail := x.mail.(flags := x.mail.flags + {SEEN}))]
    {
      var x := msgs[k];
      if SEEN in x.mail.flags {
        assert x.mail.flags + {SEEN} == x.mail.flags;
        return false;
      }
      msgs := msgs[k := x.(mail := x.mail.(flags := x.mail.flags + {SEEN}))];
      ok := true;
    }
  }

  /** What is done so far and what is still to do make up the whole EXPUNGE. */
  ghost predicate ExpungeState(l: seq<Msg>, m: seq<bool>, i: nat, delta: nat, src: seq<Msg>, nums: seq<nat>) {
    var k := i + delta;
    && i <= |src| && k <= |l| == |m| && src[i..] == l[k..]
    && nums + Numbers(m[k..], k + 1, delta) == Reported(m)
    && src[..i] + Numbered(Kept(l[k..], m[k..]), i + 1) == Numbered(Kept(l, m), 1)
  }

  lemma ExpungeStep(l: seq<Msg>, m: seq<bool>, i: nat, delta: nat, src: seq<Msg>, nums: seq<nat>, msg: Msg)
    requires ExpungeState(l, m, i, delta, src, nums) && InPlace(l)
    requires i < |src| && msg == src[i].(seqNum := src[i].seqNum - delta)
    ensures i + delta < |m| && src[i] == l[i + delta]
    ensures
      if m[i + delta] then
        ExpungeState(l, m, i, delta + 1, src[i := msg][..i] + src[i := msg][i + 1..], nums + [msg.seqNum])
      else ExpungeState(l, m, i + 1, delta, src[i := msg], nums)
  {
    var k := i + delta;
    CutOut(src, i, l, k);
    KeptFrom(l, m, k, i + 1);
    ReportedFrom(m, k, delta);
    var new_ := src[i := msg];
    assert new_[..i] == src[..i] && new_[i + 1..] == src[i + 1..];
    if m[k] {
      CutOut(src, i, l, k);
      Assoc(nums, [msg.seqNum], Numbers(m[k + 1..], k + 2, delta + 1));
    } else {
      assert new_[..i + 1] == src[..i] + [msg];
      Assoc(src[..i], [msg], Numbered(Kept(l[k + 1..], m[k + 1..]), i + 2));
    }
  }

  lemma ExpungeEnd(l: seq<Msg>, m: seq<bool>, i: nat, delta: nat, src: seq<Msg>, nums: seq<nat>)
    requires ExpungeState(l, m, i, delta, src, nums) && i == |src|
    ensures nums == Reported(m) && src == Numbered(Kept(l, m), 1)
  {
    assert |src[i..]| == 0;
    assert l[i + delta..] == [] && m[i + delta..] == [];
    assert src[..i] + [] == src && nums + [] == nums;
  }

  /** The same of a MOVE: what stays, */
  ghost predicate StayState(l: seq<Msg>, m: seq<bool>, i: nat, gone: nat, src: seq<Msg>) {
    var k := i + gone;
    && i <= |src| && k <= |l| == |m| && src[i..] == l[k..]
    && src[..i] + Numbered(Kept(l[k..], m[k..]), i + 1) == Numbered(Kept(l, m), 1)
  }

  /** and what goes. */
  ghost predicate GoState(l: seq<Msg>, m: seq<bool>, k: nat, gone: nat, dst: seq<Msg>, uid: nat,
                          reports: seq<Report>, dl: seq<Msg>, du: nat)
  {
    && gone <= k <= |l| == |m|
    && dst + Placed(Chosen(l[k..], m[k..]), uid, |dst| + 1) == dl + Placed(Chosen(l, m), du, |dl| + 1)
    && uid + |Chosen(l[k..], m[k..])| == du + |Chosen(l, m)|
    && reports + MoveReports(l[k..], m[k..], k + 1, gone, uid) == MoveReports(l, m, 1, 0, du)
  }

  ghost predicate MoveState(l: seq<Msg>, useUid: bool, seqs: seq<SeqRange>, i: nat, gone: nat,
                            src: seq<Msg>, dst: seq<Msg>, uid: nat, reports: seq<Report>, dl: seq<Msg>, du: nat)
  {
    var m := MoveMask(l, useUid, seqs, 1, 0);
    && StayState(l, m, i, gone, src)
    && GoState(l, m, i + gone, gone, dst, uid, reports, dl, du)
    && m[i + gone..] == MoveMask(l[i + gone..], useUid, seqs, i + gone + 1, gone)
  }

  lemma StayStep(l: seq<Msg>, m: seq<bool>, i: nat, gone: nat, src: seq<Msg>, msg: Msg)
    requires StayState(l, m, i, gone, src) && InPlace(l)
    requires i < |src| && msg == src[i].(seqNum := src[i].seqNum - gone)
    ensures i + gone < |m| && src[i] == l[i + gone]
    ensures
      if m[i + gone] then StayState(l, m, i, gone + 1, src[i := msg][..i] + src[i := msg][i + 1..])
      else StayState(l, m, i + 1, gone, src[i := msg])
  {
    var k := i + gone;
    CutOut(src, i, l, k);
    KeptFrom(l, m, k, i + 1);
    var new_ := src[i := msg];
    assert new_[..i] == src[..i] && new_[i + 1..] == src[i + 1..];
    if !m[k] {
      assert new_[..i + 1] == src[..i] + [msg];
      Assoc(src[..i], [msg], Numbered(Kept(l[k + 1..], m[k + 1..]), i + 2));
    }
  }

  lemma GoStep(l: seq<Msg>, m: seq<bool>, k: nat, gone: nat, dst: seq<Msg>, uid: nat,
               reports: seq<Report>, dl: seq<Msg>, du: nat, x: Msg)
    requires GoState(l, m, k, gone, dst, uid, reports, dl, du) && k < |l|
    requires x == l[k].(seqNum := k + 1 - gone)
    ensures
      if m[k] then
        GoState(l, m, k + 1, gone + 1, dst + [x.(uid := uid, seqNum := |dst| + 1)], uid + 1,
                reports + [Report(x.seqNum, x.uid, uid)], dl, du)
      else GoState(l, m, k + 1, gone, dst, uid, reports, dl, du)
  {
    ChosenFrom(l, m, k, uid, |dst| + 1);
    ReportsFrom(l, m, k, gone, uid);
    assert l[k..][1..] == l[k + 1..] && m[k..][1..] == m[k + 1..];
    if m[k] {
      Assoc(dst, [x.(uid := uid, seqNum := |dst| + 1)], Placed(Chosen(l[k + 1..], m[k + 1..]), uid + 1, |dst| + 2));
      Assoc(reports, [Report(x.seqNum, x.uid, uid)], MoveReports(l[k + 1..], m[k + 1..], k + 2, gone + 1, uid + 1));
    }
  }

  lemma MoveStart(l: seq<Msg>, useUid: bool, seqs: seq<SeqRange>, dl: seq<Msg>, du: nat)
    ensures MoveState(l, useUid, seqs, 0, 0, l, dl, du, [], dl, du)
  {
    var m := MoveMask(l, useUid, seqs, 1, 0);
    assert m[0..] == m && l[0..] == l;
  }

  lemma MoveStep(l: seq<Msg>, useUid: bool, seqs: seq<SeqRange>, i: nat, gone: nat,
                 src: seq<Msg>, dst: seq<Msg>, uid: nat, reports: seq<Report>, dl: seq<Msg>, du: nat)
    requires MoveState(l, useUid, seqs, i, gone, src, dst, uid, reports, dl, du) && InPlace(l)
    requires i < |src|
    ensures src[i].seqNum == i + gone + 1
    ensures var x := src[i].(seqNum := src[i].seqNum - gone);
      if SeqContains(seqs, if useUid then x.uid else x.seqNum) then
        MoveState(l, useUid, seqs, i, gone + 1, src[i := x][..i] + src[i := x][i + 1..],
                  dst + [x.(uid := uid, seqNum := |dst| + 1)], uid + 1,
                  reports + [Report(x.seqNum, x.uid, uid)], dl, du)
      else MoveState(l, useUid, seqs, i + 1, gone, src[i := x], dst, uid, reports, dl, du)
  {
    CutOut(src, i, l, i + gone);
    var m, x := MoveMask(l, useUid, seqs, 1, 0), src[i].(seqNum := src[i].seqNum - gone);
    StayStep(l, m, i, gone, src, x);
    MaskFrom(l, m, useUid, seqs, i + gone, gone);
    GoStep(l, m, i + gone, gone, dst, uid, reports, dl, du, x);
  }

  lemma MoveEnd(l: seq<Msg>, useUid: bool, seqs: seq<SeqRange>, i: nat, gone: nat,
                src: seq<Msg>, dst: seq<Msg>, uid: nat, reports: seq<Report>, dl: seq<Msg>, du: nat)
    requires MoveState(l, useUid, seqs, i, gone, src, dst, uid, reports, dl, du)
    requires i == |src|
    ensures var m := MoveMask(l, useUid, seqs, 1, 0);
      && src == Numbered(Kept(l, m), 1)
      && dst == dl + Placed(Chosen(l, m), du, |dl| + 1)
      && uid == du + |Chosen(l, m)|
      && reports == MoveReports(l, m, 1, 0, du)
  {
    var m := MoveMask(l, useUid, seqs, 1, 0);
    assert |src[i..]| == 0;
    assert l[i + gone..] == [] && m[i + gone..] == [];
    assert src[..i] + [] == src && dst + [] == dst && reports + [] == reports;
  }

  ghost predicate CopyState(l: seq<Msg>, m: seq<bool>, i: nat, dst: seq<Msg>, uid: nat, pairs: seq<(nat, nat)>,
                            dl: seq<Msg>, du: nat)
  {
    && i <= |l| == |m|
    && dst + Placed(Chosen(l[i..], m[i..]), uid, |dst| + 1) == dl + Placed(Chosen(l, m), du, |dl| + 1)
    && uid == du + |pairs|
    && PairsOf(pairs, du) + Chosen(Uids(l)[i..], m[i..]) == Chosen(Uids(l), m)
    && (forall k | 0 <= k < |pairs| :: pairs[k].1 == du + k)
  }

  function PairsOf(pairs: seq<(nat, nat)>, du: nat): (r: seq<nat>)
    ensures |r| == |pairs|
  {
    seq(|pairs|, k requires 0 <= k < |pairs| => pairs[k].0)
  }

  lemma CopyStep(l: seq<Msg>, m: seq<bool>, i: nat, dst: seq<Msg>, uid: nat, pairs: seq<(nat, nat)>,
                 dl: seq<Msg>, du: nat)
    requires CopyState(l, m, i, dst, uid, pairs, dl, du) && i < |l|
    ensures
      if m[i] then
        CopyState(l, m, i + 1, dst + [l[i].(uid := uid, seqNum := |dst| + 1)], uid + 1, pairs + [(l[i].uid, uid)], dl, du)
      else CopyState(l, m, i + 1, dst, uid, pairs, dl, du)
  {
    ChosenFrom(l, m, i, uid, |dst| + 1);
    var u := Uids(l);
    assert u[i..][1..] == u[i + 1..] && m[i..][1..] == m[i + 1..];
    if m[i] {
      Assoc(dst, [l[i].(uid := uid, seqNum := |dst| + 1)], Placed(Chosen(l[i + 1..], m[i + 1..]), uid + 1, |dst| + 2));
      assert PairsOf(pairs + [(l[i].uid, uid)], du) == PairsOf(pairs, du) + [u[i]];
      Assoc(PairsOf(pairs, du), [u[i]], Chosen(u[i + 1..], m[i + 1..]));
    }
  }

  lemma {:induction false} UidsChosen(l: seq<Msg>, m: seq<bool>)
    requires |m| == |l|
    ensures Chosen(Uids(l), m) == Uids(Chosen(l, m))
    decreases |l|
  {
    if l != [] {
      UidsChosen(l[1..], m[1..]);
      assert Uids(l)[1..] == Uids(l[1..]);
      if m[0] {
        assert Uids([l[0]] + Chosen(l[1..], m[1..])) == [l[0].uid] + Uids(Chosen(l[1..], m[1..]));
      }
    }
  }

  lemma CopyBegin(l: seq<Msg>, m: seq<bool>, dl: seq<Msg>, du: nat)
    requires |m| == |l|
    ensures CopyState(l, m, 0, dl, du, [], dl, du)
  {
    hide Chosen, Placed;
    assert m[0..] == m && l[0..] == l && Uids(l)[0..] == Uids(l);
    assert [] + Chosen(Uids(l), m) == Chosen(Uids(l), m);
  }

  lemma PickedHere(l: seq<Msg>, useUid: bool, seqs: seq<SeqRange>, i: nat)
    requires InPlace(l) && i < |l|
    ensures CopyMask(l, useUid, seqs)[i] == SeqContains(seqs, if useUid then l[i].uid else l[i].seqNum)
  {
    hide SeqContains;
  }

  lemma CopyEnd(l: seq<Msg>, m: seq<bool>, dst: seq<Msg>, uid: nat, pairs: seq<(nat, nat)>, dl: seq<Msg>, du: nat)
    requires CopyState(l, m, |l|, dst, uid, pairs, dl, du)
    ensures var go := Chosen(l, m);
      && dst == dl + Placed(go, du, |dl| + 1)
      && uid == du + |go| && |pairs| == |go|
      && forall k | 0 <= k < |go| :: pairs[k] == (go[k].uid, du + k)
  {
    assert l[|l|..] == [] && m[|l|..] == [] && Uids(l)[|l|..] == [];
    UidsChosen(l, m);
    assert PairsOf(pairs, du) == Uids(Chosen(l, m));
    forall k | 0 <= k < |pairs|
      ensures pairs[k] == (Chosen(l, m)[k].uid, du + k)
    {
      assert PairsOf(pairs, du)[k] == Uids(Chosen(l, m))[k];
    }
  }

  // ---------------------------------------------------------- what it means

  /** The numbers in the MOVE reports are those of one pass over the list. */
  lemma {:induction false} ReportNumbers(l: seq<Msg>, m: seq<bool>, i: nat, gone: nat, uid: nat)
    requires |m| == |l| && gone < i
    ensures SeqNums(MoveReports(l, m, i, gone, uid)) == Numbers(m, i, gone)
    decreases |l|
  {
    if l != [] {
      ReportNumbers(l[1..], m[1..], i + 1, if m[0] then gone + 1 else gone, if m[0] then uid + 1 else uid);
      if m[0] {
        var more := MoveReports(l[1..], m[1..], i + 1, gone + 1, uid + 1);
        assert SeqNums([Report(i - gone, l[0].uid, uid)] + more) == [i - gone] + SeqNums(more);
      }
    }
  }

  function SeqNums(rs: seq<Report>): (r: seq<nat>)
    ensures |r| == |rs|
  {
    seq(|rs|, k requires 0 <= k < |rs| => rs[k].seqNum)
  }

  /** A client that replays the reported numbers ends up with the UIDs that
      are left, after an EXPUNGE, */
  lemma ExpungeReplay(l: seq<Msg>, uidSeqs: Option<seq<SeqRange>>)
    ensures var m := ExpungeMask(l, uidSeqs);
      Replays(Uids(l), Reported(m), Uids(Numbered(Kept(l, m), 1)))
  {
    var m := ExpungeMask(l, uidSeqs);
    ReportedReplay(Uids(l), m);
    UidsKept(l, m);
  }

  lemma {:induction false} UidsKept(l: seq<Msg>, m: seq<bool>)
    requires |m| == |l|
    ensures Kept(Uids(l), m) == Uids(Numbered(Kept(l, m), 1))
    decreases |l|
  {
    NumberedPlaces(Kept(l, m), 1);
    if l != [] {
      UidsKept(l[1..], m[1..]);
      NumberedPlaces(Kept(l[1..], m[1..]), 1);
      assert Uids(l)[1..] == Uids(l[1..]);
    }
  }

  /** and after a MOVE, whatever it selected. */
  lemma MoveReplay(l: seq<Msg>, useUid: bool, seqs: seq<SeqRange>, uid: nat)
    ensures var m := MoveMask(l, useUid, seqs, 1, 0);
      Replays(Uids(l), SeqNums(MoveReports(l, m, 1, 0, uid)), Uids(Numbered(Kept(l, m), 1)))
  {
    var m := MoveMask(l, useUid, seqs, 1, 0);
    ReportedReplay(Uids(l), m);
    UidsKept(l, m);
    ReportNumbers(l, m, 1, 0, uid);
  }
}
