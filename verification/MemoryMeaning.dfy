/** What each operation of the in-memory store means for the messages
    (imap/imaptest/memory.go), told by their UIDs and flags. */
module MemoryMeaning {
  import opened Bytes
  import opened Wrappers
  import opened SeqSet
  import opened ListReplay
  import opened MemoryStore
  import opened MemoryRuns

  /** The mailbox has this mail under that UID. */
  ghost predicate Has(b: Box, uid: nat, m: Mail) {
    exists i :: 0 <= i < |b.msgs| && b.msgs[i].uid == uid && b.msgs[i].mail == m
  }

  lemma {:induction false} KeptHas(l: seq<Msg>, m: seq<bool>, x: Msg)
    requires |m| == |l|
    ensures x in Kept(l, m) <==> exists i :: 0 <= i < |l| && l[i] == x && !m[i]
    decreases |l|
  {
    if l != [] {
      var t, n := l[1..], m[1..];
      KeptHas(t, n, x);
      if x in Kept(l, m) && !(l[0] == x && !m[0]) {
        var i :| 0 <= i < |t| && t[i] == x && !n[i];
        assert l[i + 1] == x && !m[i + 1];
      }
      if i :| 0 <= i < |l| && l[i] == x && !m[i] {
        if i > 0 {
          assert t[i - 1] == x && !n[i - 1];
        }
      }
    }
  }

  /** What is left of a mailbox, by UID. */
  lemma DroppedHas(b: Box, m: seq<bool>, uid: nat, mail: Mail)
    requires |m| == |b.msgs|
    ensures Has(Dropped(b, m), uid, mail)
       <==> exists i :: 0 <= i < |b.msgs| && b.msgs[i].uid == uid && b.msgs[i].mail == mail && !m[i]
  {
    var l := Kept(b.msgs, m);
    NumberedPlaces(l, 1);
    var c := Dropped(b, m);
    hide Kept, Numbered;
    if Has(c, uid, mail) {
      var j :| 0 <= j < |c.msgs| && c.msgs[j].uid == uid && c.msgs[j].mail == mail;
      KeptHas(b.msgs, m, l[j]);
    }
    if i :| 0 <= i < |b.msgs| && b.msgs[i].uid == uid && b.msgs[i].mail == mail && !m[i] {
      KeptHas(b.msgs, m, b.msgs[i]);
      var j :| 0 <= j < |l| && l[j] == b.msgs[i];
      assert c.msgs[j].uid == uid && c.msgs[j].mail == mail;
    }
  }

  /** The first message of a mailbox gets the UID 1, and each the one behind the
      last; its flags are those given, but never \Recent. Nothing else changes. */
  lemma AppendMeans(s: Store, k: nat, flags: set<string>, body: seq<byte>)
    requires k < |s.boxes|
    ensures var t := Step(s, Append(k, flags, body));
      var b, c := s.boxes[k], t.boxes[k];
      && |c.msgs| == |b.msgs| + 1 && c.msgs[..|b.msgs|] == b.msgs
      && var x := c.msgs[|b.msgs|];
      && x.uid == b.uidnext && c.uidnext == b.uidnext + 1 && x.seqNum == |c.msgs| && x.modSeq == s.modSeq < t.modSeq
      && x.mail.body == body
      && (forall f :: f in x.mail.flags <==> f in flags && f != "\\Recent")
      && (forall j | 0 <= j < |s.boxes| && j != k :: t.boxes[j] == s.boxes[j])
    ensures forall n, modSeq, j | 0 <= j < n :: Start(n, modSeq).boxes[j] == Box([], 1)
  {
  }

  /** EXPUNGE takes a message away if and only if it is flagged \Deleted and, if
      UIDs are given, has one of them. */
  lemma ExpungeMeans(s: Store, k: nat, uidSeqs: Option<seq<SeqRange>>, uid: nat, m: Mail)
    requires k < |s.boxes|
    ensures var t := Step(s, Expunge(k, uidSeqs));
      && (Has(t.boxes[k], uid, m)
          <==> Has(s.boxes[k], uid, m)
               && !("\\Deleted" in m.flags && (uidSeqs.Some? ==> SeqContains(uidSeqs.value, uid))))
      && (forall j | 0 <= j < |s.boxes| && j != k :: t.boxes[j] == s.boxes[j])
  {
    var b := s.boxes[k];
    DroppedHas(b, ExpungeMask(b.msgs, uidSeqs), uid, m);
    hide Dropped;
  }

  /** The mails of the messages of a set, in order. */
  function InSet(l: seq<Msg>, useUid: bool, seqs: seq<SeqRange>, place: nat): seq<Mail>
    decreases |l|
  {
    if l == [] then []
    else (if SeqContains(seqs, if useUid then l[0].uid else place) then [l[0].mail] else [])
         + InSet(l[1..], useUid, seqs, place + 1)
  }

  lemma {:induction false} CopyTakes(l: seq<Msg>, useUid: bool, seqs: seq<SeqRange>, place: nat, m: seq<bool>)
    requires |m| == |l| && forall j | 0 <= j < |l| :: m[j] == Picks(l[j], useUid, seqs, place + j)
    ensures Mails(Chosen(l, m)) == InSet(l, useUid, seqs, place)
    decreases |l|
  {
    if l != [] {
      CopyTakes(l[1..], useUid, seqs, place + 1, m[1..]);
      assert ([l[0]] + Chosen(l[1..], m[1..]))[1..] == Chosen(l[1..], m[1..]);
    }
  }

  /** What joins a mailbox has the same mail, in order, under the next UIDs. */
  lemma JoinedMeans(b: Box, new_: seq<Msg>)
    ensures var c := Joined(b, new_);
      && |c.msgs| == |b.msgs| + |new_| && c.msgs[..|b.msgs|] == b.msgs && c.uidnext == b.uidnext + |new_|
      && Mails(c.msgs[|b.msgs|..]) == Mails(new_)
      && (forall j | |b.msgs| <= j < |c.msgs| :: c.msgs[j].uid == b.uidnext + (j - |b.msgs|))
  {
    var ps := Placed(new_, b.uidnext, |b.msgs| + 1);
    PlacedPlaces(new_, b.uidnext, |b.msgs| + 1);
    MailsPlaced(new_, b.uidnext, |b.msgs| + 1);
    hide Placed, Mails;
    assert (b.msgs + ps)[|b.msgs|..] == ps && (b.msgs + ps)[..|b.msgs|] == b.msgs;
  }

  /** COPY to another mailbox: copies of the messages of the set, flags and body
      alike, come behind what was there, and nothing else changes. */
  lemma CopyMeans(s: Store, k: nat, useUid: bool, seqs: seq<SeqRange>, d: nat)
    requires k < |s.boxes| && d < |s.boxes| && k != d
    ensures var t := Step(s, Copy(k, useUid, seqs, d));
      var n := |s.boxes[d].msgs|;
      && n <= |t.boxes[d].msgs| && t.boxes[d].msgs[..n] == s.boxes[d].msgs
      && Mails(t.boxes[d].msgs[n..]) == InSet(s.boxes[k].msgs, useUid, seqs, 1)
      && (forall j | n <= j < |t.boxes[d].msgs| :: t.boxes[d].msgs[j].uid == s.boxes[d].uidnext + (j - n))
      && (forall j | 0 <= j < |s.boxes| && j != d :: t.boxes[j] == s.boxes[j])
  {
    var b := s.boxes[k];
    var m := CopyMask(b.msgs, useUid, seqs);
    CopyTakes(b.msgs, useUid, seqs, 1, m);
    JoinedMeans(s.boxes[d], Chosen(b.msgs, m));
    hide Chosen, Mails, InSet, Joined, Picks;
  }

  lemma {:induction false} UidTakes(l: seq<Msg>, seqs: seq<SeqRange>, place: nat, m: seq<bool>)
    requires m == UidMask(Uids(l), seqs)
    ensures Mails(Chosen(l, m)) == InSet(l, true, seqs, place)
    decreases |l|
  {
    assert forall j | 0 <= j < |l| :: m[j] == Picks(l[j], true, seqs, place + j);
    CopyTakes(l, true, seqs, place, m);
  }

  /** MOVE by UIDs to another mailbox: the messages of the set go there in the same
      way, and leave; all others stay. */
  lemma MoveMeans(s: Store, k: nat, seqs: seq<SeqRange>, d: nat, uid: nat, mail: Mail)
    requires k < |s.boxes| && d < |s.boxes| && k != d
    ensures var t := Step(s, Move(k, true, seqs, d));
      var n := |s.boxes[d].msgs|;
      && n <= |t.boxes[d].msgs| && t.boxes[d].msgs[..n] == s.boxes[d].msgs
      && Mails(t.boxes[d].msgs[n..]) == InSet(s.boxes[k].msgs, true, seqs, 1)
      && (forall j | n <= j < |t.boxes[d].msgs| :: t.boxes[d].msgs[j].uid == s.boxes[d].uidnext + (j - n))
      && (Has(t.boxes[k], uid, mail) <==> Has(s.boxes[k], uid, mail) && !SeqContains(seqs, uid))
      && (forall j | 0 <= j < |s.boxes| && j != d && j != k :: t.boxes[j] == s.boxes[j])
  {
    var b := s.boxes[k];
    var m := MoveMask(b.msgs, true, seqs, 1, 0);
    MoveMaskByUid(b.msgs, seqs, 1, 0);
    UidTakes(b.msgs, seqs, 1, m);
    JoinedMeans(s.boxes[d], Chosen(b.msgs, m));
    DroppedHas(b, m, uid, mail);
    assert forall i | 0 <= i < |b.msgs| :: m[i] == SeqContains(seqs, b.msgs[i].uid);
    hide Chosen, Mails, InSet, Joined, Dropped, MoveMask, Picks;
  }

  /** Reading a body sets \Seen on that message, and changes nothing else. */
  lemma SeenMeans(s: Store, k: nat, i: nat)
    requires k < |s.boxes| && i < |s.boxes[k].msgs|
    ensures var t := Step(s, Seen(k, i));
      var b, c := s.boxes[k], t.boxes[k];
      && |c.msgs| == |b.msgs| && c.uidnext == b.uidnext
      && (forall f :: f in c.msgs[i].mail.flags <==> f == "\\Seen" || f in b.msgs[i].mail.flags)
      && Same(c.msgs[i], b.msgs[i]) && c.msgs[i].seqNum == b.msgs[i].seqNum
      && (forall j | 0 <= j < |b.msgs| && j != i :: c.msgs[j] == b.msgs[j])
      && (forall j | 0 <= j < |s.boxes| && j != k :: t.boxes[j] == s.boxes[j])
  {
  }
}
