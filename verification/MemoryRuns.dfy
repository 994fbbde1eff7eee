/** The in-memory store over whole runs (imap/imaptest/memory.go): all the
    mailboxes of a user, whatever is done to them in whatever order. */
module MemoryRuns {
  import opened Bytes
  import opened Wrappers
  import opened SeqSet
  import opened ListReplay
  import opened MemoryStore

  datatype Box = Box(msgs: seq<Msg>, uidnext: nat)

  datatype Store = Store(boxes: seq<Box>, modSeq: nat)

  datatype Op =
    | Append(k: nat, flags: set<string>, body: seq<byte>)
    | Expunge(k: nat, uidSeqs: Option<seq<SeqRange>>)
    | Move(k: nat, useUid: bool, seqs: seq<SeqRange>, d: nat)
    | Copy(k: nat, useUid: bool, seqs: seq<SeqRange>, d: nat)
    | Seen(k: nat, i: nat)
  {
    /** The mailboxes and the message it names are there. */
    predicate In(s: Store) {
      && k < |s.boxes|
      && (Move? || Copy? ==> d < |s.boxes|)
      && (Seen? ==> i < |s.boxes[k].msgs|)
    }
  }

  function Start(n: nat, modSeq: nat): Store {
    Store(seq(n, _ => Box([], 1)), modSeq)
  }

  function Joined(b: Box, new_: seq<Msg>): Box {
    Box(b.msgs + Placed(new_, b.uidnext, |b.msgs| + 1), b.uidnext + |new_|)
  }

  function Dropped(b: Box, m: seq<bool>): Box
    requires |m| == |b.msgs|
  {
    Box(Numbered(Kept(b.msgs, m), 1), b.uidnext)
  }

  function Marked(x: Msg): Msg { x.(mail := x.mail.(flags := x.mail.flags + {SEEN})) }

  /** What the operation leaves; one on a mailbox onto itself is refused. */
  function Step(s: Store, op: Op): Store
    requires op.In(s)
  {
    var b := s.boxes[op.k];
    match op
    case Append(k, flags, body) =>
      var x := Msg(|b.msgs| + 1, b.uidnext, s.modSeq, Mail(flags - {RECENT}, body));
      Store(s.boxes[k := Box(b.msgs + [x], b.uidnext + 1)], s.modSeq + 1)
    case Expunge(k, uidSeqs) =>
      s.(boxes := s.boxes[k := Dropped(b, ExpungeMask(b.msgs, uidSeqs))])
    case Move(k, useUid, seqs, d) =>
      if k == d then s
      else
        var m := MoveMask(b.msgs, useUid, seqs, 1, 0);
        s.(boxes := s.boxes[k := Dropped(b, m)][d := Joined(s.boxes[d], Chosen(b.msgs, m))])
    case Copy(k, useUid, seqs, d) =>
      if k == d then s
      else s.(boxes := s.boxes[d := Joined(s.boxes[d], Chosen(b.msgs, CopyMask(b.msgs, useUid, seqs)))])
    case Seen(k, i) =>
      s.(boxes := s.boxes[k := b.(msgs := b.msgs[i := Marked(b.msgs[i])])])
  }

  /** Operations on what is not there are not carried out. */
  function Run(s: Store, ops: seq<Op>): Store
    decreases |ops|
  {
    if ops == [] then s else Run(if ops[0].In(s) then Step(s, ops[0]) else s, ops[1..])
  }

  // --------------------------------------------------------- the invariant

  ghost predicate SoundBox(b: Box, modSeq: nat) {
    && InPlace(b.msgs) && Ascend(b.msgs, b.uidnext)
    && Below(b.msgs, modSeq)
  }

  ghost predicate Below(l: seq<Msg>, modSeq: nat) { forall i | 0 <= i < |l| :: l[i].modSeq < modSeq }

  ghost predicate Sound(s: Store) {
    forall k | 0 <= k < |s.boxes| :: SoundBox(s.boxes[k], s.modSeq)
  }

  /** The same message: only its number and its flags may have changed. */
  predicate Same(x: Msg, y: Msg) { x.uid == y.uid && x.modSeq == y.modSeq && x.mail.body == y.mail.body }

  /** `b` later on: a UID handed out before means the message it meant. */
  ghost predicate LaterBox(a: Box, b: Box) {
    && a.uidnext <= b.uidnext
    && forall j | 0 <= j < |b.msgs| && b.msgs[j].uid < a.uidnext :: Held(a, b.msgs[j])
  }

  ghost predicate Held(a: Box, x: Msg) { exists i :: 0 <= i < |a.msgs| && Same(a.msgs[i], x) }

  ghost predicate Later(s: Store, t: Store) {
    && |s.boxes| == |t.boxes| && s.modSeq <= t.modSeq
    && forall k | 0 <= k < |s.boxes| :: LaterBox(s.boxes[k], t.boxes[k])
  }

  lemma LaterSelf(b: Box)
    ensures LaterBox(b, b)
  {
    forall j | 0 <= j < |b.msgs|
      ensures Held(b, b.msgs[j])
    {
      assert Same(b.msgs[j], b.msgs[j]);
    }
  }

  lemma LaterBoxes(a: Box, b: Box, c: Box)
    requires LaterBox(a, b) && LaterBox(b, c)
    ensures LaterBox(a, c)
  {
    forall j | 0 <= j < |c.msgs| && c.msgs[j].uid < a.uidnext
      ensures Held(a, c.msgs[j])
    {
      assert Held(b, c.msgs[j]);
      var i :| 0 <= i < |b.msgs| && Same(b.msgs[i], c.msgs[j]);
      assert Held(a, b.msgs[i]);
    }
  }

  lemma LaterStores(s: Store, t: Store, u: Store)
    requires Later(s, t) && Later(t, u)
    ensures Later(s, u)
  {
    forall k | 0 <= k < |s.boxes|
      ensures LaterBox(s.boxes[k], u.boxes[k])
    {
      LaterBoxes(s.boxes[k], t.boxes[k], u.boxes[k]);
    }
  }

  lemma LaterItself(s: Store)
    ensures Later(s, s)
  {
    forall k | 0 <= k < |s.boxes|
      ensures LaterBox(s.boxes[k], s.boxes[k])
    {
      LaterSelf(s.boxes[k]);
    }
  }

  // ------------------------------------------------- one mailbox at a time

  lemma JoinedSound(b: Box, new_: seq<Msg>, modSeq: nat)
    requires SoundBox(b, modSeq) && Below(new_, modSeq)
    ensures SoundBox(Joined(b, new_), modSeq) && LaterBox(b, Joined(b, new_))
  {
    JoinKeeps(b.msgs, new_, b.uidnext);
    PlacedPlaces(new_, b.uidnext, |b.msgs| + 1);
    hide Placed, InPlace, Ascend;
    var c := Joined(b, new_);
    forall j | 0 <= j < |c.msgs| && c.msgs[j].uid < b.uidnext
      ensures Held(b, c.msgs[j])
    {
      assert c.msgs[j] == b.msgs[j] && Same(b.msgs[j], c.msgs[j]);
    }
  }

  lemma DroppedSound(b: Box, m: seq<bool>, modSeq: nat)
    requires SoundBox(b, modSeq) && |m| == |b.msgs|
    ensures SoundBox(Dropped(b, m), modSeq) && LaterBox(b, Dropped(b, m))
  {
    var l := Kept(b.msgs, m);
    DropKeeps(b.msgs, m, b.uidnext);
    KeptIn(b.msgs, m);
    NumberedPlaces(l, 1);
    hide Numbered, Kept, InPlace, Ascend;
    var c := Dropped(b, m);
    forall j | 0 <= j < |c.msgs|
      ensures c.msgs[j].modSeq < modSeq && Held(b, c.msgs[j])
    {
      var i :| 0 <= i < |b.msgs| && b.msgs[i] == l[j];
      assert Same(b.msgs[i], c.msgs[j]);
    }
  }

  lemma SeenSound(b: Box, i: nat, modSeq: nat)
    requires SoundBox(b, modSeq) && i < |b.msgs|
    ensures var c := b.(msgs := b.msgs[i := Marked(b.msgs[i])]); SoundBox(c, modSeq) && LaterBox(b, c)
  {
    var c := b.(msgs := b.msgs[i := Marked(b.msgs[i])]);
    forall j | 0 <= j < |c.msgs|
      ensures Held(b, c.msgs[j])
    {
      assert Same(b.msgs[j], c.msgs[j]);
    }
  }

  lemma AppendSound(b: Box, mail: Mail, modSeq: nat)
    requires SoundBox(b, modSeq)
    ensures var c := Box(b.msgs + [Msg(|b.msgs| + 1, b.uidnext, modSeq, mail)], b.uidnext + 1);
      SoundBox(c, modSeq + 1) && LaterBox(b, c)
  {
    var c := Box(b.msgs + [Msg(|b.msgs| + 1, b.uidnext, modSeq, mail)], b.uidnext + 1);
    forall j | 0 <= j < |c.msgs| && c.msgs[j].uid < b.uidnext
      ensures Held(b, c.msgs[j])
    {
      assert Same(b.msgs[j], c.msgs[j]);
    }
  }

  lemma {:induction false} ChosenIn(l: seq<Msg>, m: seq<bool>)
    requires |m| == |l|
    ensures forall k | 0 <= k < |Chosen(l, m)| :: Chosen(l, m)[k] in l
    decreases |l|
  {
    if l != [] {
      ChosenIn(l[1..], m[1..]);
    }
  }

  lemma ChosenSound(b: Box, m: seq<bool>, modSeq: nat)
    requires SoundBox(b, modSeq) && |m| == |b.msgs|
    ensures Below(Chosen(b.msgs, m), modSeq)
  {
    ChosenIn(b.msgs, m);
  }

  lemma ChosenJoin(s: Store, k: nat, m: seq<bool>, d: nat)
    requires Sound(s) && k < |s.boxes| && d < |s.boxes| && |m| == |s.boxes[k].msgs|
    ensures var c := Joined(s.boxes[d], Chosen(s.boxes[k].msgs, m)); SoundBox(c, s.modSeq) && LaterBox(s.boxes[d], c)
  {
    hide SoundBox, Below, LaterBox, Joined, Chosen;
    ChosenSound(s.boxes[k], m, s.modSeq);
    JoinedSound(s.boxes[d], Chosen(s.boxes[k].msgs, m), s.modSeq);
  }

  /** One mailbox of the store is another. */
  lemma BoxChanged(s: Store, k: nat, c: Box, modSeq: nat)
    requires Sound(s) && k < |s.boxes| && s.modSeq <= modSeq
    requires SoundBox(c, modSeq) && LaterBox(s.boxes[k], c)
    ensures var t := Store(s.boxes[k := c], modSeq); Sound(t) && Later(s, t)
  {
    hide InPlace, Ascend, LaterBox;
    forall j | 0 <= j < |s.boxes|
      ensures LaterBox(s.boxes[j], s.boxes[j]) && SoundBox(s.boxes[j], modSeq)
    {
      LaterSelf(s.boxes[j]);
      assert SoundBox(s.boxes[j], s.modSeq);
    }
  }

  lemma MoveSound(s: Store, k: nat, m: seq<bool>, d: nat)
    requires Sound(s) && k < |s.boxes| && d < |s.boxes| && k != d && |m| == |s.boxes[k].msgs|
    ensures var b := s.boxes[k];
      var t := s.(boxes := s.boxes[k := Dropped(b, m)][d := Joined(s.boxes[d], Chosen(b.msgs, m))]);
      Sound(t) && Later(s, t)
  {
    var b := s.boxes[k];
    assert SoundBox(b, s.modSeq);
    hide SoundBox, LaterBox, Joined, Dropped, Chosen;
    DroppedSound(b, m, s.modSeq);
    ChosenJoin(s, k, m, d);
    var c, e := Dropped(b, m), Joined(s.boxes[d], Chosen(b.msgs, m));
    var half := s.(boxes := s.boxes[k := c]);
    BoxChanged(s, k, c, s.modSeq);
    BoxChanged(half, d, e, s.modSeq);
    LaterStores(s, half, half.(boxes := half.boxes[d := e]));
  }

  /** Every operation keeps the invariant, and no UID changes its meaning. */
  lemma StepSound(s: Store, op: Op)
    requires Sound(s) && op.In(s)
    ensures Sound(Step(s, op)) && Later(s, Step(s, op))
  {
    LaterItself(s);
    var b := s.boxes[op.k];
    assert SoundBox(b, s.modSeq);
    hide Sound, SoundBox, Later, LaterBox, Joined, Dropped, Marked, ExpungeMask, MoveMask, CopyMask, Chosen;
    match op
    case Append(k, flags, body) =>
      AppendSound(b, Mail(flags - {RECENT}, body), s.modSeq);
      BoxChanged(s, k, Step(s, op).boxes[k], s.modSeq + 1);
    case Expunge(k, uidSeqs) =>
      DroppedSound(b, ExpungeMask(b.msgs, uidSeqs), s.modSeq);
      BoxChanged(s, k, Step(s, op).boxes[k], s.modSeq);
    case Move(k, useUid, seqs, d) =>
      if k != d {
        MoveSound(s, k, MoveMask(b.msgs, useUid, seqs, 1, 0), d);
      }
    case Copy(k, useUid, seqs, d) =>
      if k != d {
        ChosenJoin(s, k, CopyMask(b.msgs, useUid, seqs), d);
        BoxChanged(s, d, Step(s, op).boxes[d], s.modSeq);
      }
    case Seen(k, i) =>
      SeenSound(b, i, s.modSeq);
      BoxChanged(s, k, Step(s, op).boxes[k], s.modSeq);
  }

  // ----------------------------------------------------- where the mail is

  function Of(b: Box): multiset<Mail> { multiset(Mails(b.msgs)) }

  /** All the mail in all the mailboxes. */
  function All(boxes: seq<Box>): multiset<Mail> {
    if boxes == [] then multiset{} else Of(boxes[0]) + All(boxes[1..])
  }

  /** What comes into the store by an operation, and what goes out of it. */
  function Gained(s: Store, op: Op): multiset<Mail>
    requires op.In(s)
  {
    var b := s.boxes[op.k];
    match op
    case Append(_, flags, body) => multiset{Mail(flags - {RECENT}, body)}
    case Copy(k, useUid, seqs, d) =>
      if k == d then multiset{} else multiset(Mails(Chosen(b.msgs, CopyMask(b.msgs, useUid, seqs))))
    case Seen(_, i) => multiset{Marked(b.msgs[i]).mail}
    case _ => multiset{}
  }

  function Lost(s: Store, op: Op): multiset<Mail>
    requires op.In(s)
  {
    var b := s.boxes[op.k];
    match op
    case Expunge(_, uidSeqs) => multiset(Mails(Chosen(b.msgs, ExpungeMask(b.msgs, uidSeqs))))
    case Seen(_, i) => multiset{b.msgs[i].mail}
    case _ => multiset{}
  }

  lemma Beside<T>(p: multiset<T>, a: multiset<T>, x: multiset<T>, b: multiset<T>, y: multiset<T>)
    requires a + x == b + y
    ensures p + a + x == p + b + y
  {
    assert p + a + x == p + (a + x) && p + b + y == p + (b + y);
  }

  /** Of two steps one behind the other. */
  lemma InTurn<T>(a: multiset<T>, b: multiset<T>, c: multiset<T>, x: multiset<T>, y: multiset<T>,
                  u: multiset<T>, v: multiset<T>)
    requires b + x == a + u && c + y == b + v
    ensures c + (x + y) == a + (u + v)
  {
    assert c + (x + y) == (c + y) + x == (b + x) + v == (a + u) + v;
  }

  /** One part is another: what changes in it changes in all. */
  lemma InAll<T>(t: multiset<T>, s: multiset<T>, a: multiset<T>, b: multiset<T>, x: multiset<T>, y: multiset<T>)
    requires t + a == s + b && b + x == a + y
    ensures t + x == s + y
  {
    assert (t + x) + a == (t + a) + x;
    assert (s + b) + x == s + (b + x);
    assert s + (a + y) == (s + y) + a;
    assert t + x == (t + x) + a - a;
    assert s + y == (s + y) + a - a;
  }

  lemma {:induction false} AllUpdate(boxes: seq<Box>, k: nat, b: Box)
    requires k < |boxes|
    ensures All(boxes[k := b]) + Of(boxes[k]) == All(boxes) + Of(b)
    decreases |boxes|
  {
    var new_ := boxes[k := b];
    hide Of;
    if k == 0 {
      assert new_[1..] == boxes[1..];
    } else {
      assert new_[1..] == boxes[1..][k - 1 := b];
      AllUpdate(boxes[1..], k - 1, b);
      Beside(Of(boxes[0]), All(new_[1..]), Of(boxes[k]), All(boxes[1..]), Of(b));
    }
  }

  lemma JoinedMail(b: Box, new_: seq<Msg>)
    ensures Of(Joined(b, new_)) == Of(b) + multiset(Mails(new_))
  {
    MailsPlaced(new_, b.uidnext, |b.msgs| + 1);
    MailsAppend(b.msgs, Placed(new_, b.uidnext, |b.msgs| + 1));
  }

  lemma DroppedMail(b: Box, m: seq<bool>)
    requires |m| == |b.msgs|
    ensures Of(Dropped(b, m)) + multiset(Mails(Chosen(b.msgs, m))) == Of(b)
  {
    MailsNumbered(Kept(b.msgs, m), 1);
    MailsChosen(b.msgs, m);
    ChosenAndKept(Mails(b.msgs), m);
  }

  lemma OneMore(m: Mail, ms: seq<Mail>)
    ensures multiset([m] + ms) == multiset{m} + multiset(ms)
  {
  }

  lemma {:induction false} MailsUpdate(l: seq<Msg>, i: nat, x: Msg)
    requires i < |l|
    ensures multiset(Mails(l[i := x])) + multiset{l[i].mail} == multiset(Mails(l)) + multiset{x.mail}
    decreases |l|
  {
    var new_ := l[i := x];
    if i == 0 {
      assert new_[1..] == l[1..];
      OneMore(l[0].mail, Mails(l[1..]));
      OneMore(x.mail, Mails(l[1..]));
    } else {
      assert new_[1..] == l[1..][i - 1 := x];
      MailsUpdate(l[1..], i - 1, x);
      OneMore(l[0].mail, Mails(l[1..]));
      OneMore(l[0].mail, Mails(new_[1..]));
      Beside(multiset{l[0].mail}, multiset(Mails(new_[1..])), multiset{l[i].mail}, multiset(Mails(l[1..])), multiset{x.mail});
    }
  }

  /** One operation: what there is and what went out is what there was and what
      came in; a MOVE moves nothing in or out. */
  lemma StepConserves(s: Store, op: Op)
    requires op.In(s)
    ensures All(Step(s, op).boxes) + Lost(s, op) == All(s.boxes) + Gained(s, op)
    ensures op.Move? ==> Lost(s, op) == Gained(s, op) == multiset{}
  {
    match op
    case Append(_, _, _) => AppendConserves(s, op);
    case Expunge(_, _) => ExpungeConserves(s, op);
    case Move(k, useUid, seqs, d) =>
      hide All, MoveMask;
      if k != d {
        MoveMail(s.boxes, k, MoveMask(s.boxes[k].msgs, useUid, seqs, 1, 0), d);
      }
    case Copy(_, _, _, _) => CopyConserves(s, op);
    case Seen(_, _) => SeenConserves(s, op);
  }

  lemma AppendConserves(s: Store, op: Op)
    requires op.In(s) && op.Append?
    ensures All(Step(s, op).boxes) + Lost(s, op) == All(s.boxes) + Gained(s, op)
  {
    var b, c := s.boxes[op.k], Step(s, op).boxes[op.k];
    hide All, Of;
    AppendMail(b, s.modSeq, Mail(op.flags - {RECENT}, op.body));
    AllUpdate(s.boxes, op.k, c);
    assert Of(c) + multiset{} == Of(c);
    InAll(All(Step(s, op).boxes), All(s.boxes), Of(b), Of(c), Lost(s, op), Gained(s, op));
  }

  lemma ExpungeConserves(s: Store, op: Op)
    requires op.In(s) && op.Expunge?
    ensures All(Step(s, op).boxes) + Lost(s, op) == All(s.boxes) + Gained(s, op)
  {
    var b, c := s.boxes[op.k], Step(s, op).boxes[op.k];
    hide All, Of, Dropped, Mails, Chosen, ExpungeMask;
    AllUpdate(s.boxes, op.k, c);
    DroppedMail(b, ExpungeMask(b.msgs, op.uidSeqs));
    InAll(All(Step(s, op).boxes), All(s.boxes), Of(b), Of(c), Lost(s, op), Gained(s, op));
  }

  lemma CopyConserves(s: Store, op: Op)
    requires op.In(s) && op.Copy?
    ensures All(Step(s, op).boxes) + Lost(s, op) == All(s.boxes) + Gained(s, op)
  {
    hide All, Of, Joined, Mails, Chosen, CopyMask;
    if op.k != op.d {
      var b, c := s.boxes[op.d], Step(s, op).boxes[op.d];
      AllUpdate(s.boxes, op.d, c);
      JoinedMail(b, Chosen(s.boxes[op.k].msgs, CopyMask(s.boxes[op.k].msgs, op.useUid, op.seqs)));
      assert Of(c) + multiset{} == Of(c);
      InAll(All(Step(s, op).boxes), All(s.boxes), Of(b), Of(c), Lost(s, op), Gained(s, op));
    }
  }

  lemma SeenConserves(s: Store, op: Op)
    requires op.In(s) && op.Seen?
    ensures All(Step(s, op).boxes) + Lost(s, op) == All(s.boxes) + Gained(s, op)
  {
    var b, c := s.boxes[op.k], Step(s, op).boxes[op.k];
    hide All, Of, Marked;
    SeenMail(b, op.i);
    AllUpdate(s.boxes, op.k, c);
    InAll(All(Step(s, op).boxes), All(s.boxes), Of(b), Of(c), Lost(s, op), Gained(s, op));
  }

  lemma AppendMail(b: Box, modSeq: nat, mail: Mail)
    ensures Of(Box(b.msgs + [Msg(|b.msgs| + 1, b.uidnext, modSeq, mail)], b.uidnext + 1)) == Of(b) + multiset{mail}
  {
    var x := Msg(|b.msgs| + 1, b.uidnext, modSeq, mail);
    MailsAppend(b.msgs, [x]);
    OneMail(x);
  }

  lemma SeenMail(b: Box, i: nat)
    requires i < |b.msgs|
    ensures Of(b.(msgs := b.msgs[i := Marked(b.msgs[i])])) + multiset{b.msgs[i].mail}
         == Of(b) + multiset{Marked(b.msgs[i]).mail}
  {
    hide Marked, Mails;
    MailsUpdate(b.msgs, i, Marked(b.msgs[i]));
  }

  lemma MoveMail(boxes: seq<Box>, k: nat, m: seq<bool>, d: nat)
    requires k < |boxes| && d < |boxes| && k != d && |m| == |boxes[k].msgs|
    ensures var b := boxes[k];
      All(boxes[k := Dropped(b, m)][d := Joined(boxes[d], Chosen(b.msgs, m))]) == All(boxes)
  {
    hide All, Of, Joined, Dropped, Mails, Chosen;
    var b, go := boxes[k], Chosen(boxes[k].msgs, m);
    var left, gone := Dropped(b, m), multiset(Mails(go));
    var half := boxes[k := left];
    var all := half[d := Joined(boxes[d], go)];
    AllUpdate(boxes, k, left);
    AllUpdate(half, d, Joined(boxes[d], go));
    DroppedMail(b, m);
    JoinedMail(boxes[d], go);
    InAll(All(half), All(boxes), Of(b), Of(left), gone, multiset{});
    InAll(All(all), All(half), Of(boxes[d]), Of(Joined(boxes[d], go)), multiset{}, gone);
    assert All(all) + multiset{} == All(all) && All(boxes) + multiset{} == All(boxes);
  }

  lemma OneMail(x: Msg)
    ensures Mails([x]) == [x.mail]
  {
    assert [x][1..] == [];
  }

  // ------------------------------------------------------------ whole runs

  function GainedBy(s: Store, ops: seq<Op>): multiset<Mail>
    decreases |ops|
  {
    if ops == [] then multiset{}
    else if ops[0].In(s) then Gained(s, ops[0]) + GainedBy(Step(s, ops[0]), ops[1..])
    else GainedBy(s, ops[1..])
  }

  function LostBy(s: Store, ops: seq<Op>): multiset<Mail>
    decreases |ops|
  {
    if ops == [] then multiset{}
    else if ops[0].In(s) then Lost(s, ops[0]) + LostBy(Step(s, ops[0]), ops[1..])
    else LostBy(s, ops[1..])
  }

  lemma {:induction false} RunSound(s: Store, ops: seq<Op>)
    requires Sound(s)
    ensures Sound(Run(s, ops)) && Later(s, Run(s, ops))
    decreases |ops|
  {
    hide Sound, Later, Step, Op.In;
    LaterItself(s);
    if ops != [] {
      if ops[0].In(s) {
        StepSound(s, ops[0]);
        RunSound(Step(s, ops[0]), ops[1..]);
        LaterStores(s, Step(s, ops[0]), Run(s, ops));
      } else {
        RunSound(s, ops[1..]);
      }
    }
  }

  lemma {:induction false} RunConserves(s: Store, ops: seq<Op>)
    ensures All(Run(s, ops).boxes) + LostBy(s, ops) == All(s.boxes) + GainedBy(s, ops)
    decreases |ops|
  {
    hide All, Step, Op.In, Gained, Lost;
    if ops != [] {
      if ops[0].In(s) {
        var t, r := Step(s, ops[0]), ops[1..];
        StepConserves(s, ops[0]);
        RunConserves(t, r);
        InTurn(All(s.boxes), All(t.boxes), All(Run(t, r).boxes), Lost(s, ops[0]), LostBy(t, r),
               Gained(s, ops[0]), GainedBy(t, r));
      } else {
        RunConserves(s, ops[1..]);
      }
    }
  }

  lemma {:induction false} RunParts(s: Store, a: seq<Op>, b: seq<Op>)
    ensures Run(s, a + b) == Run(Run(s, a), b)
    decreases |a|
  {
    hide Step, Op.In;
    if a == [] {
      assert a + b == b;
    } else {
      assert (a + b)[1..] == a[1..] + b;
      RunParts(if a[0].In(s) then Step(s, a[0]) else s, a[1..], b);
    }
  }

  lemma {:induction false} NothingAtStart(n: nat, modSeq: nat)
    ensures All(Start(n, modSeq).boxes) == multiset{}
  {
    if n > 0 {
      NothingAtStart(n - 1, modSeq);
      assert Start(n, modSeq).boxes[1..] == Start(n - 1, modSeq).boxes;
    }
  }

  /** Over every run on empty mailboxes, and at each of its beginnings: numbers
      are places, UIDs ascend below the next one, which never falls, and a UID
      never means another message; and the mail there is, with what was
      expunged, is the mail that was appended or copied. */
  lemma RunsAreSafe(n: nat, modSeq: nat, ops: seq<Op>, i: nat)
    requires i <= |ops|
    ensures var s := Start(n, modSeq);
      && Sound(Run(s, ops))
      && Later(Run(s, ops[..i]), Run(s, ops))
      && All(Run(s, ops).boxes) + LostBy(s, ops) == GainedBy(s, ops)
  {
    StartSound(n, modSeq);
    NothingAtStart(n, modSeq);
    hide *;
    var s := Start(n, modSeq);
    RunSound(s, ops);
    RunSound(s, ops[..i]);
    RunSound(Run(s, ops[..i]), ops[i..]);
    RunParts(s, ops[..i], ops[i..]);
    assert ops == ops[..i] + ops[i..];
    RunConserves(s, ops);
    assert multiset{} + GainedBy(s, ops) == GainedBy(s, ops);
  }

  lemma StartSound(n: nat, modSeq: nat)
    ensures Sound(Start(n, modSeq))
  {
  }

  lemma NothingBeside<T>(a: multiset<T>, b: multiset<T>)
    ensures a + multiset{} == a && b + multiset{} == b
  {
  }

  /** So a run of MOVEs keeps all the mail, from any store. */
  lemma {:induction false} MovesConserve(s: Store, ops: seq<Op>)
    requires forall i | 0 <= i < |ops| :: ops[i].Move?
    ensures All(Run(s, ops).boxes) == All(s.boxes)
    decreases |ops|
  {
    hide All, Step, Op.In, Gained, Lost;
    if ops != [] {
      if ops[0].In(s) {
        StepConserves(s, ops[0]);
        NothingBeside(All(Step(s, ops[0]).boxes), All(s.boxes));
        MovesConserve(Step(s, ops[0]), ops[1..]);
      } else {
        MovesConserve(s, ops[1..]);
      }
    }
  }

  // ------------------------------------------------------- on the mailboxes

  ghost predicate Ready(user: User, boxes: seq<Mailbox>)
    reads boxes
  {
    && (forall i, j | 0 <= i < j < |boxes| :: boxes[i] != boxes[j])
    && forall k | 0 <= k < |boxes| :: boxes[k].Valid() && boxes[k].user == user
  }

  /** The mailboxes as a value. */
  ghost function Value(user: User, boxes: seq<Mailbox>): Store
    reads user, boxes
  {
    Store(seq(|boxes|, k requires 0 <= k < |boxes| reads boxes => Box(boxes[k].msgs, boxes[k].uidnext)),
          user.modSequenceNext)
  }

  /** Only the mailboxes `k` and `d` have changed. */
  lemma Changed(user: User, boxes: seq<Mailbox>, was: Store, k: nat, d: nat)
    requires k < |boxes| == |was.boxes| && d < |boxes|
    requires forall j | 0 <= j < |boxes| && j != k && j != d :: was.boxes[j] == Box(boxes[j].msgs, boxes[j].uidnext)
    ensures var b, c := Box(boxes[k].msgs, boxes[k].uidnext), Box(boxes[d].msgs, boxes[d].uidnext);
      Value(user, boxes).boxes == was.boxes[k := b][d := c]
  {
  }

  /** Each operation carried out on the mailboxes is that step. */
  method Do(user: User, boxes: seq<Mailbox>, op: Op)
    requires Ready(user, boxes) && op.In(Value(user, boxes))
    modifies boxes, user
    ensures Ready(user, boxes) && Value(user, boxes) == Step(old(Value(user, boxes)), op)
  {
    hide Joined, Dropped, Marked, ExpungeMask, MoveMask, CopyMask;
    match op
    case Append(k, flags, body) => DoAppend(user, boxes, k, flags, body);
    case Expunge(k, uidSeqs) => DoExpunge(user, boxes, k, uidSeqs);
    case Move(k, useUid, seqs, d) => DoMove(user, boxes, k, useUid, seqs, d);
    case Copy(k, useUid, seqs, d) => DoCopy(user, boxes, k, useUid, seqs, d);
    case Seen(k, i) => DoSeen(user, boxes, k, i);
  }

  method DoAppend(user: User, boxes: seq<Mailbox>, k: nat, flags: set<string>, body: seq<byte>)
    requires Ready(user, boxes) && k < |boxes|
    modifies boxes, user
    ensures Ready(user, boxes) && Value(user, boxes) == Step(old(Value(user, boxes)), Append(k, flags, body))
  {
    hide InPlace, Ascend;
    var uid := boxes[k].Append(flags, body);
  }

  method DoExpunge(user: User, boxes: seq<Mailbox>, k: nat, uidSeqs: Option<seq<SeqRange>>)
    requires Ready(user, boxes) && k < |boxes|
    modifies boxes
    ensures Ready(user, boxes) && Value(user, boxes) == Step(old(Value(user, boxes)), Expunge(k, uidSeqs))
  {
    hide InPlace, Ascend, Numbered, Kept, ExpungeMask;
    ghost var was := Value(user, boxes);
    var nums := boxes[k].Expunge(uidSeqs);
    Changed(user, boxes, was, k, k);
  }

  method DoMove(user: User, boxes: seq<Mailbox>, k: nat, useUid: bool, seqs: seq<SeqRange>, d: nat)
    requires Ready(user, boxes) && k < |boxes| && d < |boxes|
    modifies boxes
    ensures Ready(user, boxes) && Value(user, boxes) == Step(old(Value(user, boxes)), Move(k, useUid, seqs, d))
  {
    hide InPlace, Ascend, Numbered, Placed, Kept, Chosen, MoveMask;
    ghost var was := Value(user, boxes);
    var ok, reports := boxes[k].Move(useUid, seqs, boxes[d]);
    assert ok == (k != d);
    Changed(user, boxes, was, k, d);
  }

  method DoCopy(user: User, boxes: seq<Mailbox>, k: nat, useUid: bool, seqs: seq<SeqRange>, d: nat)
    requires Ready(user, boxes) && k < |boxes| && d < |boxes|
    modifies boxes
    ensures Ready(user, boxes) && Value(user, boxes) == Step(old(Value(user, boxes)), Copy(k, useUid, seqs, d))
  {
    hide InPlace, Ascend, Placed, Chosen, CopyMask;
    ghost var was := Value(user, boxes);
    var ok, pairs := boxes[k].Copy(useUid, seqs, boxes[d]);
    assert ok == (k != d);
    hide Joined;
    Changed(user, boxes, was, d, d);
    assert was.boxes[d := was.boxes[d]] == was.boxes;
  }

  method DoSeen(user: User, boxes: seq<Mailbox>, k: nat, i: nat)
    requires Ready(user, boxes) && k < |boxes| && i < |boxes[k].msgs|
    modifies boxes
    ensures Ready(user, boxes) && Value(user, boxes) == Step(old(Value(user, boxes)), Seen(k, i))
  {
    hide InPlace, Ascend;
    ghost var was := Value(user, boxes);
    var ok := boxes[k].SetSeen(i);
    Changed(user, boxes, was, k, k);
  }

  /** A whole run, carried out on the mailboxes. */
  method DoAll(user: User, boxes: seq<Mailbox>, ops: seq<Op>)
    requires Ready(user, boxes)
    modifies boxes, user
    ensures Ready(user, boxes) && Value(user, boxes) == Run(old(Value(user, boxes)), ops)
  {
    hide *;
    ghost var end := Run(Value(user, boxes), ops);
    var i := 0;
    assert ops[0..] == ops;
    while i < |ops|
      invariant i <= |ops| && Ready(user, boxes) && end == Run(Value(user, boxes), ops[i..])
    {
      var op := ops[i];
      RunNext(Value(user, boxes), ops, i);
      InHere(user, boxes, op);
      if op.k < |boxes| && (op.Move? || op.Copy? ==> op.d < |boxes|) && (op.Seen? ==> op.i < |boxes[op.k].msgs|) {
        Do(user, boxes, op);
      }
      i := i + 1;
    }
    RunNone(Value(user, boxes), ops);
  }

  lemma InHere(user: User, boxes: seq<Mailbox>, op: Op)
    ensures op.In(Value(user, boxes)) <==>
      op.k < |boxes| && (op.Move? || op.Copy? ==> op.d < |boxes|) && (op.Seen? ==> op.i < |boxes[op.k].msgs|)
  {
  }

  lemma RunNext(s: Store, ops: seq<Op>, i: nat)
    requires i < |ops|
    ensures Run(s, ops[i..]) == Run(if ops[i].In(s) then Step(s, ops[i]) else s, ops[i + 1..])
  {
    hide Step, Op.In;
    assert ops[i..][1..] == ops[i + 1..];
  }

  lemma RunNone(s: Store, ops: seq<Op>)
    ensures Run(s, ops[|ops|..]) == s
  {
  }
}
