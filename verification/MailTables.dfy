/** The tables behind a mailbox: what single statements on them do, and what
    every run of statements keeps (spilldb/spillbox). */
module MailTables {
  import opened Bytes

  datatype State = Ready | Expunged

  /** A row of Msgs; its number in the table stands for the message ID. */
  datatype Msg = Msg(box: nat, uid: nat, modSeq: nat, state: State, flags: set<string>, body: seq<byte>)

  /** A row of Mailboxes. A deleted one has no Name any more, only the one it
      had. */
  datatype Mailbox = Mailbox(name: string, live: bool, nextUid: nat, validity: nat)

  datatype Db = Db(boxes: seq<Mailbox>, counters: map<string, nat>, msgs: seq<Msg>)

  /** What names a message for a client. */
  datatype Id = Id(name: string, validity: nat, uid: nat)

  datatype Stamp = Stamp(name: string, modSeq: nat)

  /** The tables, and all the identities and mod-sequences ever handed out. */
  datatype World = World(db: Db, given: seq<Id>, stamps: seq<Stamp>)

  const RESERVED := {"Subscriptions", "INBOX", "Archive", "Sent", "Drafts", "Trash"}

  /** The highest UIDVALIDITY; 42 in front of the first mailbox. */
  function Top(boxes: seq<Mailbox>): nat {
    if boxes == [] then 42
    else if |boxes| == 1 then boxes[0].validity
    else
      var t := Top(boxes[..|boxes| - 1]);
      if t < boxes[|boxes| - 1].validity then boxes[|boxes| - 1].validity else t
  }

  /** The live mailbox of that name, or the number of mailboxes. */
  function Find(boxes: seq<Mailbox>, name: string): (k: nat)
    ensures k <= |boxes|
    ensures k < |boxes| ==> boxes[k].live && boxes[k].name == name
    ensures forall j | 0 <= j < k :: !(boxes[j].live && boxes[j].name == name)
  {
    if boxes == [] then 0
    else if boxes[0].live && boxes[0].name == name then 0
    else
      var k := Find(boxes[1..], name);
      assert forall j | 0 < j <= k :: boxes[j] == boxes[1..][j - 1];
      k + 1
  }

  /** One statement, or a read and the update that goes with it. */
  datatype Step =
    | Create(name: string)
    | Delete(name: string)
    | TakeUid(box: nat)
    | TakeSeq(box: nat)
    | Insert(msg: Msg)
    | Restamp(row: nat, flags: set<string>, modSeq: nat)
    | Relocate(row: nat, box: nat, uid: nat, modSeq: nat)
    | Expunge(row: nat)

  ghost predicate Unused(db: Db, box: nat, uid: nat) {
    && box < |db.boxes| && 0 < uid < db.boxes[box].nextUid
    && forall i | 0 <= i < |db.msgs| :: !(db.msgs[i].box == box && db.msgs[i].uid == uid)
  }

  ghost predicate Issued(boxes: seq<Mailbox>, counters: map<string, nat>, box: nat, modSeq: nat) {
    && box < |boxes| && boxes[box].name in counters
    && modSeq < counters[boxes[box].name]
  }

  /** The rest is an error and rolled back, or is never done. */
  ghost predicate Enabled(db: Db, s: Step) {
    match s
    case Create(name) => Find(db.boxes, name) == |db.boxes|
    case Delete(name) => name !in RESERVED && Find(db.boxes, name) < |db.boxes|
    case TakeUid(box) => box < |db.boxes|
    case TakeSeq(box) => box < |db.boxes| && db.boxes[box].live && db.boxes[box].name in db.counters
    case Insert(m) => Unused(db, m.box, m.uid) && (m.state.Ready? ==> Issued(db.boxes, db.counters, m.box, m.modSeq))
    case Restamp(row, flags, modSeq) => row < |db.msgs| && Issued(db.boxes, db.counters, db.msgs[row].box, modSeq)
    case Relocate(row, box, uid, modSeq) => row < |db.msgs| && Unused(db, box, uid) && Issued(db.boxes, db.counters, box, modSeq)
    case Expunge(row) => row < |db.msgs|
  }

  ghost function Do(w: World, s: Step): World
    requires Enabled(w.db, s)
  {
    var db := w.db;
    match s
    case Create(name) =>
      w.(db := db.(
        boxes := db.boxes + [Mailbox(name, true, 1, Top(db.boxes) + 1)],
        counters := if name in db.counters then db.counters else db.counters[name := 1]))
    case Delete(name) =>
      // The trigger gives the mailbox a new UIDVALIDITY.
      var k := Find(db.boxes, name);
      w.(db := db.(boxes := db.boxes[k := db.boxes[k].(live := false, validity := Top(db.boxes) + 1)]))
    case TakeUid(k) =>
      var b := db.boxes[k];
      w.(db := db.(boxes := db.boxes[k := b.(nextUid := b.nextUid + 1)]),
         given := w.given + [Id(b.name, b.validity, b.nextUid)])
    case TakeSeq(k) =>
      var n := db.boxes[k].name;
      w.(db := db.(counters := db.counters[n := db.counters[n] + 1]),
         stamps := w.stamps + [Stamp(n, db.counters[n])])
    case Insert(m) => w.(db := db.(msgs := db.msgs + [m]))
    case Restamp(i, flags, v) => w.(db := db.(msgs := db.msgs[i := db.msgs[i].(flags := flags, modSeq := v)]))
    case Relocate(i, k, uid, v) => w.(db := db.(msgs := db.msgs[i := db.msgs[i].(box := k, uid := uid, modSeq := v)]))
    case Expunge(i) => w.(db := db.(msgs := db.msgs[i := db.msgs[i].(state := Expunged)]))
  }

  // ---------------------------------------------------------- what is kept

  ghost predicate Apart(boxes: seq<Mailbox>) {
    && (forall j, k | 0 <= j < k < |boxes| :: boxes[j].validity != boxes[k].validity)
    && (forall j, k | 0 <= j < k < |boxes| :: boxes[j].live && boxes[k].live ==> boxes[j].name != boxes[k].name)
  }

  ghost predicate Counted(db: Db) {
    forall k | 0 <= k < |db.boxes| :: db.boxes[k].name in db.counters && 0 < db.boxes[k].nextUid
  }

  /** A message has a UID its mailbox gave out and, while it is there to see, a
      mod-sequence below the counter of its mailbox's name. */
  ghost predicate RowOk(db: Db, m: Msg) {
    && m.box < |db.boxes| && 0 < m.uid < db.boxes[m.box].nextUid
    && (m.state.Ready? ==> Issued(db.boxes, db.counters, m.box, m.modSeq))
  }

  ghost predicate Rows(db: Db) {
    forall i | 0 <= i < |db.msgs| :: RowOk(db, db.msgs[i])
  }

  ghost predicate UniqueUids(msgs: seq<Msg>) {
    forall i, j | 0 <= i < j < |msgs| :: msgs[i].box == msgs[j].box ==> msgs[i].uid != msgs[j].uid
  }

  /** Every UIDVALIDITY there is lies below. */
  ghost predicate Above(boxes: seq<Mailbox>, v: nat) {
    forall k | 0 <= k < |boxes| :: boxes[k].validity < v
  }

  predicate Coming(b: Mailbox, id: Id) {
    b.name == id.name && b.validity == id.validity && b.nextUid <= id.uid
  }

  /** The identities that may still be handed out. */
  ghost predicate Fresh(boxes: seq<Mailbox>, id: Id) {
    Above(boxes, id.validity) || exists k :: 0 <= k < |boxes| && Coming(boxes[k], id)
  }

  ghost predicate GivenOnce(boxes: seq<Mailbox>, given: seq<Id>) {
    && (forall i | 0 <= i < |given| :: !Fresh(boxes, given[i]))
    && (forall i, j | 0 <= i < j < |given| :: given[i] != given[j])
  }

  /** Mod-sequences of one name only ever go up. */
  ghost predicate Rising(counters: map<string, nat>, stamps: seq<Stamp>) {
    && (forall i | 0 <= i < |stamps| :: stamps[i].name in counters && stamps[i].modSeq < counters[stamps[i].name])
    && (forall i, j | 0 <= i < j < |stamps| :: stamps[i].name == stamps[j].name ==> stamps[i].modSeq < stamps[j].modSeq)
  }

  ghost predicate Sound(w: World) {
    && Apart(w.db.boxes) && Counted(w.db) && Rows(w.db) && UniqueUids(w.db.msgs)
    && GivenOnce(w.db.boxes, w.given) && Rising(w.db.counters, w.stamps)
  }

  lemma {:induction false} TopBounds(boxes: seq<Mailbox>)
    ensures Above(boxes, Top(boxes) + 1)
  {
    if |boxes| > 1 {
      TopBounds(boxes[..|boxes| - 1]);
    }
  }

  /** Mailboxes come after the old ones, and what changes in an old one only
      goes up. */
  ghost predicate Onward(old_: seq<Mailbox>, new_: seq<Mailbox>) {
    && |old_| <= |new_|
    && (forall k | 0 <= k < |old_| :: old_[k].name == new_[k].name && old_[k].nextUid <= new_[k].nextUid)
    && (forall k | 0 <= k < |old_| :: old_[k].validity == new_[k].validity || Above(old_, new_[k].validity))
    && (forall k | |old_| <= k < |new_| :: Above(old_, new_[k].validity))
  }

  /** What may still be handed out could have been before, too. */
  lemma FreshBefore(old_: seq<Mailbox>, new_: seq<Mailbox>, id: Id)
    requires Onward(old_, new_) && Fresh(new_, id)
    ensures Fresh(old_, id)
  {
    if Above(new_, id.validity) {
      forall k | 0 <= k < |old_|
        ensures old_[k].validity < id.validity
      {
        assert new_[k].validity < id.validity;
      }
    } else {
      var k :| 0 <= k < |new_| && Coming(new_[k], id);
      if k < |old_| && old_[k].validity == new_[k].validity {
        assert Coming(old_[k], id);
      }
    }
  }

  lemma GivenStays(old_: seq<Mailbox>, new_: seq<Mailbox>, given: seq<Id>)
    requires Onward(old_, new_) && GivenOnce(old_, given)
    ensures GivenOnce(new_, given)
  {
    hide Fresh, Onward;
    forall i | 0 <= i < |given|
      ensures !Fresh(new_, given[i])
    {
      if Fresh(new_, given[i]) {
        FreshBefore(old_, new_, given[i]);
      }
    }
  }

  lemma GivenMore(old_: seq<Mailbox>, new_: seq<Mailbox>, given: seq<Id>, id: Id)
    requires Onward(old_, new_) && GivenOnce(old_, given) && Fresh(old_, id) && !Fresh(new_, id)
    ensures GivenOnce(new_, given + [id])
  {
    hide Fresh, Onward;
    GivenStays(old_, new_, given);
  }

  lemma CreateSound(w: World, name: string)
    requires Sound(w) && Enabled(w.db, Create(name))
    ensures Sound(Do(w, Create(name)))
  {
    var db := w.db;
    TopBounds(db.boxes);
    GivenStays(db.boxes, Do(w, Create(name)).db.boxes, w.given);
  }

  lemma DeleteSound(w: World, name: string)
    requires Sound(w) && Enabled(w.db, Delete(name))
    ensures Sound(Do(w, Delete(name)))
  {
    TopBounds(w.db.boxes);
    GivenStays(w.db.boxes, Do(w, Delete(name)).db.boxes, w.given);
  }

  lemma TakeUidSound(w: World, k: nat)
    requires Sound(w) && Enabled(w.db, TakeUid(k))
    ensures Sound(Do(w, TakeUid(k)))
  {
    var boxes, new_ := w.db.boxes, Do(w, TakeUid(k)).db.boxes;
    var b := boxes[k];
    var id := Id(b.name, b.validity, b.nextUid);
    assert Coming(boxes[k], id);
    assert !Above(new_, id.validity) by { assert new_[k].validity == id.validity; }
    forall j | 0 <= j < |new_|
      ensures !Coming(new_[j], id)
    {
      assert j == k || boxes[j].validity != boxes[k].validity;
    }
    GivenMore(boxes, new_, w.given, id);
  }

  lemma TakeSeqSound(w: World, k: nat)
    requires Sound(w) && Enabled(w.db, TakeSeq(k))
    ensures Sound(Do(w, TakeSeq(k)))
  {
    hide GivenOnce, Apart, UniqueUids;
  }

  lemma InsertSound(w: World, m: Msg)
    requires Sound(w) && Enabled(w.db, Insert(m))
    ensures Sound(Do(w, Insert(m)))
  {
    hide GivenOnce, Apart, Rising;
  }

  lemma RestampSound(w: World, i: nat, flags: set<string>, v: nat)
    requires Sound(w) && Enabled(w.db, Restamp(i, flags, v))
    ensures Sound(Do(w, Restamp(i, flags, v)))
  {
    hide GivenOnce, Apart, Rising;
  }

  lemma RelocateSound(w: World, i: nat, k: nat, uid: nat, v: nat)
    requires Sound(w) && Enabled(w.db, Relocate(i, k, uid, v))
    ensures Sound(Do(w, Relocate(i, k, uid, v)))
  {
    hide GivenOnce, Apart, Rising;
  }

  lemma ExpungeSound(w: World, i: nat)
    requires Sound(w) && Enabled(w.db, Expunge(i))
    ensures Sound(Do(w, Expunge(i)))
  {
    hide GivenOnce, Apart, Rising;
  }

  lemma StepSound(w: World, s: Step)
    requires Sound(w) && Enabled(w.db, s)
    ensures Sound(Do(w, s))
  {
    hide Sound, Do, Enabled;
    match s
    case Create(name) => CreateSound(w, name);
    case Delete(name) => DeleteSound(w, name);
    case TakeUid(k) => TakeUidSound(w, k);
    case TakeSeq(k) => TakeSeqSound(w, k);
    case Insert(m) => InsertSound(w, m);
    case Restamp(i, flags, v) => RestampSound(w, i, flags, v);
    case Relocate(i, k, uid, v) => RelocateSound(w, i, k, uid, v);
    case Expunge(i) => ExpungeSound(w, i);
  }

  // ------------------------------------------------------------- whole runs

  /** A step that is not enabled is an error and leaves everything alone. */
  ghost function Run(w: World, steps: seq<Step>): World
    decreases |steps|
  {
    if steps == [] then w
    else Run(if Enabled(w.db, steps[0]) then Do(w, steps[0]) else w, steps[1..])
  }

  const NEW := World(Db([], map[], []), [], [])

  lemma {:induction false} RunSound(w: World, steps: seq<Step>)
    requires Sound(w)
    ensures Sound(Run(w, steps))
    decreases |steps|
  {
    if steps != [] {
      if Enabled(w.db, steps[0]) {
        StepSound(w, steps[0]);
      }
      RunSound(if Enabled(w.db, steps[0]) then Do(w, steps[0]) else w, steps[1..]);
    }
  }

  /** Over every run, through deleting mailboxes and creating them again: no
      (name, UIDVALIDITY, UID) is given out twice, no two mailboxes share a
      UIDVALIDITY, the mod-sequences of each name strictly increase, and those
      of the messages there to see are below their name's counter. */
  lemma RunsAreSafe(steps: seq<Step>)
    ensures var w := Run(NEW, steps);
      && (forall i, j | 0 <= i < j < |w.given| :: w.given[i] != w.given[j])
      && (forall j, k | 0 <= j < k < |w.db.boxes| :: w.db.boxes[j].validity != w.db.boxes[k].validity)
      && (forall i, j | 0 <= i < j < |w.stamps| :: w.stamps[i].name == w.stamps[j].name
            ==> w.stamps[i].modSeq < w.stamps[j].modSeq)
      && (forall i | 0 <= i < |w.db.msgs| :: w.db.msgs[i].state.Ready?
            ==> Issued(w.db.boxes, w.db.counters, w.db.msgs[i].box, w.db.msgs[i].modSeq))
  {
    RunSound(NEW, steps);
    var w := Run(NEW, steps);
    forall i | 0 <= i < |w.db.msgs|
      ensures w.db.msgs[i].state.Ready? ==> Issued(w.db.boxes, w.db.counters, w.db.msgs[i].box, w.db.msgs[i].modSeq)
    {
      assert RowOk(w.db, w.db.msgs[i]);
    }
  }

  /** A mailbox made or deleted gets a UIDVALIDITY above all there were. */
  lemma NewValidity(w: World, s: Step, k: nat)
    requires Enabled(w.db, s) && (s.Create? || s.Delete?) && k == Find(w.db.boxes, s.name)
    ensures k < |Do(w, s).db.boxes| && Above(w.db.boxes, Do(w, s).db.boxes[k].validity)
  {
    TopBounds(w.db.boxes);
  }
}
