/** What a run of statements on the tables adds up to (spilldb/spillbox): which
    names are found, what becomes of a row, and that UIDs and mod-sequences are
    given out without gaps. */
module MailRuns {
  import opened MailTables

  // ------------------------------------------------------------ mailbox names

  /** A mailbox of that name is there. */
  ghost predicate Has(boxes: seq<Mailbox>, name: string) {
    exists k :: 0 <= k < |boxes| && boxes[k].live && boxes[k].name == name
  }

  /** A new mailbox is found behind the others, which stay as they are. It is
      empty, also under a name that was used before; its first UID will be 1, and
      its UIDVALIDITY is 43, or one more than the highest there was. */
  lemma CreatedIs(w: World, name: string)
    requires Sound(w) && Enabled(w.db, Create(name))
    ensures var n, db := |w.db.boxes|, Do(w, Create(name)).db;
      && Find(db.boxes, name) == n && |db.boxes| == n + 1 && db.boxes[..n] == w.db.boxes
      && db.boxes[n].nextUid == 1 && db.msgs == w.db.msgs
      && (forall i | 0 <= i < |db.msgs| :: db.msgs[i].box != n)
      && NextValidity(w.db.boxes, db.boxes[n].validity)
  {
    var n, db := |w.db.boxes|, Do(w, Create(name)).db;
    forall i | 0 <= i < |db.msgs|
      ensures db.msgs[i].box != n
    {
      assert RowOk(w.db, w.db.msgs[i]);
    }
    TopIs(w.db.boxes);
    TopBounds(w.db.boxes);
    assert db.boxes[n].live && db.boxes[n].name == name;
    forall j | 0 <= j < n
      ensures !(db.boxes[j].live && db.boxes[j].name == name)
    {
      assert db.boxes[j] == w.db.boxes[j];
    }
  }

  /** A deleted mailbox is not found any more, and all others are. */
  lemma DeletedIs(w: World, name: string)
    requires Sound(w) && Enabled(w.db, Delete(name))
    ensures var k, db := Find(w.db.boxes, name), Do(w, Delete(name)).db;
      && |db.boxes| == |w.db.boxes| && !Has(db.boxes, name) && db.msgs == w.db.msgs
      && (forall j | 0 <= j < |db.boxes| && j != k :: db.boxes[j] == w.db.boxes[j])
      && NextValidity(w.db.boxes, db.boxes[k].validity)
  {
    TopIs(w.db.boxes);
    TopBounds(w.db.boxes);
  }

  ghost predicate NextValidity(boxes: seq<Mailbox>, v: nat) {
    && Above(boxes, v)
    && if boxes == [] then v == 43 else exists k :: 0 <= k < |boxes| && v == boxes[k].validity + 1
  }

  lemma {:induction false} TopIs(boxes: seq<Mailbox>)
    ensures if boxes == [] then Top(boxes) == 42
            else exists k :: 0 <= k < |boxes| && Top(boxes) == boxes[k].validity
  {
    if |boxes| > 1 {
      TopIs(boxes[..|boxes| - 1]);
      var k :| 0 <= k < |boxes| - 1 && Top(boxes[..|boxes| - 1]) == boxes[..|boxes| - 1][k].validity;
      assert boxes[k] == boxes[..|boxes| - 1][k];
      if Top(boxes) != boxes[k].validity {
        assert Top(boxes) == boxes[|boxes| - 1].validity;
      }
    } else if |boxes| == 1 {
      assert Top(boxes) == boxes[0].validity;
    }
  }

  /** Statement `i` of a run takes place. */
  ghost predicate Happens(steps: seq<Step>, i: nat)
    requires i < |steps|
  {
    Enabled(Run(NEW, steps[..i]).db, steps[i])
  }

  ghost predicate CreatedAt(steps: seq<Step>, i: nat, name: string)
    requires i < |steps|
  {
    steps[i] == Create(name) && Happens(steps, i)
  }

  ghost predicate DeletedAt(steps: seq<Step>, i: nat, name: string)
    requires i < |steps|
  {
    steps[i] == Delete(name) && Happens(steps, i)
  }

  /** The name was given to a mailbox, and none of that name was deleted
      since. */
  ghost predicate MadeSince(steps: seq<Step>, n: nat, name: string)
    requires n <= |steps|
  {
    exists i :: 0 <= i < n && CreatedAt(steps, i, name) && forall j | i < j < n :: !DeletedAt(steps, j, name)
  }

  lemma {:induction false} RunMore(w: World, steps: seq<Step>, s: Step)
    ensures var v := Run(w, steps); Run(w, steps + [s]) == if Enabled(v.db, s) then Do(v, s) else v
    decreases |steps|
  {
    hide Do, Enabled;
    if steps == [] {
      assert [] + [s] == [s] && [s][1..] == [];
    } else {
      assert (steps + [s])[1..] == steps[1..] + [s];
      RunMore(if Enabled(w.db, steps[0]) then Do(w, steps[0]) else w, steps[1..], s);
    }
  }

  /** The run up to statement `n`, from the one before it. */
  lemma RunTo(steps: seq<Step>, n: nat)
    requires 0 < n <= |steps|
    ensures var w := Run(NEW, steps[..n - 1]);
      && Sound(w)
      && Run(NEW, steps[..n]) == if Happens(steps, n - 1) then Do(w, steps[n - 1]) else w
  {
    hide Do, Enabled, Sound, Run;
    StartSound();
    RunSound(NEW, steps[..n - 1]);
    assert steps[..n] == steps[..n - 1] + [steps[n - 1]];
    RunMore(NEW, steps[..n - 1], steps[n - 1]);
  }

  lemma StartSound()
    ensures Sound(NEW)
  {
  }

  lemma HasCreated(w: World, made: string, name: string)
    requires Enabled(w.db, Create(made))
    ensures Has(Do(w, Create(made)).db.boxes, name) <==> made == name || Has(w.db.boxes, name)
  {
    var boxes, new_ := w.db.boxes, Do(w, Create(made)).db.boxes;
    var b := new_[|boxes|];
    assert new_ == boxes + [b] && b.live && b.name == made;
    hide Do, Enabled, Find;
    if Has(boxes, name) {
      var k :| 0 <= k < |boxes| && boxes[k].live && boxes[k].name == name;
      assert new_[k].live && new_[k].name == name;
    }
    if Has(new_, name) {
      var k :| 0 <= k < |new_| && new_[k].live && new_[k].name == name;
      assert k < |boxes| ==> boxes[k].live && boxes[k].name == name;
    }
  }

  lemma HasDeleted(w: World, gone: string, name: string)
    requires Sound(w) && Enabled(w.db, Delete(gone))
    ensures Has(Do(w, Delete(gone)).db.boxes, name) <==> gone != name && Has(w.db.boxes, name)
  {
    DeletedIs(w, gone);
    var boxes, new_ := w.db.boxes, Do(w, Delete(gone)).db.boxes;
    var g := Find(boxes, gone);
    assert boxes[g].name == gone && !new_[g].live;
    hide Do, Enabled, Find, Sound, NextValidity;
    if gone != name && Has(boxes, name) {
      var k :| 0 <= k < |boxes| && boxes[k].live && boxes[k].name == name;
      assert k != g && new_[k].live && new_[k].name == name;
    }
    if Has(new_, name) {
      var k :| 0 <= k < |new_| && new_[k].live && new_[k].name == name;
      assert k != g && boxes[k].live && boxes[k].name == name;
    }
  }

  lemma HasOther(w: World, s: Step, name: string)
    requires Enabled(w.db, s) && !s.Create? && !s.Delete?
    ensures Has(Do(w, s).db.boxes, name) <==> Has(w.db.boxes, name)
  {
    var boxes, new_ := w.db.boxes, Do(w, s).db.boxes;
    assert |new_| == |boxes|;
    assert forall k | 0 <= k < |boxes| :: new_[k].live == boxes[k].live && new_[k].name == boxes[k].name;
    hide Do, Enabled, Find;
    if Has(boxes, name) {
      var k :| 0 <= k < |boxes| && boxes[k].live && boxes[k].name == name;
      assert new_[k].live && new_[k].name == name;
    }
    if Has(new_, name) {
      var k :| 0 <= k < |new_| && new_[k].live && new_[k].name == name;
      assert boxes[k].live && boxes[k].name == name;
    }
  }

  lemma HasStep(w: World, s: Step, name: string)
    requires Sound(w) && Enabled(w.db, s)
    ensures Has(Do(w, s).db.boxes, name)
       <==> s == Create(name) || (Has(w.db.boxes, name) && s != Delete(name))
  {
    hide *;
    match s
    case Create(made) => HasCreated(w, made, name);
    case Delete(gone) => HasDeleted(w, gone, name);
    case _ => HasOther(w, s, name);
  }

  /** What one more statement means for the name. */
  lemma MadeMore(steps: seq<Step>, m: nat, name: string)
    requires m < |steps|
    ensures MadeSince(steps, m + 1, name)
       <==> CreatedAt(steps, m, name) || (MadeSince(steps, m, name) && !DeletedAt(steps, m, name))
  {
    hide CreatedAt, DeletedAt;
    if MadeSince(steps, m, name) && !DeletedAt(steps, m, name) {
      var i :| 0 <= i < m && CreatedAt(steps, i, name) && forall j | i < j < m :: !DeletedAt(steps, j, name);
      assert MadeSince(steps, m + 1, name);
    }
  }

  /** Over every run a name is found if and only if it was created and has not
      been deleted since. */
  lemma {:induction false} FoundRemembered(steps: seq<Step>, n: nat, name: string)
    requires n <= |steps|
    ensures Has(Run(NEW, steps[..n]).db.boxes, name) <==> MadeSince(steps, n, name)
  {
    if n == 0 {
      assert steps[..0] == [] && Run(NEW, []) == NEW;
    } else {
      hide Run, Do, Enabled, Sound, Has, MadeSince;
      FoundRemembered(steps, n - 1, name);
      RunTo(steps, n);
      MadeMore(steps, n - 1, name);
      if Happens(steps, n - 1) {
        HasStep(Run(NEW, steps[..n - 1]), steps[n - 1], name);
      }
    }
  }

  // --------------------------------------------------------------------- rows

  /** What one statement does to the rows: a new one comes last; in an old one
      the body stays for ever, and of the rest only what the statement is for
      changes. */
  lemma RowsStep(w: World, s: Step)
    requires Enabled(w.db, s)
    ensures var old_, new_ := w.db.msgs, Do(w, s).db.msgs;
      && |new_| == |old_| + (if s.Insert? then 1 else 0)
      && (s.Insert? ==> new_[|old_|] == s.msg)
      && (forall i | 0 <= i < |old_| :: new_[i].body == old_[i].body
            && (new_[i].state.Ready? <==> old_[i].state.Ready? && s != Expunge(i)))
      && (s.Restamp? ==> new_[s.row].flags == s.flags && new_[s.row].modSeq == s.modSeq)
      && (s.Relocate? ==> new_[s.row].box == s.box && new_[s.row].uid == s.uid && new_[s.row].modSeq == s.modSeq)
      && (forall i | 0 <= i < |old_| && !(s.Relocate? && s.row == i) ::
            new_[i].box == old_[i].box && new_[i].uid == old_[i].uid
            && (!(s.Restamp? && s.row == i) ==> new_[i].modSeq == old_[i].modSeq))
      && (forall i | 0 <= i < |old_| && !(s.Restamp? && s.row == i) :: new_[i].flags == old_[i].flags)
  {
  }

  /** Over every run: rows are never lost and keep their bodies, and one is there
      to see as long as no statement expunges it. */
  lemma {:induction false} RowsLast(w: World, steps: seq<Step>, i: nat)
    requires i < |w.db.msgs|
    ensures var v := Run(w, steps);
      && i < |v.db.msgs| && v.db.msgs[i].body == w.db.msgs[i].body
      && (v.db.msgs[i].state.Ready? <==> w.db.msgs[i].state.Ready? && Expunge(i) !in steps)
    decreases |steps|
  {
    if steps != [] {
      var s := steps[0];
      var next := if Enabled(w.db, s) then Do(w, s) else w;
      assert s == Expunge(i) ==> Enabled(w.db, s);
      assert Expunge(i) in steps <==> s == Expunge(i) || Expunge(i) in steps[1..];
      if Enabled(w.db, s) {
        RowsStep(w, s);
      }
      hide Do, Enabled;
      RowsLast(next, steps[1..], i);
    }
  }

  // ------------------------------------------------- UIDs and mod-sequences

  /** The UIDs handed out under a name and a UIDVALIDITY, oldest first. */
  function UidsGiven(given: seq<Id>, name: string, validity: nat): seq<nat> {
    if given == [] then []
    else
      var id := given[|given| - 1];
      UidsGiven(given[..|given| - 1], name, validity)
      + if id.name == name && id.validity == validity then [id.uid] else []
  }

  /** The mod-sequences handed out under a name, oldest first. */
  function SeqsGiven(stamps: seq<Stamp>, name: string): seq<nat> {
    if stamps == [] then []
    else
      var s := stamps[|stamps| - 1];
      SeqsGiven(stamps[..|stamps| - 1], name) + if s.name == name then [s.modSeq] else []
  }

  /** 1, 2, and so on, below `n`. */
  function UpTo(n: nat): (r: seq<nat>)
    ensures |r| == if n == 0 then 0 else n - 1
  {
    seq(if n == 0 then 0 else n - 1, i requires 0 <= i => i + 1)
  }

  ghost predicate DenseUids(boxes: seq<Mailbox>, given: seq<Id>) {
    forall k | 0 <= k < |boxes| && boxes[k].live ::
      UidsGiven(given, boxes[k].name, boxes[k].validity) == UpTo(boxes[k].nextUid)
  }

  ghost predicate DenseSeqs(counters: map<string, nat>, stamps: seq<Stamp>) {
    forall name | name in counters :: 0 < counters[name] && SeqsGiven(stamps, name) == UpTo(counters[name])
  }

  lemma {:induction false} NoneGiven(boxes: seq<Mailbox>, given: seq<Id>, name: string, v: nat)
    requires GivenOnce(boxes, given) && Above(boxes, v)
    ensures UidsGiven(given, name, v) == []
  {
    if given != [] {
      var rest := given[..|given| - 1];
      assert forall i | 0 <= i < |rest| :: rest[i] == given[i];
      assert !Fresh(boxes, given[|given| - 1]);
      NoneGiven(boxes, rest, name, v);
    }
  }

  lemma {:induction false} NoneStamped(stamps: seq<Stamp>, name: string)
    requires forall i | 0 <= i < |stamps| :: stamps[i].name != name
    ensures SeqsGiven(stamps, name) == []
  {
    if stamps != [] {
      NoneStamped(stamps[..|stamps| - 1], name);
    }
  }

  lemma GivenLast(given: seq<Id>, id: Id, name: string, validity: nat)
    ensures UidsGiven(given + [id], name, validity)
         == UidsGiven(given, name, validity) + if id.name == name && id.validity == validity then [id.uid] else []
  {
    assert (given + [id])[..|given|] == given;
  }

  lemma StampLast(stamps: seq<Stamp>, s: Stamp, name: string)
    ensures SeqsGiven(stamps + [s], name) == SeqsGiven(stamps, name) + if s.name == name then [s.modSeq] else []
  {
    assert (stamps + [s])[..|stamps|] == stamps;
  }

  lemma DenseUidsStep(w: World, s: Step)
    requires Sound(w) && Enabled(w.db, s) && DenseUids(w.db.boxes, w.given)
    ensures DenseUids(Do(w, s).db.boxes, Do(w, s).given)
  {
    var v := Do(w, s);
    var boxes, new_ := w.db.boxes, v.db.boxes;
    if s.Create? {
      TopBounds(boxes);
      NoneGiven(boxes, w.given, s.name, new_[|boxes|].validity);
    }
    forall k | 0 <= k < |new_| && new_[k].live
      ensures UidsGiven(v.given, new_[k].name, new_[k].validity) == UpTo(new_[k].nextUid)
    {
      if s.TakeUid? {
        var b := boxes[s.box];
        GivenLast(w.given, Id(b.name, b.validity, b.nextUid), new_[k].name, new_[k].validity);
        assert k != s.box ==> boxes[k].validity != b.validity;
        assert 0 < b.nextUid;
      }
    }
  }

  lemma SeqTaken(counters: map<string, nat>, stamps: seq<Stamp>, n: string)
    requires n in counters && DenseSeqs(counters, stamps)
    ensures DenseSeqs(counters[n := counters[n] + 1], stamps + [Stamp(n, counters[n])])
  {
    var next, more := counters[n := counters[n] + 1], stamps + [Stamp(n, counters[n])];
    forall name | name in next
      ensures 0 < next[name] && SeqsGiven(more, name) == UpTo(next[name])
    {
      StampLast(stamps, Stamp(n, counters[n]), name);
      UpToMore(counters[n]);
    }
  }

  lemma UpToMore(n: nat)
    ensures n > 0 ==> UpTo(n + 1) == UpTo(n) + [n]
    ensures UpTo(1) == []
  {
  }

  lemma SeqsBegun(counters: map<string, nat>, stamps: seq<Stamp>, n: string)
    requires n !in counters && DenseSeqs(counters, stamps) && Rising(counters, stamps)
    ensures DenseSeqs(counters[n := 1], stamps)
  {
    NoneStamped(stamps, n);
    UpToMore(1);
  }

  lemma DenseSeqsStep(w: World, s: Step)
    requires Sound(w) && Enabled(w.db, s) && DenseSeqs(w.db.counters, w.stamps)
    ensures DenseSeqs(Do(w, s).db.counters, Do(w, s).stamps)
  {
    hide DenseSeqs, Rising, GivenOnce, Rows, Apart, UniqueUids, Find;
    if s.Create? && s.name !in w.db.counters {
      SeqsBegun(w.db.counters, w.stamps, s.name);
    }
    if s.TakeSeq? {
      SeqTaken(w.db.counters, w.stamps, w.db.boxes[s.box].name);
    }
  }

  lemma {:induction false} DenseRun(w: World, steps: seq<Step>)
    requires Sound(w) && DenseUids(w.db.boxes, w.given) && DenseSeqs(w.db.counters, w.stamps)
    ensures var v := Run(w, steps); DenseUids(v.db.boxes, v.given) && DenseSeqs(v.db.counters, v.stamps)
    decreases |steps|
  {
    hide Sound, Do, Enabled, DenseUids, DenseSeqs;
    if steps != [] {
      var s := steps[0];
      if Enabled(w.db, s) {
        StepSound(w, s);
        DenseUidsStep(w, s);
        DenseSeqsStep(w, s);
      }
      DenseRun(if Enabled(w.db, s) then Do(w, s) else w, steps[1..]);
    }
  }

  /** Over every run: under its name and UIDVALIDITY a mailbox has given out
      the UIDs 1, 2 and so on, in this order and up to its next one, and a name
      has given out the mod-sequences 1, 2 and so on, through deleting and
      creating it again. */
  lemma NoGaps(steps: seq<Step>)
    ensures var w := Run(NEW, steps);
      && (forall k | 0 <= k < |w.db.boxes| && w.db.boxes[k].live ::
            var b := w.db.boxes[k]; UidsGiven(w.given, b.name, b.validity) == UpTo(b.nextUid))
      && (forall name | name in w.db.counters :: SeqsGiven(w.stamps, name) == UpTo(w.db.counters[name]))
  {
    StartSound();
    DenseRun(NEW, steps);
  }
}
