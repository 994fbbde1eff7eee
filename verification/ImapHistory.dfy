/** What a connection of the IMAP server holds and has written, told from the
    events of its run alone (imap/imapserver). */
module ImapHistory {
  import opened Bytes
  import opened Wrappers
  import opened ImapConn

  // ------------------------------------------------- logged in and selected

  /** The commands of the four states of section 3 of RFC 3501. */
  const ALWAYS := {CAPABILITY, COMPRESS, LOGOUT, NOOP, ID}
  const BEFORE_LOGIN := {LOGIN, AUTHENTICATE, STARTTLS}
  const AFTER_LOGIN := {APPEND, CREATE, DELETE, ENABLE, EXAMINE, IDLE, LIST, LSUB, RENAME, SELECT, STATUS, SUBSCRIBE,
                        UNSUBSCRIBE, XAPPLEPUSHSERVICE}
  const WITH_MAILBOX := {CHECK, CLOSE, EXPUNGE, COPY, MOVE, FETCH, STORE, SEARCH}

  lemma GateMeans(m: Mode, c: Cmd)
    ensures GoodMode(m, c) <==>
      || c in ALWAYS
      || (c in BEFORE_LOGIN && m == NonAuth)
      || (c in AFTER_LOGIN && m != NonAuth)
      || (c in WITH_MAILBOX && m == Selected)
  {
  }

  predicate LogsIn(ev: Event) { ev.Command? && ev.c in {LOGIN, AUTHENTICATE} && ev.e.loginOk }

  /** A SELECT or EXAMINE that opens `box`; `examine` tells which. */
  predicate Opens(ev: Event, box: nat, examine: bool) {
    ev.Command? && ev.c == (if examine then EXAMINE else SELECT) && Opening(ev.e, box)
  }

  predicate Leaving(ev: Event) {
    ev.Leave? || (ev.Command? && ev.c in {SELECT, EXAMINE, CLOSE, LOGOUT})
  }

  ghost predicate LoggedIn(evs: seq<Event>, n: nat)
    requires n <= |evs|
  {
    exists i :: 0 <= i < n && LogsIn(evs[i]) && Happens(evs, i)
  }

  ghost predicate HeldSince(evs: seq<Event>, n: nat, box: nat, examine: bool)
    requires n <= |evs|
  {
    exists i :: 0 <= i < n && Opens(evs[i], box, examine) && Happens(evs, i) && forall j | i < j < n :: !LeavesAt(evs, j)
  }

  lemma SessionStep(s: State, ev: Event)
    requires Sound(s) && Enabled(s, ev)
    ensures Step(s, ev).session <==> s.session || LogsIn(ev)
  {
    hide Fresh;
  }

  predicate Holds(s: State, box: nat, examine: bool) { s.mailbox == Some(box) && s.readOnly == examine }

  lemma HoldsStep(s: State, ev: Event, box: nat, examine: bool)
    requires Sound(s) && Enabled(s, ev)
    ensures Holds(Step(s, ev), box, examine)
       <==> Opens(ev, box, examine) || (Holds(s, box, examine) && !Leaving(ev))
  {
    hide Fresh;
  }

  /** The run up to event `n`, from the one before it. */
  lemma RunTo(evs: seq<Event>, n: nat)
    requires 0 < n <= |evs|
    ensures var s := Run(START, evs[..n - 1]);
      && Sound(s)
      && Run(START, evs[..n]) == if Happens(evs, n - 1) then Step(s, evs[n - 1]) else s
  {
    hide Step, Enabled, Run;
    RunSound(START, evs[..n - 1]);
    assert evs[..n] == evs[..n - 1] + [evs[n - 1]];
    RunMore(START, evs[..n - 1], evs[n - 1]);
  }

  /** Over every run there is a session if and only if a login succeeded. */
  lemma {:induction false} LoginRemembered(evs: seq<Event>, n: nat)
    requires n <= |evs|
    ensures Run(START, evs[..n]).session <==> LoggedIn(evs, n)
  {
    if n == 0 {
      assert evs[..0] == [] && Run(START, []) == START;
    } else {
      hide Run, Step, Enabled, Sound, LogsIn;
      LoginRemembered(evs, n - 1);
      RunTo(evs, n);
      if Happens(evs, n - 1) {
        SessionStep(Run(START, evs[..n - 1]), evs[n - 1]);
      }
    }
  }

  lemma HeldMore(evs: seq<Event>, m: nat, box: nat, examine: bool)
    requires m < |evs|
    ensures HeldSince(evs, m + 1, box, examine)
       <==> (Opens(evs[m], box, examine) && Happens(evs, m)) || (HeldSince(evs, m, box, examine) && !LeavesAt(evs, m))
  {
    hide Opens, Happens, LeavesAt;
    if HeldSince(evs, m, box, examine) && !LeavesAt(evs, m) {
      var i :| 0 <= i < m && Opens(evs[i], box, examine) && Happens(evs, i) && forall j | i < j < m :: !LeavesAt(evs, j);
      assert HeldSince(evs, m + 1, box, examine);
    }
  }

  /** Over every run a mailbox is held, for reading only or not, if and only if
      an EXAMINE or a SELECT opened it, and none has been left since. */
  lemma {:induction false} HeldRemembered(evs: seq<Event>, n: nat, box: nat, examine: bool)
    requires n <= |evs|
    ensures Holds(Run(START, evs[..n]), box, examine) <==> HeldSince(evs, n, box, examine)
  {
    if n == 0 {
      assert evs[..0] == [] && Run(START, []) == START;
    } else {
      hide Run, Step, Enabled, Sound, HeldSince, Opens;
      HeldRemembered(evs, n - 1, box, examine);
      RunTo(evs, n);
      HeldMore(evs, n - 1, box, examine);
      if Happens(evs, n - 1) {
        HoldsStep(Run(START, evs[..n - 1]), evs[n - 1], box, examine);
      }
    }
  }

  ghost predicate SomeHeld(evs: seq<Event>) {
    exists box, examine :: HeldSince(evs, |evs|, box, examine)
  }

  /** So in every run the history alone tells which commands are served next:
      those of any state, those to log in with until a login has succeeded,
      those of a user from then on, and those of a mailbox as long as one is
      held; but none while the connection idles. */
  lemma ServedNext(evs: seq<Event>, c: Cmd, e: Env)
    ensures var s := Run(START, evs);
      Enabled(s, Command(c, e)) <==>
        (&& !s.idling
         && (|| c in ALWAYS
             || (c in BEFORE_LOGIN && !LoggedIn(evs, |evs|))
             || (c in AFTER_LOGIN && LoggedIn(evs, |evs|))
             || (c in WITH_MAILBOX && SomeHeld(evs))))
  {
    var s := Run(START, evs);
    assert evs[..|evs|] == evs;
    RunSound(START, evs);
    LoginRemembered(evs, |evs|);
    GateMeans(s.mode, c);
    hide Run, HeldSince, LoggedIn, GoodMode;
    forall box, examine
      ensures Holds(s, box, examine) <==> HeldSince(evs, |evs|, box, examine)
    {
      HeldRemembered(evs, |evs|, box, examine);
    }
    if s.mailbox.Some? {
      assert Holds(s, s.mailbox.value, s.readOnly);
    }
  }

  /** A mailbox can be left at any time, and then nothing of it remains: neither
      its updates nor its being read only, and no IDLE. */
  lemma LeavingMeans(s: State, ev: Event)
    requires s.mailbox.Some? && (ev.Leave? || (ev.Command? && ev.c in {CLOSE, LOGOUT}))
    ensures var t := Step(s, ev);
      && t.mailbox.None? && t.mode == Authenticated && !t.readOnly && t.updates == [] && !t.idling && !t.idleStarted
      && t.session == s.session && (ev.Leave? ==> t.written == s.written)
    ensures Enabled(s, Leave)
  {
    hide Fresh;
  }

  // ------------------------------------------------------- what is written

  lemma {:induction false} ExpungesAppend(a: seq<Update>, b: seq<Update>)
    ensures Expunges(a + b) == Expunges(a) + Expunges(b)
    ensures AllExists(a + b) == AllExists(a) + AllExists(b)
    decreases |a|
  {
    if a == [] {
      assert a + b == b;
    } else {
      assert (a + b)[1..] == a[1..] + b;
      ExpungesAppend(a[1..], b);
    }
  }

  function Last(us: seq<Update>): seq<Update> {
    if us == [] then [] else [us[|us| - 1]]
  }

  lemma {:induction false} LastExistsIs(us: seq<Update>)
    ensures LastExists(us) == Last(AllExists(us))
    decreases |us|
  {
    if us != [] {
      var t := us[1..];
      LastExistsIs(t);
      assert us == [us[0]] + t;
      LastOfMore(us[0], t);
    }
  }

  /** The newest EXISTS of two lists. */
  lemma LastExistsAppend(a: seq<Update>, b: seq<Update>)
    ensures LastExists(a + b) == if LastExists(b) != [] then LastExists(b) else LastExists(a)
  {
    hide LastExists, AllExists, Expunges;
    ExpungesAppend(a, b);
    LastExistsIs(a);
    LastExistsIs(b);
    LastExistsIs(a + b);
    var x, y := AllExists(a), AllExists(b);
    if y == [] {
      assert x + y == x;
    } else {
      assert (x + y)[|x + y| - 1] == y[|y| - 1];
    }
  }

  lemma LastOfFresh(us: seq<Update>)
    ensures LastExists(Fresh(us)) == LastExists(us)
  {
    hide LastExists, AllExists, Expunges, Fresh;
    FreshKeeps(us);
    LastExistsIs(Fresh(us));
  }

  /** Before anything else a command writes all that waits: every EXPUNGE, in
      order, and the newest count. */
  lemma CommandFlushes(s: State, c: Cmd, e: Env)
    ensures var t := Step(s, Command(c, e));
      && t.updates == []
      && Expunges(t.written) == Expunges(s.written) + Expunges(s.updates)
      && AllExists(t.written) == AllExists(s.written) + LastExists(s.updates)
  {
    var t := Step(s, Command(c, e));
    assert t.updates == [] && t.written == s.written + Fresh(s.updates);
    hide *;
    FreshKeeps(s.updates);
    ExpungesAppend(s.written, Fresh(s.updates));
  }

  /** The updates of the mailbox that reach the connection in a run; its own
      only if they are meant for itself, too. */
  function Arrived(s: State, evs: seq<Event>): seq<Update>
    decreases |evs|
  {
    if evs == [] then []
    else if !Enabled(s, evs[0]) then Arrived(s, evs[1..])
    else
      (match evs[0]
       case Receive(u, self) => if s.mailbox == Some(u.box) && !(self && u.skipSelf) then [u] else []
       case _ => [])
      + Arrived(Step(s, evs[0]), evs[1..])
  }

  /** Whatever was written or waits says as much as the updates do: the same
      EXPUNGEs, and the same newest count. */
  ghost predicate Tells(written: seq<Update>, waits: seq<Update>, us: seq<Update>) {
    && Expunges(written) + Expunges(waits) == Expunges(us)
    && LastExists(written + waits) == LastExists(us)
  }

  lemma QuietStep(s: State, ev: Event)
    requires Sound(s) && Enabled(s, ev) && s.mailbox.Some? && s.idleStarted && !Leaving(ev)
    ensures var t := Step(s, ev);
      && t.mailbox == s.mailbox && t.idleStarted
      && var more := if ev.Receive? && s.mailbox == Some(ev.u.box) && !(ev.self && ev.u.skipSelf) then [ev.u] else [];
      && (|| (t.written == s.written && t.updates == s.updates + more)
          || (t.written == s.written + Fresh(s.updates + more) && t.updates == []))
  {
    hide Fresh;
    assert s.updates + [] == s.updates;
  }

  lemma TellsMore(written: seq<Update>, waits: seq<Update>, us: seq<Update>, more: seq<Update>)
    requires Tells(written, waits, us)
    ensures Tells(written, waits + more, us + more)
  {
    hide Expunges, LastExists, AllExists;
    ExpungesAppend(us, more);
    ExpungesAppend(waits, more);
    Assoc(Expunges(written), Expunges(waits), Expunges(more));
    LastExistsAppend(us, more);
    LastExistsAppend(written + waits, more);
    Assoc(written, waits, more);
  }

  lemma TellsFlushed(written: seq<Update>, waits: seq<Update>, us: seq<Update>)
    requires Tells(written, waits, us)
    ensures Tells(written + Fresh(waits), [], us)
  {
    assert Expunges([]) == [];
    hide Expunges, LastExists, AllExists, Fresh;
    FreshKeeps(waits);
    ExpungesAppend(written, Fresh(waits));
    LastOfFresh(waits);
    LastExistsAppend(written, Fresh(waits));
    LastExistsAppend(written, waits);
    assert written + Fresh(waits) + [] == written + Fresh(waits);
    assert Expunges(written + Fresh(waits)) + [] == Expunges(written + Fresh(waits));
  }

  lemma ArrivedStep(s: State, evs: seq<Event>)
    requires evs != []
    ensures var ev := evs[0];
      Arrived(s, evs) ==
        if !Enabled(s, ev) then Arrived(s, evs[1..])
        else (if ev.Receive? && s.mailbox == Some(ev.u.box) && !(ev.self && ev.u.skipSelf) then [ev.u] else [])
             + Arrived(Step(s, ev), evs[1..])
  {
    hide Enabled, Step;
  }

  /** As long as the mailbox is not left after an IDLE, no EXPUNGE is lost,
      repeated or put in another place, and the newest count is never lost: what
      was written or waits tells just what arrived. */
  lemma {:induction false} NothingLost(s: State, evs: seq<Event>, us: seq<Update>)
    requires Sound(s) && s.mailbox.Some? && s.idleStarted && Tells(s.written, s.updates, us)
    requires forall i | 0 <= i < |evs| :: !Leaving(evs[i])
    ensures var t := Run(s, evs);
      t.mailbox == s.mailbox && t.idleStarted && Tells(t.written, t.updates, us + Arrived(s, evs))
    decreases |evs|
  {
    hide Sound, Enabled, Step, Tells, Leaving;
    if evs == [] {
      assert us + [] == us;
    } else {
      var ev := evs[0];
      ArrivedStep(s, evs);
      if Enabled(s, ev) {
        var more := if ev.Receive? && s.mailbox == Some(ev.u.box) && !(ev.self && ev.u.skipSelf) then [ev.u] else [];
        QuietStep(s, ev);
        StepSound(s, ev);
        TellsMore(s.written, s.updates, us, more);
        TellsFlushed(s.written, s.updates + more, us + more);
        NothingLost(Step(s, ev), evs[1..], us + more);
        Assoc(us, more, Arrived(Step(s, ev), evs[1..]));
      } else {
        NothingLost(s, evs[1..], us);
      }
    }
  }
}
