/** A connection of the IMAP server (imap/imapserver): what it holds, which
    commands it lets through, and the mailbox updates it queues and writes. */
module ImapConn {
  import opened Bytes
  import opened Wrappers

  datatype Mode = NonAuth | Authenticated | Selected

  datatype Cmd =
    | CAPABILITY | COMPRESS | LOGOUT | NOOP | ID
    | LOGIN | AUTHENTICATE | STARTTLS
    | APPEND | CREATE | DELETE | ENABLE | EXAMINE | IDLE | LIST | LSUB | RENAME | SELECT | STATUS
    | SUBSCRIBE | UNSUBSCRIBE | XAPPLEPUSHSERVICE
    | CHECK | CLOSE | EXPUNGE | COPY | MOVE | FETCH | STORE | SEARCH

  /** The parser's mode gate. */
  predicate GoodMode(m: Mode, c: Cmd) {
    match c
    case CAPABILITY | COMPRESS | LOGOUT | NOOP | ID => true
    case LOGIN | AUTHENTICATE | STARTTLS => m.NonAuth?
    case APPEND | CREATE | DELETE | ENABLE | EXAMINE | IDLE | LIST | LSUB | RENAME | SELECT | STATUS
       | SUBSCRIBE | UNSUBSCRIBE | XAPPLEPUSHSERVICE => m.Authenticated? || m.Selected?
    case CHECK | CLOSE | EXPUNGE | COPY | MOVE | FETCH | STORE | SEARCH => m.Selected?
  }

  /** The handlers that call the session, and those that call the mailbox. */
  predicate UsesSession(c: Cmd) {
    c in {APPEND, CREATE, DELETE, EXAMINE, SELECT, LIST, LSUB, RENAME, STATUS, COPY, MOVE, XAPPLEPUSHSERVICE}
  }

  predicate UsesMailbox(c: Cmd) {
    c in {CLOSE, EXPUNGE, COPY, MOVE, FETCH, STORE, SEARCH}
  }

  datatype Kind = Exists | Expunge

  /** A change of mailbox `box`. */
  datatype Update = Update(kind: Kind, value: nat, skipSelf: bool, box: nat)

  // ----------------------------------------------------------------- flushing

  function Counts(us: seq<Update>): nat {
    if us == [] then 0 else (if us[0].kind.Exists? then 1 else 0) + Counts(us[1..])
  }

  /** Without the EXISTS updates in front of the last one. */
  function Fresh(us: seq<Update>): seq<Update> {
    if us == [] then []
    else if us[0].kind.Exists? && Counts(us[1..]) > 0 then Fresh(us[1..])
    else [us[0]] + Fresh(us[1..])
  }

  function Expunges(us: seq<Update>): seq<Update> {
    if us == [] then []
    else if us[0].kind.Expunge? then [us[0]] + Expunges(us[1..])
    else Expunges(us[1..])
  }

  function LastExists(us: seq<Update>): seq<Update> {
    if us == [] then []
    else if us[|us| - 1].kind.Exists? then [us[|us| - 1]]
    else LastExists(us[..|us| - 1])
  }

  function AllExists(us: seq<Update>): seq<Update> {
    if us == [] then []
    else if us[0].kind.Exists? then [us[0]] + AllExists(us[1..])
    else AllExists(us[1..])
  }

  /** All the EXPUNGEs are written, in order, and of the EXISTS only the
      newest. */
  lemma {:induction false} FreshKeeps(us: seq<Update>)
    ensures Expunges(Fresh(us)) == Expunges(us)
    ensures AllExists(Fresh(us)) == LastExists(us) && |LastExists(us)| == if Counts(us) > 0 then 1 else 0
  {
    if us != [] {
      var u, t := us[0], us[1..];
      FreshKeeps(t);
      LastOfMore(u, t);
      assert us == [u] + t;
      assert ([u] + Fresh(t))[1..] == Fresh(t);
    }
  }

  lemma {:induction false} LastOfMore(u: Update, t: seq<Update>)
    ensures LastExists([u] + t) == if LastExists(t) != [] then LastExists(t) else if u.kind.Exists? then [u] else []
    decreases |t|
  {
    var s := [u] + t;
    if t == [] {
      assert s == [u] && s[..0] == [];
    } else {
      assert s[|s| - 1] == t[|t| - 1] && s[..|s| - 1] == [u] + t[..|t| - 1];
      LastOfMore(u, t[..|t| - 1]);
    }
  }

  /** And an EXPUNGE that came in behind the newest EXISTS stays behind it. */
  lemma {:induction false} FreshInOrder(us: seq<Update>, vs: seq<Update>)
    requires Counts(vs) == 0
    ensures Fresh(us + vs) == Fresh(us) + vs && Counts(us + vs) == Counts(us)
  {
    if us == [] {
      assert us + vs == vs;
      FreshNone(vs);
    } else {
      assert (us + vs)[1..] == us[1..] + vs;
      FreshInOrder(us[1..], vs);
    }
  }

  lemma {:induction false} FreshNone(vs: seq<Update>)
    requires Counts(vs) == 0
    ensures Fresh(vs) == vs
  {
    if vs != [] {
      FreshNone(vs[1..]);
    }
  }

  // ------------------------------------------------------- what a state does

  /** What a connection holds, and the updates it has written so far. */
  datatype State = State(mode: Mode, session: bool, mailbox: Option<nat>, readOnly: bool, updates: seq<Update>,
                         idling: bool, idleStarted: bool, written: seq<Update>)

  const START := State(NonAuth, false, None, false, [], false, false, [])

  function Flushed(s: State): State {
    s.(updates := [], written := s.written + Fresh(s.updates))
  }

  /** closeMailbox: without a mailbox nothing changes. */
  function Closed(s: State): State {
    if s.mailbox.None? then s
    else s.(readOnly := false, mailbox := None, mode := Authenticated, updates := [], idling := false, idleStarted := false)
  }

  /** SELECT and EXAMINE: the mailbox, if it was found and could be asked. */
  function Opened(s: State, examine: bool, found: Option<nat>, infoOk: bool): State {
    var c := Closed(s).(readOnly := examine);
    if found.Some? && infoOk then c.(mailbox := found, mode := Selected)
    else c.(mailbox := None, mode := Authenticated)
  }

  /** One update arrives, from the connection itself or from another one. */
  function Received(s: State, u: Update, self: bool): State {
    if (self && u.skipSelf) || s.mailbox != Some(u.box) || !s.idleStarted then s
    else
      var t := s.(updates := s.updates + [u]);
      if !self && s.idling then Flushed(t) else t
  }

  datatype Env = Env(loginOk: bool, found: Option<nat>, infoOk: bool)

  /** A command, when the updates that wait have been written. What it sends to
      other connections and itself comes as updates of its own. */
  function Served(s0: State, c: Cmd, e: Env): State {
    var s := Flushed(s0);
    match c
    case LOGIN | AUTHENTICATE =>
      if s.mode.NonAuth? && e.loginOk then s.(mode := Authenticated, session := true) else s
    case SELECT => Opened(s, false, e.found, e.infoOk)
    case EXAMINE => Opened(s, true, e.found, e.infoOk)
    case CLOSE | LOGOUT => Closed(s)
    case IDLE => s.(idleStarted := true, idling := true)
    case _ => s
  }

  datatype Event =
    | Command(c: Cmd, e: Env)   // serveCmd, for IDLE up to where it waits
    | IdleDone                  // the line that ends IDLE
    | Receive(u: Update, self: bool)
    | Flush                     // APPEND and MOVE write once more at their end
    | Leave                     // the way out of serve, or a reply that cannot be sent

  /** While it idles a connection serves no command and sends nothing. */
  predicate Enabled(s: State, ev: Event) {
    match ev
    case Command(c, e) => !s.idling && GoodMode(s.mode, c)
    case IdleDone => s.idling
    case Receive(u, self) => self ==> !s.idling
    case Flush => !s.idling
    case Leave => true
  }

  function Step(s: State, ev: Event): State {
    match ev
    case Command(c, e) => Served(s, c, e)
    case IdleDone => s.(idling := false)
    case Receive(u, self) => Received(s, u, self)
    case Flush => Flushed(s)
    case Leave => Closed(s)
  }

  /** Selected means a mailbox, not authenticated no session; what waits to be
      written concerns the mailbox that is held, and nothing waits while the
      connection idles. */
  predicate Sound(s: State) {
    && (s.mode.Selected? <==> s.mailbox.Some?)
    && (s.mode.NonAuth? <==> !s.session)
    && (forall u | u in s.updates :: s.mailbox == Some(u.box))
    && (s.idling ==> s.idleStarted && s.updates == [])
  }

  lemma StepSound(s: State, ev: Event)
    requires Sound(s) && Enabled(s, ev)
    ensures Sound(Step(s, ev))
  {
  }

  /** In a sound state the gate lets through only commands whose handlers find
      what they call. */
  lemma GateIsSafe(s: State, c: Cmd)
    requires Sound(s) && GoodMode(s.mode, c)
    ensures UsesSession(c) ==> s.session
    ensures UsesMailbox(c) ==> s.mailbox.Some? && s.session
  {
  }

  function Run(s: State, evs: seq<Event>): State
    decreases |evs|
  {
    if evs == [] then s else Run(if Enabled(s, evs[0]) then Step(s, evs[0]) else s, evs[1..])
  }

  /** Over every run. */
  lemma {:induction false} RunSound(s: State, evs: seq<Event>)
    requires Sound(s)
    ensures Sound(Run(s, evs))
    decreases |evs|
  {
    if evs != [] {
      if Enabled(s, evs[0]) {
        StepSound(s, evs[0]);
      }
      RunSound(if Enabled(s, evs[0]) then Step(s, evs[0]) else s, evs[1..]);
    }
  }

  lemma RunsAreSafe(evs: seq<Event>, c: Cmd)
    ensures var s := Run(START, evs);
      && (s.mode.Selected? <==> s.mailbox.Some?) && (s.mode.NonAuth? <==> !s.session)
      && (forall u | u in s.updates :: s.mailbox == Some(u.box))
      && (GoodMode(s.mode, c) && UsesSession(c) ==> s.session)
      && (GoodMode(s.mode, c) && UsesMailbox(c) ==> s.mailbox.Some?)
  {
    RunSound(START, evs);
    hide Run;
    var s := Run(START, evs);
    if GoodMode(s.mode, c) {
      GateIsSafe(s, c);
    }
  }

  // ------------------------------------------------------- IDLE remembered

  /** A SELECT that opens mailbox `box`. */
  predicate Opening(e: Env, box: nat) { e.found == Some(box) && e.infoOk }

  /** After a SELECT that opens a mailbox, an update of it is queued without an
      IDLE of its own if and only if an IDLE was remembered and no mailbox was
      held: only leaving a mailbox makes the connection forget. Otherwise it is
      dropped. */
  lemma SelectQueues(s: State, e: Env, u: Update)
    requires Sound(s) && Enabled(s, Command(SELECT, e)) && Opening(e, u.box)
    ensures var t := Step(s, Command(SELECT, e));
      && t.mailbox == Some(u.box) && t.updates == []
      && Step(t, Receive(u, false)).updates == if s.idleStarted && s.mailbox.None? then [u] else []
  {
  }

  /** Event `i` of a run that takes place. */
  predicate Happens(evs: seq<Event>, i: nat)
    requires i < |evs|
  {
    Enabled(Run(START, evs[..i]), evs[i])
  }

  predicate IdleAt(evs: seq<Event>, i: nat)
    requires i < |evs|
  {
    Happens(evs, i) && evs[i].Command? && evs[i].c.IDLE?
  }

  /** Event `i` leaves a mailbox. */
  predicate LeavesAt(evs: seq<Event>, i: nat)
    requires i < |evs|
  {
    && Happens(evs, i) && Run(START, evs[..i]).mailbox.Some?
    && (evs[i].Leave? || (evs[i].Command? && evs[i].c in {SELECT, EXAMINE, CLOSE, LOGOUT}))
  }

  /** Over every run an IDLE is remembered if and only if there was one and no
      mailbox has been left since. */
  ghost predicate IdleSince(evs: seq<Event>, n: nat)
    requires n <= |evs|
  {
    exists i :: 0 <= i < n && IdleAt(evs, i) && forall j | i < j < n :: !LeavesAt(evs, j)
  }

  lemma {:induction false} RunMore(s: State, evs: seq<Event>, ev: Event)
    ensures var t := Run(s, evs); Run(s, evs + [ev]) == if Enabled(t, ev) then Step(t, ev) else t
    decreases |evs|
  {
    hide Step, Enabled;
    if evs == [] {
      assert [] + [ev] == [ev] && [ev][1..] == [];
    } else {
      assert (evs + [ev])[1..] == evs[1..] + [ev];
      RunMore(if Enabled(s, evs[0]) then Step(s, evs[0]) else s, evs[1..], ev);
    }
  }

  lemma IdleStep(s: State, ev: Event)
    requires Sound(s) && Enabled(s, ev)
    ensures Step(s, ev).idleStarted <==>
      (ev.Command? && ev.c.IDLE?) ||
      (s.idleStarted &&
        !(s.mailbox.Some? && (ev.Leave? || (ev.Command? && ev.c in {SELECT, EXAMINE, CLOSE, LOGOUT}))))
  {
    hide Fresh;
  }

  lemma {:induction false} IdleRemembered(evs: seq<Event>, n: nat)
    requires n <= |evs|
    ensures Run(START, evs[..n]).idleStarted <==> IdleSince(evs, n)
  {
    if n == 0 {
      assert evs[..0] == [] && Run(START, []) == START;
    } else {
      var m := n - 1;
      IdleRemembered(evs, m);
      assert evs[..n] == evs[..m] + [evs[m]];
      RunMore(START, evs[..m], evs[m]);
      RunSound(START, evs[..m]);
      var s := Run(START, evs[..m]);
      if Enabled(s, evs[m]) {
        IdleStep(s, evs[m]);
      }
      hide Run, Step, Enabled, Sound;
      if IdleSince(evs, m) {
        var i :| 0 <= i < m && IdleAt(evs, i) && forall j | i < j < m :: !LeavesAt(evs, j);
        assert !LeavesAt(evs, m) ==> IdleSince(evs, n);
      }
      if IdleAt(evs, m) {
        assert IdleSince(evs, n);
      }
      if IdleSince(evs, n) {
        var i :| 0 <= i < n && IdleAt(evs, i) && forall j | i < j < n :: !LeavesAt(evs, j);
        assert i < m ==> IdleSince(evs, m) && !LeavesAt(evs, m);
      }
    }
  }

  /** So in every run, a mailbox that is selected while none is held has its
      updates queued, without an IDLE of its own, if and only if there was an
      IDLE ever since the last mailbox was left. */
  lemma IdleOutlivesSelect(evs: seq<Event>, e: Env, u: Update)
    requires var s := Run(START, evs);
      s.mailbox.None? && Enabled(s, Command(SELECT, e)) && Opening(e, u.box)
    ensures var t := Run(START, evs + [Command(SELECT, e)] + [Receive(u, false)]);
      t.mailbox == Some(u.box) && t.updates == if IdleSince(evs, |evs|) then [u] else []
  {
    var s := Run(START, evs);
    RunSound(START, evs);
    IdleRemembered(evs, |evs|);
    assert evs[..|evs|] == evs;
    SelectQueues(s, e, u);
    RunMore(START, evs, Command(SELECT, e));
    RunMore(START, evs + [Command(SELECT, e)], Receive(u, false));
    var t := Step(s, Command(SELECT, e));
    assert Enabled(t, Receive(u, false)) && Step(t, Receive(u, false)).mailbox == t.mailbox;
    hide Run, Sound, IdleSince;
  }

  // ------------------------------------------------------------ connections

  class Conn {
    var mode: Mode
    var session: bool
    var mailbox: Option<nat>
    var readOnly: bool
    var updates: seq<Update>
    var idling: bool
    var idleStarted: bool
    // The updates written to the client.
    var written: seq<Update>

    function S(): State
      reads this
    {
      State(mode, session, mailbox, readOnly, updates, idling, idleStarted, written)
    }

    constructor ()
      ensures S() == START && Sound(S())
    {
      mode, session, mailbox, readOnly := NonAuth, false, None, false;
      updates, idling, idleStarted, written := [], false, false, [];
    }

    /** Drops the EXISTS updates that are out of date, and writes the others. */
    method WriteUpdates()
      modifies `updates, `written
      ensures S() == Flushed(old(S()))
    {
      ghost var all, written0 := updates, written;
      var countCount := 0;
      assert all[0..] == all;
      for i := 0 to |updates|
        invariant countCount + Counts(all[i..]) == Counts(all)
      {
        assert all[i..][1..] == all[i + 1..];
        if updates[i].kind.Exists? {
          countCount := countCount + 1;
        }
      }
      assert all[|all|..] == [];
      if countCount > 1 {
        DropStale(countCount);
      } else {
        FewCounts(all);
      }
      var us := updates;
      for i := 0 to |us|
        invariant written == written0 + us[..i]
      {
        assert us[..i + 1] == us[..i] + [us[i]];
        Assoc(written0, us[..i], [us[i]]);
        written := written + [us[i]];
      }
      assert us[..|us|] == us;
      updates := [];
    }

    method DropStale(count: nat)
      requires count == Counts(updates) > 1
      modifies `updates
      ensures updates == Fresh(old(updates))
    {
      var orig := updates;
      var countCount := count;
      updates := [];
      assert orig[0..] == orig && [] + Fresh(orig) == Fresh(orig);
      for i := 0 to |orig|
        invariant updates + Fresh(orig[i..]) == Fresh(orig)
        invariant countCount == Counts(orig[i..]) || (Counts(orig[i..]) == 0 && countCount == 1)
      {
        assert orig[i..][1..] == orig[i + 1..];
        var u := orig[i];
        Assoc(updates, [u], Fresh(orig[i + 1..]));
        if u.kind.Exists? && countCount > 1 {
          countCount := countCount - 1;
          continue;
        }
        updates := updates + [u];
      }
      assert orig[|orig|..] == [] && updates + [] == updates;
    }

    /** Part of sendIdleUpdate, for one connection of the user. */
    method Receive(u: Update, self: bool)
      modifies `updates, `written
      ensures S() == Received(old(S()), u, self)
    {
      if self {
        if !u.skipSelf && mailbox == Some(u.box) && idleStarted {
          updates := updates + [u];
        }
        return;
      }
      if mailbox == Some(u.box) && idleStarted {
        updates := updates + [u];
        if idling {
          WriteUpdates();
        }
      }
    }

    method CloseMailbox()
      modifies this
      ensures S() == Closed(old(S()))
    {
      if mailbox.None? {
        return;
      }
      readOnly := false;
      mailbox := None;
      mode := Authenticated;
      updates := [];
      idling := false;
      idleStarted := false;
    }

    method CmdSelect(examine: bool, found: Option<nat>, infoOk: bool)
      modifies this
      ensures S() == Opened(old(S()), examine, found, infoOk)
    {
      CloseMailbox();
      readOnly := examine;
      mailbox := found;
      if mailbox.None? {
        mode := Authenticated;
        return;
      }
      mode := Selected;
      if !infoOk {
        mailbox := None;
        mode := Authenticated;
      }
    }

    /** Serves a command the gate has let through; whatever it needs is there. */
    method ServeCmd(c: Cmd, e: Env)
      requires Sound(S()) && !idling && GoodMode(mode, c)
      modifies this
      ensures S() == Served(old(S()), c, e) && Sound(S())
    {
      GateIsSafe(S(), c);
      StepSound(S(), Command(c, e));
      hide Sound, GoodMode, Closed, Opened, Fresh;
      WriteUpdates();
      match c {
        case LOGIN =>
          if mode.NonAuth? && e.loginOk {
            mode, session := Authenticated, true;
          }
        case AUTHENTICATE =>
          if mode.NonAuth? && e.loginOk {
            mode, session := Authenticated, true;
          }
        case SELECT => CmdSelect(false, e.found, e.infoOk);
        case EXAMINE => CmdSelect(true, e.found, e.infoOk);
        case CLOSE => CloseMailbox();
        case LOGOUT => CloseMailbox();
        case IDLE =>
          idleStarted, idling := true, true;
          if mailbox.Some? {
            WriteUpdates();
          }
        case _ =>
      }
    }
  }

  lemma {:induction false} FewCounts(us: seq<Update>)
    requires Counts(us) <= 1
    ensures Fresh(us) == us
  {
    if us != [] {
      FewCounts(us[1..]);
    }
  }

  /** All connections of a user. */
  class User {
    var conns: seq<Conn>

    constructor ()
      ensures conns == []
    {
      conns := [];
    }

    /** Every connection with that mailbox hears of it, and no other. */
    method SendIdleUpdate(src: Conn, u: Update)
      requires forall i, j | 0 <= i < j < |conns| :: conns[i] != conns[j]
      modifies conns
      ensures conns == old(conns)
      ensures forall c | c in conns :: c.S() == Received(old(c.S()), u, c == src)
    {
      hide Received;
      for i := 0 to |conns|
        invariant conns == old(conns)
        invariant forall j | 0 <= j < i :: conns[j].S() == Received(old(conns[j].S()), u, conns[j] == src)
        invariant forall j | i <= j < |conns| :: conns[j].S() == old(conns[j].S())
      {
        conns[i].Receive(u, conns[i] == src);
      }
    }
  }
}
