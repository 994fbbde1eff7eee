/** What the replies of the SMTP server tell a client (smtp/smtpserver): which
    code stands for what, and that every mail acknowledged has been stored. */
module SmtpReplies {
  import opened Bytes
  import opened Wrappers
  import opened SmtpSession

  /** The terminator is a line of one dot; a dot in front of a line is sent
      twice, and one is taken off (section 4.5.2 of RFC 5321). */
  lemma DotsMean(l: seq<byte>)
    ensures TERMINATOR == Octets(".\r\n")
    ensures l != [] && l[0] == '.' as int ==> Stuff(l) == Octets(".") + l
    ensures l == [] || l[0] != '.' as int ==> Stuff(l) == l && Unstuff(l) == l
    ensures Unstuff(Octets(".") + l) == l
  {
    assert Octets(".") == [0x2E];
    assert ([0x2E] + l)[1..] == l;
  }

  /** An address is good if an "@" stands in it, but not in front. */
  lemma AddressMeans(a: Option<seq<byte>>)
    ensures GoodAddress(a) <==> a.Some? && '@' as int in a.value && a.value[0] != '@' as int
  {
  }

  // ------------------------------------------------------------ DATA and RCPT

  /** When DATA closes the message, the reply is what the message answered to
      that: 250 if it is closed, 451 or 550 if it failed for now or for good, and
      then the session ends. */
  lemma DataReplies(c: Config, s: State)
    requires s.open && s.logs != [] && s.numRcpts > 0 && s.HasTLS(c)
    ensures var o := DoData(c, s, true);
      && (!o.s.open ==>
        && o.s.logs != [] && o.s.Current().answers == s.Current().answers
        && var r := s.Current().answers.closed(o.s.Current().calls);
        && (o.code == 250 <==> r.Closed?) && (o.code == 451 <==> r.TemporaryFailure?)
        && (o.code == 550 <==> r.Failure?) && (o.more <==> r.Closed?))
      && (o.s.open ==> o.code != 250 && o.code != 451 && !o.more)
  {
    hide Take;
  }

  /** DATA out of turn changes nothing. */
  lemma DataRefused(c: Config, s: State, noArg: bool)
    requires s.Formed() && !(s.HasTLS(c) && noArg && s.open && s.numRcpts > 0)
    ensures var o := DoData(c, s, noArg);
      o.s == s && o.more && o.code == if !s.HasTLS(c) then 530 else if !noArg then 501 else 503
  {
  }

  /** RCPT is accepted if and only if there is room for the recipient, the address
      is good and the message takes it; each other answer has its code, and only
      an error ends the session. */
  lemma RcptReplies(c: Config, s: State, addr: Option<seq<byte>>)
    requires s.Formed()
    ensures var o := DoRcpt(c, s, addr);
      if !s.HasTLS(c) then o.code == 530 && o.more
      else if !s.open then o.code == 503 && o.more
      else if s.numRcpts + 1 >= c.maxRecipients then o.code == 452 && o.more
      else if !GoodAddress(addr) then o.code == 501 && o.more
      else
        var r := s.Current().answers.added(s.Current().calls + [Call.AddRecipient(addr.value)]);
        && (o.code == 250 <==> r.Added?) && (o.code == 550 <==> r.Refused? || r.Errored?)
        && (o.more <==> !r.Errored?)
  {
    hide GoodAddress;
  }

  /** MAIL is accepted if and only if the sender may and no error is met; the
      session ends when the server shuts down or meets one. */
  lemma MailReplies(c: Config, s: State, addr: Option<seq<byte>>, w: Opening)
    ensures var o := DoMail(c, s, addr, w);
      if !s.HasTLS(c) || (c.mustAuth && s.authToken == 0) then o.code == 530 && o.more
      else if s.open then o.code == 503 && o.more
      else if w.shutdown then o.code == 451 && !o.more
      else if !GoodAddress(addr) then o.code == 501 && o.more
      else (o.code == 250 <==> !w.failed) && (o.code == 451 <==> w.failed) && (o.more <==> !w.failed)
  {
    hide GoodAddress;
  }

  /** The other commands. */
  lemma OtherReplies(c: Config, s: State, cmd: Cmd)
    requires s.Formed()
    ensures var o := Do(c, s, cmd);
      && (cmd.Noop? || cmd.Helo? ==> o.s == s && o.code == 250 && o.more)
      && (cmd.Quit? ==> o.s == s && (o.code == 221 <==> cmd.noArg) && (o.code == 501 <==> !cmd.noArg) && (o.more <==> !cmd.noArg))
      && (cmd.StartTLS? || cmd.Auth? || cmd.Rset? ==> o.more)
      && (cmd.StartTLS? ==> (o.code == 454 <==> s.tls) && (o.code == 501 <==> !s.tls && !cmd.noArg))
      && (cmd.StartTLS? ==> (o.code == 220 <==> !s.tls && cmd.noArg) && (o.code != 220 ==> o.s == s))
      && (cmd.Auth? ==> (o.code == 451 <==> !c.hasAuth) && (o.code == 504 <==> c.hasAuth && cmd.answer.UnknownType?))
      && (cmd.Auth? ==> (o.code == 500 <==> c.hasAuth && cmd.answer.BadLogin?))
      && (cmd.Auth? ==> (o.code == 235 <==> c.hasAuth && cmd.answer.Token? && cmd.answer.token != 0))
      && (cmd.Auth? ==> (o.code == 535 <==> c.hasAuth && cmd.answer == Token(0)))
      && (cmd.Rset? ==> (o.code == 530 <==> !s.HasTLS(c)) && (o.code == 501 <==> s.HasTLS(c) && !cmd.noArg))
      && (cmd.Rset? && s.HasTLS(c) && cmd.noArg ==> !o.s.open && o.s.numRcpts == 0 && o.code == SILENT)
      && (cmd.Unknown? ==> o.s == s && o.code == 502 && o.more)
  {
    hide DoMail, DoRcpt, DoData;
  }

  // ------------------------------------------------- what is acknowledged

  /** The message was closed last, and has said that it is. */
  predicate IsStored(l: Log) { l.calls != [] && l.calls[|l.calls| - 1].Close? && l.answers.closed(l.calls).Closed? }

  function Stored(logs: seq<Log>): seq<Log> {
    if logs == [] then []
    else Stored(logs[..|logs| - 1]) + if IsStored(logs[|logs| - 1]) then [logs[|logs| - 1]] else []
  }

  /** The messages as they are when the session has just answered 250 to DATA. */
  ghost function Acknowledged(c: Config, s: State, cmds: seq<Cmd>): seq<Log>
    requires s.Formed()
    decreases |cmds|
  {
    if cmds == [] then []
    else
      var o := Do(c, s, cmds[0]);
      (if cmds[0].DataCmd? && o.code == 250 && o.s.logs != [] then [o.s.Current()] else [])
      + if o.more then Acknowledged(c, o.s, cmds[1..]) else []
  }

  lemma StoredLast(logs: seq<Log>, l: Log)
    ensures Stored(logs + [l]) == Stored(logs) + if IsStored(l) then [l] else []
  {
    assert (logs + [l])[..|logs|] == logs;
  }

  /** Only the last message is another. */
  lemma StoredCalled(s: State, calls: seq<Call>)
    requires s.logs != [] && !IsStored(s.Current())
    ensures var l := s.Current().(calls := calls);
      Stored(s.Called(calls).logs) == Stored(s.logs) + if IsStored(l) then [l] else []
  {
    hide IsStored;
    var init, l := s.logs[..|s.logs| - 1], s.Current().(calls := calls);
    assert s.logs == init + [s.Current()] && s.Called(calls).logs == init + [l];
    StoredLast(init, s.Current());
    StoredLast(init, l);
    assert Stored(init) + [] == Stored(init);
  }

  lemma OpenNotStored(c: Config, s: State)
    requires Tidy(c, s) && s.open
    ensures !IsStored(s.Current())
  {
    OpenMeans(s.Current().calls);
  }

  lemma CallsNotStored(l: Log, calls: seq<Call>, k: Call)
    requires !k.Close?
    ensures !IsStored(l.(calls := calls + [k]))
  {
  }

  /** Each command: what becomes stored is what is acknowledged. */
  lemma DoStores(c: Config, s: State, cmd: Cmd)
    requires Sound(c, s)
    ensures var o := Do(c, s, cmd);
      Stored(o.s.logs) == Stored(s.logs) + if cmd.DataCmd? && o.code == 250 && o.s.logs != [] then [o.s.Current()] else []
  {
    if s.open {
      OpenNotStored(c, s);
    }
    assert Stored(s.logs) + [] == Stored(s.logs);
    match cmd {
      case Mail(addr, opening) =>
        if Opens(c, s, cmd) {
          StoredLast(s.logs, Log(opening.message.value, []));
        }
        hide GoodAddress, Stored, PhaseOf, Written;
      case Rcpt(addr) => RcptStores(c, s, addr);
      case DataCmd(noArg) => DataStores(c, s, noArg);
      case Rset(noArg) =>
        if s.open {
          CallsNotStored(s.Current(), s.Current().calls, Call.Cancel);
          StoredCalled(s, s.Current().calls + [Call.Cancel]);
        }
        hide Stored, IsStored, PhaseOf, Written;
      case _ =>
        hide DoMail, DoRcpt, DoData, DoRset, Stored, PhaseOf, Written;
    }
  }

  lemma RcptStores(c: Config, s: State, addr: Option<seq<byte>>)
    requires s.Formed() && (s.open ==> !IsStored(s.Current()))
    ensures Stored(DoRcpt(c, s, addr).s.logs) == Stored(s.logs)
  {
    RcptIs(c, s, addr);
    if s.open && GoodAddress(addr) {
      var k := Call.AddRecipient(addr.value);
      CallsNotStored(s.Current(), s.Current().calls, k);
      StoredCalled(s, s.Current().calls + [k]);
      assert Stored(s.logs) + [] == Stored(s.logs);
    }
    hide DoRcpt, GoodAddress, Stored, IsStored;
  }

  lemma DataStores(c: Config, s: State, noArg: bool)
    requires Sound(c, s) && (s.open ==> !IsStored(s.Current()))
    ensures var o := DoData(c, s, noArg);
      Stored(o.s.logs) == Stored(s.logs) + if o.code == 250 && o.s.logs != [] then [o.s.Current()] else []
  {
    assert Stored(s.logs) + [] == Stored(s.logs);
    if s.HasTLS(c) && noArg && s.open && s.numRcpts > 0 {
      var t := Take(s.Current().answers, s.Current().calls, s.input, 0, c.maxSize);
      DataIs(c, s, t);
      DataReplies(c, s);
      Unwritten(c, s);
      OpenMeans(t.calls);
      StoredCalled(s, t.calls);
      StoredCalled(s, t.calls + [Call.Close]);
      ClosedIs(s.Current(), t.calls);
      NotClosed(s.Current(), t.calls);
      hide DoData, Take, ReadData, Stored, IsStored, PhaseOf, Written, Made, Writes;
    } else {
      DataRefused(c, s, noArg);
      hide DoData, Stored, PhaseOf, Written;
    }
  }

  lemma ClosedIs(l: Log, calls: seq<Call>)
    ensures IsStored(l.(calls := calls + [Call.Close])) <==> l.answers.closed(calls + [Call.Close]).Closed?
  {
  }

  lemma NotClosed(l: Log, calls: seq<Call>)
    requires forall i | 0 <= i < |calls| :: !calls[i].Close?
    ensures !IsStored(l.(calls := calls))
  {
  }

  lemma {:induction false} RunStores(c: Config, s: State, cmds: seq<Cmd>)
    requires Sound(c, s)
    ensures Stored(Left(Run(c, s, cmds).s).logs) == Stored(s.logs) + Acknowledged(c, s, cmds)
    decreases |cmds|
  {
    assert s.Formed();
    hide Do, Stored, IsStored, PhaseOf, Written, Tidy;
    if cmds == [] {
      LeftStores(c, s);
      assert Stored(s.logs) + [] == Stored(s.logs);
    } else {
      var o, r := Do(c, s, cmds[0]), cmds[1..];
      var now := if cmds[0].DataCmd? && o.code == 250 && o.s.logs != [] then [o.s.Current()] else [];
      DoSound(c, s, cmds[0]);
      DoStores(c, s, cmds[0]);
      if o.more {
        RunStores(c, o.s, r);
        Assoc(Stored(s.logs), now, Acknowledged(c, o.s, r));
      } else {
        LeftStores(c, o.s);
        assert now + [] == now;
      }
    }
  }

  lemma LeftStores(c: Config, s: State)
    requires Tidy(c, s)
    ensures Stored(Left(s).logs) == Stored(s.logs)
  {
    if s.open {
      OpenNotStored(c, s);
      CallsNotStored(s.Current(), s.Current().calls, Call.Cancel);
      StoredCalled(s, s.Current().calls + [Call.Cancel]);
      assert Stored(s.logs) + [] == Stored(s.logs);
    }
    hide Stored, IsStored, PhaseOf, Written;
  }

  /** Over every run, the messages that were closed and said so are, in order,
      exactly those for which DATA was answered with 250: no mail is acknowledged
      that was not stored, and none is stored twice or without a word. */
  lemma AcknowledgedIsStored(c: Config, input: seq<byte>, cmds: seq<Cmd>)
    ensures var s := Start(c, input); Stored(Left(Run(c, s, cmds).s).logs) == Acknowledged(c, s, cmds)
  {
    var s := Start(c, input);
    RunStores(c, s, cmds);
    assert Stored([]) + Acknowledged(c, s, cmds) == Acknowledged(c, s, cmds);
  }
}
