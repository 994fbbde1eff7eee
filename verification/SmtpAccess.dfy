/** Who may send through an SMTP session, told from the commands it has served
    (smtp/smtpserver), and which lines it reads. */
module SmtpAccess {
  import opened Bytes
  import opened Wrappers
  import opened SmtpSession

  /** What is read as a line ends with its first line end, and has at most 4096
      bytes; without one there is no line. */
  lemma LineMeans(input: seq<byte>, l: seq<byte>)
    ensures Line(input) == Some(l) <==>
      && l <= input && 0 < |l| <= 4096 && l[|l| - 1] == '\n' as int
      && forall i | 0 <= i < |l| - 1 :: l[i] != '\n' as int
  {
    var k := IndexByte(input, LF);
    if l <= input && 0 < |l| && l[|l| - 1] == '\n' as int && (forall i | 0 <= i < |l| - 1 :: l[i] != '\n' as int) {
      assert input[|l| - 1] == LF;
      assert forall i | 0 <= i < |l| - 1 :: input[i] == l[i];
      assert k == |l| - 1;
      assert input[..k + 1] == l;
    }
  }

  /** An AUTH that is answered, well or badly. */
  predicate Admits(c: Config, cmd: Cmd) { c.hasAuth && cmd.Auth? && cmd.answer.Token? && cmd.answer.token != 0 }

  predicate Rejects(c: Config, cmd: Cmd) { c.hasAuth && cmd.Auth? && cmd.answer.Token? && cmd.answer.token == 0 }

  predicate Secures(cmd: Cmd) { cmd.StartTLS? && cmd.noArg }

  ghost predicate Admitted(c: Config, cmds: seq<Cmd>, n: nat)
    requires n <= |cmds|
  {
    exists i :: 0 <= i < n && Admits(c, cmds[i]) && forall j | i < j < n :: !Rejects(c, cmds[j])
  }

  ghost predicate Secured(c: Config, cmds: seq<Cmd>, n: nat)
    requires n <= |cmds|
  {
    c.servingTLS || exists i :: 0 <= i < n && Secures(cmds[i])
  }

  lemma {:induction false} RunMore(c: Config, s: State, cmds: seq<Cmd>, cmd: Cmd)
    requires s.Formed()
    ensures var r := Run(c, s, cmds);
      var q := Run(c, s, cmds + [cmd]);
      && (q.more ==> r.more)
      && (r.more ==> q.s == Do(c, r.s, cmd).s && q.more == Do(c, r.s, cmd).more)
    decreases |cmds|
  {
    hide Do, State.Formed;
    if cmds == [] {
      assert [] + [cmd] == [cmd] && [cmd][1..] == [];
    } else {
      assert (cmds + [cmd])[0] == cmds[0] && (cmds + [cmd])[1..] == cmds[1..] + [cmd];
      var o := Do(c, s, cmds[0]);
      if o.more {
        RunMore(c, o.s, cmds[1..], cmd);
      }
    }
  }

  /** Only AUTH changes who is logged in, and only STARTTLS what is secured. */
  lemma AccessStep(c: Config, s: State, cmd: Cmd)
    requires s.Formed()
    ensures var t := Do(c, s, cmd).s;
      && (t.authToken != 0 <==> Admits(c, cmd) || (s.authToken != 0 && !Rejects(c, cmd)))
      && (t.tls <==> s.tls || Secures(cmd))
  {
    if cmd.DataCmd? && s.HasTLS(c) && cmd.noArg && s.open && s.numRcpts != 0 {
      var t := Take(s.Current().answers, s.Current().calls, s.input, 0, c.maxSize);
      EndKeeps(s.(input := t.rest).Called(t.calls), t.ending, t.failed);
    }
    hide Take, EndData, GoodAddress, Line;
  }

  lemma EndKeeps(s: State, ending: Ending, failed: bool)
    requires s.logs != []
    ensures var t := EndData(s, ending, failed).s; t.authToken == s.authToken && t.tls == s.tls
  {
  }

  lemma AdmittedMore(c: Config, cmds: seq<Cmd>, n: nat)
    requires n < |cmds|
    ensures Admitted(c, cmds, n + 1) <==> Admits(c, cmds[n]) || (Admitted(c, cmds, n) && !Rejects(c, cmds[n]))
    ensures Secured(c, cmds, n + 1) <==> Secured(c, cmds, n) || Secures(cmds[n])
  {
    hide Admits, Rejects, Secures;
    if Admitted(c, cmds, n) && !Rejects(c, cmds[n]) {
      var i :| 0 <= i < n && Admits(c, cmds[i]) && forall j | i < j < n :: !Rejects(c, cmds[j]);
      assert Admitted(c, cmds, n + 1);
    }
  }

  /** In every run that still goes on, the session is logged in if and only if an
      AUTH succeeded and none has failed since, and is secured if and only if it
      was from the beginning or a STARTTLS came. */
  lemma {:induction false} AccessRemembered(c: Config, input: seq<byte>, cmds: seq<Cmd>, n: nat)
    requires n <= |cmds| && Run(c, Start(c, input), cmds[..n]).more
    ensures var s := Run(c, Start(c, input), cmds[..n]).s;
      (s.authToken != 0 <==> Admitted(c, cmds, n)) && (s.tls <==> Secured(c, cmds, n))
  {
    if n == 0 {
      assert cmds[..0] == [];
    } else {
      var m, s0 := n - 1, Start(c, input);
      assert cmds[..n] == cmds[..m] + [cmds[m]];
      assert s0.Formed();
      hide Run, Do, Admitted, Secured, Admits, Rejects, Secures, State.Formed, Start;
      RunMore(c, s0, cmds[..m], cmds[m]);
      AccessRemembered(c, input, cmds, m);
      AccessStep(c, Run(c, s0, cmds[..m]).s, cmds[m]);
      AdmittedMore(c, cmds, m);
    }
  }

  /** So in every run that goes on, MAIL is refused for want of rights if and only
      if security is asked for and there is none, or a login is and none holds; and
      then nothing changes. */
  lemma WhoMaySend(c: Config, input: seq<byte>, cmds: seq<Cmd>, addr: Option<seq<byte>>, o: Opening)
    requires Run(c, Start(c, input), cmds).more
    ensures var s, n := Run(c, Start(c, input), cmds).s, |cmds|;
      && (DoMail(c, s, addr, o).code == 530
          <==> (!c.allowNoTLS && !Secured(c, cmds, n)) || (c.mustAuth && !Admitted(c, cmds, n)))
      && (DoMail(c, s, addr, o).code == 530 ==> DoMail(c, s, addr, o).s == s)
  {
    hide *;
    StartFormed(c, input);
    assert cmds[..|cmds|] == cmds;
    AccessRemembered(c, input, cmds, |cmds|);
    var s := Run(c, Start(c, input), cmds).s;
    MailAccess(c, s, addr, o);
    ServedSecured(c, cmds, |cmds|);
  }

  lemma StartFormed(c: Config, input: seq<byte>)
    ensures Start(c, input).Formed()
  {
  }

  lemma MailAccess(c: Config, s: State, addr: Option<seq<byte>>, o: Opening)
    ensures var r := DoMail(c, s, addr, o);
      && (r.code == 530 <==> (!c.allowNoTLS && !c.servingTLS && !s.tls) || (c.mustAuth && s.authToken == 0))
      && (r.code == 530 ==> r.s == s)
  {
    hide GoodAddress;
  }

  lemma ServedSecured(c: Config, cmds: seq<Cmd>, n: nat)
    requires n <= |cmds|
    ensures c.servingTLS ==> Secured(c, cmds, n)
  {
  }
}
