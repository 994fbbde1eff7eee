/** The session of the SMTP server (smtp/smtpserver): commands, the DATA loop
    and the way out. */
module SmtpSession {
  import opened Bytes
  import opened Wrappers

  const DOT: byte := 0x2E
  const AT: byte := 0x40
  const LINE_BUFFER: nat := 4096
  const TERMINATOR: seq<byte> := [DOT, CR, LF]

  // --------------------------------------------------------------- DATA lines

  /** One ReadSlice: a line with its LF, if that is within the buffer. */
  function Line(input: seq<byte>): Option<seq<byte>> {
    var i := IndexByte(input, LF);
    if 0 <= i < LINE_BUFFER then Some(input[..i + 1]) else None
  }

  lemma LineCuts(input: seq<byte>)
    requires Line(input).Some?
    ensures var l := Line(input).value;
      && 0 < |l| <= |input| && input == l + input[|l|..] && |input[|l|..]| < |input|
      && Line(l + input[|l|..]) == Some(l)
  {
  }

  function Unstuff(line: seq<byte>): seq<byte> {
    if line != [] && line[0] == DOT then line[1..] else line
  }

  datatype Ending = Terminated | TooMuch | Broken

  /** What the DATA loop reads: the lines it writes to the message, where it
      stops, and why. */
  datatype Data = Data(lines: seq<seq<byte>>, rest: seq<byte>, ending: Ending)

  function ReadData(input: seq<byte>, n: nat, max: nat): (d: Data)
    decreases |input|
  {
    match Line(input)
    case None => Data([], input, Broken)
    case Some(line) =>
      LineCuts(input);
      var rest := input[|line|..];
      if line == TERMINATOR then Data([], rest, Terminated)
      else
        var l := Unstuff(line);
        if n + |l| > max then Data([], rest, TooMuch)
        else
          var more := ReadData(rest, n + |l|, max);
          Data([l] + more.lines, more.rest, more.ending)
  }

  function Total(lines: seq<seq<byte>>): nat { if lines == [] then 0 else |lines[0]| + Total(lines[1..]) }

  /** A line of a body: it ends with its only LF. */
  predicate IsLine(l: seq<byte>) { l != [] && l[|l| - 1] == LF && LF !in l[..|l| - 1] }

  function Stuff(l: seq<byte>): seq<byte> { if l != [] && l[0] == DOT then [DOT] + l else l }

  function StuffAll(lines: seq<seq<byte>>): seq<byte> {
    if lines == [] then [] else Stuff(lines[0]) + StuffAll(lines[1..])
  }

  predicate Sendable(lines: seq<seq<byte>>) {
    forall l | l in lines :: IsLine(l) && |Stuff(l)| <= LINE_BUFFER
  }

  lemma StuffedLine(l: seq<byte>, t: seq<byte>)
    requires IsLine(l) && |Stuff(l)| <= LINE_BUFFER
    ensures Line(Stuff(l) + t) == Some(Stuff(l)) && (Stuff(l) + t)[|Stuff(l)|..] == t
    ensures Stuff(l) != TERMINATOR && Unstuff(Stuff(l)) == l
  {
    var s := Stuff(l);
    var a := s[..|s| - 1];
    assert s == a + [LF];
    assert LF !in a by {
      assert a == if l[0] == DOT then [DOT] + l[..|l| - 1] else l[..|l| - 1];
    }
    IndexByteAfter(a, LF, t);
    assert a + [LF] + t == s + t;
    assert (s + t)[..|s|] == s;
    assert if l[0] == DOT then |s| > 1 && s[1] == DOT else s[0] != DOT;
  }

  /** One turn of the loop. */
  lemma ReadStep(line: seq<byte>, rest: seq<byte>, n: nat, max: nat)
    requires Line(line + rest) == Some(line)
    ensures ReadData(line + rest, n, max) ==
      if line == TERMINATOR then Data([], rest, Terminated)
      else if n + |Unstuff(line)| > max then Data([], rest, TooMuch)
      else
        var more := ReadData(rest, n + |Unstuff(line)|, max);
        Data([Unstuff(line)] + more.lines, more.rest, more.ending)
  {
    hide Unstuff, Line;
    assert (line + rest)[|line|..] == rest;
  }

  lemma TotalNone()
    ensures Total([]) == 0
  {
  }

  lemma ReadEnd(input: seq<byte>, n: nat, max: nat)
    requires Line(input).None?
    ensures ReadData(input, n, max) == Data([], input, Broken)
  {
  }

  lemma TotalCons(l: seq<byte>, more: seq<seq<byte>>)
    ensures Total([l] + more) == |l| + Total(more)
  {
    assert ([l] + more)[1..] == more;
  }

  lemma TerminatorLine(rest: seq<byte>)
    ensures Line(TERMINATOR + rest) == Some(TERMINATOR)
  {
    IndexByteAfter([DOT, CR], LF, rest);
    assert [DOT, CR] + [LF] + rest == TERMINATOR + rest;
    assert (TERMINATOR + rest)[..3] == TERMINATOR;
  }

  /** What a read of the lines `lines` comes to. */
  ghost predicate Delivered(d: Data, lines: seq<seq<byte>>, rest: seq<byte>, n: nat, max: nat) {
    && (d.ending == Terminated <==> n + Total(lines) <= max)
    && (d.ending == Terminated ==> d.lines == lines && d.rest == rest)
    && (d.ending != Terminated ==>
      && d.ending == TooMuch && d.lines < lines
      && n + Total(d.lines) <= max < n + Total(lines[..|d.lines| + 1]))
  }

  lemma DeliveredCons(l: seq<byte>, d: Data, more: seq<seq<byte>>, rest: seq<byte>, n: nat, max: nat)
    requires Delivered(d, more, rest, n + |l|, max)
    ensures Delivered(Data([l] + d.lines, d.rest, d.ending), [l] + more, rest, n, max)
  {
    TotalCons(l, more);
    TotalCons(l, d.lines);
    if d.ending != Terminated {
      var i := |d.lines|;
      TotalCons(l, more[..i + 1]);
      assert ([l] + more)[..i + 2] == [l] + more[..i + 1];
    }
  }

  lemma DeliveredNone(l: seq<byte>, more: seq<seq<byte>>, r: seq<byte>, rest: seq<byte>, n: nat, max: nat)
    requires n <= max < n + |l|
    ensures Delivered(Data([], r, TooMuch), [l] + more, rest, n, max)
  {
    var none: seq<seq<byte>> := [];
    TotalCons(l, more);
    TotalCons(l, none);
    assert ([l] + more)[..1] == [l] + none;
  }

  /** A dot-stuffed body of lines that fit the buffer is written as it was
      before the stuffing, and reading stops right behind the terminator;
      unless the body is too long, which is noticed at the first line that
      does not fit. */
  lemma {:induction false} DataRoundTrip(lines: seq<seq<byte>>, rest: seq<byte>, n: nat, max: nat)
    requires Sendable(lines) && n <= max
    ensures Delivered(ReadData(StuffAll(lines) + (TERMINATOR + rest), n, max), lines, rest, n, max)
    decreases |lines|
  {
    hide *;
    var t := TERMINATOR + rest;
    if lines == [] {
      StuffNone();
      assert [] + t == t;
      TerminatorLine(rest);
      ReadStep(TERMINATOR, rest, n, max);
      DeliveredEnd(rest, n, max);
    } else {
      var l, more := lines[0], lines[1..];
      SendableCons(lines);
      assert lines == [l] + more;
      StuffedLine(l, StuffAll(more) + t);
      Assoc(Stuff(l), StuffAll(more), t);
      ReadStep(Stuff(l), StuffAll(more) + t, n, max);
      if n + |l| <= max {
        DataRoundTrip(more, rest, n + |l|, max);
        DeliveredCons(l, ReadData(StuffAll(more) + t, n + |l|, max), more, rest, n, max);
      } else {
        DeliveredNone(l, more, StuffAll(more) + t, rest, n, max);
      }
    }
  }

  lemma StuffNone()
    ensures StuffAll([]) == []
  {
  }

  lemma SendableCons(lines: seq<seq<byte>>)
    requires Sendable(lines) && lines != []
    ensures Sendable(lines[1..]) && IsLine(lines[0]) && |Stuff(lines[0])| <= LINE_BUFFER
    ensures StuffAll(lines) == Stuff(lines[0]) + StuffAll(lines[1..])
  {
    assert lines[0] in lines && forall x | x in lines[1..] :: x in lines;
  }

  lemma DeliveredEnd(rest: seq<byte>, n: nat, max: nat)
    requires n <= max
    ensures Delivered(Data([], rest, Terminated), [], rest, n, max)
  {
  }

  /** Whatever comes in, no more than the limit is written. */
  lemma {:induction false} DataBound(input: seq<byte>, n: nat, max: nat)
    requires n <= max
    ensures n + Total(ReadData(input, n, max).lines) <= max
    decreases |input|
  {
    hide *;
    TotalNone();
    if Line(input).Some? {
      LineCuts(input);
      var line := Line(input).value;
      var l, rest := Unstuff(line), input[|line|..];
      ReadStep(line, rest, n, max);
      if line != TERMINATOR && n + |l| <= max {
        DataBound(rest, n + |l|, max);
        TotalCons(l, ReadData(rest, n + |l|, max).lines);
      }
    } else {
      ReadEnd(input, n, max);
    }
  }

  // -------------------------------------------------------- message objects

  /** A call to a message. */
  datatype Call = AddRecipient(addr: seq<byte>) | Write(line: seq<byte>) | Close | Cancel

  /** Taking recipients, being written, over, or called out of turn. */
  datatype Phase = Addressing | Writing | Over | Misused

  function Next(p: Phase, c: Call): Phase {
    match c
    case AddRecipient(_) => if p.Addressing? then Addressing else Misused
    case Write(_) => if p.Addressing? || p.Writing? then Writing else Misused
    case Close | Cancel => if p.Addressing? || p.Writing? then Over else Misused
  }

  function PhaseOf(calls: seq<Call>): Phase {
    if calls == [] then Addressing else Next(PhaseOf(calls[..|calls| - 1]), calls[|calls| - 1])
  }

  function Written(calls: seq<Call>): nat {
    if calls == [] then 0
    else
      var c := calls[|calls| - 1];
      Written(calls[..|calls| - 1]) + if c.Write? then |c.line| else 0
  }

  lemma OneMore(calls: seq<Call>, c: Call)
    ensures PhaseOf(calls + [c]) == Next(PhaseOf(calls), c)
    ensures Written(calls + [c]) == Written(calls) + if c.Write? then |c.line| else 0
  {
    assert (calls + [c])[..|calls|] == calls;
  }

  /** Over means: recipients, then lines, then exactly one Close or Cancel, and
      no call behind it. */
  lemma OverMeans(calls: seq<Call>)
    requires PhaseOf(calls) == Over
    ensures calls != [] && (calls[|calls| - 1].Close? || calls[|calls| - 1].Cancel?)
    ensures forall i | 0 <= i < |calls| - 1 :: !calls[i].Close? && !calls[i].Cancel?
    ensures forall i, j | 0 <= i < j < |calls| :: calls[i].Write? ==> !calls[j].AddRecipient?
  {
    var n := |calls| - 1;
    var init, last := calls[..n], calls[n];
    LastCall(calls);
    hide PhaseOf;
    OpenMeans(init);
    assert forall i | 0 <= i < n :: calls[i] == init[i];
    forall i, j | 0 <= i < j <= n && calls[i].Write?
      ensures !calls[j].AddRecipient?
    {
      if j < n {
        assert init[i].Write? && !init[j].AddRecipient?;
      }
    }
  }

  lemma LastCall(calls: seq<Call>)
    requires PhaseOf(calls) == Over
    ensures calls != []
    ensures var init, last := calls[..|calls| - 1], calls[|calls| - 1];
      (PhaseOf(init) == Addressing || PhaseOf(init) == Writing) && (last.Close? || last.Cancel?)
  {
  }

  lemma {:induction false} OpenMeans(calls: seq<Call>)
    requires PhaseOf(calls) == Addressing || PhaseOf(calls) == Writing
    ensures forall i | 0 <= i < |calls| :: !calls[i].Close? && !calls[i].Cancel?
    ensures PhaseOf(calls) == Addressing ==> forall i | 0 <= i < |calls| :: calls[i].AddRecipient?
    ensures forall i, j | 0 <= i < j < |calls| :: calls[i].Write? ==> !calls[j].AddRecipient?
  {
    if calls != [] {
      var init := calls[..|calls| - 1];
      OpenMeans(init);
      assert forall i | 0 <= i < |init| :: calls[i] == init[i];
    }
  }

  datatype Recipient = Added | Refused | Errored

  datatype CloseResult = Closed | TemporaryFailure | Failure

  /** How a message answers a call, in view of all the calls so far. */
  datatype Answers = Answers(added: seq<Call> -> Recipient, wrote: seq<Call> -> bool, closed: seq<Call> -> CloseResult)

  /** A message answers in its own way and remembers how it was called. */
  class Message {
    const answers: Answers
    var calls: seq<Call>

    constructor (answers: Answers)
      ensures this.answers == answers && calls == []
    {
      this.answers := answers;
      calls := [];
    }

    method AddRecipient(addr: seq<byte>) returns (r: Recipient)
      modifies this
      ensures calls == old(calls) + [Call.AddRecipient(addr)] && r == answers.added(calls)
    {
      calls := calls + [Call.AddRecipient(addr)];
      r := answers.added(calls);
    }

    method Write(line: seq<byte>) returns (ok: bool)
      modifies this
      ensures calls == old(calls) + [Call.Write(line)] && ok == answers.wrote(calls)
    {
      calls := calls + [Call.Write(line)];
      ok := answers.wrote(calls);
    }

    method Cancel()
      modifies this
      ensures calls == old(calls) + [Call.Cancel]
    {
      calls := calls + [Call.Cancel];
    }

    method Close() returns (r: CloseResult)
      modifies this
      ensures calls == old(calls) + [Call.Close] && r == answers.closed(calls)
    {
      calls := calls + [Call.Close];
      r := answers.closed(calls);
    }
  }

  // ---------------------------------------------------- the session, as values

  datatype Config = Config(allowNoTLS: bool, servingTLS: bool, hasAuth: bool, mustAuth: bool,
                           maxSize: nat, maxRecipients: nat)

  /** What comes of an AUTH: a type that is not known, a LOGIN that breaks off,
      or the token of the credentials, which is 0 if they are wrong. */
  datatype AuthAnswer = UnknownType | BadLogin | Token(token: nat)

  /** What MAIL meets: a server shutting down; and from NewMessage a message, an
      error, both or none. */
  datatype Opening = Opening(shutdown: bool, message: Option<Answers>, failed: bool)

  /** A command. Of its argument there is whether it is empty, or what the
      address pattern found, without white space around it. STARTTLS brings a
      new input. */
  datatype Cmd =
    | Noop | Quit(noArg: bool) | Helo | StartTLS(noArg: bool, secure: seq<byte>) | Auth(answer: AuthAnswer)
    | Mail(addr: Option<seq<byte>>, opening: Opening) | Rcpt(addr: Option<seq<byte>>)
    | DataCmd(noArg: bool) | Rset(noArg: bool) | Unknown

  // The code of a command that gets no reply.
  const SILENT: nat := 0

  predicate GoodAddress(a: Option<seq<byte>>) { a.Some? && IndexByte(a.value, AT) >= 1 }

  /** A message the session has opened, and all its calls. */
  datatype Log = Log(answers: Answers, calls: seq<Call>)

  /** A session: the logs of all its messages in order, of which the last one
      may still be open. */
  datatype State = State(tls: bool, authToken: nat, numRcpts: nat, input: seq<byte>, logs: seq<Log>, open: bool) {
    predicate Formed() { open ==> logs != [] }

    predicate HasTLS(c: Config) { c.allowNoTLS || c.servingTLS || tls }

    function Current(): Log
      requires logs != []
    {
      logs[|logs| - 1]
    }

    function Called(calls: seq<Call>): State
      requires logs != []
    {
      this.(logs := logs[|logs| - 1 := Current().(calls := calls)])
    }
  }

  function Start(c: Config, input: seq<byte>): State { State(c.servingTLS, 0, 0, input, [], false) }

  datatype Out = Out(s: State, more: bool, code: nat)

  /** MAIL asks for a message only when none is open and the sender may. */
  predicate MayOpen(c: Config, s: State, addr: Option<seq<byte>>, shutdown: bool) {
    s.HasTLS(c) && !(c.mustAuth && s.authToken == 0) && !s.open && !shutdown && GoodAddress(addr)
  }

  function DoMail(c: Config, s: State, addr: Option<seq<byte>>, o: Opening): Out {
    if !s.HasTLS(c) || (c.mustAuth && s.authToken == 0) then Out(s, true, 530)
    else if s.open then Out(s, true, 503)
    else if o.shutdown then Out(s, false, 451)
    else if !GoodAddress(addr) then Out(s, true, 501)
    else
      var t := if o.message.Some? then s.(logs := s.logs + [Log(o.message.value, [])], open := true) else s;
      Out(t, !o.failed, if o.failed then 451 else 250)
  }

  /** RCPT counts before it looks at the address, so an address that is refused
      counts, too. */
  function DoRcpt(c: Config, s: State, addr: Option<seq<byte>>): Out
    requires s.Formed()
  {
    if !s.HasTLS(c) then Out(s, true, 530)
    else if !s.open then Out(s, true, 503)
    else if s.numRcpts + 1 >= c.maxRecipients then Out(s, true, 452)
    else
      var t := s.(numRcpts := s.numRcpts + 1);
      if !GoodAddress(addr) then Out(t, true, 501)
      else
        var u := t.Called(s.Current().calls + [Call.AddRecipient(addr.value)]);
        match u.Current().answers.added(u.Current().calls)
        case Added => Out(u, true, 250)
        case Refused => Out(u, true, 550)
        case Errored => Out(u, false, 550)
  }

  /** What the DATA loop does to a message: its calls, what is left to read, and
      how it ends, or that a write failed. */
  datatype Taken = Taken(calls: seq<Call>, rest: seq<byte>, ending: Ending, failed: bool)

  function Take(a: Answers, calls: seq<Call>, input: seq<byte>, n: nat, max: nat): Taken
    decreases |input|
  {
    match Line(input)
    case None => Taken(calls, input, Broken, false)
    case Some(line) =>
      LineCuts(input);
      var rest := input[|line|..];
      var l := Unstuff(line);
      if line == TERMINATOR then Taken(calls, rest, Terminated, false)
      else if n + |l| > max then Taken(calls, rest, TooMuch, false)
      else
        var more := calls + [Call.Write(l)];
        if a.wrote(more) then Take(a, more, rest, n + |l|, max) else Taken(more, rest, Broken, true)
  }

  /** How DATA goes on when the loop has ended. */
  function EndData(s: State, ending: Ending, failed: bool): Out
    requires s.logs != []
  {
    if failed then Out(s, false, 550)
    else if ending.Broken? then Out(s, false, SILENT)
    else if ending.TooMuch? then Out(s, false, 552)
    else
      var t := s.Called(s.Current().calls + [Call.Close]).(open := false, numRcpts := 0);
      match t.Current().answers.closed(t.Current().calls)
      case Closed => Out(t, true, 250)
      case TemporaryFailure => Out(t, false, 451)
      case Failure => Out(t, false, 550)
  }

  function DoData(c: Config, s: State, noArg: bool): Out
    requires s.Formed()
  {
    if !s.HasTLS(c) then Out(s, true, 530)
    else if !noArg then Out(s, true, 501)
    else if !s.open || s.numRcpts == 0 then Out(s, true, 503)
    else
      var t := Take(s.Current().answers, s.Current().calls, s.input, 0, c.maxSize);
      EndData(s.(input := t.rest).Called(t.calls), t.ending, t.failed)
  }

  function Dropped(s: State): State
    requires s.Formed()
  {
    (if s.open then s.Called(s.Current().calls + [Call.Cancel]) else s).(open := false, numRcpts := 0)
  }

  /** RSET drops the message, without a reply. */
  function DoRset(c: Config, s: State, noArg: bool): Out
    requires s.Formed()
  {
    if !s.HasTLS(c) then Out(s, true, 530)
    else if !noArg then Out(s, true, 501)
    else Out(Dropped(s), true, SILENT)
  }

  function Do(c: Config, s: State, cmd: Cmd): (o: Out)
    requires s.Formed()
    ensures o.s.Formed()
  {
    match cmd
    case Noop => Out(s, true, 250)
    case Quit(noArg) => if noArg then Out(s, false, 221) else Out(s, true, 501)
    case Helo => Out(s, true, 250)
    case StartTLS(noArg, secure) =>
      if s.tls then Out(s, true, 454)
      else if !noArg then Out(s, true, 501)
      else Out(s.(tls := true, input := secure), true, 220)
    case Auth(answer) =>
      if !c.hasAuth then Out(s, true, 451)
      else
        (match answer
         case UnknownType => Out(s, true, 504)
         case BadLogin => Out(s, true, 500)
         case Token(token) => Out(s.(authToken := token), true, if token == 0 then 535 else 235))
    case Mail(addr, opening) => DoMail(c, s, addr, opening)
    case Rcpt(addr) => DoRcpt(c, s, addr)
    case DataCmd(noArg) => DoData(c, s, noArg)
    case Rset(noArg) => DoRset(c, s, noArg)
    case Unknown => Out(s, true, 502)
  }

  // -------------------------------------------------------------- whole runs

  datatype Ran = Ran(s: State, codes: seq<nat>, more: bool)

  /** The commands, until one ends the session. */
  function Run(c: Config, s: State, cmds: seq<Cmd>): (r: Ran)
    requires s.Formed()
    ensures r.s.Formed()
    decreases |cmds|
  {
    if cmds == [] then Ran(s, [], true)
    else
      var o := Do(c, s, cmds[0]);
      if !o.more then Ran(o.s, [o.code], false)
      else
        var r := Run(c, o.s, cmds[1..]);
        Ran(r.s, [o.code] + r.codes, r.more)
  }

  /** The way out, on which an open message is cancelled. */
  function Left(s: State): State
    requires s.Formed()
  {
    if s.open then s.Called(s.Current().calls + [Call.Cancel]).(open := false) else s
  }

  predicate Opens(c: Config, s: State, cmd: Cmd) {
    cmd.Mail? && MayOpen(c, s, cmd.addr, cmd.opening.shutdown) && cmd.opening.message.Some?
  }

  /** How many commands of the run open a message. */
  function Openings(c: Config, s: State, cmds: seq<Cmd>): nat
    requires s.Formed()
    decreases |cmds|
  {
    if cmds == [] then 0
    else
      var o := Do(c, s, cmds[0]);
      (if Opens(c, s, cmds[0]) then 1 else 0) + if o.more then Openings(c, o.s, cmds[1..]) else 0
  }

  /** The messages before the last are over, and so is the last unless it is
      open; none has too many bytes. */
  ghost predicate Tidy(c: Config, s: State) {
    && s.Formed()
    && (forall i | 0 <= i < |s.logs| :: Written(s.logs[i].calls) <= c.maxSize)
    && (forall i | 0 <= i < |s.logs| - 1 :: PhaseOf(s.logs[i].calls) == Over)
    && (s.logs != [] && !s.open ==> PhaseOf(s.Current().calls) == Over)
    && (s.open ==> PhaseOf(s.Current().calls) == Addressing || PhaseOf(s.Current().calls) == Writing)
  }

  /** Between commands: recipients are counted only for an open message, and
      that has not been written. */
  ghost predicate Sound(c: Config, s: State) {
    Tidy(c, s) && (s.numRcpts > 0 ==> s.open) && (s.open ==> PhaseOf(s.Current().calls) == Addressing)
  }

  function Writes(lines: seq<seq<byte>>): seq<Call> {
    if lines == [] then [] else [Write(lines[0])] + Writes(lines[1..])
  }

  lemma {:induction false} NoneWritten(calls: seq<Call>)
    requires forall i | 0 <= i < |calls| :: calls[i].AddRecipient?
    ensures Written(calls) == 0
  {
    if calls != [] {
      NoneWritten(calls[..|calls| - 1]);
    }
  }

  /** What the DATA loop makes of a message is what it reads: all lines, or with
      a failed write those up to it. */
  ghost predicate Made(a: Answers, calls: seq<Call>, t: Taken, d: Data, max: nat) {
    && (PhaseOf(t.calls) == Addressing || PhaseOf(t.calls) == Writing) && Written(t.calls) <= max
    && calls <= t.calls <= calls + Writes(d.lines)
    && (t.failed ==> calls < t.calls && !a.wrote(t.calls))
    && (!t.failed ==> t.calls == calls + Writes(d.lines) && t.rest == d.rest && t.ending == d.ending)
  }

  ghost predicate Writable(calls: seq<Call>) { PhaseOf(calls) == Addressing || PhaseOf(calls) == Writing }

  lemma MadeNone(a: Answers, calls: seq<Call>, rest: seq<byte>, ending: Ending, max: nat)
    requires Writable(calls) && Written(calls) <= max
    ensures Made(a, calls, Taken(calls, rest, ending, false), Data([], rest, ending), max)
  {
    assert calls + [] == calls;
  }

  lemma WriteMore(calls: seq<Call>, l: seq<byte>)
    requires Writable(calls)
    ensures Writable(calls + [Call.Write(l)]) && Written(calls + [Call.Write(l)]) == Written(calls) + |l|
  {
    OneMore(calls, Call.Write(l));
    hide PhaseOf, Written;
  }

  lemma WritesCons(l: seq<byte>, lines: seq<seq<byte>>)
    ensures Writes([l] + lines) == [Call.Write(l)] + Writes(lines)
  {
    assert ([l] + lines)[1..] == lines;
  }

  lemma MadeMore(a: Answers, calls: seq<Call>, l: seq<byte>, t: Taken, d: Data, max: nat)
    requires Writable(calls) && Written(calls) + |l| <= max
    requires var more := calls + [Call.Write(l)];
      if a.wrote(more) then Made(a, more, t, d, max) else t.failed && t.calls == more
    ensures Made(a, calls, t, Data([l] + d.lines, d.rest, d.ending), max)
  {
    WriteMore(calls, l);
    WritesCons(l, d.lines);
    hide PhaseOf, Written, Writes;
    Assoc(calls, [Call.Write(l)], Writes(d.lines));
  }

  lemma TakeStep(a: Answers, calls: seq<Call>, line: seq<byte>, rest: seq<byte>, n: nat, max: nat)
    requires Line(line + rest) == Some(line)
    ensures var l := Unstuff(line);
      var more := calls + [Call.Write(l)];
      Take(a, calls, line + rest, n, max) ==
        if line == TERMINATOR then Taken(calls, rest, Terminated, false)
        else if n + |l| > max then Taken(calls, rest, TooMuch, false)
        else if a.wrote(more) then Take(a, more, rest, n + |l|, max)
        else Taken(more, rest, Broken, true)
  {
    hide Unstuff, Line;
    assert (line + rest)[|line|..] == rest;
  }

  lemma TakeEnd(a: Answers, calls: seq<Call>, input: seq<byte>, n: nat, max: nat)
    requires Line(input).None?
    ensures Take(a, calls, input, n, max) == Taken(calls, input, Broken, false)
  {
  }

  lemma {:induction false} TakeMeans(a: Answers, calls: seq<Call>, input: seq<byte>, n: nat, max: nat)
    requires Writable(calls) && Written(calls) == n <= max
    ensures Made(a, calls, Take(a, calls, input, n, max), ReadData(input, n, max), max)
    decreases |input|
  {
    hide *;
    if Line(input).None? {
      TakeEnd(a, calls, input, n, max);
      ReadEnd(input, n, max);
      MadeNone(a, calls, input, Broken, max);
    } else {
      LineCuts(input);
      var line := Line(input).value;
      var rest, l := input[|line|..], Unstuff(line);
      TakeStep(a, calls, line, rest, n, max);
      ReadStep(line, rest, n, max);
      if line == TERMINATOR {
        MadeNone(a, calls, rest, Terminated, max);
      } else if n + |l| > max {
        MadeNone(a, calls, rest, TooMuch, max);
      } else {
        var more := calls + [Call.Write(l)];
        WriteMore(calls, l);
        if a.wrote(more) {
          TakeMeans(a, more, rest, n + |l|, max);
        }
        MadeMore(a, calls, l, Take(a, calls, input, n, max), ReadData(rest, n + |l|, max), max);
      }
    }
  }

  lemma CalledTidy(c: Config, s: State, calls: seq<Call>, open: bool)
    requires Tidy(c, s) && s.open && Written(calls) <= c.maxSize
    requires if open then PhaseOf(calls) == Addressing || PhaseOf(calls) == Writing else PhaseOf(calls) == Over
    ensures Tidy(c, s.Called(calls).(open := open)) && s.Called(calls).Current().calls == calls
  {
    hide PhaseOf, Written;
  }

  lemma AnyField(c: Config, s: State, tls: bool, authToken: nat, numRcpts: nat, input: seq<byte>)
    ensures Tidy(c, s.(tls := tls, authToken := authToken, numRcpts := numRcpts, input := input)) <==> Tidy(c, s)
  {
    hide PhaseOf, Written;
  }

  /** MAIL opens a message only when it may, and no other command does. */
  lemma MailSound(c: Config, s: State, addr: Option<seq<byte>>, o: Opening)
    requires Sound(c, s)
    ensures Sound(c, DoMail(c, s, addr, o).s)
  {
    assert PhaseOf([]) == Addressing && Written([]) == 0;
    hide PhaseOf, Written;
  }

  /** RCPT leaves everything as it is, counts, or also calls the message. */
  lemma RcptIs(c: Config, s: State, addr: Option<seq<byte>>)
    requires s.Formed()
    ensures var t := DoRcpt(c, s, addr).s;
      if !(s.HasTLS(c) && s.open && s.numRcpts + 1 < c.maxRecipients) then t == s
      else if !GoodAddress(addr) then t == s.(numRcpts := s.numRcpts + 1)
      else t == s.Called(s.Current().calls + [Call.AddRecipient(addr.value)]).(numRcpts := s.numRcpts + 1)
  {
    hide GoodAddress;
  }

  lemma RcptSound(c: Config, s: State, addr: Option<seq<byte>>)
    requires Sound(c, s)
    ensures Sound(c, DoRcpt(c, s, addr).s)
  {
    RcptIs(c, s, addr);
    AnyField(c, s, s.tls, s.authToken, s.numRcpts + 1, s.input);
    if s.open && GoodAddress(addr) {
      var calls := s.Current().calls + [Call.AddRecipient(addr.value)];
      OneMore(s.Current().calls, Call.AddRecipient(addr.value));
      var t := s.Called(calls);
      assert t.(open := true) == t;
      hide PhaseOf, Written, GoodAddress, DoRcpt, State.Called;
      CalledTidy(c, s, calls, true);
      AnyField(c, t, t.tls, t.authToken, s.numRcpts + 1, t.input);
    } else {
      hide PhaseOf, Written, GoodAddress, DoRcpt;
    }
  }

  /** The message in hand as the DATA loop finds it. */
  lemma Unwritten(c: Config, s: State)
    requires Sound(c, s) && s.open
    ensures Writable(s.Current().calls) && Written(s.Current().calls) == 0
    ensures var calls := s.Current().calls;
      Made(s.Current().answers, calls, Take(s.Current().answers, calls, s.input, 0, c.maxSize),
           ReadData(s.input, 0, c.maxSize), c.maxSize)
  {
    var calls := s.Current().calls;
    OpenMeans(calls);
    NoneWritten(calls);
    hide PhaseOf, Written, Made, Take, ReadData;
    assert Writable(calls);
    TakeMeans(s.Current().answers, calls, s.input, 0, c.maxSize);
  }

  /** DATA, when it may go ahead, by what the loop has taken. */
  lemma DataIs(c: Config, s: State, t: Taken)
    requires s.open && s.logs != [] && s.HasTLS(c) && s.numRcpts > 0
    requires t == Take(s.Current().answers, s.Current().calls, s.input, 0, c.maxSize)
    ensures var left, closed := s.Called(t.calls), s.Called(t.calls + [Call.Close]).(open := false);
      var o := DoData(c, s, true);
      if t.failed || !t.ending.Terminated? then
        && o.s == left.(input := t.rest) && !o.more
        && o.code == if t.failed then 550 else if t.ending.TooMuch? then 552 else SILENT
      else
        && o.s == closed.(numRcpts := 0, input := t.rest)
        && (o.more <==> o.code == 250) && (o.code == 250 || o.code == 451 || o.code == 550)
  {
    hide Take;
  }

  lemma DataSound(c: Config, s: State, noArg: bool)
    requires Sound(c, s)
    ensures var o := DoData(c, s, noArg); Tidy(c, o.s) && (o.more ==> Sound(c, o.s))
  {
    if s.HasTLS(c) && noArg && s.open && s.numRcpts > 0 {
      var t := Take(s.Current().answers, s.Current().calls, s.input, 0, c.maxSize);
      DataIs(c, s, t);
      Unwritten(c, s);
      OneMore(t.calls, Call.Close);
      var left, closed := s.Called(t.calls), s.Called(t.calls + [Call.Close]).(open := false);
      assert left.(open := true) == left;
      hide PhaseOf, Written, Take, ReadData, DoData, State.Called;
      CalledTidy(c, s, t.calls, true);
      CalledTidy(c, s, t.calls + [Call.Close], false);
      AnyField(c, left, left.tls, left.authToken, left.numRcpts, t.rest);
      AnyField(c, closed, closed.tls, closed.authToken, 0, t.rest);
    } else {
      hide PhaseOf, Written, Take;
    }
  }

  lemma DroppedSound(c: Config, s: State)
    requires Tidy(c, s)
    ensures Sound(c, Dropped(s)) && Tidy(c, Left(s)) && !Left(s).open && |Left(s).logs| == |s.logs|
  {
    if s.open {
      var calls := s.Current().calls;
      OneMore(calls, Call.Cancel);
      CalledTidy(c, s, calls + [Call.Cancel], false);
    }
    hide PhaseOf, Written;
  }

  lemma DoSound(c: Config, s: State, cmd: Cmd)
    requires Sound(c, s)
    ensures var o := Do(c, s, cmd); Tidy(c, o.s) && (o.more ==> Sound(c, o.s))
    ensures |Do(c, s, cmd).s.logs| == |s.logs| + if Opens(c, s, cmd) then 1 else 0
  {
    hide PhaseOf, Written, Take, GoodAddress;
    match cmd {
      case Mail(addr, opening) => MailSound(c, s, addr, opening);
      case Rcpt(addr) => RcptSound(c, s, addr);
      case DataCmd(noArg) => DataSound(c, s, noArg);
      case Rset(noArg) => DroppedSound(c, s);
      case _ =>
    }
  }

  lemma {:induction false} RunSound(c: Config, s: State, cmds: seq<Cmd>)
    requires Sound(c, s)
    ensures var r := Run(c, s, cmds);
      && Tidy(c, r.s) && (r.more ==> Sound(c, r.s))
      && |r.s.logs| == |s.logs| + Openings(c, s, cmds)
      && |r.codes| <= |cmds| && (r.more ==> |r.codes| == |cmds|)
    decreases |cmds|
  {
    assert s.Formed();
    hide Do, Tidy, Opens;
    if cmds != [] {
      DoSound(c, s, cmds[0]);
      var o := Do(c, s, cmds[0]);
      if o.more {
        RunSound(c, o.s, cmds[1..]);
      }
    }
  }

  /** Over every run of commands: as many messages as MAIL commands that opened
      one; each ends with exactly one Close or Cancel and nothing after it and
      has at most MaxSize bytes; and while the session goes on, recipients are
      counted only for an open message. */
  lemma RunsAreSafe(c: Config, input: seq<byte>, cmds: seq<Cmd>)
    ensures var r := Run(c, Start(c, input), cmds);
      && |Left(r.s).logs| == Openings(c, Start(c, input), cmds)
      && (forall i | 0 <= i < |Left(r.s).logs| ::
            PhaseOf(Left(r.s).logs[i].calls) == Over && Written(Left(r.s).logs[i].calls) <= c.maxSize)
      && (r.more && r.s.numRcpts > 0 ==> r.s.open)
  {
    RunSound(c, Start(c, input), cmds);
    var s := Run(c, Start(c, input), cmds).s;
    DroppedSound(c, s);
    hide PhaseOf, Written, Run, Openings;
  }

  /** What DATA comes to, when it may go ahead: closed exactly behind the lines up
      to the terminator; or left open behind them, if they are too many or cut
      short, while the session ends; or behind a write that failed. */
  lemma DataMeans(c: Config, s: State)
    requires Sound(c, s) && s.open && s.numRcpts > 0 && s.HasTLS(c)
    ensures var o, d := DoData(c, s, true), ReadData(s.input, 0, c.maxSize);
      var calls0, calls := s.Current().calls, o.s.Current().calls;
      && (!o.s.open ==>
        && d.ending == Terminated && o.s.input == d.rest && o.s.numRcpts == 0
        && calls == calls0 + Writes(d.lines) + [Call.Close] && (o.more <==> o.code == 250))
      && (o.s.open ==>
        && !o.more && (o.code == 550 || o.code == 552 || o.code == SILENT)
        && calls0 <= calls <= calls0 + Writes(d.lines)
        && (o.code == 552 ==> d.ending == TooMuch) && (o.code == SILENT ==> d.ending == Broken)
        && (o.code == 550 ==> calls0 < calls && !s.Current().answers.wrote(calls))
        && (o.code != 550 ==> calls == calls0 + Writes(d.lines) && o.s.input == d.rest))
  {
    Unwritten(c, s);
    var t := Take(s.Current().answers, s.Current().calls, s.input, 0, c.maxSize);
    DataIs(c, s, t);
    hide PhaseOf, Written, Take, Writes, ReadData, Tidy, DoData;
    Assoc(s.Current().calls, Writes(ReadData(s.input, 0, c.maxSize).lines), [Call.Close]);
  }

  /** So a dot-stuffed body that is not too long arrives whole, and the session
      reads on right behind its terminator, unless the message fails to take a
      line. */
  lemma BodyArrives(c: Config, s: State, lines: seq<seq<byte>>, rest: seq<byte>)
    requires Sound(c, s) && s.open && s.numRcpts > 0 && s.HasTLS(c)
    requires Sendable(lines) && Total(lines) <= c.maxSize
    requires s.input == StuffAll(lines) + (TERMINATOR + rest)
    ensures var o := DoData(c, s, true);
      var calls0, calls := s.Current().calls, o.s.Current().calls;
      if o.s.open then o.code == 550 && calls0 < calls <= calls0 + Writes(lines) && !s.Current().answers.wrote(calls)
      else calls == calls0 + Writes(lines) + [Call.Close] && o.s.input == rest
  {
    DataRoundTrip(lines, rest, 0, c.maxSize);
    DataMeans(c, s);
    hide DoData, ReadData, Writes, PhaseOf, Written, StuffAll, Tidy, Total;
  }

  /** What each command may change: MAIL opens a message, RCPT tells it one
      recipient for each that counts and has a good address, DATA and RSET end
      it; nothing else touches a message, and none but the last is touched. */
  lemma CmdMeans(c: Config, s: State, cmd: Cmd)
    requires s.Formed()
    ensures var o := Do(c, s, cmd);
      && (o.s.tls <==> s.tls || (cmd.StartTLS? && cmd.noArg))
      && o.s.authToken == (if cmd.Auth? && c.hasAuth && cmd.answer.Token? then cmd.answer.token else s.authToken)
      && (!cmd.DataCmd? ==> o.s.input == if cmd.StartTLS? && cmd.noArg && !s.tls then cmd.secure else s.input)
      && (cmd.Mail? ==> (o.code == 250 <==> MayOpen(c, s, cmd.addr, cmd.opening.shutdown) && !cmd.opening.failed))
      && (Opens(c, s, cmd) ==> o.s.open && o.s.logs == s.logs + [Log(cmd.opening.message.value, [])])
      && (!Opens(c, s, cmd) ==>
        && |o.s.logs| == |s.logs|
        && forall i | 0 <= i < |s.logs| && !(s.open && i == |s.logs| - 1) :: o.s.logs[i] == s.logs[i])
      && (cmd.Rcpt? && s.open ==>
        var counts := s.HasTLS(c) && s.numRcpts + 1 < c.maxRecipients;
        && o.s.numRcpts == s.numRcpts + (if counts then 1 else 0)
        && o.s.Current().calls == s.Current().calls +
             if counts && GoodAddress(cmd.addr) then [Call.AddRecipient(cmd.addr.value)] else [])
      && (cmd.Rset? && s.open && s.HasTLS(c) && cmd.noArg ==>
        !o.s.open && o.s.Current().calls == s.Current().calls + [Call.Cancel])
      && (s.open && !cmd.Rcpt? && !(cmd.DataCmd? && o.s != s) && !(cmd.Rset? && o.s != s) ==> o.s.logs == s.logs)
  {
    hide Take, GoodAddress;
    if s.open {
      assert s.Current().calls + [] == s.Current().calls;
    }
  }

  // ------------------------------------------------------------- the session

  function Logs(ms: seq<Message>): (ls: seq<Log>)
    reads ms
    ensures |ls| == |ms|
  {
    seq(|ms|, i requires 0 <= i < |ms| reads ms => Log(ms[i].answers, ms[i].calls))
  }

  class Session {
    const config: Config
    var tls: bool
    var numRcpts: nat
    var msg: Message?
    var authToken: nat
    var input: seq<byte>
    // Every message of the session, in order.
    ghost var all: seq<Message>

    ghost predicate Valid()
      reads this
    {
      && (forall i, j | 0 <= i < j < |all| :: all[i] != all[j])
      && (msg != null ==> all != [] && msg == all[|all| - 1])
    }

    /** The session as a value. */
    ghost function S(): (s: State)
      reads this, all
      requires Valid()
      ensures s.Formed()
    {
      State(tls, authToken, numRcpts, input, Logs(all), msg != null)
    }

    constructor (config: Config, input: seq<byte>)
      ensures Valid() && this.config == config && all == [] && S() == Start(config, input)
    {
      this.config := config;
      tls := config.servingTLS;
      this.input := input;
      numRcpts, msg, authToken, all := 0, null, 0, [];
      new;
      assert Logs([]) == [];
    }

    predicate HasTLS()
      reads this
    {
      config.allowNoTLS || config.servingTLS || tls
    }

    /** The message in hand has been called: only its log is another. */
    twostate lemma OnlyLast(m: Message)
      requires old(Valid()) && old(msg) == m && all == old(all)
      requires forall x | x in all && x != m :: x.calls == old(x.calls)
      ensures Logs(all) == old(S()).Called(m.calls).logs
    {
      var n := |all| - 1;
      var was := old(Logs(all));
      assert Logs(all) == was[n := was[n].(calls := m.calls)];
    }

    method ServeMail(addr: Option<seq<byte>>, o: Opening) returns (more: bool, code: nat)
      requires Valid()
      modifies this`msg, this`all
      ensures Valid() && old(all) <= all && (forall m | m in all && m !in old(all) :: fresh(m))
      ensures Out(S(), more, code) == DoMail(config, old(S()), addr, o)
    {
      if !HasTLS() {
        return true, 530;
      }
      if config.mustAuth && authToken == 0 {
        return true, 530;
      }
      if msg != null {
        return true, 503;
      }
      if o.shutdown {
        return false, 451;
      }
      if !GoodAddress(addr) {
        return true, 501;
      }
      if o.message.Some? {
        msg := new Message(o.message.value);
        all := all + [msg];
        assert Logs(all) == old(Logs(all)) + [Log(o.message.value, [])];
      }
      if o.failed {
        return false, 451;
      }
      return true, 250;
    }

    method ServeRcpt(addr: Option<seq<byte>>) returns (more: bool, code: nat)
      requires Valid()
      modifies this`numRcpts, msg
      ensures Valid() && Out(S(), more, code) == DoRcpt(config, old(S()), addr)
    {
      if !HasTLS() {
        return true, 530;
      }
      if msg == null {
        return true, 503;
      }
      if numRcpts + 1 >= config.maxRecipients {
        return true, 452;
      }
      numRcpts := numRcpts + 1;
      if !GoodAddress(addr) {
        return true, 501;
      }
      var r := msg.AddRecipient(addr.value);
      OnlyLast(msg);
      match r
      case Added => return true, 250;
      case Refused => return true, 550;
      case Errored => return false, 550;
    }

    /** One line of the DATA loop, or its end. */
    method ReadNext(n: nat, ghost whole: Taken) returns (more: bool, n': nat, ending: Ending, failed: bool)
      requires msg != null && whole == Take(msg.answers, msg.calls, input, n, config.maxSize)
      modifies this`input, msg
      ensures |input| <= old(|input|)
      ensures more ==> whole == Take(msg.answers, msg.calls, input, n', config.maxSize) && |input| < old(|input|)
      ensures !more ==> whole == Taken(msg.calls, input, ending, failed)
    {
      hide *;
      n', ending, failed := n, Broken, false;
      var sl := Line(input);
      if sl.None? {
        TakeEnd(msg.answers, msg.calls, input, n, config.maxSize);
        return false, n, Broken, false;
      }
      LineCuts(input);
      var l := sl.value;
      TakeStep(msg.answers, msg.calls, l, input[|l|..], n, config.maxSize);
      input := input[|l|..];
      if l == TERMINATOR {
        return false, n, Terminated, false;
      }
      UnstuffHere(l);
      if l[0] == DOT {
        l := l[1..];
      }
      n' := n + |l|;
      if n' > config.maxSize {
        return false, n', TooMuch, false;
      }
      var ok := msg.Write(l);
      return ok, n', Broken, !ok;
    }

    lemma UnstuffHere(l: seq<byte>)
      requires l != []
      ensures Unstuff(l) == if l[0] == DOT then l[1..] else l
    {
    }

    /** The DATA loop. */
    method ReadLines() returns (ending: Ending, failed: bool)
      requires msg != null
      modifies this`input, msg
      ensures Taken(msg.calls, input, ending, failed) ==
        Take(msg.answers, old(msg.calls), old(input), 0, config.maxSize)
    {
      hide *;
      var n, more := 0, true;
      ending, failed := Broken, false;
      ghost var whole := Take(msg.answers, msg.calls, input, 0, config.maxSize);
      while more
        invariant if more then whole == Take(msg.answers, msg.calls, input, n, config.maxSize)
          else whole == Taken(msg.calls, input, ending, failed)
        decreases |input|, more
      {
        more, n, ending, failed := ReadNext(n, whole);
      }
    }

    /** DATA, when the loop has ended. */
    method FinishData(ending: Ending, failed: bool) returns (more: bool, code: nat)
      requires Valid() && msg != null
      modifies this`numRcpts, this`msg, msg
      ensures Valid() && Out(S(), more, code) == EndData(old(S()), ending, failed)
    {
      if failed {
        return false, 550;
      }
      if ending.Broken? {
        return false, SILENT;
      }
      if ending.TooMuch? {
        return false, 552;
      }
      var r := msg.Close();
      OnlyLast(msg);
      msg, numRcpts := null, 0;
      match r
      case Closed => return true, 250;
      case TemporaryFailure => return false, 451;
      case Failure => return false, 550;
    }

    /** DATA that may go ahead. */
    method ServeBody() returns (more: bool, code: nat)
      requires Valid() && msg != null
      modifies this`numRcpts, this`msg, this`input, msg
      ensures Valid()
      ensures var s := old(S());
        var t := Take(s.Current().answers, s.Current().calls, s.input, 0, config.maxSize);
        Out(S(), more, code) == EndData(s.(input := t.rest).Called(t.calls), t.ending, t.failed)
    {
      hide Take, EndData;
      var ending, failed := ReadLines();
      OnlyLast(msg);
      more, code := FinishData(ending, failed);
    }

    method ServeData(noArg: bool) returns (more: bool, code: nat)
      requires Valid()
      modifies this`numRcpts, this`msg, this`input, msg
      ensures Valid() && Out(S(), more, code) == DoData(config, old(S()), noArg)
    {
      if !HasTLS() {
        return true, 530;
      }
      if !noArg {
        return true, 501;
      }
      if msg == null || numRcpts == 0 {
        return true, 503;
      }
      hide Take, EndData, Start;
      more, code := ServeBody();
    }

    method ServeRset(noArg: bool) returns (more: bool, code: nat)
      requires Valid()
      modifies this`numRcpts, this`msg, msg
      ensures Valid() && Out(S(), more, code) == DoRset(config, old(S()), noArg)
    {
      if !HasTLS() {
        return true, 530;
      }
      if !noArg {
        return true, 501;
      }
      if msg != null {
        msg.Cancel();
        OnlyLast(msg);
      }
      msg, numRcpts := null, 0;
      return true, SILENT;
    }

    /** One command. */
    method ServeCmd(cmd: Cmd) returns (more: bool, code: nat)
      requires Valid()
      modifies this, msg
      ensures Valid() && old(all) <= all && (forall m | m in all && m !in old(all) :: fresh(m))
      ensures Out(S(), more, code) == Do(config, old(S()), cmd)
    {
      hide DoMail, DoRcpt, DoData, DoRset;
      match cmd {
        case Noop => return true, 250;
        case Quit(noArg) => return !noArg, if noArg then 221 else 501;
        case Helo => return true, 250;
        case StartTLS(noArg, secure) =>
          if tls {
            return true, 454;
          }
          if !noArg {
            return true, 501;
          }
          tls, input := true, secure;
          return true, 220;
        case Auth(answer) =>
          if !config.hasAuth {
            return true, 451;
          }
          match answer {
            case UnknownType => return true, 504;
            case BadLogin => return true, 500;
            case Token(token) =>
              authToken := token;
              return true, if token == 0 then 535 else 235;
          }
        case Mail(addr, opening) => more, code := ServeMail(addr, opening);
        case Rcpt(addr) => more, code := ServeRcpt(addr);
        case DataCmd(noArg) => more, code := ServeData(noArg);
        case Rset(noArg) => more, code := ServeRset(noArg);
        case Unknown => return true, 502;
      }
    }

    /** The way out. */
    method Leave()
      requires Valid()
      modifies this`msg, msg
      ensures Valid() && all == old(all) && S() == Left(old(S()))
    {
      if msg != null {
        msg.Cancel();
        OnlyLast(msg);
        msg := null;
      }
    }
  }

  /** A whole session: its replies and all its messages are those of the run. So
      there are as many messages as were opened, each has had exactly one Close
      or Cancel and nothing after it, and none more than MaxSize bytes. */
  method Serve(config: Config, input: seq<byte>, cmds: seq<Cmd>) returns (codes: seq<nat>, ghost all: seq<Message>)
    ensures forall i, j | 0 <= i < j < |all| :: all[i] != all[j]
    ensures forall m | m in all :: fresh(m)
    ensures var r := Run(config, Start(config, input), cmds); codes == r.codes && Logs(all) == Left(r.s).logs
    ensures |all| == Openings(config, Start(config, input), cmds)
    ensures forall i | 0 <= i < |all| :: PhaseOf(all[i].calls) == Over && Written(all[i].calls) <= config.maxSize
  {
    RunsAreSafe(config, input, cmds);
    hide *;
    var s := new Session(config, input);
    ghost var whole := Run(config, Start(config, input), cmds);
    var i, more := 0, true;
    codes := [];
    assert cmds[0..] == cmds;
    RunFrom(config, s.S(), cmds);
    while i < |cmds| && more
      invariant i <= |cmds| && s.Valid() && s.config == config && fresh(s) && forall m | m in s.all :: fresh(m)
      invariant Behind(config, s.S(), codes, more, cmds[i..], whole)
    {
      SessionMsg(s);
      RunNext(config, s.S(), codes, cmds[i..], whole);
      assert cmds[i..][0] == cmds[i] && cmds[i..][1..] == cmds[i + 1..];
      var code;
      more, code := s.ServeCmd(cmds[i]);
      codes := codes + [code];
      i := i + 1;
    }
    RunEnd(config, s.S(), codes, more, cmds[i..], whole);
    SessionMsg(s);
    s.Leave();
    all := s.all;
    SessionAll(s);
  }

  lemma SessionMsg(s: Session)
    requires s.Valid()
    ensures s.msg != null ==> s.msg in s.all
  {
  }

  lemma SessionAll(s: Session)
    requires s.Valid()
    ensures Logs(s.all) == s.S().logs && forall i, j | 0 <= i < j < |s.all| :: s.all[i] != s.all[j]
    ensures forall i | 0 <= i < |s.all| :: s.S().logs[i].calls == s.all[i].calls
  {
  }

  /** With the replies `codes` made, the rest of the commands leads to the whole
      run. */
  ghost predicate Behind(c: Config, s: State, codes: seq<nat>, more: bool, cmds: seq<Cmd>, whole: Ran)
    requires s.Formed()
  {
    if more then
      var r := Run(c, s, cmds);
      whole == Ran(r.s, codes + r.codes, r.more)
    else whole == Ran(s, codes, false)
  }

  lemma RunFrom(c: Config, s: State, cmds: seq<Cmd>)
    requires s.Formed()
    ensures Behind(c, s, [], true, cmds, Run(c, s, cmds))
  {
    assert [] + Run(c, s, cmds).codes == Run(c, s, cmds).codes;
  }

  lemma RunNext(c: Config, s: State, codes: seq<nat>, cmds: seq<Cmd>, whole: Ran)
    requires s.Formed() && cmds != [] && Behind(c, s, codes, true, cmds, whole)
    ensures var o := Do(c, s, cmds[0]); Behind(c, o.s, codes + [o.code], o.more, cmds[1..], whole)
  {
    hide Do;
    var o := Do(c, s, cmds[0]);
    if o.more {
      Assoc(codes, [o.code], Run(c, o.s, cmds[1..]).codes);
    }
  }

  lemma RunEnd(c: Config, s: State, codes: seq<nat>, more: bool, cmds: seq<Cmd>, whole: Ran)
    requires s.Formed() && Behind(c, s, codes, more, cmds, whole) && (cmds == [] || !more)
    ensures whole.s == s && whole.codes == codes
  {
    assert codes + [] == codes;
  }
}
