/** IMAP SEARCH: the recursive parser of search keys and the matcher
    (imap/imapparser), on the tokens the scanner finds. */
module Search {
  import opened Bytes
  import opened Wrappers
  import opened SeqSet

  datatype Key =
    | AND | OR | NOT | SEQSET | UID | UNDRAFT
    | ALL | ANSWERED | DELETED | DRAFT | FLAGGED | NEW | OLD | RECENT | SEEN
    | UNANSWERED | UNDELETED | UNFLAGGED | UNSEEN
    | BCC | BODY | CC | FROM | SUBJECT | TEXT | TO
    | KEYWORD | UNKEYWORD
    | BEFORE | ON | SINCE | SENTBEFORE | SENTON | SENTSINCE
    | HEADER | LARGER | SMALLER | MODSEQ

  /** One node; which of the fields are used depends on the key. A date is the
      second its day begins at. */
  datatype Op = Op(key: Key, children: seq<Op>, value: seq<byte>, num: int, seqs: seq<SeqRange>, date: int)

  function Plain(k: Key): Op { Op(k, [], [], 0, [], 0) }

  /** What follows a key. */
  datatype Shape = Bare | Text | Flag | Dated | Field | Sized | Sets | ModSeq | One | Two | Many | Unparsed

  function ShapeOf(k: Key): Shape {
    match k
    case AND => Many
    case OR => Two
    case NOT => One
    case SEQSET => Unparsed
    case UID | UNDRAFT => Sets
    case ALL | ANSWERED | DELETED | DRAFT | FLAGGED | NEW | OLD | RECENT | SEEN
       | UNANSWERED | UNDELETED | UNFLAGGED | UNSEEN => Bare
    case BCC | BODY | CC | FROM | SUBJECT | TEXT | TO => Text
    case KEYWORD | UNKEYWORD => Flag
    case BEFORE | ON | SINCE | SENTBEFORE | SENTON | SENTSINCE => Dated
    case HEADER => Field
    case LARGER | SMALLER => Sized
    case MODSEQ => ModSeq
  }

  // ------------------------------------------------------------------ tokens

  /** `Word` is a known key, in any case; `Other` a word that is none. */
  datatype Tok =
    | Word(k: Key) | Open | Close | Other | Set(rs: seq<SeqRange>)
    | Str(s: seq<byte>) | Atom(a: seq<byte>) | Number(n: nat) | Date(d: int)

  predicate IsKeyToken(t: Tok) { t.Word? || t.Open? || t.Close? || t.Other? || t.Set? }

  const COLON_SP: seq<byte> := [0x3A, SP]
  const MAX_INT64: int := 0x7FFF_FFFF_FFFF_FFFF

  predicate AllDigits(d: seq<byte>) { forall i | 0 <= i < |d| :: IsDigit(d[i]) }

  /** strconv.ParseInt with base 10 and 64 bits. */
  function ParseInt(s: seq<byte>): Option<int> {
    var neg := s != [] && s[0] == 0x2D;
    var d := if s != [] && (s[0] == 0x2D || s[0] == 0x2B) then s[1..] else s;
    if d == [] || !AllDigits(d) then None
    else
      var v: int := Value(d);
      if neg then (if v <= MAX_INT64 + 1 then Some(-v) else None)
      else if v <= MAX_INT64 then Some(v) else None
  }

  // ----------------------------------------------------------------- parsing

  datatype Parsed = Parsed(op: Op, rest: seq<Tok>) | Failed

  /** The arguments of a key without children, behind the key. */
  function ParseLeaf(k: Key, ts: seq<Tok>): (r: Parsed)
    ensures r.Parsed? ==> |r.rest| <= |ts|
  {
    match ShapeOf(k)
    case Bare => Parsed(Plain(k), ts)
    case Text => if ts != [] && ts[0].Str? then Parsed(Plain(k).(value := ts[0].s), ts[1..]) else Failed
    case Flag => if ts != [] && ts[0].Atom? then Parsed(Plain(k).(value := ts[0].a), ts[1..]) else Failed
    case Dated => if ts != [] && ts[0].Date? then Parsed(Plain(k).(date := ts[0].d), ts[1..]) else Failed
    case Field =>
      if |ts| > 1 && ts[0].Str? && ts[1].Str?
      then Parsed(Plain(k).(value := ts[0].s + COLON_SP + ts[1].s), ts[2..]) else Failed
    case Sized => if ts != [] && ts[0].Number? then Parsed(Plain(k).(num := ts[0].n), ts[1..]) else Failed
    case Sets => if ts != [] && ts[0].Set? then Parsed(Plain(k).(seqs := ts[0].rs), ts[1..]) else Failed
    case ModSeq =>
      // An entry name and its type are read and ignored.
      var us := if |ts| > 1 && ts[0].Str? && ts[1].Atom? then ts[2..] else ts;
      if us != [] && us[0].Atom? && ParseInt(us[0].a).Some?
      then Parsed(Plain(k).(num := ParseInt(us[0].a).value), us[1..]) else Failed
    case _ => Failed
  }

  function ParseKey(ts: seq<Tok>): (r: Parsed)
    ensures r.Parsed? ==> |r.rest| < |ts|
    decreases |ts|, 0
  {
    if ts == [] then Failed
    else
      match ts[0]
      case Set(rs) => if rs == [] then Failed else Parsed(Plain(SEQSET).(seqs := rs), ts[1..])
      case Open => ParseMany(ts[1..], [])
      case Word(k) =>
        if k == AND then ParseMany(ts[1..], [])
        else if k == NOT then
          match ParseKey(ts[1..]) {
            case Failed => Failed
            case Parsed(op, rest) => Parsed(Plain(NOT).(children := [op]), rest)
          }
        else if k == OR then
          match ParseKey(ts[1..]) {
            case Failed => Failed
            case Parsed(a, rest) =>
              match ParseKey(rest)
              case Failed => Failed
              case Parsed(b, rest2) => Parsed(Plain(OR).(children := [a, b]), rest2)
          }
        else ParseLeaf(k, ts[1..])
      case _ => Failed
  }

  /** A list of one key is that key. */
  function Bundle(ops: seq<Op>): Op
    requires ops != []
  {
    if |ops| == 1 then ops[0] else Plain(AND).(children := ops)
  }

  /** Keys up to the closing parenthesis. */
  function ParseMany(ts: seq<Tok>, done: seq<Op>): (r: Parsed)
    ensures r.Parsed? ==> |r.rest| < |ts|
    decreases |ts|, 1
  {
    if ts == [] || !IsKeyToken(ts[0]) then Failed
    else if ts[0].Close? then if done == [] then Failed else Parsed(Bundle(done), ts[1..])
    else
      match ParseKey(ts)
      case Failed => Failed
      case Parsed(op, rest) => ParseMany(rest, done + [op])
  }

  /** The keys of the command, to its end. */
  function ParseAll(ts: seq<Tok>, done: seq<Op>): Parsed
    decreases |ts|
  {
    match ParseKey(ts)
    case Failed => Failed
    case Parsed(op, rest) =>
      if rest == [] then Parsed(Bundle(done + [op]), [])
      else if !IsKeyToken(rest[0]) then Failed
      else ParseAll(rest, done + [op])
  }

  // --------------------------------------------------------------- rendering

  function Render(op: Op): seq<Tok>
    decreases op
  {
    match ShapeOf(op.key)
    case Many => [Open] + (RenderAll(op.children) + [Close])
    case Two | One => [Word(op.key)] + RenderAll(op.children)
    case Unparsed => [Set(op.seqs)]
    case Bare => [Word(op.key)]
    case Text => [Word(op.key), Str(op.value)]
    case Flag => [Word(op.key), Atom(op.value)]
    case Dated => [Word(op.key), Date(op.date)]
    case Field =>
      var i := Split(op.value);
      [Word(op.key), Str(op.value[..i]), Str(if i + 2 <= |op.value| then op.value[i + 2..] else [])]
    case Sized => [Word(op.key), Number(if op.num < 0 then 0 else op.num)]
    case Sets => [Word(op.key), Set(op.seqs)]
    case ModSeq => [Word(op.key), Atom(Decimal(if op.num < 0 then 0 else op.num))]
  }

  function RenderAll(ops: seq<Op>): seq<Tok>
    decreases ops
  {
    if ops == [] then [] else Render(ops[0]) + RenderAll(ops[1..])
  }

  /** Where the name of a header ends. */
  function Split(v: seq<byte>): (i: nat)
    ensures i <= |v|
  {
    if v == [] || COLON_SP <= v then 0 else 1 + Split(v[1..])
  }

  /** A tree the parser knows: each node has what its key calls for, and
      nothing else. */
  predicate Known(op: Op)
    decreases op
  {
    && KnownAll(op.children)
    && match ShapeOf(op.key)
       case Many => op.children != [] && op == Plain(AND).(children := op.children)
       case Two => |op.children| == 2 && op == Plain(OR).(children := op.children)
       case One => |op.children| == 1 && op == Plain(NOT).(children := op.children)
       case Unparsed => op.seqs != [] && op == Plain(SEQSET).(seqs := op.seqs)
       case Bare => op == Plain(op.key)
       case Text | Flag => op == Plain(op.key).(value := op.value)
       case Dated => op == Plain(op.key).(date := op.date)
       case Field => op == Plain(op.key).(value := op.value) && COLON_SP <= op.value[Split(op.value)..]
       case Sized => op == Plain(op.key).(num := op.num) && 0 <= op.num
       case Sets => op == Plain(op.key).(seqs := op.seqs)
       case ModSeq => op == Plain(op.key).(num := op.num) && 0 <= op.num <= MAX_INT64
  }

  predicate KnownAll(ops: seq<Op>)
    decreases ops
  {
    ops == [] || (Known(ops[0]) && KnownAll(ops[1..]))
  }

  /** The tree without lists of one key. */
  function Collapse(op: Op): Op
    decreases op
  {
    if op.key == AND && |op.children| == 1 then Collapse(op.children[0])
    else op.(children := CollapseAll(op.children))
  }

  function CollapseAll(ops: seq<Op>): (r: seq<Op>)
    ensures |r| == |ops|
    decreases ops
  {
    if ops == [] then [] else [Collapse(ops[0])] + CollapseAll(ops[1..])
  }

  // ---------------------------------------------------------------- matching

  /** A message. Its date is a second, and the second its calendar day, where
      it was sent, would begin at in UTC. */
  datatype Message = Message(seqNum: nat, uid: nat, modSeq: int, flags: set<string>, headers: map<seq<byte>, seq<byte>>,
                             date: int, day: int, size: int)

  function HeaderOf(m: Message, name: seq<byte>): seq<byte> {
    if name in m.headers then m.headers[name] else []
  }

  function Contains(h: seq<byte>, v: seq<byte>): bool {
    v <= h || (h != [] && Contains(h[1..], v))
  }

  const SUBJECT_NAME: seq<byte> := [0x53, 0x75, 0x62, 0x6A, 0x65, 0x63, 0x74]
  const TO_NAME: seq<byte> := [0x54, 0x6F]
  const FROM_NAME: seq<byte> := [0x46, 0x72, 0x6F, 0x6D]
  const CC_NAME: seq<byte> := [0x43, 0x43]
  const BCC_NAME: seq<byte> := [0x42, 0x43, 0x43]

  /** A key without children. Keys that are not supported match nothing. */
  predicate MatchLeaf(m: Message, op: Op) {
    match op.key
    case SEQSET => SeqContains(op.seqs, m.seqNum)
    case UID => SeqContains(op.seqs, m.uid)
    case ALL => true
    case BEFORE => m.date < op.date
    case LARGER => m.size > op.num
    case SMALLER => m.size < op.num
    case MODSEQ => m.modSeq >= op.num
    case NEW => "\\Recent" in m.flags && "\\Seen" !in m.flags
    case OLD => "\\Recent" !in m.flags
    case ON => m.day == op.date
    case RECENT => "\\Recent" in m.flags
    case SEEN => "\\Seen" in m.flags
    case SINCE => m.day >= op.date
    case HEADER =>
      var i := IndexByte(op.value, 0x3A);
      i >= 1 && HeaderOf(m, op.value[..i]) == if i < |op.value| - 1 then op.value[i + 2..] else []
    case SUBJECT => Contains(HeaderOf(m, SUBJECT_NAME), op.value)
    case TO => Contains(HeaderOf(m, TO_NAME), op.value)
    case FROM => Contains(HeaderOf(m, FROM_NAME), op.value)
    case CC => Contains(HeaderOf(m, CC_NAME), op.value)
    case BCC => Contains(HeaderOf(m, BCC_NAME), op.value)
    case ANSWERED => "\\Answered" in m.flags
    case UNANSWERED => "\\Answered" !in m.flags
    case DELETED => "\\Deleted" in m.flags
    case UNDELETED => "\\Deleted" !in m.flags
    case DRAFT => "\\Draft" in m.flags
    case UNDRAFT => "\\Draft" !in m.flags
    case FLAGGED => "\\Flagged" in m.flags
    case UNFLAGGED => "\\Flagged" !in m.flags
    case UNSEEN => "\\Seen" !in m.flags
    case _ => false
  }

  predicate Match(m: Message, op: Op)
    decreases op
  {
    match op.key
    case AND => MatchEvery(m, op.children)
    case OR => MatchSome(m, op.children)
    case NOT => |op.children| == 1 && !Match(m, op.children[0])
    case _ => MatchLeaf(m, op)
  }

  predicate MatchEvery(m: Message, ops: seq<Op>)
    decreases ops
  {
    ops == [] || (Match(m, ops[0]) && MatchEvery(m, ops[1..]))
  }

  predicate MatchSome(m: Message, ops: seq<Op>)
    decreases ops
  {
    ops != [] && (Match(m, ops[0]) || MatchSome(m, ops[1..]))
  }

  // ------------------------------------------------------------------ proofs

  lemma FirstToken(op: Op)
    ensures Render(op) != [] && IsKeyToken(Render(op)[0]) && !Render(op)[0].Close?
  {
  }

  lemma ParseDecimal(n: nat)
    requires n <= MAX_INT64
    ensures ParseInt(Decimal(n)) == Some(n)
  {
    DecimalFacts(n);
    assert IsDigit(Decimal(n)[0]);
  }

  lemma SplitValue(v: seq<byte>)
    requires COLON_SP <= v[Split(v)..]
    ensures var i := Split(v); i + 2 <= |v| && v[..i] + COLON_SP + v[i + 2..] == v
  {
    hide Split;
    var i := Split(v);
    var w := v[i..];
    assert |w| >= 2 && w == COLON_SP + w[2..];
    assert v == v[..i] + w && w[2..] == v[i + 2..];
    Assoc(v[..i], COLON_SP, v[i + 2..]);
  }

  /** A key without children, written and read. */
  lemma LeafShape(k: Key)
    ensures ShapeOf(k).Many? || ShapeOf(k).Two? || ShapeOf(k).One? || ShapeOf(k).Unparsed?
      <==> k.AND? || k.OR? || k.NOT? || k.SEQSET?
  {
  }

  ghost predicate Rendered(op: Op, tail: seq<Tok>) {
    && Render(op)[0] == Word(op.key) && op.children == []
    && ParseLeaf(op.key, Render(op)[1..] + tail) == Parsed(op, tail)
  }

  lemma FieldRender(op: Op, tail: seq<Tok>)
    requires Known(op) && ShapeOf(op.key).Field?
    ensures Rendered(op, tail)
  {
    hide Decimal, ParseInt, Split, ShapeOf, KnownAll;
    var us := Render(op)[1..] + tail;
    SplitValue(op.value);
    assert us[2..] == tail;
  }

  lemma ModSeqRender(op: Op, tail: seq<Tok>)
    requires Known(op) && ShapeOf(op.key).ModSeq?
    ensures Rendered(op, tail)
  {
    hide Decimal, ParseInt, Split, ShapeOf, KnownAll;
    var us := Render(op)[1..] + tail;
    ParseDecimal(op.num);
    assert us[1..] == tail;
  }

  lemma PlainRender(op: Op, tail: seq<Tok>)
    requires Known(op)
    requires var s := ShapeOf(op.key); s.Bare? || s.Text? || s.Flag? || s.Dated? || s.Sized? || s.Sets?
    ensures Rendered(op, tail)
  {
    hide Decimal, ParseInt, Split, ShapeOf, KnownAll;
    var us := Render(op)[1..] + tail;
    if ShapeOf(op.key).Bare? {
      assert us == tail;
    } else {
      assert us[1..] == tail;
    }
  }

  lemma LeafRender(op: Op, tail: seq<Tok>)
    requires Known(op) && !op.key.AND? && !op.key.OR? && !op.key.NOT? && !op.key.SEQSET?
    ensures Render(op)[0] == Word(op.key) && op.children == []
    ensures ParseLeaf(op.key, Render(op)[1..] + tail) == Parsed(op, tail)
  {
    LeafShape(op.key);
    hide Render, ParseLeaf, Known, ShapeOf;
    match ShapeOf(op.key)
    case Field => FieldRender(op, tail);
    case ModSeq => ModSeqRender(op, tail);
    case _ => PlainRender(op, tail);
  }

  lemma KnownKinds(op: Op)
    requires Known(op)
    ensures KnownAll(op.children)
    ensures op.key.AND? ==> op.children != [] && op == Plain(AND).(children := op.children)
    ensures op.key.OR? ==> |op.children| == 2 && op == Plain(OR).(children := op.children)
    ensures op.key.NOT? ==> |op.children| == 1 && op == Plain(NOT).(children := op.children)
    ensures op.key.SEQSET? ==> op.seqs != [] && op == Plain(SEQSET).(seqs := op.seqs)
  {
  }

  lemma CollapseBundle(cs: seq<Op>)
    requires cs != []
    ensures Collapse(Plain(AND).(children := cs)) == Bundle(CollapseAll(cs))
  {
    if |cs| == 1 {
      assert CollapseAll(cs) == [Collapse(cs[0])];
    }
  }

  /** Any tree the parser knows, written as tokens with anything behind, is
      read to its end and no further, and comes back with its lists of one key
      collapsed. */
  lemma {:induction false} ParseRender(op: Op, tail: seq<Tok>)
    requires Known(op)
    ensures ParseKey(Render(op) + tail) == Parsed(Collapse(op), tail)
    decreases op
  {
    KnownKinds(op);
    FirstToken(op);
    var ts, cs := Render(op) + tail, op.children;
    if op.key.AND? {
      ManyRender(cs, [], tail);
      RenderMany(op, tail);
      CollapseBundle(cs);
      assert [] + CollapseAll(cs) == CollapseAll(cs);
    } else if op.key.NOT? {
      ParseRender(cs[0], tail);
      RenderOne(op, tail);
    } else if op.key.OR? {
      assert Known(cs[1]) by { assert KnownAll(cs[1..]); }
      ParseRender(cs[1], tail);
      ParseRender(cs[0], Render(cs[1]) + tail);
      RenderTwo(op, tail);
    } else if op.key.SEQSET? {
      assert ts[0] == Set(op.seqs) && ts[1..] == tail;
    } else {
      LeafRender(op, tail);
      assert ts[0] == Word(op.key) && ts[1..] == Render(op)[1..] + tail;
      assert CollapseAll([]) == [];
    }
  }

  lemma RenderMany(op: Op, tail: seq<Tok>)
    requires op.key.AND?
    ensures Render(op) + tail == [Open] + (RenderAll(op.children) + ([Close] + tail))
  {
    hide RenderAll;
    Assoc([Open], RenderAll(op.children) + [Close], tail);
    Assoc(RenderAll(op.children), [Close], tail);
  }

  lemma RenderOne(op: Op, tail: seq<Tok>)
    requires op.key.NOT? && |op.children| == 1
    ensures Render(op) + tail == [Word(NOT)] + (Render(op.children[0]) + tail)
    ensures Collapse(op) == op.(children := [Collapse(op.children[0])])
  {
    var a := Render(op.children[0]);
    assert op.children[1..] == [] && RenderAll(op.children) == a + [] == a;
    assert CollapseAll(op.children) == [Collapse(op.children[0])] + [];
    Assoc([Word(NOT)], a, tail);
  }

  lemma RenderTwo(op: Op, tail: seq<Tok>)
    requires op.key.OR? && |op.children| == 2
    ensures Render(op) + tail == [Word(OR)] + (Render(op.children[0]) + (Render(op.children[1]) + tail))
    ensures Collapse(op) == op.(children := [Collapse(op.children[0]), Collapse(op.children[1])])
  {
    var cs := op.children;
    var a, b := Render(cs[0]), Render(cs[1]);
    assert cs[1..] == [cs[1]] && cs[1..][1..] == [];
    assert RenderAll(cs[1..]) == b + [] == b;
    assert RenderAll(cs) == a + b;
    assert CollapseAll(cs[1..]) == [Collapse(cs[1])] + [];
    Assoc([Word(OR)], a + b, tail);
    Assoc(a, b, tail);
  }

  lemma {:induction false} ManyRender(cs: seq<Op>, done: seq<Op>, tail: seq<Tok>)
    requires KnownAll(cs) && (cs != [] || done != [])
    ensures ParseMany(RenderAll(cs) + ([Close] + tail), done) == Parsed(Bundle(done + CollapseAll(cs)), tail)
    decreases cs
  {
    var end := [Close] + tail;
    if cs == [] {
      assert [] + end == end && done + [] == done;
    } else {
      var more := RenderAll(cs[1..]) + end;
      FirstToken(cs[0]);
      ParseRender(cs[0], more);
      ManyRender(cs[1..], done + [Collapse(cs[0])], tail);
      hide Render, ParseKey, Collapse, Known, Bundle;
      Assoc(Render(cs[0]), RenderAll(cs[1..]), end);
      Assoc(done, [Collapse(cs[0])], CollapseAll(cs[1..]));
    }
  }

  lemma {:induction false} AllRender(cs: seq<Op>, done: seq<Op>)
    requires KnownAll(cs) && cs != []
    ensures ParseAll(RenderAll(cs), done) == Parsed(Bundle(done + CollapseAll(cs)), [])
    decreases cs
  {
    var more := RenderAll(cs[1..]);
    ParseRender(cs[0], more);
    if |cs| > 1 {
      FirstToken(cs[1]);
      AllRender(cs[1..], done + [Collapse(cs[0])]);
      hide Render, ParseKey, Collapse, Known, Bundle;
      Assoc(done, [Collapse(cs[0])], CollapseAll(cs[1..]));
    } else {
      assert CollapseAll(cs[1..]) == [];
      assert done + [Collapse(cs[0])] == done + ([Collapse(cs[0])] + []);
    }
  }

  /** A whole command of known keys is read to its end, as their list,
      collapsed. */
  lemma CommandRoundTrip(cs: seq<Op>)
    requires KnownAll(cs) && cs != []
    ensures ParseAll(RenderAll(cs), []) == Parsed(Collapse(Plain(AND).(children := cs)), [])
  {
    AllRender(cs, []);
    CollapseBundle(cs);
    assert [] + CollapseAll(cs) == CollapseAll(cs);
  }

  /** Collapsing changes no message's answer, for trees of any form. */
  lemma LeafAlone(m: Message, op: Op, cs: seq<Op>)
    ensures MatchLeaf(m, op) == MatchLeaf(m, op.(children := cs))
  {
  }

  lemma {:induction false} MatchCollapse(m: Message, op: Op)
    ensures Match(m, Collapse(op)) == Match(m, op)
    decreases op
  {
    hide MatchLeaf;
    var cs := op.children;
    if op.key == AND && |cs| == 1 {
      MatchCollapse(m, cs[0]);
      assert cs[1..] == [] && MatchEvery(m, []);
    } else {
      MatchCollapseAll(m, cs);
      if op.key == NOT && |cs| == 1 {
        MatchCollapse(m, cs[0]);
      }
      LeafAlone(m, op, CollapseAll(cs));
    }
  }

  lemma {:induction false} MatchCollapseAll(m: Message, ops: seq<Op>)
    ensures MatchEvery(m, CollapseAll(ops)) == MatchEvery(m, ops)
    ensures MatchSome(m, CollapseAll(ops)) == MatchSome(m, ops)
    decreases ops
  {
    if ops != [] {
      MatchCollapse(m, ops[0]);
      MatchCollapseAll(m, ops[1..]);
      assert CollapseAll(ops)[1..] == CollapseAll(ops[1..]);
    }
  }

  /** So what a message answers to the command as parsed is what it answers to
      the keys as sent. */
  lemma CommandMeaning(m: Message, cs: seq<Op>)
    requires KnownAll(cs) && cs != []
    ensures ParseAll(RenderAll(cs), []).Parsed?
    ensures Match(m, ParseAll(RenderAll(cs), []).op) == MatchEvery(m, cs)
  {
    CommandRoundTrip(cs);
    MatchCollapse(m, Plain(AND).(children := cs));
  }

  // -------------------------------------------------------------- the parser

  class Parser {
    const tokens: seq<Tok>
    var pos: nat

    constructor (tokens: seq<Tok>)
      ensures Valid() && Rest() == tokens
    {
      this.tokens := tokens;
      pos := 0;
    }

    ghost predicate Valid()
      reads this
    {
      pos <= |tokens|
    }

    ghost function Rest(): seq<Tok>
      reads this
      requires Valid()
    {
      tokens[pos..]
    }

    /** The scanner's Next, for a token of any kind. */
    method Next() returns (t: Option<Tok>)
      requires Valid()
      modifies `pos
      ensures Valid()
      ensures if old(Rest()) == [] then t == None && Rest() == [] else t == Some(old(Rest())[0]) && Rest() == old(Rest())[1..]
    {
      if pos == |tokens| {
        return None;
      }
      t := Some(tokens[pos]);
      pos := pos + 1;
    }

    /** The token in front has been read as `t`. */
    method ParseSearchKey(t: Tok, ghost ts: seq<Tok>) returns (r: Option<Op>)
      requires Valid() && ts == [t] + Rest()
      modifies `pos
      ensures Valid()
      ensures r.None? <==> ParseKey(ts).Failed?
      ensures r.Some? ==> ParseKey(ts) == Parsed(r.value, Rest())
      decreases |ts|, 0
    {
      assert ts[1..] == Rest();
      match t
      case Set(rs) =>
        r := if rs == [] then None else Some(Plain(SEQSET).(seqs := rs));
      case Open =>
        r := ParseList();
      case Word(k) =>
        if k == AND {
          r := ParseList();
        } else if k == NOT {
          var a := ParseNext();
          r := if a.None? then None else Some(Plain(NOT).(children := [a.value]));
        } else if k == OR {
          var a := ParseNext();
          if a.None? {
            return None;
          }
          var b := ParseNext();
          r := if b.None? then None else Some(Plain(OR).(children := [a.value, b.value]));
        } else {
          r := ParseArguments(k);
        }
      case _ =>
        r := None;
    }

    /** Reads a token and the key it starts. */
    method ParseNext() returns (r: Option<Op>)
      requires Valid()
      modifies `pos
      ensures Valid()
      ensures r.None? <==> ParseKey(old(Rest())).Failed?
      ensures r.Some? ==> ParseKey(old(Rest())) == Parsed(r.value, Rest())
      decreases |Rest()|, 1
    {
      ghost var ts := Rest();
      var t := Next();
      if t.None? {
        return None;
      }
      assert ts == [t.value] + Rest();
      r := ParseSearchKey(t.value, ts);
    }

    method ParseList() returns (r: Option<Op>)
      requires Valid()
      modifies `pos
      ensures Valid()
      ensures r.None? <==> ParseMany(old(Rest()), []).Failed?
      ensures r.Some? ==> ParseMany(old(Rest()), []) == Parsed(r.value, Rest())
      decreases |Rest()|, 2
    {
      ghost var whole := ParseMany(Rest(), []);
      var children := [];
      while true
        invariant Valid() && whole == ParseMany(Rest(), children) && |Rest()| <= old(|Rest()|)
        decreases |Rest()|
      {
        ghost var ts := Rest();
        var t := Next();
        if t.None? || !IsKeyToken(t.value) {
          return None;
        }
        assert ts == [t.value] + Rest();
        if t.value.Close? {
          break;
        }
        var ch := ParseSearchKey(t.value, ts);
        if ch.None? {
          return None;
        }
        children := children + [ch.value];
      }
      if |children| == 0 {
        return None;
      }
      if |children| == 1 {
        return Some(children[0]);
      }
      return Some(Plain(AND).(children := children));
    }

    /** The arguments of a key that has no keys below it. */
    method ParseArguments(k: Key) returns (r: Option<Op>)
      requires Valid()
      modifies `pos
      ensures Valid()
      ensures r.None? <==> ParseLeaf(k, old(Rest())).Failed?
      ensures r.Some? ==> ParseLeaf(k, old(Rest())) == Parsed(r.value, Rest())
    {
      hide ParseInt;
      var op := Plain(k);
      var shape := ShapeOf(k);
      if shape.Bare? {
        return Some(op);
      }
      if shape.Unparsed? || shape.One? || shape.Two? || shape.Many? {
        return None;
      }
      var t := Next();
      if t.None? {
        return None;
      }
      if shape.Text? {
        return if t.value.Str? then Some(op.(value := t.value.s)) else None;
      }
      if shape.Flag? {
        return if t.value.Atom? then Some(op.(value := t.value.a)) else None;
      }
      if shape.Dated? {
        return if t.value.Date? then Some(op.(date := t.value.d)) else None;
      }
      if shape.Sized? {
        return if t.value.Number? then Some(op.(num := t.value.n)) else None;
      }
      if shape.Sets? {
        return if t.value.Set? then Some(op.(seqs := t.value.rs)) else None;
      }
      if shape.Field? {
        if !t.value.Str? {
          return None;
        }
        var u := Next();
        return if u.Some? && u.value.Str? then Some(op.(value := t.value.s + COLON_SP + u.value.s)) else None;
      }
      if t.value.Str? {
        var u := Next();
        if u.None? || !u.value.Atom? {
          return None;
        }
        t := Next();
      }
      if t.None? || !t.value.Atom? {
        return None;
      }
      var v := ParseInt(t.value.a);
      r := if v.None? then None else Some(op.(num := v.value));
    }

    /** The whole command. */
    method ParseSearch() returns (r: Option<Op>)
      requires Valid()
      modifies `pos
      ensures Valid()
      ensures r.None? <==> ParseAll(old(Rest()), []).Failed?
      ensures r.Some? ==> ParseAll(old(Rest()), []) == Parsed(r.value, Rest())
    {
      ghost var whole := ParseAll(Rest(), []);
      var children := [];
      var more := true;
      while more
        invariant Valid()
        invariant if more then whole == ParseAll(Rest(), children)
          else Rest() == [] && children != [] && whole == Parsed(Bundle(children), [])
        decreases more, |Rest()|
      {
        var op := ParseNext();
        if op.None? {
          return None;
        }
        children := children + [op.value];
        if pos == |tokens| {
          more := false;
        } else if !IsKeyToken(tokens[pos]) {
          return None;
        }
      }
      if |children| == 1 {
        return Some(children[0]);
      }
      return Some(Plain(AND).(children := children));
    }
  }
}
