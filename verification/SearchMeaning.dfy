/** What the search keys mean (section 6.4.4 of RFC 3501), said without the
    matcher and without the table of arguments (imap/imapparser). */
module SearchMeaning {
  import opened Bytes
  import opened Wrappers
  import opened SeqSet
  import opened Search

  /** The keys without arguments. */
  const BARE_KEYS: set<Key> := {ALL, ANSWERED, DELETED, DRAFT, FLAGGED, NEW, OLD, RECENT, SEEN,
                                UNANSWERED, UNDELETED, UNFLAGGED, UNSEEN}

  // ------------------------------------------------------- keys with children

  lemma {:induction false} EveryIs(m: Message, ops: seq<Op>)
    ensures MatchEvery(m, ops) <==> forall i | 0 <= i < |ops| :: Match(m, ops[i])
    decreases |ops|
  {
    hide Match;
    if ops != [] {
      EveryIs(m, ops[1..]);
      assert forall i | 0 < i < |ops| :: ops[i] == ops[1..][i - 1];
      if MatchEvery(m, ops) {
        forall i | 0 <= i < |ops|
          ensures Match(m, ops[i])
        {
          if i > 0 {
            assert Match(m, ops[1..][i - 1]);
          }
        }
      } else if Match(m, ops[0]) {
        var j :| 0 <= j < |ops[1..]| && !Match(m, ops[1..][j]);
        assert !Match(m, ops[j + 1]);
      }
    }
  }

  lemma {:induction false} SomeIs(m: Message, ops: seq<Op>)
    ensures MatchSome(m, ops) <==> exists i :: 0 <= i < |ops| && Match(m, ops[i])
    decreases |ops|
  {
    hide Match;
    if ops != [] {
      SomeIs(m, ops[1..]);
      if MatchSome(m, ops) {
        if !Match(m, ops[0]) {
          var j :| 0 <= j < |ops[1..]| && Match(m, ops[1..][j]);
          assert Match(m, ops[j + 1]);
        }
      } else {
        forall i | 0 <= i < |ops|
          ensures !Match(m, ops[i])
        {
          if i > 0 {
            assert ops[i] == ops[1..][i - 1];
          }
        }
      }
    }
  }

  /** All keys of a list, either key of an OR, not the key of a NOT. */
  lemma TreesMean(m: Message, op: Op)
    ensures op.key.AND? ==> (Match(m, op) <==> forall i | 0 <= i < |op.children| :: Match(m, op.children[i]))
    ensures op.key.OR? ==> (Match(m, op) <==> exists i :: 0 <= i < |op.children| && Match(m, op.children[i]))
    ensures op.key.NOT? && |op.children| == 1 ==> (Match(m, op) <==> !Match(m, op.children[0]))
    ensures op.key.NOT? && |op.children| != 1 ==> !Match(m, op)
  {
    EveryIs(m, op.children);
    SomeIs(m, op.children);
    hide MatchLeaf;
  }

  // ------------------------------------------------------------ flags and sets

  /** The keys of one flag each, and of its absence. */
  lemma FlagsMean(m: Message, op: Op)
    ensures op.key.ANSWERED? ==> (Match(m, op) <==> "\\Answered" in m.flags)
    ensures op.key.DELETED? ==> (Match(m, op) <==> "\\Deleted" in m.flags)
    ensures op.key.DRAFT? ==> (Match(m, op) <==> "\\Draft" in m.flags)
    ensures op.key.FLAGGED? ==> (Match(m, op) <==> "\\Flagged" in m.flags)
    ensures op.key.RECENT? ==> (Match(m, op) <==> "\\Recent" in m.flags)
    ensures op.key.SEEN? ==> (Match(m, op) <==> "\\Seen" in m.flags)
    ensures op.key.UNANSWERED? ==> (Match(m, op) <==> "\\Answered" !in m.flags)
    ensures op.key.UNDELETED? ==> (Match(m, op) <==> "\\Deleted" !in m.flags)
    ensures op.key.UNDRAFT? ==> (Match(m, op) <==> "\\Draft" !in m.flags)
    ensures op.key.UNFLAGGED? ==> (Match(m, op) <==> "\\Flagged" !in m.flags)
    ensures op.key.OLD? ==> (Match(m, op) <==> "\\Recent" !in m.flags)
    ensures op.key.UNSEEN? ==> (Match(m, op) <==> "\\Seen" !in m.flags)
    ensures op.key.NEW? ==> (Match(m, op) <==> "\\Recent" in m.flags && "\\Seen" !in m.flags)
  {
  }

  lemma NotOne(m: Message, op: Op)
    ensures Match(m, Plain(NOT).(children := [op])) <==> !Match(m, op)
  {
    TreesMean(m, Plain(NOT).(children := [op]));
    hide Match;
  }

  lemma BothOf(m: Message, a: Op, b: Op)
    ensures Match(m, Plain(AND).(children := [a, b])) <==> Match(m, a) && Match(m, b)
  {
    TreesMean(m, Plain(AND).(children := [a, b]));
    hide Match;
    assert [a, b][0] == a && [a, b][1] == b;
    assert (forall i | 0 <= i < 2 :: Match(m, [a, b][i])) <==> Match(m, [a, b][0]) && Match(m, [a, b][1]);
  }

  /** Which key is the NOT of which, and that NEW is RECENT and UNSEEN. */
  lemma OppositesMean(m: Message, rs: seq<SeqRange>)
    ensures Match(m, Plain(UNANSWERED)) <==> Match(m, Plain(NOT).(children := [Plain(ANSWERED)]))
    ensures Match(m, Plain(UNDELETED)) <==> Match(m, Plain(NOT).(children := [Plain(DELETED)]))
    ensures Match(m, Plain(UNDRAFT).(seqs := rs)) <==> Match(m, Plain(NOT).(children := [Plain(DRAFT)]))
    ensures Match(m, Plain(UNFLAGGED)) <==> Match(m, Plain(NOT).(children := [Plain(FLAGGED)]))
    ensures Match(m, Plain(UNSEEN)) <==> Match(m, Plain(NOT).(children := [Plain(SEEN)]))
    ensures Match(m, Plain(OLD)) <==> Match(m, Plain(NOT).(children := [Plain(RECENT)]))
    ensures Match(m, Plain(NEW)) <==> Match(m, Plain(AND).(children := [Plain(RECENT), Plain(UNSEEN)]))
  {
    hide Match;
    NotOne(m, Plain(ANSWERED));
    NotOne(m, Plain(DELETED));
    NotOne(m, Plain(DRAFT));
    NotOne(m, Plain(FLAGGED));
    NotOne(m, Plain(SEEN));
    NotOne(m, Plain(RECENT));
    BothOf(m, Plain(RECENT), Plain(UNSEEN));
    FlagsMean(m, Plain(UNDRAFT).(seqs := rs));
    forall k: Key
      ensures var op := Plain(k);
        && (k.ANSWERED? || k.UNANSWERED? ==> (Match(m, op) <==> ("\\Answered" in m.flags) == k.ANSWERED?))
        && (k.DELETED? || k.UNDELETED? ==> (Match(m, op) <==> ("\\Deleted" in m.flags) == k.DELETED?))
        && (k.DRAFT? ==> (Match(m, op) <==> "\\Draft" in m.flags))
        && (k.FLAGGED? || k.UNFLAGGED? ==> (Match(m, op) <==> ("\\Flagged" in m.flags) == k.FLAGGED?))
        && (k.SEEN? || k.UNSEEN? ==> (Match(m, op) <==> ("\\Seen" in m.flags) == k.SEEN?))
        && (k.RECENT? || k.OLD? ==> (Match(m, op) <==> ("\\Recent" in m.flags) == k.RECENT?))
        && (k.NEW? ==> (Match(m, op) <==> "\\Recent" in m.flags && "\\Seen" !in m.flags))
    {
      FlagsMean(m, Plain(k));
    }
  }

  /** Sets of numbers and of UIDs, ALL, sizes, and what is not supported. */
  lemma NumbersMean(m: Message, op: Op)
    ensures op.key.SEQSET? ==> (Match(m, op) <==>
      exists i :: 0 <= i < |op.seqs| && op.seqs[i].min <= m.seqNum && (op.seqs[i].max == 0 || m.seqNum <= op.seqs[i].max))
    ensures op.key.UID? ==> (Match(m, op) <==>
      exists i :: 0 <= i < |op.seqs| && op.seqs[i].min <= m.uid && (op.seqs[i].max == 0 || m.uid <= op.seqs[i].max))
    ensures op.key.ALL? ==> Match(m, op)
    ensures op.key.LARGER? ==> (Match(m, op) <==> m.size > op.num)
    ensures op.key.SMALLER? ==> (Match(m, op) <==> m.size < op.num)
    ensures op.key.MODSEQ? ==> (Match(m, op) <==> op.num <= m.modSeq)
    ensures op.key in {BODY, TEXT, KEYWORD, UNKEYWORD, SENTBEFORE, SENTON, SENTSINCE} ==> !Match(m, op)
  {
    hide SeqContains;
    if op.key.SEQSET? {
      assert Match(m, op) == SeqContains(op.seqs, m.seqNum);
      RangeFound(op.seqs, m.seqNum);
    } else if op.key.UID? {
      assert Match(m, op) == SeqContains(op.seqs, m.uid);
      RangeFound(op.seqs, m.uid);
    }
  }

  lemma RangeFound(rs: seq<SeqRange>, v: nat)
    ensures SeqContains(rs, v) <==> exists i :: 0 <= i < |rs| && rs[i].min <= v && (rs[i].max == 0 || v <= rs[i].max)
  {
    hide SeqContains;
    if SeqContains(rs, v) {
      var i :| 0 <= i < |rs| && InRange(rs[i], v);
    } else {
      forall i | 0 <= i < |rs|
        ensures !(rs[i].min <= v && (rs[i].max == 0 || v <= rs[i].max))
      {
        assert !InRange(rs[i], v);
      }
    }
  }

  /** No message is both larger and smaller; one that is neither has that size. */
  lemma SizesMean(m: Message, n: int)
    ensures var larger, smaller := Match(m, Plain(LARGER).(num := n)), Match(m, Plain(SMALLER).(num := n));
      !(larger && smaller) && (!larger && !smaller <==> m.size == n)
  {
  }

  // -------------------------------------------------------------------- dates

  /** SINCE is ON or a later day. BEFORE is its opposite, as it should be, if and
      only if the message's day, where it was sent, lies on the same side of the
      date as its time does. */
  lemma DatesMean(m: Message, d: int)
    ensures var on, since, before :=
        Match(m, Plain(ON).(date := d)), Match(m, Plain(SINCE).(date := d)), Match(m, Plain(BEFORE).(date := d));
      && (on <==> m.day == d) && (since <==> on || m.day > d) && (before <==> m.date < d)
      && ((before <==> !since) <==> (m.date < d <==> m.day < d))
  {
  }

  // ------------------------------------------------------------------ headers

  ghost predicate At(h: seq<byte>, v: seq<byte>, i: nat) { i + |v| <= |h| && h[i..i + |v|] == v }

  /** The text `v` stands in `h` at some place. */
  ghost predicate StandsIn(h: seq<byte>, v: seq<byte>) { exists i: nat :: At(h, v, i) }

  lemma AtMore(h: seq<byte>, v: seq<byte>, i: nat)
    requires h != [] && i > 0
    ensures At(h, v, i) <==> At(h[1..], v, i - 1)
  {
    if i + |v| <= |h| {
      assert h[1..][i - 1..i - 1 + |v|] == h[i..i + |v|];
    }
  }

  lemma AtFront(h: seq<byte>, v: seq<byte>)
    ensures At(h, v, 0) <==> v <= h
    ensures h == [] ==> forall i: nat | i > 0 :: !At(h, v, i)
  {
  }

  lemma {:induction false} ContainsIs(h: seq<byte>, v: seq<byte>)
    ensures Contains(h, v) <==> StandsIn(h, v)
    decreases |h|
  {
    hide At;
    AtFront(h, v);
    if !(v <= h) && h != [] {
      var t := h[1..];
      ContainsIs(t, v);
      if StandsIn(t, v) {
        var i: nat :| At(t, v, i);
        AtMore(h, v, i + 1);
        assert At(h, v, i + 1);
      }
      if StandsIn(h, v) {
        var i: nat :| At(h, v, i);
        AtMore(h, v, i);
        assert At(t, v, i - 1);
      }
    }
  }

  ghost predicate Stands(m: Message, name: seq<byte>, v: seq<byte>) {
    StandsIn(if name in m.headers then m.headers[name] else [], v)
  }

  lemma NamesAre()
    ensures Octets("Subject") == SUBJECT_NAME && Octets("To") == TO_NAME && Octets("From") == FROM_NAME
    ensures Octets("CC") == CC_NAME && Octets("BCC") == BCC_NAME
  {
  }

  /** The keys of one header each: the value stands in it at some place. */
  lemma HeadersMean(m: Message, op: Op)
    ensures op.key.SUBJECT? ==> (Match(m, op) <==> Stands(m, Octets("Subject"), op.value))
    ensures op.key.TO? ==> (Match(m, op) <==> Stands(m, Octets("To"), op.value))
    ensures op.key.FROM? ==> (Match(m, op) <==> Stands(m, Octets("From"), op.value))
    ensures op.key.CC? ==> (Match(m, op) <==> Stands(m, Octets("CC"), op.value))
    ensures op.key.BCC? ==> (Match(m, op) <==> Stands(m, Octets("BCC"), op.value))
  {
    NamesAre();
    hide Contains, Octets, StandsIn;
    ContainsIs(HeaderOf(m, SUBJECT_NAME), op.value);
    ContainsIs(HeaderOf(m, TO_NAME), op.value);
    ContainsIs(HeaderOf(m, FROM_NAME), op.value);
    ContainsIs(HeaderOf(m, CC_NAME), op.value);
    ContainsIs(HeaderOf(m, BCC_NAME), op.value);
  }

  /** HEADER, as it is parsed, compares the whole header; the RFC asks for the
      value to stand in it. They agree if and only if it stands there nowhere, or
      is all of it. */
  lemma HeaderMeans(m: Message, name: seq<byte>, v: seq<byte>)
    requires name != [] && 0x3A !in name
    ensures var h := if name in m.headers then m.headers[name] else [];
      var found := Match(m, Plain(HEADER).(value := name + [0x3A, SP] + v));
      && (found <==> h == v)
      && ((found <==> Stands(m, name, v)) <==> h == v || !Stands(m, name, v))
  {
    HeaderCut(m, name, v);
    hide Match;
    var h := if name in m.headers then m.headers[name] else [];
    assert At(h, h, 0);
  }

  lemma HeaderCut(m: Message, name: seq<byte>, v: seq<byte>)
    requires name != [] && 0x3A !in name
    ensures Match(m, Plain(HEADER).(value := name + [0x3A, SP] + v)) <==>
      (if name in m.headers then m.headers[name] else []) == v
  {
    var value := name + [0x3A, SP] + v;
    assert value == name + [0x3A] + ([SP] + v);
    IndexByteAfter(name, 0x3A, [SP] + v);
    assert value[..|name|] == name && value[|name| + 2..] == v;
    HeaderIs(m, Plain(HEADER).(value := value));
    hide *;
    HeaderFound(m, name);
  }

  lemma HeaderFound(m: Message, name: seq<byte>)
    ensures HeaderOf(m, name) == if name in m.headers then m.headers[name] else []
  {
  }

  lemma HeaderIs(m: Message, op: Op)
    requires op.key.HEADER?
    ensures var i := IndexByte(op.value, 0x3A);
      Match(m, op) <==>
        i >= 1 && HeaderOf(m, op.value[..i]) == if i < |op.value| - 1 then op.value[i + 2..] else []
  {
    hide IndexByte, HeaderOf;
  }

  // ---------------------------------------------------------- what is parsed

  /** The arguments of each key: what is read, and that anything else is an
      error. */
  lemma KeysRead(k: Key, ts: seq<Tok>)
    ensures var r := ParseKey([Word(k)] + ts);
      && (k in BARE_KEYS ==> r == Parsed(Plain(k), ts))
      && (k in {BCC, BODY, CC, FROM, SUBJECT, TEXT, TO} ==>
           r == if ts != [] && ts[0].Str? then Parsed(Plain(k).(value := ts[0].s), ts[1..]) else Failed)
      && (k in {KEYWORD, UNKEYWORD} ==>
           r == if ts != [] && ts[0].Atom? then Parsed(Plain(k).(value := ts[0].a), ts[1..]) else Failed)
      && (k in {BEFORE, ON, SINCE, SENTBEFORE, SENTON, SENTSINCE} ==>
           r == if ts != [] && ts[0].Date? then Parsed(Plain(k).(date := ts[0].d), ts[1..]) else Failed)
      && (k in {LARGER, SMALLER} ==>
           r == if ts != [] && ts[0].Number? then Parsed(Plain(k).(num := ts[0].n), ts[1..]) else Failed)
      && (k in {UID, UNDRAFT} ==>
           r == if ts != [] && ts[0].Set? then Parsed(Plain(k).(seqs := ts[0].rs), ts[1..]) else Failed)
      && (k.HEADER? ==>
           r == if |ts| > 1 && ts[0].Str? && ts[1].Str?
                then Parsed(Plain(k).(value := ts[0].s + [0x3A, SP] + ts[1].s), ts[2..]) else Failed)
  {
    ShapesAre(k);
    hide ShapeOf, ParseKey;
    if !(k in {AND, OR, NOT}) {
      LeafRead(k, ts);
      hide ParseInt;
    }
  }

  lemma LeafRead(k: Key, ts: seq<Tok>)
    requires k !in {AND, OR, NOT}
    ensures ParseKey([Word(k)] + ts) == ParseLeaf(k, ts)
  {
    hide ParseLeaf, ParseMany;
    var us := [Word(k)] + ts;
    assert us[0] == Word(k) && us[1..] == ts;
  }

  lemma ShapesAre(k: Key)
    ensures k in BARE_KEYS ==> ShapeOf(k).Bare?
    ensures k in {BCC, BODY, CC, FROM, SUBJECT, TEXT, TO} ==> ShapeOf(k).Text?
    ensures k in {KEYWORD, UNKEYWORD} ==> ShapeOf(k).Flag?
    ensures k in {BEFORE, ON, SINCE, SENTBEFORE, SENTON, SENTSINCE} ==> ShapeOf(k).Dated?
    ensures k in {LARGER, SMALLER} ==> ShapeOf(k).Sized?
    ensures k in {UID, UNDRAFT} ==> ShapeOf(k).Sets?
    ensures k.HEADER? ==> ShapeOf(k).Field?
    ensures k.MODSEQ? ==> ShapeOf(k).ModSeq?
    ensures k.AND? ==> ShapeOf(k).Many?
    ensures k.OR? ==> ShapeOf(k).Two?
    ensures k.NOT? ==> ShapeOf(k).One?
    ensures k.SEQSET? ==> ShapeOf(k).Unparsed?
  {
  }

  function NumberOf(a: seq<byte>, ts: seq<Tok>): Parsed {
    match ParseInt(a) case None => Failed case Some(v) => Parsed(Plain(MODSEQ).(num := v), ts)
  }

  lemma ModSeqLeaf(ts: seq<Tok>, a: seq<byte>, name: seq<byte>, kind: seq<byte>)
    ensures ParseLeaf(MODSEQ, [Atom(a)] + ts) == NumberOf(a, ts)
    ensures ParseLeaf(MODSEQ, [Str(name), Atom(kind), Atom(a)] + ts) == NumberOf(a, ts)
  {
    var us, ws := [Atom(a)] + ts, [Str(name), Atom(kind), Atom(a)] + ts;
    assert us[1..] == ts && ws[2..] == us;
    hide ParseInt;
  }

  /** MODSEQ takes a number, and ignores the name of an entry and its type. */
  lemma ModSeqReads(ts: seq<Tok>, a: seq<byte>, name: seq<byte>, kind: seq<byte>)
    ensures ParseKey([Word(MODSEQ), Atom(a)] + ts) == NumberOf(a, ts)
    ensures ParseKey([Word(MODSEQ), Str(name), Atom(kind), Atom(a)] + ts) == NumberOf(a, ts)
  {
    hide *;
    ModSeqLeaf(ts, a, name, kind);
    LeafRead(MODSEQ, [Atom(a)] + ts);
    LeafRead(MODSEQ, [Str(name), Atom(kind), Atom(a)] + ts);
    assert [Word(MODSEQ), Atom(a)] + ts == [Word(MODSEQ)] + ([Atom(a)] + ts);
    assert [Word(MODSEQ), Str(name), Atom(kind), Atom(a)] + ts == [Word(MODSEQ)] + ([Str(name), Atom(kind), Atom(a)] + ts);
  }

  lemma {:induction false} ValueZero(d: seq<byte>)
    requires AllDigits(d)
    ensures AllDigits([0x30] + d) && Value([0x30] + d) == Value(d)
    decreases |d|
  {
    var z := [0x30] + d;
    assert forall i | 0 < i < |z| :: z[i] == d[i - 1];
    if d == [] {
      assert z[..0] == [];
    } else {
      ValueZero(d[..|d| - 1]);
      assert z[..|z| - 1] == [0x30] + d[..|d| - 1];
    }
  }

  /** Numbers of 64 bits: a sign, zeros in front, and no more than there is
      room for. */
  lemma NumberReads(n: nat)
    ensures ParseInt(Decimal(n)) == (if n <= 0x7FFF_FFFF_FFFF_FFFF then Some(n as int) else None)
    ensures ParseInt([0x2B] + Decimal(n)) == ParseInt(Decimal(n))
    ensures ParseInt([0x2D] + Decimal(n)) == (if n <= 0x8000_0000_0000_0000 then Some(Minus(n)) else None)
    ensures ParseInt([0x30] + Decimal(n)) == ParseInt(Decimal(n))
    ensures ParseInt([]) == None
  {
    DecimalFacts(n);
    var d := Decimal(n);
    hide Decimal, Value, ParseInt;
    assert IsDigit(d[0]) && d[0] != 0x2B && d[0] != 0x2D;
    SignedReads(d, n);
    ValueZero(d);
    assert d[0] == ([d[0]] + d)[0];
    SignedReads([0x30] + d, n);
    NothingReads();
  }

  function Minus(n: int): int { -n }

  lemma NothingReads()
    ensures ParseInt([]) == None
  {
  }

  lemma SignedReads(d: seq<byte>, n: nat)
    requires d != [] && AllDigits(d) && Value(d) == n
    ensures ParseInt(d) == (if n <= 0x7FFF_FFFF_FFFF_FFFF then Some(n as int) else None)
    ensures ParseInt([0x2B] + d) == ParseInt(d)
    ensures ParseInt([0x2D] + d) == (if n <= 0x8000_0000_0000_0000 then Some(Minus(n)) else None)
  {
    hide Value;
    assert IsDigit(d[0]);
    assert ([0x2B] + d)[1..] == d && ([0x2D] + d)[1..] == d;
  }

  lemma NoNumber(s: seq<byte>, i: nat)
    requires i < |s| && !IsDigit(s[i]) && !(i == 0 && |s| > 1 && (s[0] == 0x2B || s[0] == 0x2D))
    ensures ParseInt(s) == None
  {
    hide Value;
    if s[0] == 0x2D || s[0] == 0x2B {
      if i > 0 {
        assert s[1..][i - 1] == s[i];
      }
    }
  }

  /** Which trees the round trip is about: all that are made of keys with their
      arguments, to any depth. */
  lemma KnownTrees(a: Op, b: Op, cs: seq<Op>)
    ensures Known(Plain(OR).(children := [a, b])) <==> Known(a) && Known(b)
    ensures Known(Plain(NOT).(children := [a])) <==> Known(a)
    ensures Known(Plain(AND).(children := cs)) <==> cs != [] && forall i | 0 <= i < |cs| :: Known(cs[i])
  {
    KnownList([a, b]);
    KnownList([a]);
    KnownList(cs);
    assert [a, b][0] == a && [a, b][1] == b && [a][0] == a;
    assert (forall i | 0 <= i < 2 :: Known([a, b][i])) <==> Known([a, b][0]) && Known([a, b][1]);
    KnownNode(Plain(OR).(children := [a, b]));
    KnownNode(Plain(NOT).(children := [a]));
    KnownNode(Plain(AND).(children := cs));
    hide KnownAll, Known;
  }

  lemma KnownLeaves(k: Key, v: seq<byte>, n: int, d: int, rs: seq<SeqRange>)
    ensures Known(Plain(SEQSET).(seqs := rs)) <==> rs != []
    ensures k in BARE_KEYS ==> Known(Plain(k))
    ensures k in {BCC, BODY, CC, FROM, SUBJECT, TEXT, TO, KEYWORD, UNKEYWORD} ==> Known(Plain(k).(value := v))
    ensures k in {BEFORE, ON, SINCE, SENTBEFORE, SENTON, SENTSINCE} ==> Known(Plain(k).(date := d))
    ensures k in {LARGER, SMALLER} ==> (Known(Plain(k).(num := n)) <==> 0 <= n)
    ensures k in {UID, UNDRAFT} ==> Known(Plain(k).(seqs := rs))
    ensures Known(Plain(MODSEQ).(num := n)) <==> 0 <= n <= MAX_INT64
  {
    ShapesAre(k);
    ShapesAre(SEQSET);
    ShapesAre(MODSEQ);
    KnownNone();
    hide ShapeOf, KnownAll, Split;
  }

  lemma KnownNone()
    ensures KnownAll([])
  {
  }

  lemma KnownNode(op: Op)
    ensures op.key.OR? && op == Plain(OR).(children := op.children) ==>
      (Known(op) <==> |op.children| == 2 && KnownAll(op.children))
    ensures op.key.NOT? && op == Plain(NOT).(children := op.children) ==>
      (Known(op) <==> |op.children| == 1 && KnownAll(op.children))
    ensures op.key.AND? && op == Plain(AND).(children := op.children) ==>
      (Known(op) <==> op.children != [] && KnownAll(op.children))
  {
  }

  lemma {:induction false} KnownList(ops: seq<Op>)
    ensures KnownAll(ops) <==> forall i | 0 <= i < |ops| :: Known(ops[i])
    decreases |ops|
  {
    hide Known;
    if ops != [] {
      KnownList(ops[1..]);
      assert forall i | 0 < i < |ops| :: ops[i] == ops[1..][i - 1];
      if KnownAll(ops) {
        forall i | 0 <= i < |ops|
          ensures Known(ops[i])
        {
          if i > 0 {
            assert Known(ops[1..][i - 1]);
          }
        }
      } else if Known(ops[0]) {
        var j :| 0 <= j < |ops[1..]| && !Known(ops[1..][j]);
        assert !Known(ops[j + 1]);
      }
    }
  }
}
