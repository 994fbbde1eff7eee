/** IMAP sequence sets: the coalescing range builder, their text and the
    scanner that reads it back (imap/imapparser). */
module SeqSet {
  import opened Bytes

  const COLON: byte := 0x3A
  const COMMA: byte := 0x2C
  const STAR: byte := 0x2A
  const TWO_32: nat := 0x1_0000_0000

  /** A range; a maximum of 0 leaves it open, and 0 stands for "*". */
  datatype SeqRange = SeqRange(min: nat, max: nat)

  function SeqContains(rs: seq<SeqRange>, v: nat): (r: bool)
    ensures r <==> exists i :: 0 <= i < |rs| && InRange(rs[i], v)
  {
    rs != [] && (InRange(rs[0], v) || SeqContains(rs[1..], v))
  }

  predicate InRange(r: SeqRange, v: nat) {
    r.min <= v && (r.max == 0 || v <= r.max)
  }

  // ------------------------------------------------------- AppendSeqRange

  function Swapped(r: SeqRange): SeqRange {
    if r.min > r.max then SeqRange(r.max, r.min) else r
  }

  /** Adds `v`: to the last range if it directly follows, which also puts that
      range's ends in order, or else as a range of its own. */
  function Append(rs: seq<SeqRange>, v: nat): seq<SeqRange> {
    if rs == [] || v == 0 then rs + [SeqRange(v, v)]
    else
      var init, last := rs[..|rs| - 1], Swapped(rs[|rs| - 1]);
      if last.max > 0 && last.max == v - 1 then init + [SeqRange(last.min, v)]
      else init + [last, SeqRange(v, v)]
  }

  function Fold(vs: seq<nat>): seq<SeqRange> {
    if vs == [] then [] else Append(Fold(vs[..|vs| - 1]), vs[|vs| - 1])
  }

  function Up(a: nat, b: nat): seq<nat>
    decreases b + 1 - a
  {
    if a > b then [] else [a] + Up(a + 1, b)
  }

  /** All the numbers of closed ranges, in order. */
  function Expand(rs: seq<SeqRange>): seq<nat> {
    if rs == [] then [] else Expand(rs[..|rs| - 1]) + Up(rs[|rs| - 1].min, rs[|rs| - 1].max)
  }

  ghost predicate Closed(rs: seq<SeqRange>) {
    forall i | 0 <= i < |rs| :: 0 < rs[i].min <= rs[i].max
  }

  /** No range could have been joined to the one in front of it. */
  ghost predicate Coalesced(rs: seq<SeqRange>) {
    forall i | 0 < i < |rs| :: rs[i].min != rs[i - 1].max + 1
  }

  lemma {:induction false} UpSnoc(a: nat, b: nat)
    requires a <= b + 1
    ensures Up(a, b + 1) == Up(a, b) + [b + 1]
    decreases b + 1 - a
  {
    if a <= b {
      UpSnoc(a + 1, b);
    }
  }

  lemma ExpandSnoc(rs: seq<SeqRange>, r: SeqRange)
    ensures Expand(rs + [r]) == Expand(rs) + Up(r.min, r.max)
  {
    assert (rs + [r])[..|rs|] == rs;
  }

  lemma UpOne(v: nat)
    ensures Up(v, v) == [v]
  {
    assert Up(v + 1, v) == [];
  }

  lemma ExtendLast(init: seq<SeqRange>, last: SeqRange)
    requires last.min <= last.max
    ensures Expand(init + [SeqRange(last.min, last.max + 1)]) == Expand(init + [last]) + [last.max + 1]
  {
    ExpandSnoc(init, last);
    ExpandSnoc(init, SeqRange(last.min, last.max + 1));
    UpSnoc(last.min, last.max);
    Assoc(Expand(init), Up(last.min, last.max), [last.max + 1]);
  }

  lemma AppendExpand(rs: seq<SeqRange>, v: nat)
    requires Closed(rs) && v > 0
    ensures Expand(Append(rs, v)) == Expand(rs) + [v]
  {
    if rs != [] && rs[|rs| - 1].max == v - 1 {
      assert rs == rs[..|rs| - 1] + [rs[|rs| - 1]];
      ExtendLast(rs[..|rs| - 1], rs[|rs| - 1]);
    } else {
      assert Append(rs, v) == rs + [SeqRange(v, v)];
      ExpandSnoc(rs, SeqRange(v, v));
      UpOne(v);
    }
  }

  lemma AppendClosed(rs: seq<SeqRange>, v: nat)
    requires Closed(rs) && Coalesced(rs) && v > 0
    ensures Closed(Append(rs, v)) && Coalesced(Append(rs, v))
  {
  }

  /** Folding a list of positive numbers into ranges loses nothing, not even
      the order, and leaves no two ranges that could be one. */
  lemma {:induction false} FoldExpand(vs: seq<nat>)
    requires forall i | 0 <= i < |vs| :: vs[i] > 0
    ensures Closed(Fold(vs)) && Coalesced(Fold(vs))
    ensures Expand(Fold(vs)) == vs
  {
    if vs != [] {
      var n := |vs| - 1;
      FoldExpand(vs[..n]);
      AppendExpand(Fold(vs[..n]), vs[n]);
      AppendClosed(Fold(vs[..n]), vs[n]);
      assert vs == vs[..n] + [vs[n]];
    }
  }

  method AppendSeqRange(seqs: seq<SeqRange>, v: nat) returns (out: seq<SeqRange>)
    ensures out == Append(seqs, v)
  {
    out := seqs;
    if |out| > 0 && v > 0 {
      var n := |out| - 1;
      var last := out[n];
      if last.min > last.max {
        last := SeqRange(last.max, last.min); // normalize
        out := out[n := last];
      }
      if last.max > 0 && last.max == v - 1 {
        out := out[n := SeqRange(last.min, last.max + 1)];
        return;
      }
    }
    out := out + [SeqRange(v, v)];
  }

  // -------------------------------------------------------------- decimals

  predicate IsDigit(c: byte) { 0x30 <= c <= 0x39 }

  function Decimal(n: nat): (d: seq<byte>)
    ensures d != []
  {
    if n < 10 then [0x30 + n] else Decimal(n / 10) + [0x30 + n % 10]
  }

  function Value(d: seq<byte>): nat
    requires forall i | 0 <= i < |d| :: IsDigit(d[i])
  {
    if d == [] then 0
    else
      assert IsDigit(d[|d| - 1]);
      Value(d[..|d| - 1]) * 10 + (d[|d| - 1] as int - 0x30)
  }

  function Pow10(k: nat): nat { if k == 0 then 1 else 10 * Pow10(k - 1) }

  lemma {:induction false} DecimalFacts(n: nat)
    ensures forall i | 0 <= i < |Decimal(n)| :: IsDigit(Decimal(n)[i])
    ensures Value(Decimal(n)) == n
  {
    var d := Decimal(n);
    if n < 10 {
      assert d[..0] == [];
    } else {
      DecimalFacts(n / 10);
      assert d[..|d| - 1] == Decimal(n / 10);
    }
  }

  lemma {:induction false} DecimalLength(n: nat, k: nat)
    requires k > 0 && n < Pow10(k)
    ensures |Decimal(n)| <= k
    decreases n
  {
    if n >= 10 {
      assert k > 1 by { assert Pow10(1) == 10 * Pow10(0); }
      DecimalLength(n / 10, k - 1);
    }
  }

  lemma TenDigits(n: nat)
    requires n < TWO_32
    ensures |Decimal(n)| <= 10
  {
    assert Pow10(3) == 1000;
    assert Pow10(6) == 1000000;
    assert Pow10(9) == 1000000000;
    assert Pow10(10) == 10000000000;
    DecimalLength(n, 10);
  }

  // ------------------------------------------------------------------ text

  function Number(v: nat): seq<byte> { if v == 0 then [STAR] else Decimal(v) }

  function FormatRange(r: SeqRange): seq<byte> {
    if r.min == r.max then Number(r.min) else Number(r.min) + [COLON] + Number(r.max)
  }

  function Format(rs: seq<SeqRange>): seq<byte> {
    if rs == [] then []
    else if |rs| == 1 then FormatRange(rs[0])
    else FormatRange(rs[0]) + [COMMA] + Format(rs[1..])
  }

  /** What reading a number ends in. */
  datatype Read = Found(v: nat, rest: seq<byte>) | Nothing(rest: seq<byte>) | Bad(rest: seq<byte>)

  function Digits(t: seq<byte>): (d: seq<byte>)
    ensures d <= t
    ensures forall i | 0 <= i < |d| :: IsDigit(d[i])
    ensures |d| < |t| ==> !IsDigit(t[|d|])
  {
    if t == [] || !IsDigit(t[0]) then [] else [t[0]] + Digits(t[1..])
  }

  /** The first eleven digits count, all are consumed. */
  function ParseUint32(t: seq<byte>): Read {
    var d := Digits(t);
    var v := Value(if |d| > 11 then d[..11] else d);
    if d == [] || v >= TWO_32 then Bad(t[|d|..]) else Found(v, t[|d|..])
  }

  function ParseSeqNumber(t: seq<byte>): Read {
    if t == [] || t[0] == 0 then Nothing(t)
    else if t[0] == STAR then Found(0, t[1..])
    else
      var r := ParseUint32(t);
      if r.Found? && r.v == 0 then Bad(r.rest) else r
  }

  datatype ReadRange = Range(r: SeqRange, rest: seq<byte>) | NoRange(rest: seq<byte>, bad: bool)

  function ParseSequence(t: seq<byte>): (r: ReadRange)
    ensures r.Range? ==> |r.rest| < |t|
  {
    match ParseSeqNumber(t)
    case Nothing(rest) => NoRange(rest, false)
    case Bad(rest) => NoRange(rest, true)
    case Found(min, rest) =>
      if rest == [] || rest[0] != COLON then Range(SeqRange(min, min), rest)
      else
        match ParseSeqNumber(rest[1..])
        case Found(max, rest2) =>
          Range(if max < min && max != 0 then SeqRange(max, min) else SeqRange(min, max), rest2)
        case Nothing(rest2) => NoRange(rest2, true)
        case Bad(rest2) => NoRange(rest2, true)
  }

  datatype ReadSet = ReadSet(rs: seq<SeqRange>, rest: seq<byte>, bad: bool)

  function ParseSequences(t: seq<byte>): ReadSet
    decreases |t|
  {
    match ParseSequence(t)
    case NoRange(rest, bad) => ReadSet([], rest, bad)
    case Range(r, rest) =>
      if rest == [] || rest[0] != COMMA then ReadSet([r], rest, false)
      else
        var more := ParseSequences(rest[1..]);
        ReadSet([r] + more.rs, more.rest, more.bad)
  }

  /** The text that may follow a set. */
  predicate Follows(tail: seq<byte>) {
    tail == [] || (!IsDigit(tail[0]) && tail[0] != COLON && tail[0] != COMMA)
  }

  lemma {:induction false} DigitsOf(d: seq<byte>, tail: seq<byte>)
    requires forall i | 0 <= i < |d| :: IsDigit(d[i])
    requires tail == [] || !IsDigit(tail[0])
    ensures Digits(d + tail) == d
  {
    if d == [] {
      assert d + tail == tail;
    } else {
      assert (d + tail)[1..] == d[1..] + tail;
      DigitsOf(d[1..], tail);
    }
  }

  lemma ReadNumber(v: nat, tail: seq<byte>)
    requires v < TWO_32 && (tail == [] || !IsDigit(tail[0]))
    ensures ParseSeqNumber(Number(v) + tail) == Found(v, tail)
  {
    var t := Number(v) + tail;
    hide Decimal, Value, Digits;
    if v == 0 {
      assert t[1..] == tail;
    } else {
      var d := Decimal(v);
      DecimalFacts(v);
      TenDigits(v);
      DigitsOf(d, tail);
      NoDigits();
      assert t[|d|..] == tail;
      assert IsDigit(d[0]) && t[0] == d[0];
    }
  }

  lemma NoDigits()
    ensures Value([]) == 0
  {
  }

  function Ordered(r: SeqRange): SeqRange {
    if r.max < r.min && r.max != 0 then SeqRange(r.max, r.min) else r
  }

  /** What a range as it is written means where `m` is the largest number in
      use: "*" is that number, and the ends may be in either order (section 9
      of RFC 3501). */
  predicate Means(r: SeqRange, v: nat, m: nat) {
    var a, b := if r.min == 0 then m else r.min, if r.max == 0 then m else r.max;
    if a <= b then a <= v <= b else b <= v <= a
  }

  /** Of the numbers in use, the range that is read holds those the written one
      means if and only if it is closed, or open and begins at one in use or
      below; and if "*" stands in front, only if there is but one number, and
      it is in the range. */
  lemma StarExact(r: SeqRange, used: set<nat>, m: nat)
    requires m in used && forall v | v in used :: 0 < v <= m
    ensures (forall v | v in used :: InRange(Ordered(r), v) <==> Means(r, v, m)) <==>
      if r.min == 0 then used == {m} && (r.max == 0 || m <= r.max)
      else r.max > 0 || r.min <= m
  {
    if r.min == 0 {
      assert Means(r, m, m);
      if used != {m} && InRange(Ordered(r), m) {
        var v :| v in used && v != m;
        assert InRange(Ordered(r), v) && !Means(r, v, m);
      }
    } else if r.max == 0 && m < r.min {
      assert Means(r, m, m) && !InRange(Ordered(r), m);
    }
  }

  /** Alone, "*" holds every number, where it should hold the largest. */
  lemma LoneStar(v: nat, tail: seq<byte>)
    requires Follows(tail)
    ensures ParseSequences([STAR] + tail) == ReadSet([SeqRange(0, 0)], tail, false)
    ensures SeqContains([SeqRange(0, 0)], v)
  {
    assert ([STAR] + tail)[1..] == tail;
  }

  lemma ReadRangeText(r: SeqRange, tail: seq<byte>)
    requires r.min < TWO_32 && r.max < TWO_32
    requires tail == [] || (!IsDigit(tail[0]) && tail[0] != COLON)
    ensures ParseSequence(FormatRange(r) + tail) == Range(Ordered(r), tail)
  {
    if r.min == r.max {
      ReadNumber(r.min, tail);
    } else {
      var t := [COLON] + (Number(r.max) + tail);
      assert FormatRange(r) + tail == Number(r.min) + t;
      ReadNumber(r.min, t);
      assert t[1..] == Number(r.max) + tail;
      ReadNumber(r.max, tail);
    }
  }

  function OrderedAll(rs: seq<SeqRange>): (o: seq<SeqRange>)
    ensures |o| == |rs| && forall i | 0 <= i < |rs| :: o[i] == Ordered(rs[i])
  {
    seq(|rs|, i requires 0 <= i < |rs| => Ordered(rs[i]))
  }

  ghost predicate Fits(rs: seq<SeqRange>) {
    forall i | 0 <= i < |rs| :: rs[i].min < TWO_32 && rs[i].max < TWO_32
  }

  lemma ReadFirst(r: SeqRange, more: seq<byte>)
    requires r.min < TWO_32 && r.max < TWO_32
    ensures var m := ParseSequences(more);
      ParseSequences(FormatRange(r) + ([COMMA] + more)) == ReadSet([Ordered(r)] + m.rs, m.rest, m.bad)
  {
    ReadRangeText(r, [COMMA] + more);
    assert ([COMMA] + more)[1..] == more;
  }

  /** Reading the text of a set gives its ranges, ends in order, and stops
      where the text ends. */
  lemma {:induction false} FormatRead(rs: seq<SeqRange>, tail: seq<byte>)
    requires rs != [] && Fits(rs) && Follows(tail)
    ensures ParseSequences(Format(rs) + tail) == ReadSet(OrderedAll(rs), tail, false)
    decreases |rs|
  {
    hide ParseSequence, FormatRange, Ordered;
    if |rs| == 1 {
      ReadRangeText(rs[0], tail);
      assert OrderedAll(rs) == [Ordered(rs[0])];
    } else {
      hide ParseSequences, Format;
      FormatRead(rs[1..], tail);
      ReadFirst(rs[0], Format(rs[1..]) + tail);
      FormatSplit(rs, tail);
      assert OrderedAll(rs) == [Ordered(rs[0])] + OrderedAll(rs[1..]);
    }
  }

  lemma FormatSplit(rs: seq<SeqRange>, tail: seq<byte>)
    requires |rs| > 1
    ensures Format(rs) + tail == FormatRange(rs[0]) + ([COMMA] + (Format(rs[1..]) + tail))
  {
    var a, b := FormatRange(rs[0]), Format(rs[1..]);
    Assoc(a, [COMMA], b);
    Assoc(a, [COMMA] + b, tail);
    Assoc([COMMA], b, tail);
  }

  /** The same ranges come back exactly when no range is written upside down. */
  lemma FormatReadExact(rs: seq<SeqRange>, tail: seq<byte>)
    requires rs != [] && Fits(rs) && Follows(tail)
    ensures ParseSequences(Format(rs) + tail).rs == rs
       <==> forall i | 0 <= i < |rs| :: rs[i].max == 0 || rs[i].min <= rs[i].max
  {
    FormatRead(rs, tail);
    if forall i | 0 <= i < |rs| :: rs[i].max == 0 || rs[i].min <= rs[i].max {
      assert OrderedAll(rs) == rs;
    } else {
      var i :| 0 <= i < |rs| && !(rs[i].max == 0 || rs[i].min <= rs[i].max);
      assert OrderedAll(rs)[i] != rs[i];
    }
  }

  lemma {:induction false} ExpandBounds(rs: seq<SeqRange>, vs: seq<nat>)
    requires Closed(rs) && Expand(rs) == vs
    requires forall i | 0 <= i < |vs| :: vs[i] < TWO_32
    ensures Fits(rs)
  {
    if rs != [] {
      var n := |rs| - 1;
      var head, up := Expand(rs[..n]), Up(rs[n].min, rs[n].max);
      UpLast(rs[n].min, rs[n].max);
      assert vs[|vs| - 1] == rs[n].max;
      assert forall i | 0 <= i < |head| :: head[i] == vs[i];
      ExpandBounds(rs[..n], head);
      forall i | 0 <= i < |rs|
        ensures rs[i].min < TWO_32 && rs[i].max < TWO_32
      {
        assert i < n ==> rs[i] == rs[..n][i];
      }
    }
  }

  lemma {:induction false} UpLast(a: nat, b: nat)
    requires a <= b
    ensures Up(a, b) != [] && Up(a, b)[|Up(a, b)| - 1] == b
    decreases b - a
  {
    if a < b {
      UpLast(a + 1, b);
    }
  }

  /** A set of the COPYUID response, from numbers to text and back. */
  lemma ThroughText(vs: seq<nat>, tail: seq<byte>)
    requires vs != [] && Follows(tail) && forall i | 0 <= i < |vs| :: 0 < vs[i] < TWO_32
    ensures ParseSequences(Format(Fold(vs)) + tail) == ReadSet(Fold(vs), tail, false)
    ensures Expand(Fold(vs)) == vs
  {
    FoldExpand(vs);
    ExpandBounds(Fold(vs), vs);
    assert Fold(vs) != [];
    FormatRead(Fold(vs), tail);
    FormatReadExact(Fold(vs), tail);
  }

  /** COPYUID (section 3 of RFC 4315): the n-th number of the first set and
      the n-th of the second are the n-th pair that was reported. */
  lemma CopyUidPairs(src: seq<nat>, dst: seq<nat>)
    requires |src| == |dst| > 0
    requires forall i | 0 <= i < |src| :: 0 < src[i] < TWO_32 && 0 < dst[i] < TWO_32
    ensures var text := Format(Fold(src)) + [SP] + Format(Fold(dst)) + [0x5D];
      var one := ParseSequences(text);
      && !one.bad && one.rest != [] && one.rest[0] == SP
      && var two := ParseSequences(one.rest[1..]);
      && !two.bad && two.rest == [0x5D]
      && Expand(one.rs) == src && Expand(two.rs) == dst
  {
    hide ParseSequences, Format, Fold, Expand;
    var tail: seq<byte> := [0x5D];
    var rest := [SP] + (Format(Fold(dst)) + tail);
    assert Format(Fold(src)) + [SP] + Format(Fold(dst)) + [0x5D] == Format(Fold(src)) + rest;
    ThroughText(src, rest);
    ThroughText(dst, tail);
    assert rest[1..] == Format(Fold(dst)) + tail;
  }

  // ------------------------------------------------------------ the methods

  method WriteRange(dst: seq<byte>, r: SeqRange) returns (w: seq<byte>)
    ensures w == dst + FormatRange(r)
  {
    w := dst;
    if r.min == 0 && r.max == 0 {
      return w + [STAR];
    }
    if r.min == r.max {
      return w + Decimal(r.min);
    }
    w := w + if r.min == 0 then [STAR] else Decimal(r.min);
    w := w + [COLON];
    w := w + if r.max == 0 then [STAR] else Decimal(r.max);
    Assoc(dst, Number(r.min), [COLON]);
    Assoc(dst, Number(r.min) + [COLON], Number(r.max));
  }

  function Rest(rs: seq<SeqRange>): seq<byte> {
    if rs == [] then [] else [COMMA] + Format(rs)
  }

  predicate Written(rs: seq<SeqRange>, i: nat, w: seq<byte>)
    requires i <= |rs|
  {
    if i == 0 then w == [] else Format(rs) == w + Rest(rs[i..])
  }

  lemma FormatStep(rs: seq<SeqRange>, i: nat, w: seq<byte>)
    requires i < |rs| && Written(rs, i, w)
    ensures Written(rs, i + 1, if i > 0 then w + [COMMA] + FormatRange(rs[i]) else w + FormatRange(rs[i]))
  {
    hide FormatRange;
    var f, more := FormatRange(rs[i]), Rest(rs[i + 1..]);
    assert rs[i..][1..] == rs[i + 1..];
    if i > 0 {
      Assoc(f, [COMMA], Format(rs[i + 1..]));
      Assoc(w, [COMMA], f + more);
      Assoc(w + [COMMA], f, more);
    } else {
      assert [] + f == f;
      Assoc(f, [COMMA], Format(rs[1..]));
    }
  }

  lemma WrittenAll(rs: seq<SeqRange>)
    ensures Written(rs, 0, [])
    ensures forall w :: Written(rs, |rs|, w) ==> w == Format(rs)
  {
    forall w | Written(rs, |rs|, w)
      ensures w == Format(rs)
    {
      assert rs[|rs|..] == [] && w + [] == w;
    }
  }

  /** FormatSeqs on a writer that never fails. */
  method FormatSeqs(seqs: seq<SeqRange>) returns (w: seq<byte>)
    ensures w == Format(seqs)
  {
    w := [];
    var i := 0;
    WrittenAll(seqs);
    hide *;
    while i < |seqs|
      invariant i <= |seqs|
      invariant Written(seqs, i, w)
    {
      FormatStep(seqs, i, w);
      if i > 0 {
        w := w + [COMMA];
      }
      w := WriteRange(w, seqs[i]);
      i := i + 1;
    }
  }

  /** The part of the command scanner that reads sequence sets. */
  class Scanner {
    const text: seq<byte>
    var pos: nat
    var sequences: seq<SeqRange>
    var error: bool

    constructor (text: seq<byte>)
      ensures Valid() && Rest() == text && sequences == [] && !error
    {
      this.text := text;
      pos, sequences, error := 0, [], false;
    }

    ghost predicate Valid()
      reads this
    {
      pos <= |text|
    }

    ghost function Rest(): seq<byte>
      reads this
      requires Valid()
    {
      text[pos..]
    }

    /** The next byte, or 0 at the end of the input. */
    method PeekChar() returns (b: byte)
      requires Valid()
      ensures b == if Rest() == [] then 0 else Rest()[0]
    {
      b := if pos == |text| then 0 else text[pos];
    }

    method ReadChar()
      requires Valid() && Rest() != []
      modifies this`pos
      ensures Valid() && Rest() == old(Rest())[1..]
    {
      pos := pos + 1;
    }

    method ReadUint32() returns (v: nat, ok: bool)
      requires Valid()
      modifies this`pos
      ensures Valid()
      ensures ParseUint32(old(Rest())) == if ok then Found(v, Rest()) else Bad(Rest())
    {
      hide Digits, Value;
      var buf: seq<byte> := [];
      ghost var d := Digits(Rest());
      ghost var n := 0;
      while true
        invariant Valid() && n <= |d| && Rest() == old(Rest())[n..]
        invariant buf == if n > 11 then d[..11] else d[..n]
        decreases |text| - pos
      {
        var b := PeekChar();
        if b == 0 || !IsDigit(b) {
          break;
        }
        assert n < |d|;
        ReadChar();
        if |buf| < 11 {
          buf := buf + [b];
        }
        n := n + 1;
      }
      assert n == |d| && d[..|d|] == d;
      if buf == [] || Value(buf) >= TWO_32 {
        return 0, false;
      }
      return Value(buf), true;
    }

    method ReadSeqNumber() returns (v: nat, found: bool)
      requires Valid()
      modifies this`pos, this`error
      ensures Valid()
      ensures var r := ParseSeqNumber(old(Rest()));
        && r.rest == Rest() && (found <==> r.Found?) && (found ==> v == r.v)
        && error == (old(error) || r.Bad?)
    {
      var b := PeekChar();
      if b == 0 {
        return 0, false;
      }
      if b == STAR {
        ReadChar();
        return 0, true;
      }
      var ok;
      v, ok := ReadUint32();
      if !ok || v == 0 {
        error := true;
        return 0, false;
      }
      return v, true;
    }

    method ReadSequence() returns (found: bool)
      requires Valid()
      modifies this`pos, this`error, this`sequences
      ensures Valid()
      ensures var r := ParseSequence(old(Rest()));
        && r.rest == Rest() && (found <==> r.Range?)
        && sequences == old(sequences) + (if found then [r.r] else [])
        && error == (old(error) || (r.NoRange? && r.bad))
    {
      var min;
      min, found := ReadSeqNumber();
      if !found {
        return;
      }
      var b := PeekChar();
      if b != COLON {
        sequences := sequences + [SeqRange(min, min)];
        return true;
      }
      ReadChar();
      var max;
      max, found := ReadSeqNumber();
      if !found {
        error := true;
        return false;
      }
      if max < min && max != 0 {
        min, max := max, min; // normalize
      }
      sequences := sequences + [SeqRange(min, max)];
    }

    method ReadSequences() returns (any: bool)
      requires Valid() && sequences == []
      modifies this`pos, this`error, this`sequences
      ensures Valid()
      ensures var r := ParseSequences(old(Rest()));
        && r.rest == Rest() && sequences == r.rs && error == (old(error) || r.bad)
      ensures any <==> sequences != []
    {
      while true
        invariant Valid()
        invariant var r := ParseSequences(old(Rest()));
          var s := ParseSequences(Rest());
          && r.rest == s.rest && r.rs == sequences + s.rs
          && (old(error) || r.bad) == (error || s.bad)
        decreases |Rest()|
      {
        ghost var before, more := sequences, ParseSequences(Rest());
        ghost var one := ParseSequence(Rest());
        var found := ReadSequence();
        if !found {
          break;
        }
        var b := PeekChar();
        if b != COMMA {
          break;
        }
        ReadChar();
        Assoc(before, [one.r], ParseSequences(Rest()).rs);
      }
      any := |sequences| > 0;
    }
  }
}
