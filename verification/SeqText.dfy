/** The text of sequence sets, character by character (imap/imapparser), as
    section 9 of RFC 3501 writes it. */
module SeqText {
  import opened Bytes
  import opened SeqSet

  predicate Numeral(c: byte) { '0' as int <= c <= '9' as int }

  function DigitOf(c: byte): nat
    requires Numeral(c)
  {
    c as int - '0' as int
  }

  function Weight(n: nat): (w: nat)
    ensures w > 0
  {
    if n == 0 then 1 else 10 * Weight(n - 1)
  }

  ghost predicate AllDigits(d: seq<byte>) { forall i | 0 <= i < |d| :: Numeral(d[i]) }

  /** The number that digits write, each with its weight. */
  function Amount(d: seq<byte>): nat
    requires AllDigits(d)
  {
    if d == [] then 0 else DigitOf(d[0]) * Weight(|d| - 1) + Amount(d[1..])
  }

  lemma TenTimes(x: nat, w: nat)
    ensures x * (10 * w) == 10 * (x * w)
  {
  }

  lemma {:induction false} AmountSnoc(d: seq<byte>, c: byte)
    requires AllDigits(d) && Numeral(c)
    ensures AllDigits(d + [c]) && Amount(d + [c]) == Amount(d) * 10 + DigitOf(c)
    decreases |d|
  {
    hide DigitOf, Numeral;
    var e := d + [c];
    if d == [] {
      assert e[1..] == [] && Weight(0) == 1;
    } else {
      assert e[1..] == d[1..] + [c];
      AmountSnoc(d[1..], c);
      TenTimes(DigitOf(d[0]), Weight(|d| - 1));
    }
  }

  lemma {:induction false} ValueIsAmount(d: seq<byte>)
    requires AllDigits(d)
    ensures forall i | 0 <= i < |d| :: IsDigit(d[i])
    ensures Value(d) == Amount(d)
  {
    if d != [] {
      var n := |d| - 1;
      ValueIsAmount(d[..n]);
      AmountSnoc(d[..n], d[n]);
      assert d == d[..n] + [d[n]];
    }
  }

  lemma AllDigitsParts(a: seq<byte>, b: seq<byte>)
    requires AllDigits(a + b)
    ensures AllDigits(a) && AllDigits(b)
  {
    hide Numeral;
    assert forall i | 0 <= i < |a| :: (a + b)[i] == a[i];
    assert forall i | 0 <= i < |b| :: (a + b)[|a| + i] == b[i];
  }

  lemma {:induction false} AmountSplit(a: seq<byte>, b: seq<byte>)
    requires AllDigits(a + b)
    ensures AllDigits(a) && AllDigits(b)
    ensures Amount(a + b) == Amount(a) * Weight(|b|) + Amount(b)
    decreases |a|
  {
    hide DigitOf, Numeral;
    AllDigitsParts(a, b);
    if a == [] {
      assert a + b == b;
    } else {
      var t := a[1..];
      assert (a + b)[1..] == t + b;
      assert AllDigits(t + b) by {
        assert a + b == [a[0]] + (t + b);
        AllDigitsParts([a[0]], t + b);
      }
      AmountSplit(t, b);
      WeightSum(|t|, |b|);
      Distribute(DigitOf(a[0]), Weight(|t|), Weight(|b|), Amount(t));
    }
  }

  lemma Distribute(x: nat, v: nat, w: nat, y: nat)
    ensures (x * v + y) * w == x * (v * w) + y * w
  {
  }

  lemma {:induction false} WeightSum(m: nat, n: nat)
    ensures Weight(m + n) == Weight(m) * Weight(n)
    decreases m
  {
    if m > 0 {
      WeightSum(m - 1, n);
      Distribute(10, Weight(m - 1), Weight(n), 0);
    }
  }

  /** A number is written in decimals, without a zero in front of it. */
  lemma {:induction false} DecimalIs(n: nat)
    ensures var d := Decimal(n);
      AllDigits(d) && Amount(d) == n && (n > 0 ==> d[0] as int != '0' as int)
  {
    if n < 10 {
      assert Decimal(n)[1..] == [] && Weight(0) == 1;
    } else {
      DecimalIs(n / 10);
      AmountSnoc(Decimal(n / 10), 0x30 + n % 10);
    }
  }

  // ---------------------------------------------------------- what is written

  function Chars(t: seq<byte>): (s: string)
    ensures |s| == |t|
  {
    seq(|t|, i requires 0 <= i < |t| => t[i] as char)
  }

  function NumberText(v: nat): string {
    if v == 0 then "*" else Chars(Decimal(v))
  }

  function RangeText(r: SeqRange): string {
    if r.min == r.max then NumberText(r.min) else NumberText(r.min) + ":" + NumberText(r.max)
  }

  function SetText(rs: seq<SeqRange>): string {
    if rs == [] then "" else if |rs| == 1 then RangeText(rs[0]) else RangeText(rs[0]) + "," + SetText(rs[1..])
  }

  lemma CharsAppend(a: seq<byte>, b: seq<byte>)
    ensures Chars(a + b) == Chars(a) + Chars(b)
  {
  }

  lemma RangeTextIs(r: SeqRange)
    ensures Chars(FormatRange(r)) == RangeText(r)
  {
    CharsAppend(Number(r.min) + [COLON], Number(r.max));
    CharsAppend(Number(r.min), [COLON]);
    assert Chars([COLON]) == ":" && Chars([STAR]) == "*";
    hide Decimal, Chars;
  }

  /** The text of a set: numbers in decimals, or "*", with ":" between the ends of
      a range and "," between ranges. */
  lemma {:induction false} FormatIs(rs: seq<SeqRange>)
    ensures Chars(Format(rs)) == SetText(rs)
  {
    if |rs| == 1 {
      RangeTextIs(rs[0]);
    } else if |rs| > 1 {
      RangeTextIs(rs[0]);
      FormatIs(rs[1..]);
      CharsAppend(FormatRange(rs[0]) + [COMMA], Format(rs[1..]));
      CharsAppend(FormatRange(rs[0]), [COMMA]);
      assert Chars([COMMA]) == ",";
      hide FormatRange, Chars, RangeText;
    }
  }

  // ------------------------------------------------------------- what is read

  /** A string of digits is read as the number it writes, or refused if that has
      more than 32 bits, if and only if it has no more than eleven digits, or the
      first eleven are too many already, or all of it is zero: digits behind
      the eleventh are dropped. */
  lemma DigitsExact(d: seq<byte>, tail: seq<byte>)
    requires d != [] && AllDigits(d) && (tail == [] || !Numeral(tail[0]))
    ensures AllDigits(if |d| > 11 then d[..11] else d)
    ensures ParseUint32(d + tail) == (if Amount(d) < 0x1_0000_0000 then Found(Amount(d), tail) else Bad(tail))
       <==> |d| <= 11 || Amount(d[..11]) >= 0x1_0000_0000 || Amount(d) == 0
  {
    ReadDigits(d, tail);
    if |d| > 11 {
      var a, b := d[..11], d[11..];
      assert d == a + b;
      AmountSplit(a, b);
      assert Weight(|b|) == 10 * Weight(|b| - 1);
      hide Amount, Weight, AllDigits, ParseUint32;
      Grows(Amount(a), Weight(|b|));
    }
  }

  /** What is read of a string of digits. */
  lemma ReadDigits(d: seq<byte>, tail: seq<byte>)
    requires d != [] && AllDigits(d) && (tail == [] || !Numeral(tail[0]))
    ensures var e := if |d| > 11 then d[..11] else d;
      && AllDigits(e)
      && ParseUint32(d + tail) == if Amount(e) < 0x1_0000_0000 then Found(Amount(e), tail) else Bad(tail)
  {
    assert forall i | 0 <= i < |d| :: IsDigit(d[i]);
    DigitsOf(d, tail);
    assert (d + tail)[|d|..] == tail;
    ValueIsAmount(if |d| > 11 then d[..11] else d);
  }

  lemma Grows(x: nat, w: nat)
    requires w >= 10
    ensures x * w >= x && (x > 0 ==> x * w > x)
  {
  }

  /** For one, of the number 1 with eleven zeros in front only zero is read. */
  lemma ZerosInFront(d: seq<byte>)
    requires d == seq(11, i => 0x30) + [0x31]
    ensures AllDigits(d) && Amount(d) == 1 && ParseUint32(d) == Found(0, [])
  {
    var z: seq<byte> := seq(11, i => 0x30);
    ZeroAmount(z);
    AmountSnoc(z, 0x31);
    ValueIsAmount(z);
    assert d[..11] == z && d + [] == d;
    assert forall i | 0 <= i < |d| :: IsDigit(d[i]);
    DigitsOf(d, []);
  }

  lemma {:induction false} ZeroAmount(z: seq<byte>)
    requires forall i | 0 <= i < |z| :: z[i] == 0x30
    ensures AllDigits(z) && Amount(z) == 0
  {
    if z != [] {
      ZeroAmount(z[1..]);
    }
  }

  // ------------------------------------------------------- numbers and ranges

  /** Digits that write a number of 32 bits, or "*" for 0. */
  ghost predicate Writes(t: seq<byte>, v: nat) {
    || (t == ['*' as int] && v == 0)
    || (t != [] && AllDigits(t) && |t| <= 11 && Amount(t) == v && 0 < v < 0x1_0000_0000)
  }

  /** Nothing that could belong to a number. */
  predicate Ends(tail: seq<byte>) { tail == [] || !Numeral(tail[0]) }

  /** A number in use is read as the one it writes, "*" as 0; zero, and what has
      more than 32 bits, is refused. */
  lemma NumberReads(t: seq<byte>, v: nat, tail: seq<byte>)
    requires Ends(tail)
    ensures Writes(t, v) ==> ParseSeqNumber(t + tail) == Found(v, tail)
    ensures t != [] && AllDigits(t) && |t| <= 11 && (Amount(t) == 0 || Amount(t) >= 0x1_0000_0000) ==>
      ParseSeqNumber(t + tail) == Bad(tail)
  {
    if t == ['*' as int] {
      assert (t + tail)[1..] == tail;
    } else if t != [] && AllDigits(t) {
      assert Numeral(t[0]) && (t + tail)[0] == t[0];
      ReadDigits(t, tail);
      hide ParseUint32, Amount;
    }
  }

  /** Anything else is an error, but the end and a NUL, which end the set. */
  lemma OtherReads(t: seq<byte>)
    ensures t == [] || t[0] == 0 ==> ParseSeqNumber(t) == Nothing(t)
    ensures t != [] && t[0] != 0 && t[0] != '*' as int && !Numeral(t[0]) ==> ParseSeqNumber(t) == Bad(t)
  {
    if t != [] && t[0] != 0 && t[0] != '*' as int && !Numeral(t[0]) {
      assert Digits(t) == [];
    }
  }

  /** Two numbers with a colon between them are the range of both, put in order
      unless the second is "*"; one alone is itself; and a colon must have a number
      behind it. */
  lemma RangeReads(s: seq<byte>, v: nat, t: seq<byte>, w: nat, tail: seq<byte>)
    requires Writes(s, v) && Ends(tail)
    ensures Writes(t, w) ==>
      ParseSequence(s + ([':' as int] + (t + tail))) == Range(if 0 < w < v then SeqRange(w, v) else SeqRange(v, w), tail)
    ensures tail == [] || tail[0] != ':' as int ==> ParseSequence(s + tail) == Range(SeqRange(v, v), tail)
    ensures !ParseSeqNumber(tail).Found? ==> ParseSequence(s + ([':' as int] + tail)).NoRange?
    ensures !ParseSeqNumber(tail).Found? ==> ParseSequence(s + ([':' as int] + tail)).bad
  {
    hide Writes, ParseSeqNumber, Numeral;
    ColonEnds();
    NumberReads(s, v, [':' as int] + (t + tail));
    NumberReads(t, w, tail);
    NumberReads(s, v, tail);
    NumberReads(s, v, [':' as int] + tail);
    assert ([':' as int] + (t + tail))[1..] == t + tail;
    assert ([':' as int] + tail)[1..] == tail;
  }

  lemma ColonEnds()
    ensures !Numeral(':' as int)
  {
  }
}
