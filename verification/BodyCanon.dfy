/** The bytes that "relaxed" body canonicalization produces
    (email/dkim/dkim_verify.go), and when they are the ones section 3.4.4 of
    RFC 6376 asks for. The readers that produce them are in BodyReaders. */
module BodyCanon {
  import opened Bytes

  predicate IsWSP(c: byte) { c == SP || c == TAB }

  predicate IsBreak(c: byte) { c == CR || c == LF }

  // ------------------------------------------------------ reduceWhitespace

  /** Output of the white space reader from state `inWS` on input `s`. */
  function Reduce(inWS: bool, s: seq<byte>): seq<byte>
    decreases |s|
  {
    if s == [] then []
    else if IsWSP(s[0]) then Reduce(true, s[1..])
    else if IsBreak(s[0]) then [s[0]] + Reduce(false, s[1..])
    else (if inWS then [SP, s[0]] else [s[0]]) + Reduce(false, s[1..])
  }

  /** The state of the white space reader after `s`. */
  predicate EndsInWSP(inWS: bool, s: seq<byte>) {
    if s == [] then inWS else IsWSP(s[|s| - 1])
  }

  /** Reading in two pieces is reading at once. */
  lemma {:induction false} ReduceSplit(inWS: bool, a: seq<byte>, b: seq<byte>)
    ensures Reduce(inWS, a + b) == Reduce(inWS, a) + Reduce(EndsInWSP(inWS, a), b)
    decreases |a|
  {
    if a == [] {
      assert a + b == b;
    } else {
      assert (a + b)[1..] == a[1..] + b;
      ReduceSplit(IsWSP(a[0]), a[1..], b);
    }
  }

  lemma ReduceSnoc(inWS: bool, a: seq<byte>, c: byte)
    ensures var ws := EndsInWSP(inWS, a);
      Reduce(inWS, a + [c])
        == Reduce(inWS, a) + (if IsWSP(c) then [] else if ws && !IsBreak(c) then [SP, c] else [c])
  {
    ReduceSplit(inWS, a, [c]);
    assert Reduce(false, []) == [];
  }

  lemma {:induction false} ReduceLoad(inWS: bool, s: seq<byte>)
    ensures |Reduce(inWS, s)| + (if EndsInWSP(inWS, s) then 1 else 0)
         <= |s| + if inWS then 1 else 0
    decreases |s|
  {
    if s != [] {
      ReduceLoad(IsWSP(s[0]), s[1..]);
    }
  }

  // ----------------------------------------------------- trimTrailingCRLFs

  /** `cr`: the last byte was a CR; `k`: CRLFs held back before it. */
  datatype Trim = Trim(cr: bool, k: nat) {
    /** The number of bytes held back. */
    function Held(): nat { 2 * k + if cr then 1 else 0 }

    /** The bytes held back, if they were read in this order. */
    function Flat(): seq<byte> { CRLFs(k) + if cr then [CR] else [] }

    function Next(c: byte): Trim {
      if c == CR then Trim(true, k)
      else if c == LF then (if cr then Trim(false, k + 1) else Trim(false, k))
      else Trim(false, 0)
    }

    function Out(c: byte): seq<byte> {
      if c == LF then (if cr then [] else [LF])
      else
        (if cr then [CR] else []) +
        (if c == CR then [] else CRLFs(k) + [c])
    }
  }

  const START := Trim(false, 0)

  function Scan(st: Trim, s: seq<byte>): Trim
    decreases |s|
  {
    if s == [] then st else Scan(st.Next(s[0]), s[1..])
  }

  /** All that is written for `s`, given buffers that are large enough. */
  function Emit(st: Trim, s: seq<byte>): seq<byte>
    decreases |s|
  {
    if s == [] then [] else st.Out(s[0]) + Emit(st.Next(s[0]), s[1..])
  }

  /** Bytes out plus bytes held back balance the bytes consumed. */
  lemma {:induction false} EmitBalance(st: Trim, s: seq<byte>)
    ensures |Emit(st, s)| + Scan(st, s).Held() == st.Held() + |s|
    decreases |s|
  {
    if s != [] {
      EmitBalance(st.Next(s[0]), s[1..]);
    }
  }

  /** The most bytes that are held back at any time while `s` is read. */
  function MaxHeld(st: Trim, s: seq<byte>): nat
    decreases |s|
  {
    if s == [] then st.Held()
    else
      var m := MaxHeld(st.Next(s[0]), s[1..]);
      if m < st.Held() then st.Held() else m
  }

  /** It is the most over all prefixes, and one of them holds back that much. */
  lemma {:induction false} MaxHeldIs(st: Trim, s: seq<byte>)
    ensures forall i | 0 <= i <= |s| :: Scan(st, s[..i]).Held() <= MaxHeld(st, s)
    ensures exists i :: 0 <= i <= |s| && Scan(st, s[..i]).Held() == MaxHeld(st, s)
    decreases |s|
  {
    assert s[..0] == [] && Scan(st, s[..0]) == st;
    if s != [] {
      var t, next := s[1..], st.Next(s[0]);
      MaxHeldIs(next, t);
      forall i | 0 < i <= |s|
        ensures Scan(st, s[..i]) == Scan(next, t[..i - 1])
      {
        assert s[..i][1..] == t[..i - 1];
      }
      var k :| 0 <= k <= |t| && Scan(next, t[..k]).Held() == MaxHeld(next, t);
      assert Scan(st, s[..k + 1]) == Scan(next, t[..k]);
      assert MaxHeld(next, t) < st.Held() || Scan(st, s[..k + 1]).Held() == MaxHeld(st, s);
    }
  }

  lemma {:induction false} MaxHeldAfter(st: Trim, a: seq<byte>, b: seq<byte>)
    ensures MaxHeld(Scan(st, a), b) <= MaxHeld(st, a + b)
    decreases |a|
  {
    if a == [] {
      assert a + b == b;
    } else {
      assert (a + b)[1..] == a[1..] + b;
      MaxHeldAfter(st.Next(a[0]), a[1..], b);
    }
  }

  /** The whole relaxed body as the code writes it. */
  function Relaxed(x: seq<byte>): seq<byte> {
    Emit(START, Reduce(false, x)) + CRLF
  }

  /** The input with all its final CRLFs taken off. */
  function StripCRLFs(y: seq<byte>): (t: seq<byte>)
    ensures t <= y
  {
    if CRLF <= y[if |y| < 2 then 0 else |y| - 2..] then StripCRLFs(y[..|y| - 2]) else y
  }

  /** No lone CR or LF directly behind a CRLF, and no CR at the very end. */
  ghost predicate Orderly(y: seq<byte>) {
    && (y != [] ==> y[|y| - 1] != CR)
    && forall i :: 0 <= i < |y| ==> OrderlyAt(y, i)
  }

  predicate OrderlyAt(y: seq<byte>, i: nat) {
    i + 2 < |y| && y[i] == CR && y[i + 1] == LF ==>
      y[i + 2] != LF && (y[i + 2] == CR ==> i + 3 < |y| && y[i + 3] == LF)
  }

  // -------------------------------------- exactly when the order is kept

  /** A lone CR or LF while CRLFs are held back overtakes them. */
  predicate Overtakes(st: Trim, c: byte) {
    0 < st.k && (if c == LF then !st.cr else st.cr)
  }

  predicate KeepsOrder(st: Trim, s: seq<byte>)
    decreases |s|
  {
    s != [] ==> !Overtakes(st, s[0]) && KeepsOrder(st.Next(s[0]), s[1..])
  }

  /** Everything written, then everything still held back. */
  function Total(st: Trim, s: seq<byte>): seq<byte> {
    Emit(st, s) + Scan(st, s).Flat()
  }

  lemma TotalStep(st: Trim, s: seq<byte>)
    requires s != []
    ensures Total(st, s) == st.Out(s[0]) + Total(st.Next(s[0]), s[1..])
  {
  }

  lemma StepInOrder(st: Trim, c: byte)
    requires !Overtakes(st, c)
    ensures st.Flat() + [c] == st.Out(c) + st.Next(c).Flat()
  {
    var k := CRLFs(st.k);
    if c == LF && st.cr {
      CRLFsEnd(st.k);
      assert st.Flat() + [c] == k + CRLF;
    } else if c == CR && st.cr {
      assert st.k == 0;
    }
  }

  /** How many CRLFs a byte string contains. */
  function Pairs(s: seq<byte>): nat {
    if |s| < 2 then 0 else (if s[..2] == CRLF then 1 else 0) + Pairs(s[1..])
  }

  lemma {:induction false} PairsSum(a: seq<byte>, b: seq<byte>)
    ensures Pairs(a + b) >= Pairs(a) + Pairs(b)
  {
    if a == [] {
      assert a + b == b;
    } else {
      PairsSum(a[1..], b);
      assert (a + b)[1..] == a[1..] + b;
      if |a| >= 2 {
        assert (a + b)[..2] == a[..2];
      }
    }
  }

  lemma {:induction false} PairsRepeat(k: nat)
    ensures Pairs(CRLFs(k)) >= k
  {
    if k > 0 {
      PairsRepeat(k - 1);
      PairsSum(CRLF, CRLFs(k - 1));
      assert Pairs(CRLF) == 1;
    }
  }

  /** The CRLFs the machine recognizes in its input. */
  function Recognized(cr: bool, s: seq<byte>): nat
    decreases |s|
  {
    if s == [] then 0
    else (if cr && s[0] == LF then 1 else 0) + Recognized(s[0] == CR, s[1..])
  }

  /** What comes out has at least the CRLFs that went in. */
  lemma {:induction false} TotalPairs(st: Trim, s: seq<byte>)
    ensures Pairs(Total(st, s)) >= st.k + Recognized(st.cr, s)
    decreases |s|
  {
    PairsRepeat(st.k);
    if s == [] {
      PairsSum(CRLFs(st.k), if st.cr then [CR] else []);
      assert Total(st, s) == st.Flat();
    } else {
      var c, next := s[0], st.Next(s[0]);
      TotalPairs(next, s[1..]);
      TotalStep(st, s);
      PairsSum(st.Out(c), Total(next, s[1..]));
      if !IsBreak(c) {
        var a: seq<byte> := if st.cr then [CR] else [];
        var b := CRLFs(st.k);
        PairsSum(b, [c]);
        PairsSum(a, b + [c]);
        assert st.Out(c) == a + (b + [c]);
      }
    }
  }

  lemma {:induction false} InputPairs(cr: bool, s: seq<byte>)
    ensures Pairs((if cr then [CR] else []) + s) == Recognized(cr, s)
    decreases |s|
  {
    var t := (if cr then [CR] else []) + s;
    if s == [] {
    } else {
      InputPairs(s[0] == CR, s[1..]);
      if s[0] == CR {
        assert [CR] + s[1..] == s;
      } else {
        assert [] + s[1..] == s[1..];
        if |s| >= 2 {
          assert s[..2] != CRLF by { assert s[..2][0] == s[0]; }
        }
      }
      assert Pairs(s) == Recognized(s[0] == CR, s[1..]);
      if cr {
        assert t[1..] == s && t[..2] == [CR, s[0]];
      } else {
        assert t == s;
      }
    }
  }

  lemma {:induction false} FlatPairs(k: nat, cr: bool, s: seq<byte>)
    ensures Pairs(Trim(cr, k).Flat() + s) == k + Recognized(cr, s)
  {
    hide Recognized, Pairs;
    var t := Trim(cr, k).Flat() + s;
    if k == 0 {
      InputPairs(cr, s);
      assert t == (if cr then [CR] else []) + s;
    } else {
      FlatPairs(k - 1, cr, s);
      var u := Trim(cr, k - 1).Flat() + s;
      assert t == CRLF + u;
      PairsFront(u);
    }
  }

  lemma PairsFront(u: seq<byte>)
    ensures Pairs(CRLF + u) == 1 + Pairs(u)
  {
    var t := CRLF + u;
    assert t[1..] == [LF] + u && t[..2] == CRLF;
    assert t[1..][1..] == u;
    if |t[1..]| >= 2 {
      assert t[1..][..2][0] == LF;
    }
  }

  lemma FlatGlue(flat: seq<byte>, c: byte, t: seq<byte>, o: seq<byte>, next: seq<byte>)
    requires flat + [c] == o + next
    ensures flat + ([c] + t) == o + (next + t)
  {
    assert flat + ([c] + t) == flat + [c] + t;
  }

  lemma OrderStep(st: Trim, s: seq<byte>)
    requires s != [] && !Overtakes(st, s[0])
    ensures var next, t := st.Next(s[0]), s[1..];
            Total(st, s) == st.Flat() + s <==> Total(next, t) == next.Flat() + t
  {
    var c, next, t := s[0], st.Next(s[0]), s[1..];
    TotalStep(st, s);
    StepInOrder(st, c);
    FlatGlue(st.Flat(), c, t, st.Out(c), next.Flat());
    assert s == [c] + t;
    Cancel(st.Out(c), Total(next, t), next.Flat() + t);
  }

  /** Written and held-back bytes together are the input, in its order,
      exactly when no lone CR or LF meets a held-back CRLF. */
  lemma {:induction false} OrderKept(st: Trim, s: seq<byte>)
    ensures Total(st, s) == st.Flat() + s <==> KeepsOrder(st, s)
    decreases |s|
  {
    if s == [] {
      assert st.Flat() + s == st.Flat();
    } else if Overtakes(st, s[0]) {
      Overtaken(st, s);
    } else {
      OrderKept(st.Next(s[0]), s[1..]);
      OrderStep(st, s);
    }
  }

  lemma Overtaken(st: Trim, s: seq<byte>)
    requires s != [] && Overtakes(st, s[0])
    ensures Total(st, s) != st.Flat() + s
  {
    TotalStep(st, s);
    assert (st.Flat() + s)[0] == CR && (st.Flat() + s)[1] == LF;
    if s[0] == CR {
      OvertakenByCR(st, s);
    } else if s[0] != LF {
      assert st.Out(s[0])[1] == CR;
    }
  }

  /** A lone CR can only look right if a lone LF follows it out, and then the
      output has one CRLF more than the input. */
  lemma OvertakenByCR(st: Trim, s: seq<byte>)
    requires s != [] && s[0] == CR && Overtakes(st, CR)
    ensures Total(st, s) != st.Flat() + s
  {
    hide Total;
    var t := Total(st.Next(CR), s[1..]);
    TotalStep(st, s);
    FlatPairs(st.k, st.cr, s);
    TotalPairs(st.Next(CR), s[1..]);
    CRBefore(t);
    assert Total(st, s) == [CR] + t;
    assert (st.Flat() + s)[1] == LF;
  }

  lemma CRBefore(t: seq<byte>)
    ensures |[CR] + t| >= 2 && ([CR] + t)[1] == LF ==> Pairs([CR] + t) == 1 + Pairs(t)
  {
    assert ([CR] + t)[1..] == t;
  }

  // ------------------------------ the same condition, read off the input

  lemma OrderlyTail(y: seq<byte>)
    requires |y| >= 2 && OrderlyAt(y, 0)
    ensures Orderly(y) <==> Orderly(y[1..])
  {
    var t := y[1..];
    assert forall i :: 0 <= i < |t| ==> (OrderlyAt(t, i) <==> OrderlyAt(y, i + 1));
    if Orderly(t) {
      forall i | 0 <= i < |y|
        ensures OrderlyAt(y, i)
      {
        assert 0 < i ==> OrderlyAt(t, i - 1);
      }
    }
  }

  lemma OrderlyAfterPair(u: seq<byte>)
    requires u != [] ==> u[0] != LF
    requires u != [] && u[0] == CR ==> 2 <= |u| && u[1] == LF
    ensures Orderly(CRLF + u) <==> Orderly(u)
  {
    var y := CRLF + u;
    if u != [] {
      OrderlyTail(y);
      OrderlyTail(y[1..]);
      assert y[1..][1..] == u;
    } else {
      assert y == CRLF;
      assert OrderlyAt(y, 0) && OrderlyAt(y, 1);
    }
  }

  /** The part of the held-back bytes that still matters to the order. */
  function Tail(st: Trim): seq<byte> {
    (if 0 < st.k then CRLF else []) + if st.cr then [CR] else []
  }

  lemma {:induction false} KeepsOrderIsOrderly(st: Trim, s: seq<byte>)
    ensures KeepsOrder(st, s) && !Scan(st, s).cr <==> Orderly(Tail(st) + s)
    decreases |s|
  {
    var y := Tail(st) + s;
    if s == [] {
      assert y == Tail(st);
    } else {
      var c, next := s[0], st.Next(s[0]);
      var z := Tail(next) + s[1..];
      KeepsOrderIsOrderly(next, s[1..]);
      if Overtakes(st, c) {
        assert y[0] == CR && y[1] == LF;
        if c == LF {
          assert y[2] == LF;
        } else {
          assert y[2] == CR && y[3] == c;
        }
        assert !OrderlyAt(y, 0);
      } else if c == CR && !st.cr {
        assert y == z;
      } else if c == LF && st.cr {
        assert z == CRLF + s[1..];
        if 0 < st.k {
          assert y == CRLF + (CRLF + s[1..]);
          OrderlyAfterPair(CRLF + s[1..]);
        } else {
          assert y == z;
        }
      } else if st.cr {
        assert st.k == 0 && y == [CR, c] + s[1..];
        OrderlyTail(y);
        assert y[1..] == s && z == if c == CR then s else s[1..];
        OrderlySkip(s);
      } else if 0 < st.k {
        assert y == CRLF + s;
        OrderlyAfterPair(s);
        OrderlySkip(s);
        assert z == s[1..];
      } else {
        assert y == s && z == s[1..];
        OrderlySkip(s);
      }
    }
  }

  lemma OrderlySkip(s: seq<byte>)
    requires s != []
    ensures s[0] != CR ==> (Orderly(s) <==> Orderly(s[1..]))
    ensures s[0] == CR ==> s == [CR] + s[1..]
  {
    if s[0] != CR && |s| >= 2 {
      OrderlyTail(s);
    }
  }

  // -------------------------------------------------------- the exact claim

  lemma {:induction false} ScanAppend(st: Trim, a: seq<byte>, b: seq<byte>)
    ensures Scan(st, a + b) == Scan(Scan(st, a), b)
    decreases |a|
  {
    if a == [] {
      assert a + b == b;
    } else {
      assert (a + b)[1..] == a[1..] + b;
      ScanAppend(st.Next(a[0]), a[1..], b);
    }
  }

  lemma {:induction false} ScanCRLFs(st: Trim, m: nat)
    ensures Scan(st, CRLFs(m)) == if m == 0 then st else Trim(false, st.k + m)
    decreases m
  {
    if m > 0 {
      var s := CRLFs(m);
      assert s[1..][1..] == CRLFs(m - 1);
      ScanCRLFs(Trim(false, st.k + 1), m - 1);
    }
  }

  lemma StripStep(y: seq<byte>)
    ensures StripCRLFs(y) == if |y| >= 2 && y[|y| - 2..] == CRLF then StripCRLFs(y[..|y| - 2]) else y
  {
  }

  lemma {:induction false} StripIsPrefix(y: seq<byte>) returns (m: nat)
    ensures y == StripCRLFs(y) + CRLFs(m)
  {
    StripStep(y);
    assert CRLFs(0) == [];
    hide CRLFs, StripCRLFs;
    m := 0;
    assert y == y + [];
    if |y| >= 2 && y[|y| - 2..] == CRLF {
      var z := y[..|y| - 2];
      var n := StripIsPrefix(z);
      CRLFsEnd(n);
      m := n + 1;
      assert y == z + CRLF;
      Assoc(StripCRLFs(z), CRLFs(n), CRLF);
    }
  }

  lemma {:induction false} StripRepeat(e: seq<byte>, m: nat)
    requires !(|e| >= 2 && e[|e| - 2..] == CRLF)
    ensures StripCRLFs(e + CRLFs(m)) == e
  {
    StripStep(e + CRLFs(m));
    hide StripCRLFs;
    if m == 0 {
      assert e + [] == e;
    } else {
      CRLFsEnd(m - 1);
      var y := e + CRLFs(m);
      assert y == e + CRLFs(m - 1) + CRLF;
      assert y[..|y| - 2] == e + CRLFs(m - 1);
      StripRepeat(e, m - 1);
    }
  }

  lemma TrimOrderly(y: seq<byte>)
    requires Total(START, y) == y && !Scan(START, y).cr
    ensures Emit(START, y) == StripCRLFs(y)
  {
    var e, k := Emit(START, y), Scan(START, y).k;
    assert y == e + CRLFs(k);
    ScanAppend(START, e, CRLFs(k));
    ScanCRLFs(Scan(START, e), k);
    if |e| >= 2 && e[|e| - 2..] == CRLF {
      var f := e[..|e| - 2];
      assert e == f + CRLF;
      assert CRLFs(1) == CRLF;
      ScanAppend(START, f, CRLF);
      ScanCRLFs(Scan(START, f), 1);
      assert false;
    }
    StripRepeat(e, k);
  }

  lemma TrimStripped(y: seq<byte>)
    requires Emit(START, y) == StripCRLFs(y)
    ensures Total(START, y) == y && !Scan(START, y).cr
  {
    hide Emit, Scan, StripCRLFs, CRLFs;
    var m := StripIsPrefix(y);
    var st := Scan(START, y);
    EmitBalance(START, y);
    assert |StripCRLFs(y)| + 2 * m == |y|;
    assert !st.cr && st.k == m;
    assert st.Flat() == CRLFs(m);
  }

  /** The reader takes exactly the trailing CRLFs off exactly when the input
      is orderly; otherwise bytes change places or a final CR is lost. */
  lemma TrimExact(y: seq<byte>)
    ensures Emit(START, y) == StripCRLFs(y) <==> Orderly(y)
  {
    OrderKept(START, y);
    KeepsOrderIsOrderly(START, y);
    assert START.Flat() + y == y && Tail(START) + y == y;
    if Orderly(y) {
      TrimOrderly(y);
    }
    if Emit(START, y) == StripCRLFs(y) {
      TrimStripped(y);
    }
  }

  /** Two ways it goes wrong: a lone LF overtakes a CRLF, a final CR is lost. */
  lemma TrimCounterexamples()
    ensures Relaxed([CR, LF, LF, 0x41]) == [LF, CR, LF, 0x41, CR, LF]
    ensures Relaxed([0x41, CR]) == [0x41, CR, LF]
  {
    var y: seq<byte> := [CR, LF, LF, 0x41];
    assert y[1..] == [LF, LF, 0x41] && y[1..][1..] == [LF, 0x41] && y[1..][1..][1..] == [0x41];
    assert Reduce(false, [0x41]) == [0x41];
    assert Reduce(false, [LF, 0x41]) == [LF, 0x41];
    assert Reduce(false, [LF, LF, 0x41]) == [LF, LF, 0x41];
    assert Reduce(false, y) == y;
    assert CRLFs(1) == CRLF;
    assert Emit(Trim(false, 1), [0x41]) == [CR, LF, 0x41];
    assert Emit(Trim(false, 1), [LF, 0x41]) == [LF, CR, LF, 0x41];
    assert Emit(Trim(true, 0), [LF, LF, 0x41]) == [LF, CR, LF, 0x41];
    assert Emit(START, y) == [LF, CR, LF, 0x41];
    var z: seq<byte> := [0x41, CR];
    assert z[1..] == [CR];
    assert Reduce(false, [CR]) == [CR];
    assert Reduce(false, z) == z;
    assert Emit(START, [CR]) == [];
    assert Emit(START, z) == [0x41];
  }

  // ------------------------------- section 3.4.4 of RFC 6376, line by line

  predicate IsLine(l: seq<byte>) {
    forall i | 0 <= i < |l| :: !IsBreak(l[i])
  }

  ghost predicate AreLines(lines: seq<seq<byte>>) {
    lines != [] && forall i | 0 <= i < |lines| :: IsLine(lines[i])
  }

  /** The text of lines; the last one is not terminated and may be empty. */
  function Join(lines: seq<seq<byte>>): seq<byte> {
    if lines == [] then []
    else if |lines| == 1 then lines[0]
    else lines[0] + CRLF + Join(lines[1..])
  }

  /** A line without the white space at its end. */
  function DropEndWSP(l: seq<byte>): (r: seq<byte>)
    ensures r <= l
  {
    if l != [] && IsWSP(l[|l| - 1]) then DropEndWSP(l[..|l| - 1]) else l
  }

  /** A line with one space for each run of white space. */
  function Collapse(l: seq<byte>): (r: seq<byte>)
  {
    if l == [] then []
    else if !IsWSP(l[0]) then [l[0]] + Collapse(l[1..])
    else if 2 <= |l| && IsWSP(l[1]) then Collapse(l[1..])
    else [SP] + Collapse(l[1..])
  }

  function RelaxLine(l: seq<byte>): seq<byte> { Collapse(DropEndWSP(l)) }

  function RelaxLines(lines: seq<seq<byte>>): (r: seq<seq<byte>>)
    ensures |r| == |lines|
    ensures forall i | 0 <= i < |r| :: r[i] == RelaxLine(lines[i])
  {
    seq(|lines|, i requires 0 <= i < |lines| => RelaxLine(lines[i]))
  }

  /** Without the empty lines at the end. */
  function DropEmptyEnd(ls: seq<seq<byte>>): (r: seq<seq<byte>>)
    ensures r <= ls
  {
    if ls != [] && ls[|ls| - 1] == [] then DropEmptyEnd(ls[..|ls| - 1]) else ls
  }

  function Terminate(ls: seq<seq<byte>>): seq<byte> {
    if ls == [] then [] else ls[0] + CRLF + Terminate(ls[1..])
  }

  /** The canonical body: empty when there is nothing but white space. */
  function Rfc6376Relaxed(lines: seq<seq<byte>>): seq<byte> {
    Terminate(DropEmptyEnd(RelaxLines(lines)))
  }

  ghost predicate Blank(lines: seq<seq<byte>>) {
    forall i | 0 <= i < |lines| :: forall j | 0 <= j < |lines[i]| :: IsWSP(lines[i][j])
  }

  lemma RelaxInk(inWS: bool, c: byte, t: seq<byte>)
    requires !IsWSP(c)
    ensures RelaxLine((if inWS then [SP] else []) + ([c] + t))
         == (if inWS then [SP, c] else [c]) + RelaxLine(t)
  {
    DropEndInk(if inWS then [SP] else [], c, t);
    var d := DropEndWSP(t);
    assert ([c] + d)[1..] == d;
    if inWS {
      var l := [SP] + ([c] + d);
      assert l[1..] == [c] + d;
      assert Collapse(l) == [SP] + Collapse([c] + d);
      assert [SP] + ([c] + Collapse(d)) == [SP, c] + Collapse(d);
    } else {
      assert [] + ([c] + d) == [c] + d;
    }
  }

  /** White space pending in the reader is white space in front of the line. */
  lemma {:induction false} ReduceIsRelax(inWS: bool, l: seq<byte>)
    requires IsLine(l)
    ensures Reduce(inWS, l) == RelaxLine((if inWS then [SP] else []) + l)
    decreases |l|
  {
    if l == [] {
      if inWS {
        assert [SP] + [] == [SP] && [SP][..0] == [];
      }
    } else {
      var c, t := l[0], l[1..];
      assert l == [c] + t;
      ReduceIsRelax(IsWSP(c), t);
      if IsWSP(c) {
        RelaxFront(inWS, c, t);
      } else {
        RelaxInk(inWS, c, t);
        assert [] + t == t;
      }
    }
  }

  lemma {:induction false} DropEndInk(a: seq<byte>, c: byte, t: seq<byte>)
    requires !IsWSP(c)
    ensures DropEndWSP(a + ([c] + t)) == a + ([c] + DropEndWSP(t))
  {
    var s := a + ([c] + t);
    if t != [] && IsWSP(t[|t| - 1]) {
      DropEndInk(a, c, t[..|t| - 1]);
      assert s[..|s| - 1] == a + ([c] + t[..|t| - 1]);
    } else {
      assert s[|s| - 1] == if t == [] then c else t[|t| - 1];
    }
  }

  lemma {:induction false} DropEndWSPFront(c: byte, t: seq<byte>)
    ensures var d := DropEndWSP([c] + t);
            DropEndWSP(t) != [] ==> d == [c] + DropEndWSP(t)
    ensures IsWSP(c) && DropEndWSP(t) == [] ==> DropEndWSP([c] + t) == []
  {
    var s := [c] + t;
    if t != [] && IsWSP(t[|t| - 1]) {
      DropEndWSPFront(c, t[..|t| - 1]);
      assert s[..|s| - 1] == [c] + t[..|t| - 1];
    } else if t == [] && IsWSP(c) {
      assert s[..0] == [];
    }
  }

  /** Any white space at the front of the rest of a line counts as one. */
  lemma RelaxFront(inWS: bool, c: byte, t: seq<byte>)
    requires IsWSP(c)
    ensures RelaxLine((if inWS then [SP] else []) + ([c] + t)) == RelaxLine([SP] + t)
  {
    DropEndWSPFront(c, t);
    DropEndWSPFront(SP, t);
    var d := DropEndWSP(t);
    if inWS {
      DropEndWSPFront(SP, [c] + t);
    } else {
      assert [] + ([c] + t) == [c] + t;
    }
    if d != [] {
      assert ([c] + d)[1..] == d && ([SP] + d)[1..] == d;
      assert Collapse([c] + d) == Collapse([SP] + d);
      if inWS {
        assert ([SP] + ([c] + d))[1..] == [c] + d;
      }
    }
  }

  lemma {:induction false} ReduceAppend(inWS: bool, l: seq<byte>, t: seq<byte>)
    requires IsLine(l)
    ensures Reduce(inWS, l + CRLF + t) == Reduce(inWS, l) + CRLF + Reduce(false, t)
    decreases |l|
  {
    var s := l + CRLF + t;
    if l == [] {
      assert s[1..][1..] == t && s[1..] == [LF] + t;
      assert Reduce(false, s[1..]) == [LF] + Reduce(false, t);
    } else {
      assert s[1..] == l[1..] + CRLF + t;
      ReduceAppend(IsWSP(l[0]), l[1..], t);
    }
  }

  lemma {:induction false} ReduceJoin(lines: seq<seq<byte>>)
    requires AreLines(lines)
    ensures Reduce(false, Join(lines)) == Join(RelaxLines(lines))
    decreases |lines|
  {
    ReduceIsRelax(false, lines[0]);
    assert [] + lines[0] == lines[0];
    var ls := RelaxLines(lines);
    if |lines| > 1 {
      ReduceJoin(lines[1..]);
      ReduceAppend(false, lines[0], Join(lines[1..]));
      assert ls[1..] == RelaxLines(lines[1..]);
    }
  }

  lemma {:induction false} RelaxLineIsLine(l: seq<byte>)
    requires IsLine(l)
    ensures IsLine(RelaxLine(l))
  {
    CollapseIsLine(DropEndWSP(l));
  }

  lemma {:induction false} CollapseIsLine(l: seq<byte>)
    requires IsLine(l)
    ensures IsLine(Collapse(l))
  {
    if l != [] {
      CollapseIsLine(l[1..]);
    }
  }

  lemma NoCRLFs()
    ensures CRLFs(0) == []
  {
  }

  /** Lines joined by CRLF are orderly, whatever the machine still holds. */
  lemma {:induction false} EmitLine(k: nat, l: seq<byte>)
    requires IsLine(l)
    ensures Emit(Trim(false, k), l) == (if l == [] then [] else CRLFs(k)) + l
    ensures Scan(Trim(false, k), l) == Trim(false, if l == [] then k else 0)
    decreases |l|
  {
    hide CRLFs;
    if l != [] {
      NoCRLFs();
      EmitLine(0, l[1..]);
      assert l == [l[0]] + l[1..];
    }
  }

  lemma {:induction false} EmitAppend(st: Trim, a: seq<byte>, b: seq<byte>)
    ensures Emit(st, a + b) == Emit(st, a) + Emit(Scan(st, a), b)
    decreases |a|
  {
    if a == [] {
      assert a + b == b;
    } else {
      assert (a + b)[1..] == a[1..] + b;
      EmitAppend(st.Next(a[0]), a[1..], b);
      hide Trim.Out, Trim.Next;
      Assoc(st.Out(a[0]), Emit(st.Next(a[0]), a[1..]), Emit(Scan(st, a), b));
    }
  }

  lemma EmitCRLF(k: nat, t: seq<byte>)
    ensures Emit(Trim(false, k), CRLF + t) == Emit(Trim(false, k + 1), t)
  {
    assert (CRLF + t)[1..] == [LF] + t && (CRLF + t)[1..][1..] == t;
  }

  lemma {:induction false} EmptyEnd(ls: seq<seq<byte>>)
    requires ls != []
    ensures DropEmptyEnd(ls) == if DropEmptyEnd(ls[1..]) == [] && ls[0] == [] then []
                                else [ls[0]] + DropEmptyEnd(ls[1..])
  {
    if ls[|ls| - 1] == [] && |ls| > 1 {
      EmptyEnd(ls[..|ls| - 1]);
      assert ls[..|ls| - 1][1..] == ls[1..][..|ls| - 2];
    } else if |ls| > 1 {
      assert ls == [ls[0]] + ls[1..];
    } else if ls[0] == [] {
      assert ls[..0] == [];
    } else {
      assert ls == [ls[0]] + [];
    }
  }

  /** The end result for lines read while `k` CRLFs are held back. */
  function Canonical(k: nat, ls: seq<seq<byte>>): seq<byte> {
    var d := DropEmptyEnd(ls);
    if d == [] then CRLF else CRLFs(k) + Terminate(d)
  }

  lemma CanonicalEmpty(k: nat, ls: seq<seq<byte>>)
    requires |ls| > 1 && ls[0] == []
    ensures Canonical(k, ls) == Canonical(k + 1, ls[1..])
  {
    hide DropEmptyEnd;
    var d := DropEmptyEnd(ls[1..]);
    EmptyEnd(ls);
    if d != [] {
      var t := Terminate(d);
      assert ([[]] + d)[1..] == d;
      assert Terminate([[]] + d) == CRLF + t;
      CRLFsEnd(k);
      assert CRLFs(k) + (CRLF + t) == CRLFs(k) + CRLF + t;
    }
  }

  lemma CanonicalText(k: nat, ls: seq<seq<byte>>)
    requires |ls| > 1 && ls[0] != []
    ensures Canonical(k, ls) == CRLFs(k) + ls[0] + Canonical(1, ls[1..])
  {
    hide CRLFs, DropEmptyEnd;
    var l, d := ls[0], DropEmptyEnd(ls[1..]);
    EmptyEnd(ls);
    assert CRLFs(1) == CRLF;
    var t := Terminate(d);
    assert ([l] + d)[1..] == d;
    assert Terminate([l] + d) == l + CRLF + t;
    assert CRLFs(k) + (l + CRLF + t) == CRLFs(k) + l + (CRLF + t);
    assert d == [] ==> CRLF + t == CRLF;
  }

  lemma EmitJoinStep(k: nat, ls: seq<seq<byte>>)
    requires AreLines(ls) && |ls| > 1
    ensures Emit(Trim(false, k), Join(ls))
         == if ls[0] == [] then Emit(Trim(false, k + 1), Join(ls[1..]))
            else CRLFs(k) + ls[0] + Emit(Trim(false, 1), Join(ls[1..]))
  {
    var l, t := ls[0], Join(ls[1..]);
    EmitLine(k, l);
    assert Join(ls) == l + (CRLF + t);
    EmitAppend(Trim(false, k), l, CRLF + t);
    EmitCRLF(if l == [] then k else 0, t);
  }

  lemma EmitJoinLast(k: nat, l: seq<byte>)
    requires IsLine(l)
    ensures Emit(Trim(false, k), l) + CRLF == Canonical(k, [l])
  {
    EmitLine(k, l);
    EmptyEnd([l]);
    assert DropEmptyEnd([]) == [];
    if l != [] {
      assert Terminate([l]) == l + CRLF;
    }
  }

  lemma EmitJoinMore(k: nat, ls: seq<seq<byte>>)
    requires AreLines(ls) && |ls| > 1 && ls[0] != []
    requires Emit(Trim(false, 1), Join(ls[1..])) + CRLF == Canonical(1, ls[1..])
    ensures Emit(Trim(false, k), Join(ls)) + CRLF == Canonical(k, ls)
  {
    EmitJoinStep(k, ls);
    CanonicalText(k, ls);
    Assoc(CRLFs(k) + ls[0], Emit(Trim(false, 1), Join(ls[1..])), CRLF);
  }

  lemma {:induction false} EmitJoin(k: nat, ls: seq<seq<byte>>)
    requires AreLines(ls)
    ensures Emit(Trim(false, k), Join(ls)) + CRLF == Canonical(k, ls)
    decreases |ls|
  {
    if |ls| == 1 {
      EmitJoinLast(k, ls[0]);
      assert ls == [ls[0]];
    } else if ls[0] == [] {
      EmitJoin(k + 1, ls[1..]);
      EmitJoinStep(k, ls);
      CanonicalEmpty(k, ls);
    } else {
      EmitJoin(1, ls[1..]);
      EmitJoinMore(k, ls);
    }
  }

  /** What the code makes of a body whose line ends are all CRLF: the RFC's
      canonical form, or a single CRLF where that form is empty. */
  lemma RelaxedIsRfc(lines: seq<seq<byte>>)
    requires AreLines(lines)
    ensures Relaxed(Join(lines))
         == if Rfc6376Relaxed(lines) == [] then CRLF else Rfc6376Relaxed(lines)
  {
    ReduceJoin(lines);
    var ls := RelaxLines(lines);
    forall i | 0 <= i < |ls|
      ensures IsLine(ls[i])
    {
      RelaxLineIsLine(lines[i]);
    }
    EmitJoin(0, ls);
    var d := DropEmptyEnd(ls);
    assert CRLFs(0) + Terminate(d) == Terminate(d);
  }

  lemma {:induction false} RelaxedEmpty(l: seq<byte>)
    ensures RelaxLine(l) == [] <==> forall j | 0 <= j < |l| :: IsWSP(l[j])
  {
    var d := DropEndWSP(l);
    if l != [] && IsWSP(l[|l| - 1]) {
      RelaxedEmpty(l[..|l| - 1]);
      assert forall j | 0 <= j < |l| - 1 :: l[..|l| - 1][j] == l[j];
    } else if l != [] {
      CollapseNonEmpty(l);
      assert !IsWSP(l[|l| - 1]);
    }
  }

  lemma {:induction false} CollapseNonEmpty(l: seq<byte>)
    requires l != []
    ensures Collapse(l) != []
  {
    if IsWSP(l[0]) && 2 <= |l| && IsWSP(l[1]) {
      CollapseNonEmpty(l[1..]);
    }
  }

  lemma {:induction false} DroppedAll(ls: seq<seq<byte>>)
    ensures DropEmptyEnd(ls) == [] <==> forall i | 0 <= i < |ls| :: ls[i] == []
  {
    if ls != [] && ls[|ls| - 1] == [] {
      DroppedAll(ls[..|ls| - 1]);
      assert forall i | 0 <= i < |ls| - 1 :: ls[..|ls| - 1][i] == ls[i];
    }
  }

  /** The code meets the RFC exactly on bodies that are not blank. */
  lemma RelaxedExact(lines: seq<seq<byte>>)
    requires AreLines(lines)
    ensures Relaxed(Join(lines)) == Rfc6376Relaxed(lines) <==> !Blank(lines)
  {
    RelaxedIsRfc(lines);
    var ls := RelaxLines(lines);
    DroppedAll(ls);
    forall i | 0 <= i < |lines|
      ensures ls[i] == [] <==> forall j | 0 <= j < |lines[i]| :: IsWSP(lines[i][j])
    {
      RelaxedEmpty(lines[i]);
    }
    assert Rfc6376Relaxed(lines) == [] <==> DropEmptyEnd(ls) == [];
  }

  lemma {:induction false} CollapseTwice(l: seq<byte>)
    ensures Collapse(Collapse(l)) == Collapse(l)
    ensures l != [] ==> Collapse(l) != [] && (IsWSP(Collapse(l)[0]) <==> IsWSP(l[0]))
    ensures l != [] ==> (IsWSP(Collapse(l)[|Collapse(l)| - 1]) <==> IsWSP(l[|l| - 1]))
  {
    if l != [] {
      var t := l[1..];
      CollapseTwice(t);
      var c := Collapse(t);
      if !IsWSP(l[0]) {
        assert ([l[0]] + c)[1..] == c;
      } else if 2 <= |l| && IsWSP(l[1]) {
      } else {
        assert ([SP] + c)[1..] == c;
        assert t == [] ==> c == [];
      }
    }
  }

  lemma {:induction false} DropEndDone(l: seq<byte>)
    ensures var d := DropEndWSP(l); d != [] ==> !IsWSP(d[|d| - 1])
  {
    if l != [] && IsWSP(l[|l| - 1]) {
      DropEndDone(l[..|l| - 1]);
    }
  }

  lemma RelaxLineTwice(l: seq<byte>)
    ensures RelaxLine(RelaxLine(l)) == RelaxLine(l)
  {
    var d := DropEndWSP(l);
    DropEndDone(l);
    CollapseTwice(d);
  }

  lemma {:induction false} TerminateIsJoin(ls: seq<seq<byte>>)
    ensures Terminate(ls) == Join(ls + [[]])
  {
    if ls != [] {
      TerminateIsJoin(ls[1..]);
      assert (ls + [[]])[1..] == ls[1..] + [[]];
    } else {
      assert ls + [[]] == [[]];
    }
  }

  lemma {:induction false} DropEmptyDone(ls: seq<seq<byte>>)
    ensures DropEmptyEnd(DropEmptyEnd(ls) + [[]]) == DropEmptyEnd(ls)
  {
    var d := DropEmptyEnd(ls);
    assert (d + [[]])[..|d|] == d;
    if ls != [] && ls[|ls| - 1] == [] {
      DropEmptyDone(ls[..|ls| - 1]);
    }
  }

  /** Canonicalizing a canonical body changes nothing. */
  lemma RelaxedTwice(lines: seq<seq<byte>>)
    requires AreLines(lines)
    ensures Relaxed(Relaxed(Join(lines))) == Relaxed(Join(lines))
  {
    RelaxedIsRfc(lines);
    var ls := RelaxLines(lines);
    var d := DropEmptyEnd(ls);
    var again := d + [[]];
    forall i | 0 <= i < |again|
      ensures IsLine(again[i]) && RelaxLine(again[i]) == again[i]
    {
      if i < |d| {
        RelaxLineIsLine(lines[i]);
        RelaxLineTwice(lines[i]);
        assert again[i] == RelaxLine(lines[i]);
      }
    }
    assert RelaxLines(again) == again;
    TerminateIsJoin(d);
    DropEmptyDone(ls);
    RelaxedIsRfc(again);
    if d == [] {
      NothingTwice();
    }
  }

  lemma NothingTwice()
    ensures Relaxed(CRLF) == CRLF
  {
    var nothing: seq<seq<byte>> := [[], []];
    assert nothing[1..] == [[]];
    assert Join(nothing) == CRLF;
    assert RelaxLines(nothing) == nothing;
    assert nothing[..1] == [[]] && nothing[..1][..0] == [];
    RelaxedIsRfc(nothing);
  }
}
