/** The two chained readers behind newRelaxedBody (email/dkim/dkim_verify.go):
    whatever the sizes of the reads, together they deliver BodyCanon.Relaxed. */
module BodyReaders {
  import opened Bytes
  import opened IoReader
  import opened BodyCanon

  method Put(buf: array<byte>, n: nat, c: byte)
    requires n < buf.Length
    modifies buf
    ensures buf[..n + 1] == old(buf[..n]) + [c]
    ensures forall i | n < i < buf.Length :: buf[i] == old(buf[i])
  {
    buf[n] := c;
  }

  method Copy(dst: array<byte>, src: array<byte>, off: nat, n: nat)
    requires dst != src && n <= dst.Length && off + n <= src.Length
    modifies dst
    ensures dst[..n] == src[off..off + n]
  {
    forall i | 0 <= i < n {
      dst[i] := src[off + i];
    }
  }

  /** Reduces white space in the caller's buffer, in place. */
  class ReduceWhitespace {
    const r: Reader
    var inWS: bool

    constructor (r: Reader)
      requires r.Valid()
      ensures Valid() && this.r == r && !inWS
    {
      this.r := r;
      inWS := false;
    }

    ghost predicate Valid()
      reads this, r
    {
      r.Valid()
    }

    /** All the bytes still to come. */
    ghost function Future(): seq<byte>
      reads this, r
      requires Valid()
    {
      Reduce(inWS, r.Rest())
    }

    method CompactByte(buf: array<byte>, n0: nat, c: byte) returns (n: nat)
      requires n0 + (if inWS then 1 else 0) < buf.Length
      modifies this`inWS, buf
      ensures inWS == IsWSP(c) && n + (if inWS then 1 else 0) <= n0 + 1 + if old(inWS) then 1 else 0
      ensures n0 <= n <= buf.Length
      ensures buf[..n] == old(buf[..n0])
        + (if IsWSP(c) then [] else if old(inWS) && !IsBreak(c) then [SP, c] else [c])
      ensures forall j | n <= j < buf.Length :: buf[j] == old(buf[j])
    {
      n := n0;
      if IsWSP(c) {
        inWS := true;
        return;
      }
      if !IsBreak(c) && inWS {
        Put(buf, n, SP);
        n := n + 1;
      }
      Put(buf, n, c);
      n := n + 1;
      inWS := false;
    }

    /** Moves the reduced form of buf[lo..hi] to the front of the buffer. The
        loop reads each byte before anything is written over it. */
    method Compact(buf: array<byte>, lo: nat, hi: nat) returns (n: nat)
      requires lo <= hi <= buf.Length && (inWS ==> 0 < lo)
      modifies this`inWS, buf
      ensures n <= hi
      ensures buf[..n] == Reduce(old(inWS), old(buf[lo..hi]))
      ensures inWS == EndsInWSP(old(inWS), old(buf[lo..hi]))
    {
      ghost var chunk, ws := buf[lo..hi], inWS;
      var i := lo;
      n := 0;
      while i < hi
        invariant lo <= i <= hi
        invariant n + (if inWS then 1 else 0) <= i
        invariant forall j | i <= j < hi :: buf[j] == chunk[j - lo] // nothing unread is lost
        invariant buf[..n] == Reduce(ws, chunk[..i - lo])
        invariant inWS == EndsInWSP(ws, chunk[..i - lo])
      {
        var c := buf[i];
        ReduceSnoc(ws, chunk[..i - lo], c);
        assert chunk[..i + 1 - lo] == chunk[..i - lo] + [c];
        n := CompactByte(buf, n, c);
        i := i + 1;
      }
      assert chunk[..hi - lo] == chunk;
    }

    method Read(buf: array<byte>) returns (n: nat, err: Err)
      requires Valid()
      modifies this`inWS, r`pos, buf
      ensures Valid() && n <= buf.Length
      ensures old(Future()) == buf[..n] + Future()
      ensures n + |r.Rest()| + (if inWS then 1 else 0) <= old(|r.Rest()| + if inWS then 1 else 0)
      ensures err != NoError ==> err == r.last && r.Rest() == []
      ensures 2 <= buf.Length ==> |r.Rest()| < old(|r.Rest()|) || err != NoError
      ensures old(r.pos) <= r.pos
      ensures 0 < buf.Length ==>
        var chunk := r.data[old(r.pos)..r.pos];
        && buf[..n] == Reduce(old(inWS), chunk) && inWS == EndsInWSP(old(inWS), chunk)
        && |chunk| + (if old(inWS) then 1 else 0) <= buf.Length
      ensures r.cutting.Bytewise? && 2 <= buf.Length && old(r.pos) < |r.data| ==>
        var u, v := r.cutting.u, r.cutting.v;
        && (old(r.pos) < u ==> r.pos == old(r.pos) + 1)
        && (old(r.pos) == u < v <= |r.data| && v - u + (if old(inWS) then 1 else 0) <= buf.Length ==> r.pos == v)
    {
      hide Reduce, EndsInWSP;
      if buf.Length == 0 {
        n, err := r.Read(buf, 0, 0);
        assert old(r.Rest()) == r.Rest();
        return;
      }
      ghost var from, ws := r.pos, inWS;
      var lo := if inWS then 1 else 0; // leave space for white space
      var m;
      m, err := r.Read(buf, lo, buf.Length);
      ghost var chunk := r.data[from..r.pos];
      assert buf[lo..lo + m] == chunk && |chunk| == m;
      n := Compact(buf, lo, lo + m);
      RestOf(r.data, from, r.pos, ws);
      ReduceLoad(ws, chunk);
    }

    lemma RestOf(x: seq<byte>, u: nat, v: nat, ws: bool)
      requires u <= v <= |x|
      ensures Reduce(ws, x[u..]) == Reduce(ws, x[u..v]) + Reduce(EndsInWSP(ws, x[u..v]), x[v..])
      ensures |x[u..]| == |x[u..v]| + |x[v..]|
    {
      hide Reduce, EndsInWSP;
      assert x[u..] == x[u..v] + x[v..];
      ReduceSplit(ws, x[u..v], x[v..]);
    }
  }

  /** The length of the buffer in front of the trimming. */
  const CHUNK: nat := 2048

  /** Whether writing byte `i` of the pending ones runs off the end of a
      buffer of length `cap`: it is an ordinary byte, something is held back
      in front of it, and that fills the buffer exactly. */
  ghost predicate Overruns(st: Trim, pending: seq<byte>, cap: nat) {
    var i := cap - st.Held();
    && 0 <= i < |pending| && !IsBreak(pending[i])
    && 0 < Scan(st, pending[..i]).Held()
  }

  // ------------------------------------------- how much room a body needs

  /** One read may take x[u..v]: it fits the buffer behind the place kept for
      white space. */
  predicate IsChunk(x: seq<byte>, u: nat, v: nat) {
    u <= v <= |x| && v - u + (if EndsInWSP(false, x[..u]) then 1 else 0) <= CHUNK
  }

  /** What it is reduced to, and what is held back in front of that. */
  function Piece(x: seq<byte>, u: nat, v: nat): seq<byte>
    requires u <= v <= |x|
  {
    Reduce(EndsInWSP(false, x[..u]), x[u..v])
  }

  function HeldBefore(x: seq<byte>, u: nat): Trim
    requires u <= |x|
  {
    Scan(START, Reduce(false, x[..u]))
  }

  /** Read on its own, x[u..v] overruns a buffer of this length. */
  ghost predicate Hits(x: seq<byte>, u: nat, v: nat, cap: nat) {
    IsChunk(x, u, v) && Overruns(HeldBefore(x, u), Piece(x, u, v), cap)
  }

  /** No chunk of the body overruns a buffer of this length or of a greater. */
  ghost predicate Clear(x: seq<byte>, cap: nat) {
    forall u: nat, v: nat, c: nat | Hits(x, u, v, c) :: c < cap
  }

  /** The next chunk begins in the state in which the last one ends. */
  lemma NextChunk(x: seq<byte>, u: nat, v: nat)
    requires u <= v <= |x|
    ensures HeldBefore(x, v) == Scan(HeldBefore(x, u), Piece(x, u, v))
    ensures EndsInWSP(false, x[..v]) == EndsInWSP(EndsInWSP(false, x[..u]), x[u..v])
  {
    assert x[..v] == x[..u] + x[u..v];
    ReduceSplit(false, x[..u], x[u..v]);
    ScanAppend(START, Reduce(false, x[..u]), Piece(x, u, v));
  }

  /** Who holds less back goes on to hold less back. */
  lemma {:induction false} ScanMono(st: Trim, st': Trim, s: seq<byte>)
    requires st.Held() <= st'.Held()
    ensures Scan(st, s).Held() <= Scan(st', s).Held()
    decreases |s|
  {
    if s != [] {
      ScanMono(st.Next(s[0]), st'.Next(s[0]), s[1..]);
    }
  }

  /** `i` further bytes of a piece of which `done` are done. */
  lemma PieceOn(st: Trim, p: seq<byte>, done: nat, i: nat)
    requires done + i <= |p|
    ensures p[done..][..i] == p[done..done + i] && p[done..][i..] == p[done + i..]
    ensures Scan(st, p[..done + i]) == Scan(Scan(st, p[..done]), p[done..][..i])
  {
    assert p[..done + i] == p[..done] + p[done..][..i];
    ScanAppend(st, p[..done], p[done..][..i]);
  }

  /** In the midst of a chunk, what would overrun the buffer now would have
      overrun one at least as long from the chunk's beginning. */
  lemma OverrunsOn(st0: Trim, p: seq<byte>, done: nat, st: Trim, cap: nat)
    requires done <= |p| && st.Held() <= Scan(st0, p[..done]).Held() && Overruns(st, p[done..], cap)
    ensures exists c: nat :: cap <= c && Overruns(st0, p, c)
  {
    hide Scan, Emit, Trim.Held;
    var i := cap - st.Held();
    PieceOn(st0, p, done, i);
    ScanMono(st, Scan(st0, p[..done]), p[done..][..i]);
    HeldGrows(st0, p, done);
    assert p[done + i] == p[done..][i];
    OverrunsAt(st0, p, done + i);
  }

  lemma OverrunsAt(st: Trim, p: seq<byte>, i: nat)
    requires i < |p| && !IsBreak(p[i]) && 0 < Scan(st, p[..i]).Held()
    ensures Overruns(st, p, st.Held() + i)
  {
    hide Scan, Trim.Held;
  }

  lemma HeldGrows(st: Trim, p: seq<byte>, i: nat)
    requires i <= |p|
    ensures Scan(st, p[..i]).Held() <= st.Held() + i
  {
    EmitBalance(st, p[..i]);
    hide Scan, Emit, Trim.Held;
  }

  /** And what does not get done for want of room, one longer than this. */
  lemma StoppedOn(st0: Trim, p: seq<byte>, done: nat, i: nat, cap: nat)
    requires done + i < |p| && !IsBreak(p[done + i]) && cap < Scan(st0, p[..done]).Held() + i
    requires 0 < Scan(st0, p[..done + i]).Held()
    ensures exists c: nat :: cap < c && Overruns(st0, p, c)
  {
    hide Scan, Emit, Trim.Held;
    HeldGrows(st0, p, done);
    OverrunsAt(st0, p, done + i);
  }

  /** Holds CRLFs back until something else follows them. */
  class TrimTrailingCRLFs {
    const r: ReduceWhitespace
    const data: array<byte>
    var off: nat
    var len: nat
    var rerr: Err
    var inCR: bool
    var numCRLFs: nat
    var epilogue: bool
    // Where the chunk begins that was read last.
    ghost var from: nat

    constructor (r: ReduceWhitespace)
      requires r.Valid()
      ensures Valid() && this.r == r && fresh(data)
      ensures !epilogue && rerr == NoError && Pending() == [] && State() == START
      ensures r.r.pos == 0 && !r.inWS ==> Along(true) && Along(false)
    {
      this.r := r;
      data := new byte[CHUNK];
      off, len, rerr := 0, 0, NoError;
      inCR, numCRLFs, epilogue := false, 0, false;
      from := r.r.pos;
    }

    ghost predicate Valid()
      reads this, r, r.r
    {
      && r.Valid() && data.Length == CHUNK && off + len <= CHUNK
      && (rerr != NoError ==> rerr == r.r.last && r.r.Rest() == [])
      && (epilogue ==> rerr != NoError)
    }

    ghost function State(): Trim
      reads this
    {
      Trim(inCR, numCRLFs)
    }

    ghost function Pending(): seq<byte>
      reads this, data, r, r.r
      requires Valid()
    {
      data[off..off + len]
    }

    /** All the bytes still to come. */
    ghost function Future(): seq<byte>
      reads this, data, r, r.r
      requires Valid()
    {
      if epilogue then Pending()
      else Emit(State(), Pending() + r.Future()) + CRLF
    }

    /** The most bytes that will still be held back at any time. */
    ghost function Peak(): nat
      reads this, data, r, r.r
      requires Valid()
    {
      if epilogue then 0 else MaxHeld(State(), Pending() + r.Future())
    }

    /** The reader has come to the end of a chunk. */
    ghost predicate AlongReader()
      reads this, r, r.r
      requires Valid()
    {
      var x, v := r.r.data, r.r.pos;
      from <= v && IsChunk(x, from, v) && r.inWS == EndsInWSP(false, x[..v])
    }

    /** The pending bytes are the end of the chunk read last, and what is held
        back is what it leaves held back up to there (`exact`), or less. */
    ghost predicate Along(exact: bool)
      reads this, data, r, r.r
      requires Valid()
    {
      AlongReader() && (!epilogue ==> Midway(exact, r.r.data, from, r.r.pos, Pending(), State()))
    }

    ghost predicate OnTrack(exact: bool, st: Trim, at: Trim) {
      if exact then st == at else st.Held() <= at.Held()
    }

    /** The reader is on its way, byte by byte, to a chunk that has something. */
    ghost predicate Planned()
      reads r.r
    {
      var x, c := r.r.data, r.r.cutting;
      && c.Bytewise? && r.r.pos <= c.u < c.v && IsChunk(x, c.u, c.v) && Piece(x, c.u, c.v) != []
    }

    /** It has just read that. */
    ghost predicate Fresh()
      reads this, r.r
    {
      var x, c := r.r.data, r.r.cutting;
      && c.Bytewise? && from == c.u && r.r.pos == c.v && IsChunk(x, c.u, c.v)
      && len == |Piece(x, c.u, c.v)| > 0 && !epilogue
    }

    /** A measure of what is left to do. */
    ghost function Work(): nat
      reads this, r, r.r
      requires Valid()
    {
      5 * |r.r.Rest()| + 4 * (if r.inWS then 1 else 0) + 3 * len + State().Held()
      + (if rerr == NoError then 1 else 0) + (if epilogue then 0 else 7)
    }

    /** One turn of the loop that waits for bytes. */
    method Refill()
      requires Valid() && len == 0 && rerr == NoError && !epilogue
      modifies this`off, this`len, this`rerr, this`from, data, r`inWS, r.r`pos
      ensures Valid() && Future() == old(Future()) && Peak() == old(Peak())
      ensures len + |r.r.Rest()| + (if r.inWS then 1 else 0) <= old(|r.r.Rest()| + if r.inWS then 1 else 0)
      ensures |r.r.Rest()| < old(|r.r.Rest()|) || rerr != NoError
      ensures (old(Along(true)) ==> Along(true)) && (old(Along(false)) ==> Along(false))
      ensures old(Planned()) && old(Along(true)) ==> Planned() || Fresh()
    {
      hide Reduce, EndsInWSP, MaxHeld, Emit, Scan, OnTrack, Along, HeldBefore;
      ghost var before, st, exact, near := r.Future(), State(), Along(true), Along(false);
      assert Pending() + before == before;
      AlongEnd(true);
      AlongEnd(false);
      from := r.r.pos;
      off := 0;
      len, rerr := r.Read(data);
      assert Pending() == data[..len];
      assert Pending() + r.Future() == before;
      AlongStart(true);
      AlongStart(false);
    }

    /** At the end of a chunk, */
    lemma AlongEnd(exact: bool)
      requires Valid() && len == 0 && !epilogue
      ensures Along(exact) ==>
        OnTrack(exact, State(), HeldBefore(r.r.data, r.r.pos)) && r.inWS == EndsInWSP(false, r.r.data[..r.r.pos])
    {
      if Along(exact) {
        var x, v := r.r.data, r.r.pos;
        NextChunk(x, from, v);
        var p := Piece(x, from, v);
        assert p[..|p|] == p;
      }
    }

    /** and at the beginning of the next. */
    lemma AlongStart(exact: bool)
      requires Valid() && !epilogue
      ensures var x, u, v := r.r.data, from, r.r.pos;
        (&& u <= v && OnTrack(exact, State(), HeldBefore(x, u)) && IsChunk(x, u, v) && Pending() == Piece(x, u, v)
         && r.inWS == EndsInWSP(EndsInWSP(false, x[..u]), x[u..v])) ==> Along(exact)
    {
      var x, u, v := r.r.data, from, r.r.pos;
      if u <= v {
        NextChunk(x, u, v);
        var p := Piece(x, u, v);
        assert p[..0] == [] && p[0..] == p;
      }
    }

    /** After the input, one CRLF. */
    method Finish()
      requires Valid() && len == 0 && rerr != NoError && !epilogue
      modifies this`off, this`len, this`epilogue, data
      ensures Valid() && Future() == old(Future()) && epilogue && len > 0
      ensures Work() < old(Work())
      ensures (old(Along(true)) ==> Along(true)) && (old(Along(false)) ==> Along(false))
    {
      assert Pending() + r.Future() == [];
      data[0], data[1] := CR, LF;
      assert data[..2] == CRLF;
      off, len, epilogue := 0, 2, true;
    }

    lemma PlannedGoes()
      requires Valid()
      ensures Planned() ==> rerr == NoError && !epilogue
    {
    }

    method Fill()
      requires Valid()
      modifies this`off, this`len, this`rerr, this`epilogue, this`from, data, r`inWS, r.r`pos
      ensures Valid() && Future() == old(Future()) && Peak() <= old(Peak())
      ensures Work() <= old(Work())
      ensures old(len) > 0 ==> epilogue == old(epilogue) && Pending() == old(Pending())
      ensures len == 0 ==> epilogue
      ensures (old(Along(true)) ==> Along(true)) && (old(Along(false)) ==> Along(false))
      ensures old(Planned()) && old(Along(true)) ==> len > 0 && !epilogue && (Planned() || Fresh())
    {
      PlannedGoes();
      hide Future, MaxHeld, Along, Planned;
      while len == 0
        invariant Valid() && Future() == old(Future()) && Peak() <= old(Peak())
        invariant Work() <= old(Work())
        invariant old(len) > 0 ==> epilogue == old(epilogue) && Pending() == old(Pending())
        invariant (old(Along(true)) ==> Along(true)) && (old(Along(false)) ==> Along(false))
        invariant old(Planned()) && old(Along(true)) ==> !epilogue && (Planned() || Fresh())
        decreases Work()
      {
        PlannedGoes();
        if rerr != NoError {
          if !epilogue {
            Finish();
          }
          return;
        }
        Refill();
      }
    }

    /** Writes held-back CRLFs while there is room for whole ones. */
    method Flush(buf: array<byte>, n0: nat) returns (n: nat)
      requires n0 <= buf.Length
      modifies this`numCRLFs, buf
      ensures numCRLFs <= old(numCRLFs) && n == n0 + 2 * (old(numCRLFs) - numCRLFs) <= buf.Length
      ensures buf[..n] == old(buf[..n0]) + CRLFs(old(numCRLFs) - numCRLFs)
      ensures numCRLFs > 0 ==> n + 1 >= buf.Length
    {
      n := n0;
      ghost var k := numCRLFs;
      while numCRLFs > 0 && n + 1 < buf.Length
        invariant numCRLFs <= k && n == n0 + 2 * (k - numCRLFs) && n <= buf.Length
        invariant buf[..n] == old(buf[..n0]) + CRLFs(k - numCRLFs)
        decreases numCRLFs
      {
        CRLFsEnd(k - numCRLFs);
        Put(buf, n, CR);
        Put(buf, n + 1, LF);
        n := n + 2;
        numCRLFs := numCRLFs - 1;
      }
    }

    lemma CRLFsSplit(a: nat, b: nat)
      ensures CRLFs(a) + CRLFs(b) == CRLFs(a + b)
    {
      if a > 0 {
        CRLFsSplit(a - 1, b);
        assert CRLFs(a) + CRLFs(b) == CRLF + (CRLFs(a - 1) + CRLFs(b));
      } else {
        assert CRLFs(0) + CRLFs(b) == CRLFs(b);
      }
    }

    /** An ordinary byte: first the CRLFs in front of it, then the byte, but
        the byte only if it is still in the loop's way. */
    method PumpOrdinary(buf: array<byte>, n0: nat, c: byte)
      returns (n: nat, more: bool, panicked: bool, ghost wrote: seq<byte>)
      requires n0 <= buf.Length
      modifies this`numCRLFs, buf
      ensures n0 <= n <= buf.Length && buf[..n] == old(buf[..n0]) + wrote
      ensures panicked <==> n0 + 2 * old(numCRLFs) == buf.Length
      ensures more ==> !panicked && numCRLFs == 0 && wrote == CRLFs(old(numCRLFs)) + [c]
      ensures !more && !panicked ==> buf.Length < n0 + 2 * old(numCRLFs)
      ensures !more && !panicked ==> 0 < numCRLFs && wrote + CRLFs(numCRLFs) == CRLFs(old(numCRLFs))
      ensures !more && !panicked ==> buf.Length <= n + 1
      ensures n == n0 + |wrote|
    {
      ghost var k := numCRLFs;
      n := Flush(buf, n0);
      wrote := CRLFs(k - numCRLFs);
      if numCRLFs > 0 {
        CRLFsSplit(k - numCRLFs, numCRLFs);
        return n, false, false, wrote;
      }
      if n == buf.Length {
        return n, false, true, wrote; // the room is not checked again
      }
      Put(buf, n, c);
      assert buf[..n + 1] == old(buf[..n0]) + (wrote + [c]);
      return n + 1, true, false, wrote + [c];
    }

    /** One turn of the loop over the pending bytes, with `n0` bytes already
        in the buffer. It stops early when the room for held-back CRLFs ran
        out, and then keeps the byte for the next call. */
    method PumpByte(buf: array<byte>, n0: nat)
      returns (n: nat, more: bool, panicked: bool, ghost wrote: seq<byte>)
      requires off + len <= data.Length && len > 0 && buf != data && n0 < buf.Length
      modifies this`off, this`len, this`inCR, this`numCRLFs, buf
      ensures n0 <= n <= buf.Length && n == n0 + |wrote| && buf[..n] == old(buf[..n0]) + wrote
      ensures off + len == old(off + len)
      ensures panicked <==>
          && !IsBreak(old(data[off])) && 0 < old(State()).Held()
          && n0 + old(State()).Held() == buf.Length
      ensures more ==>
          && !panicked && off == old(off) + 1 && len == old(len) - 1
          && State() == old(State()).Next(old(data[off]))
          && wrote == old(State()).Out(old(data[off]))
      ensures !more && !panicked ==>
          && off == old(off) && len == old(len)
          && State().Next(data[off]) == old(State()).Next(data[off])
          && wrote + State().Out(data[off]) == old(State()).Out(data[off])
          && !IsBreak(data[off]) && 0 < old(State()).Held()
          && buf.Length < n0 + old(State()).Held() && buf.Length <= n + 1
    {
      hide CRLFs;
      more, panicked, wrote := true, false, [];
      n := n0;
      ghost var k := numCRLFs;
      var c := data[off];
      off := off + 1;
      len := len - 1;

      if c != LF && inCR {
        Put(buf, n, CR);
        n := n + 1;
        inCR := false;
        wrote := [CR];
      }
      if c == CR {
        inCR := true;
      } else if c == LF {
        if inCR {
          numCRLFs := numCRLFs + 1;
          inCR := false;
        } else {
          Put(buf, n, LF);
          n := n + 1;
          wrote := [LF];
        }
      } else {
        ghost var head := wrote;
        n, more, panicked, wrote := PumpOrdinary(buf, n, c);
        ghost var tail := wrote;
        wrote := head + tail;
        if !more && !panicked {
          off := off - 1; // out of space: keep the byte
          len := len + 1;
          assert wrote + (CRLFs(numCRLFs) + [c]) == head + ((tail + CRLFs(numCRLFs)) + [c]);
        }
      }
    }

    /** From state `st`, the first `i` of the pending bytes `p` are done; when
        `more` is false, `w` is the part of the next one's output that had
        room. */
    ghost predicate Progress(buf: array<byte>, n: nat, more: bool, st: Trim, p: seq<byte>, i: nat, w: seq<byte>)
      reads this, data, buf
    {
      && n <= buf.Length && i <= |p| && off + len <= data.Length
      && data[off..off + len] == p[i..] && buf[..n] == Emit(st, p[..i]) + w
      && (more ==> w == [] && State() == Scan(st, p[..i]))
      && (!more ==>
        && i < |p| && Resumes(Scan(st, p[..i]), p[i], w, State())
        && !IsBreak(p[i]) && 0 < Scan(st, p[..i]).Held()
        && buf.Length < st.Held() + i && buf.Length <= n + 1)
    }

    /** The same turn, told as progress on the pending bytes. */
    method Turn(buf: array<byte>, n0: nat, ghost st: Trim, ghost p: seq<byte>, ghost i0: nat)
      returns (n: nat, more: bool, panicked: bool, ghost i: nat, ghost w: seq<byte>)
      requires buf != data && len > 0 && n0 < buf.Length && Progress(buf, n0, true, st, p, i0, [])
      modifies this`off, this`len, this`inCR, this`numCRLFs, buf
      ensures off + len == old(off + len) && n <= buf.Length
      ensures panicked <==> st.Held() + i0 == buf.Length && Overruns(st, p, buf.Length)
      ensures !panicked ==> Progress(buf, n, more, st, p, i, w)
      ensures more ==> !panicked && i == i0 + 1 && len < old(len)
      ensures !more ==> i == i0
    {
      hide Emit, Scan, CRLFs, Trim.Out, Trim.Next, Trim.Held;
      assert data[off] == p[i0];
      NextByte(st, p, i0);
      EmitBalance(st, p[..i0]);
      i := i0;
      n, more, panicked, w := PumpByte(buf, n0);
      if more {
        assert data[off..off + len] == p[i0..][1..] == p[i0 + 1..];
        i, w := i + 1, [];
      }
    }

    /** The loop over the pending bytes. */
    method PumpLoop(buf: array<byte>) returns (n: nat, more: bool, panicked: bool, ghost i: nat, ghost w: seq<byte>)
      requires off + len <= data.Length && buf != data
      modifies this`off, this`len, this`inCR, this`numCRLFs, buf
      ensures n <= buf.Length && off + len == old(off + len) && i <= old(len)
      ensures panicked ==> Overruns(old(State()), old(data[off..off + len]), buf.Length)
      ensures !panicked ==> 0 <= buf.Length - old(State()).Held() < i ==>
          !Overruns(old(State()), old(data[off..off + len]), buf.Length)
      ensures !panicked ==> Progress(buf, n, more, old(State()), old(data[off..off + len]), i, w)
      ensures !panicked && more ==> len == 0 || n == buf.Length
    {
      n, more, panicked := 0, true, false;
      ghost var p, st := data[off..off + len], State();
      ghost var at, bad := buf.Length - st.Held(), Overruns(st, p, buf.Length);
      i, w := 0, [];
      assert p[..0] == [] && p[0..] == p;
      assert Progress(buf, n, more, st, p, i, w);
      ProgressBounds(buf);
      hide *;
      while more && len > 0 && n < buf.Length
        invariant n <= buf.Length && !panicked && i <= |p| && off + len == old(off + len)
        invariant Progress(buf, n, more, st, p, i, w)
        invariant more ==> w == []
        invariant 0 <= at < i ==> !bad
        decreases len, more
      {
        n, more, panicked, i, w := Turn(buf, n, st, p, i);
        if panicked {
          return;
        }
        ProgressBounds(buf);
      }
    }

    lemma ProgressBounds(buf: array<byte>)
      ensures forall n: nat, more, st, p, i: nat, w ::
        Progress(buf, n, more, st, p, i, w) ==> n <= buf.Length && i <= |p| && (more ==> w == [])
    {
    }

    method Pump(buf: array<byte>) returns (n: nat, panicked: bool)
      requires Valid() && len > 0 && !epilogue && buf != data
      modifies this`off, this`len, this`inCR, this`numCRLFs, buf
      ensures Valid() && n <= buf.Length
      ensures panicked <==> Overruns(old(State()), old(Pending()), buf.Length)
      ensures !panicked ==>
        Emit(old(State()), old(Pending()) + r.Future()) == buf[..n] + Emit(State(), Pending() + r.Future())
      ensures !panicked ==>
        3 * len + State().Held() + (if 2 <= buf.Length then 1 else 0) <= old(3 * len + State().Held())
      ensures !panicked ==> Peak() <= old(Peak())
      ensures !panicked && old(Along(false)) ==> Along(false)
      ensures !panicked && old(Along(true)) && Clear(r.r.data, buf.Length + 1) ==> Along(true)
    {
      hide Emit, Scan, Resumes, MaxHeld, OnTrack, IsChunk, Piece, HeldBefore, EndsInWSP, Clear;
      ghost var p, st, i, w := Pending(), State(), 0, [];
      var more;
      n, more, panicked, i, w := PumpLoop(buf);
      if panicked {
        return;
      }
      if more {
        assert buf[..n] == Emit(st, p[..i]);
        PumpAll(st, p, i, r.Future());
        PumpedAll(st, p, i, buf.Length);
        PeakAfter(st, p, i, r.Future());
        AlongAll(r.r.data, from, r.r.pos, p, i, st, State());
      } else {
        PumpPart(st, p, i, w, State(), r.Future());
        PumpedPart(st, p, i, w, State());
        PeakAfter(st, p, i, r.Future());
        PeakResumed(Scan(st, p[..i]), p, i, w, State(), r.Future());
        AlongPart(r.r.data, from, r.r.pos, p, i, st, w, State(), buf.Length);
      }
    }

    /** Pending bytes `p` of a chunk, met in state `st`. */
    ghost predicate Midway(exact: bool, x: seq<byte>, u: nat, v: nat, p: seq<byte>, st: Trim)
      requires u <= v <= |x|
    {
      var q := Piece(x, u, v);
      && |p| <= |q| && p == q[|q| - |p|..]
      && OnTrack(exact, st, Scan(HeldBefore(x, u), q[..|q| - |p|]))
    }

    lemma AlongAll(x: seq<byte>, u: nat, v: nat, p: seq<byte>, i: nat, st: Trim, st': Trim)
      requires i <= |p| && st' == Scan(st, p[..i])
      ensures u <= v <= |x| && Midway(false, x, u, v, p, st) ==> Midway(false, x, u, v, p[i..], st')
      ensures u <= v <= |x| && Midway(true, x, u, v, p, st) ==> Midway(true, x, u, v, p[i..], st')
    {
      hide Piece, HeldBefore, Scan;
      if u <= v <= |x| && |p| <= |Piece(x, u, v)| {
        var q := Piece(x, u, v);
        var done := |q| - |p|;
        PieceOn(HeldBefore(x, u), q, done, i);
        var at := Scan(HeldBefore(x, u), q[..done]);
        if st.Held() <= at.Held() {
          ScanMono(st, at, q[done..][..i]);
        }
      }
    }

    lemma AlongPart(x: seq<byte>, u: nat, v: nat, p: seq<byte>, i: nat, st: Trim, w: seq<byte>, st': Trim, cap: nat)
      requires i < |p| && Resumes(Scan(st, p[..i]), p[i], w, st') && cap < st.Held() + i
      requires !IsBreak(p[i]) && 0 < Scan(st, p[..i]).Held()
      ensures u <= v <= |x| && Midway(false, x, u, v, p, st) ==> Midway(false, x, u, v, p[i..], st')
      ensures u <= v <= |x| && IsChunk(x, u, v) && Clear(x, cap + 1) ==> !Midway(true, x, u, v, p, st)
    {
      hide *;
      var mid := Scan(st, p[..i]);
      AlongAll(x, u, v, p, i, st, mid);
      ResumesLess(mid, p[i], w, st');
      if u <= v <= |x| {
        MidwayLess(x, u, v, p[i..], mid, st');
        if IsChunk(x, u, v) && Midway(true, x, u, v, p, st) {
          MidwayStops(x, u, v, p, i, st, cap);
        }
      }
    }

    lemma ResumesLess(st: Trim, c: byte, w: seq<byte>, st': Trim)
      requires Resumes(st, c, w, st')
      ensures st'.Held() <= st.Held()
    {
      OutBalance(st, c);
      OutBalance(st', c);
      hide Trim.Out, Trim.Next;
    }

    lemma MidwayLess(x: seq<byte>, u: nat, v: nat, p: seq<byte>, st: Trim, st': Trim)
      requires u <= v <= |x| && st'.Held() <= st.Held()
      ensures Midway(false, x, u, v, p, st) ==> Midway(false, x, u, v, p, st')
    {
      hide Piece, HeldBefore, Scan;
    }

    lemma MidwayStops(x: seq<byte>, u: nat, v: nat, p: seq<byte>, i: nat, st: Trim, cap: nat)
      requires IsChunk(x, u, v) && Midway(true, x, u, v, p, st)
      requires i < |p| && cap < st.Held() + i && !IsBreak(p[i]) && 0 < Scan(st, p[..i]).Held()
      ensures !Clear(x, cap + 1)
    {
      hide Piece, HeldBefore, Scan;
      var q := Piece(x, u, v);
      var done := |q| - |p|;
      PieceOn(HeldBefore(x, u), q, done, i);
      assert q[done + i] == p[i];
      StoppedOn(HeldBefore(x, u), q, done, i, cap);
      var c: nat :| cap < c && Overruns(HeldBefore(x, u), q, c);
      assert Hits(x, u, v, c);
    }

    lemma PeakAfter(st: Trim, p: seq<byte>, i: nat, future: seq<byte>)
      requires i <= |p|
      ensures MaxHeld(Scan(st, p[..i]), p[i..] + future) <= MaxHeld(st, p + future)
    {
      assert p + future == p[..i] + (p[i..] + future);
      MaxHeldAfter(st, p[..i], p[i..] + future);
    }

    lemma PeakResumed(st: Trim, p: seq<byte>, i: nat, w: seq<byte>, st': Trim, future: seq<byte>)
      requires i < |p| && Resumes(st, p[i], w, st')
      ensures MaxHeld(st', p[i..] + future) <= MaxHeld(st, p[i..] + future)
    {
      OutBalance(st, p[i]);
      OutBalance(st', p[i]);
      assert (p[i..] + future)[0] == p[i];
      hide Trim.Out, Trim.Next, Trim.Held;
    }

    lemma PumpedAll(st: Trim, p: seq<byte>, i: nat, cap: nat)
      requires i <= |p| && (i == |p| || |Emit(st, p[..i])| == cap)
      requires 0 <= cap - st.Held() < i ==> !Overruns(st, p, cap)
      ensures !Overruns(st, p, cap)
      ensures |Emit(st, p[..i])| + Scan(st, p[..i]).Held() == st.Held() + i
      ensures i == 0 ==> |Emit(st, p[..i])| == 0
    {
      EmitBalance(st, p[..i]);
    }

    lemma PumpedPart(st: Trim, p: seq<byte>, i: nat, w: seq<byte>, st': Trim)
      requires i < |p| && Resumes(Scan(st, p[..i]), p[i], w, st')
      ensures |Emit(st, p[..i]) + w| + st'.Held() == st.Held() + i
    {
      EmitBalance(st, p[..i]);
      OutBalance(Scan(st, p[..i]), p[i]);
      OutBalance(st', p[i]);
    }

    lemma OutBalance(st: Trim, c: byte)
      ensures |st.Out(c)| + st.Next(c).Held() == st.Held() + 1
    {
    }

    /** In state `st'` the byte `c` brings out what is missing behind `w`. */
    ghost predicate Resumes(st: Trim, c: byte, w: seq<byte>, st': Trim) {
      w + st'.Out(c) == st.Out(c) && st'.Next(c) == st.Next(c)
    }

    lemma NextByte(st0: Trim, p: seq<byte>, i: nat)
      requires i < |p|
      ensures Scan(st0, p[..i + 1]) == Scan(st0, p[..i]).Next(p[i])
      ensures Emit(st0, p[..i + 1]) == Emit(st0, p[..i]) + Scan(st0, p[..i]).Out(p[i])
    {
      var st := Scan(st0, p[..i]);
      assert p[..i + 1] == p[..i] + [p[i]];
      ScanAppend(st0, p[..i], [p[i]]);
      EmitAppend(st0, p[..i], [p[i]]);
      assert Emit(st, [p[i]]) == st.Out(p[i]) + [];
    }

    lemma EmitByte(st: Trim, c: byte, s: seq<byte>)
      ensures Emit(st, [c] + s) == st.Out(c) + Emit(st.Next(c), s)
    {
      assert ([c] + s)[1..] == s;
    }

    lemma OverrunLength(st: Trim, p: seq<byte>, cap: nat)
      requires Overruns(st, p, cap)
      ensures cap < |Emit(st, p)|
    {
      var i := cap - st.Held();
      assert p == p[..i + 1] + p[i + 1..];
      EmitAppend(st, p[..i + 1], p[i + 1..]);
      NextByte(st, p, i);
      EmitBalance(st, p[..i + 1]);
    }

    lemma Regroup(e: seq<byte>, w: seq<byte>, o: seq<byte>, f: seq<byte>)
      ensures e + ((w + o) + f) == e + w + (o + f)
    {
    }

    lemma PumpResumed(e: seq<byte>, st: Trim, c: byte, w: seq<byte>, st': Trim, t: seq<byte>)
      requires Resumes(st, c, w, st')
      ensures e + Emit(st, [c] + t) == e + w + Emit(st', [c] + t)
    {
      EmitByte(st, c, t);
      EmitByte(st', c, t);
      Regroup(e, w, st'.Out(c), Emit(st.Next(c), t));
    }

    lemma PumpAll(st: Trim, p: seq<byte>, i: nat, future: seq<byte>)
      requires i <= |p|
      ensures Emit(st, p + future) == Emit(st, p[..i]) + Emit(Scan(st, p[..i]), p[i..] + future)
    {
      assert p + future == p[..i] + (p[i..] + future);
      EmitAppend(st, p[..i], p[i..] + future);
    }

    lemma SplitAt(p: seq<byte>, i: nat, future: seq<byte>)
      requires i < |p|
      ensures p[i..] + future == [p[i]] + (p[i + 1..] + future)
    {
      assert p[i..] == [p[i]] + p[i + 1..];
      Assoc([p[i]], p[i + 1..], future);
    }

    lemma PumpPart(st: Trim, p: seq<byte>, i: nat, w: seq<byte>, st': Trim, future: seq<byte>)
      requires i < |p| && Resumes(Scan(st, p[..i]), p[i], w, st')
      ensures Emit(st, p + future) == Emit(st, p[..i]) + w + Emit(st', p[i..] + future)
    {
      PumpAll(st, p, i, future);
      SplitAt(p, i, future);
      PumpResumed(Emit(st, p[..i]), Scan(st, p[..i]), p[i], w, st', p[i + 1..] + future);
    }

    /** After the input. */
    lemma AtTheEnd()
      requires Valid() && epilogue
      ensures off + len <= data.Length && Future() == Pending() == data[off..off + len]
      ensures Along(true) == Along(false) == AlongReader()
    {
      hide AlongReader;
    }

    method Skip(n: nat)
      requires Valid() && epilogue && n <= len
      modifies this`off, this`len
      ensures Valid() && epilogue && Future() == old(Pending())[n..]
      ensures Work() + n <= old(Work())
      ensures (old(Along(true)) ==> Along(true)) && (old(Along(false)) ==> Along(false))
    {
      hide Emit, Along, IsChunk, EndsInWSP;
      AtTheEnd();
      ghost var p := Pending();
      off := off + n;
      len := len - n;
      assert Pending() == p[n..];
      AtTheEnd();
    }

    method CopyOut(buf: array<byte>) returns (n: nat)
      requires Valid() && len > 0 && epilogue && buf != data
      modifies this`off, this`len, buf
      ensures Valid() && n <= buf.Length
      ensures old(Future()) == buf[..n] + Future()
      ensures Work() + (if 0 < buf.Length then 1 else 0) <= old(Work())
      ensures (old(Along(true)) ==> Along(true)) && (old(Along(false)) ==> Along(false))
    {
      hide *;
      n := if buf.Length < len then buf.Length else len;
      ghost var p := Pending();
      AtTheEnd();
      Copy(buf, data, off, n);
      assert p == p[..n] + p[n..];
      Skip(n);
    }

    method PumpOut(buf: array<byte>) returns (n: nat, panicked: bool)
      requires Valid() && len > 0 && !epilogue && buf != data
      modifies this`off, this`len, this`inCR, this`numCRLFs, buf
      ensures Valid() && n <= buf.Length
      ensures panicked <==> Overruns(old(State()), old(Pending()), buf.Length)
      ensures panicked ==> buf.Length + 3 <= |old(Future())|
      ensures !panicked ==> old(Future()) == buf[..n] + Future()
      ensures !panicked ==> Work() + (if 2 <= buf.Length then 1 else 0) <= old(Work())
      ensures !panicked ==> Peak() <= old(Peak())
      ensures !panicked && old(Along(false)) ==> Along(false)
      ensures !panicked && old(Along(true)) && Clear(r.r.data, buf.Length + 1) ==> Along(true)
    {
      hide Emit, Scan, Overruns, MaxHeld, Along, Clear;
      ghost var st, p, future := State(), Pending(), r.Future();
      n, panicked := Pump(buf);
      if panicked {
        OverrunLength(st, p, buf.Length);
        EmitAppend(st, p, future);
      }
    }

    method Deliver(buf: array<byte>) returns (n: nat, panicked: bool)
      requires Valid() && len > 0 && buf != data
      modifies this`off, this`len, this`inCR, this`numCRLFs, buf
      ensures Valid() && n <= buf.Length
      ensures !panicked ==> old(Future()) == buf[..n] + Future()
      ensures panicked ==> buf.Length + 3 <= |old(Future())|
      ensures panicked <==> !epilogue && Overruns(old(State()), old(Pending()), buf.Length)
      ensures !panicked ==> Work() + (if 2 <= buf.Length then 1 else 0) <= old(Work())
      ensures !panicked ==> Peak() <= old(Peak())
      ensures !panicked && old(Along(false)) ==> Along(false)
      ensures !panicked && old(Along(true)) && Clear(r.r.data, buf.Length + 1) ==> Along(true)
    {
      hide Along, Clear, Emit, Overruns, MaxHeld;
      panicked := false;
      if epilogue {
        n := CopyOut(buf);
      } else {
        n, panicked := PumpOut(buf);
      }
    }

    method Read(buf: array<byte>) returns (n: nat, err: Err, panicked: bool)
      requires Valid() && buf != data
      modifies this`off, this`len, this`rerr, this`epilogue, this`from, this`inCR, this`numCRLFs
      modifies data, r`inWS, r.r`pos, buf
      ensures Valid() && n <= buf.Length
      ensures !panicked ==> old(Future()) == buf[..n] + Future()
      ensures panicked ==> buf.Length + 3 <= |old(Future())|
      ensures old(len) > 0 ==>
          (panicked <==> !old(epilogue) && Overruns(old(State()), old(Pending()), buf.Length))
      ensures err != NoError ==> !panicked && err == r.r.last && Future() == [] && n == 0
      ensures !panicked ==>
        Work() + (if 2 <= buf.Length && err == NoError then 1 else 0) <= old(Work())
      ensures !panicked ==> Peak() <= old(Peak())
      ensures old(Peak()) + CHUNK <= buf.Length ==> !panicked
      ensures !panicked && old(Along(false)) ==> Along(false)
      ensures old(Along(false)) && Clear(r.r.data, buf.Length) ==> !panicked
      ensures old(Reaching(buf.Length)) ==> panicked || (Reaching(buf.Length) && err == NoError)
    {
      hide Along, Clear, Emit, Overruns, MaxHeld, Planned, Hits;
      ghost var reaching := Reaching(buf.Length);
      PlannedGoes();
      Fill();
      FreshOverruns(buf.Length);
      NeverOverruns(buf.Length);
      PeakHeld(State(), Pending(), r.Future(), buf.Length);
      if len == 0 {
        return 0, rerr, false;
      }
      err := NoError;
      n, panicked := Deliver(buf);
    }

    /** The chunk to come overruns a buffer of this length, and none a greater. */
    ghost predicate Reaching(cap: nat)
      reads this, data, r, r.r
      requires Valid()
    {
      var c := r.r.cutting;
      Along(true) && Planned() && Hits(r.r.data, c.u, c.v, cap) && Clear(r.r.data, cap + 1)
    }

    lemma FreshOverruns(cap: nat)
      requires Valid()
      ensures var c := r.r.cutting;
        Fresh() && Along(true) && Hits(r.r.data, c.u, c.v, cap) ==> Overruns(State(), Pending(), cap)
    {
      hide Overruns;
      if Fresh() {
        var p := Piece(r.r.data, from, r.r.pos);
        assert p[..0] == [] && p[0..] == p;
      }
    }

    lemma NeverOverruns(cap: nat)
      requires Valid()
      ensures Along(false) && !epilogue && Clear(r.r.data, cap) ==> !Overruns(State(), Pending(), cap)
    {
      hide Overruns, Scan, IsChunk;
      if Along(false) && !epilogue && Overruns(State(), Pending(), cap) {
        var x := r.r.data;
        var p := Piece(x, from, r.r.pos);
        OverrunsOn(HeldBefore(x, from), p, |p| - len, State(), cap);
        var c: nat :| cap <= c && Overruns(HeldBefore(x, from), p, c);
        assert Hits(x, from, r.r.pos, c);
      }
    }

    /** A chunk with what is held back in front of it fits the buffer. */
    lemma PeakHeld(st: Trim, p: seq<byte>, future: seq<byte>, cap: nat)
      ensures MaxHeld(st, p + future) + |p| <= cap ==> !Overruns(st, p, cap)
    {
    }

    /** io.Copy into a hash, through a buffer of `cap` bytes. */
    method CopyTo(cap: nat) returns (hashed: seq<byte>, err: Err, panicked: bool)
      requires Valid() && 2 <= cap
      modifies this, data, r, r.r
      ensures !panicked ==> hashed == old(Future()) && err == r.r.last
      ensures old(Peak()) + CHUNK <= cap ==> !panicked
      ensures |old(Future())| < cap + 3 ==> !panicked
      ensures old(Along(false)) && Clear(r.r.data, cap) ==> !panicked
      ensures old(Reaching(cap)) ==> panicked
    {
      hide *;
      ghost var reaching := Reaching(cap);
      var buf := new byte[cap];
      hashed, err, panicked := [], NoError, false;
      while err == NoError
        invariant Valid() && !panicked && fresh(buf)
        invariant old(Future()) == hashed + Future() && Peak() <= old(Peak())
        invariant old(Along(false)) ==> Along(false)
        invariant reaching ==> Reaching(cap) && err == NoError
        invariant err != NoError ==> err == r.r.last && Future() == []
        decreases Work() + if err == NoError then 1 else 0
      {
        var n;
        n, err, panicked := Read(buf);
        if panicked {
          return;
        }
        hashed := hashed + buf[..n];
      }
    }
  }

  /** The buffer io.Copy hands to Read. */
  const IO_COPY: nat := 32 * 1024

  /** A buffer with room for a chunk behind as much as is ever held back is long
      enough, whatever the chunk. */
  lemma RoomForChunk(x: seq<byte>, cap: nat)
    requires MaxHeld(START, Reduce(false, x)) + CHUNK <= cap
    ensures Clear(x, cap)
  {
    forall u: nat, v: nat, c: nat | Hits(x, u, v, c)
      ensures c < cap
    {
      ChunkRoom(x, u, v);
    }
  }

  lemma ChunkRoom(x: seq<byte>, u: nat, v: nat)
    requires IsChunk(x, u, v)
    ensures |Piece(x, u, v)| <= CHUNK && HeldBefore(x, u).Held() <= MaxHeld(START, Reduce(false, x))
  {
    hide Reduce, EndsInWSP, MaxHeld, Scan;
    ReduceLoad(EndsInWSP(false, x[..u]), x[u..v]);
    var y, a := Reduce(false, x), Reduce(false, x[..u]);
    assert x == x[..u] + x[u..];
    ReduceSplit(false, x[..u], x[u..]);
    assert y[..|a|] == a;
    MaxHeldIs(START, y);
  }

  /** Hashes the relaxed form of `body`, however it is cut into reads and
      whatever the length of the copy buffer, unless a read overruns. None does
      if the buffer is longer than any that a chunk of the body overruns; of
      just that length, it does if the body is cut byte by byte up to that
      chunk. So the greatest length that a chunk overruns is the exact bound.
      In its terms alone, none overruns if there is room for a chunk behind as
      much as is ever held back, the longest run of CRLFs in the body, but for
      white space; nor if the whole body fits into the buffer. */
  method CopyRelaxed(body: seq<byte>, last: Err, cutting: Cutting, cap: nat)
    returns (hashed: seq<byte>, err: Err, panicked: bool)
    requires last != NoError && 2 <= cap
    ensures !panicked ==> hashed == Relaxed(body) && err == last
    ensures MaxHeld(START, Reduce(false, body)) + CHUNK <= cap ==> !panicked
    ensures |body| <= cap ==> !panicked
    ensures Clear(body, cap) ==> !panicked
    ensures cutting.Bytewise? && Hits(body, cutting.u, cutting.v, cap) && Clear(body, cap + 1) ==> panicked
  {
    var source := new Reader(body, last, cutting);
    var reduce := new ReduceWhitespace(source);
    var trim := new TrimTrailingCRLFs(reduce);
    assert [] + reduce.Future() == Reduce(false, body);
    ReduceLoad(false, body);
    EmitBalance(START, Reduce(false, body));
    hashed, err, panicked := trim.CopyTo(cap);
  }

  /** The overrun is real: a copy buffer's length of held-back CRLFs. */
  lemma OverrunExample(c: byte)
    requires !IsBreak(c)
    ensures Overruns(Trim(false, 16384), [c], IO_COPY)
  {
  }
}
