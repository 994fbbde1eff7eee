/** The rune reader under the CSS scanner (html/css/sourcereader.go): a sliding
    buffer over a reader, with peeking and one rune of ungetting. */
module SourceReader {
  import opened Bytes
  import opened IoReader
  import opened Utf8

  const CAP: nat := 4096

  /** What reading can end in. */
  datatype Stop = Going | Ended(e: Err) | NoProgress | NothingToUnread

  // --------------------------------------------------------------- positions

  /** Line ends in what was read. */
  function Lines(c: seq<byte>): nat {
    if c == [] then 0 else Lines(c[..|c| - 1]) + if c[|c| - 1] == LF then 1 else 0
  }

  /** Bytes read since the last line end. */
  function Column(c: seq<byte>): nat {
    if c == [] || c[|c| - 1] == LF then 0 else Column(c[..|c| - 1]) + 1
  }

  lemma {:induction false} NoLineEnd(c: seq<byte>, r: seq<byte>)
    requires LF !in r
    ensures Lines(c + r) == Lines(c) && Column(c + r) == Column(c) + |r|
    decreases |r|
  {
    if r == [] {
      assert c + r == c;
    } else {
      var s := r[..|r| - 1];
      NoLineEnd(c, s);
      assert (c + r)[..|c + r| - 1] == c + s;
      assert (c + r)[|c + r| - 1] == r[|r| - 1];
    }
  }

  lemma LineEnd(c: seq<byte>)
    ensures Lines(c + [LF]) == Lines(c) + 1 && Column(c + [LF]) == 0
  {
    assert (c + [LF])[..|c|] == c;
  }

  /** The line counts the line ends, */
  lemma {:induction false} LineMeans(c: seq<byte>)
    ensures Lines(c) == multiset(c)['\n' as int]
  {
    if c != [] {
      var d, b := c[..|c| - 1], c[|c| - 1];
      assert c == d + [b];
      LineMeans(d);
      assert multiset(c) == multiset(d) + multiset{b};
    }
  }

  /** and the column the bytes behind the last one. */
  lemma {:induction false} ColumnMeans(c: seq<byte>)
    ensures Column(c) <= |c| && forall i | |c| - Column(c) <= i < |c| :: c[i] != '\n' as int
    ensures Column(c) < |c| ==> c[|c| - Column(c) - 1] == '\n' as int
  {
    if c != [] && c[|c| - 1] != LF {
      var d := c[..|c| - 1];
      ColumnMeans(d);
      assert forall i | 0 <= i < |d| :: c[i] == d[i];
    }
  }

  lemma RuneBytes(p: seq<byte>)
    requires p != []
    ensures var d := DecodeRune(p);
      if d.rn == LF then p[..d.size] == [LF] else LF !in p[..d.size]
  {
  }

  /** The last rune read is `k` bytes long, and `back` is the column in front of
      it if it ended a line. */
  ghost predicate LastRune(c: seq<byte>, k: nat, back: int) {
    && 0 < k <= 4 && k <= |c|
    && var r := c[|c| - k..];
       if r == [LF] then back == Column(c[..|c| - k]) else LF !in r
  }

  // ------------------------------------------------------------- what is read

  /** A rune as the scanner sees it. */
  function Shown(rn: int, replaceNULL: bool): int {
    if replaceNULL && rn == 0 then RUNE_ERROR else rn
  }

  /** The next `k` runes, and -1 for each one behind the end. */
  function Ahead(s: seq<byte>, k: nat, replaceNULL: bool): (rs: seq<int>)
    ensures |rs| == k
    decreases k
  {
    if k == 0 then []
    else if s == [] then [-1] + Ahead(s, k - 1, replaceNULL)
    else
      var d := DecodeRune(s);
      [Shown(d.rn, replaceNULL)] + Ahead(s[d.size..], k - 1, replaceNULL)
  }

  /** These are the runes of the text, NUL replaced if asked for, and -1 for each
      place behind the last. */
  lemma {:induction false} AheadMeans(s: seq<byte>, k: nat, replaceNULL: bool, i: nat)
    requires i < k
    ensures var rs := Runes(s);
      Ahead(s, k, replaceNULL)[i] ==
        if i >= |rs| then -1 else if replaceNULL && rs[i] == 0 then 0xFFFD else rs[i]
    decreases k
  {
    hide DecodeRune;
    if s == [] {
      if i > 0 {
        AheadMeans(s, k - 1, replaceNULL, i - 1);
      }
    } else {
      var t := s[DecodeRune(s).size..];
      assert Runes(s) == [DecodeRune(s).rn] + Runes(t);
      if i > 0 {
        AheadMeans(t, k - 1, replaceNULL, i - 1);
      }
    }
  }

  /** `done` are the first runes of `all`, `p` bytes of them. */
  ghost predicate Shows(done: seq<int>, all: seq<byte>, p: nat, k: nat, replaceNULL: bool) {
    && |done| <= k && p <= |all|
    && done + Ahead(all[p..], k - |done|, replaceNULL) == Ahead(all, k, replaceNULL)
  }

  lemma ShowsOne(done: seq<int>, all: seq<byte>, p: nat, k: nat, replaceNULL: bool)
    requires Shows(done, all, p, k, replaceNULL) && |done| < k && all[p..] != []
    ensures var d := DecodeRune(all[p..]);
      d.size <= 4 && Shows(done + [Shown(d.rn, replaceNULL)], all, p + d.size, k, replaceNULL)
  {
    hide DecodeRune;
    var d := DecodeRune(all[p..]);
    assert all[p..][d.size..] == all[p + d.size..];
    Assoc(done, [Shown(d.rn, replaceNULL)], Ahead(all[p + d.size..], k - |done| - 1, replaceNULL));
  }

  lemma AheadHere(done: seq<int>, all: seq<byte>, p: nat, k: nat, replaceNULL: bool)
    requires Shows(done, all, p, k, replaceNULL)
    ensures p <= |all| && |done| <= k
    ensures all[p..] == [] ==> done + Ahead([], k - |done|, replaceNULL) == Ahead(all, k, replaceNULL)
    ensures |done| == k ==> done == Ahead(all, k, replaceNULL)
  {
    hide DecodeRune;
    if |done| == k {
      assert done + [] == done;
    }
  }

  /** Enough is buffered behind `p` bytes to know the rune there. */
  ghost predicate Decided(avail: seq<byte>, p: nat, stop: Stop) {
    || !stop.Going?
    || p + UTF_MAX <= |avail|
    || (p < |avail| && FullRune(avail[p..]))
  }

  /** What the buffer shows is what the whole rest shows. */
  lemma DecidedRune(avail: seq<byte>, more: seq<byte>, p: nat, stop: Stop)
    requires Decided(avail, p, stop) && p <= |avail|
    requires !stop.Going? ==> more == []
    ensures p == |avail| ==> (avail + more)[p..] == []
    ensures p < |avail| ==> (avail + more)[p..] != [] && DecodeRune(avail[p..]) == DecodeRune((avail + more)[p..])
  {
    if p == |avail| {
      assert more == [];
    } else {
      assert (avail + more)[p..] == avail[p..] + more;
      if stop.Going? {
        if p + UTF_MAX <= |avail| {
          FourAreFull(avail[p..]);
        }
        FullRuneStable(avail[p..], more);
      } else {
        assert avail[p..] + more == avail[p..];
      }
    }
  }

  lemma FourAreFull(p: seq<byte>)
    requires |p| >= UTF_MAX
    ensures FullRune(p)
  {
  }

  // ------------------------------------------------------ the reader's state

  /** `w` is the buffer, read up to `off`; `c` are the bytes of the runes read
      and not unread. Nothing is lost: what was read, what is buffered and what
      is to come is everything; and the last rune is still in the buffer. */
  ghost predicate Good(all: seq<byte>, c: seq<byte>, w: seq<byte>, off: nat, more: seq<byte>,
                       line: int, col: int, n: int, last: int, back: int)
  {
    && off <= |w| && c + (w[off..] + more) == all
    && line == Lines(c) && col == Column(c) && n == |c|
    && -1 <= last
    && (0 < last ==> LastRune(c, last, back) && last <= off && w[off - last..off] == c[|c| - last..])
  }

  /** Sliding the buffer down, behind the last rune. */
  lemma GoodSlide(all: seq<byte>, c: seq<byte>, w: seq<byte>, off: nat, more: seq<byte>,
                  line: int, col: int, n: int, last: int, back: int, slide: nat)
    requires Good(all, c, w, off, more, line, col, n, last, back)
    requires slide <= off - if 0 < last then last else 0
    ensures Good(all, c, w[slide..], off - slide, more, line, col, n, last, back)
    ensures w[slide..][off - slide..] == w[off..]
  {
    assert w[slide..][off - slide..] == w[off..];
    if 0 < last {
      assert w[slide..][off - slide - last..off - slide] == w[off - last..off];
    }
  }

  /** A piece read behind it. */
  lemma GoodMore(all: seq<byte>, c: seq<byte>, w: seq<byte>, off: nat, piece: seq<byte>, more: seq<byte>,
                 line: int, col: int, n: int, last: int, back: int)
    requires Good(all, c, w, off, piece + more, line, col, n, last, back)
    ensures Good(all, c, w + piece, off, more, line, col, n, last, back)
    ensures w[off..] + (piece + more) == (w + piece)[off..] + more
  {
    assert (w + piece)[off..] == w[off..] + piece;
    Assoc(w[off..], piece, more);
    if 0 < last {
      assert (w + piece)[off - last..off] == w[off - last..off];
    }
  }

  lemma CutRune(w: seq<byte>, off: nat, size: nat, more: seq<byte>)
    requires off + size <= |w|
    ensures w[off..] + more == w[off..off + size] + (w[off + size..] + more)
  {
    assert w[off..] == w[off..off + size] + w[off + size..];
    Assoc(w[off..off + size], w[off + size..], more);
  }

  /** The next rune read. */
  lemma GoodGet(all: seq<byte>, c: seq<byte>, w: seq<byte>, off: nat, more: seq<byte>,
                line: int, col: int, n: int, last: int, back: int, size: nat)
    requires Good(all, c, w, off, more, line, col, n, last, back)
    requires 0 < size <= 4 && off + size <= |w|
    requires var r := w[off..off + size]; r == [LF] || LF !in r
    ensures var r := w[off..off + size];
      if r == [LF] then Good(all, c + r, w, off + size, more, line + 1, 0, n + size, size, col)
      else Good(all, c + r, w, off + size, more, line, col + size, n + size, size, back)
  {
    var r := w[off..off + size];
    CutRune(w, off, size, more);
    Assoc(c, r, w[off + size..] + more);
    assert (c + r)[|c|..] == r && (c + r)[..|c|] == c;
    if r == [LF] {
      LineEnd(c);
    } else {
      NoLineEnd(c, r);
    }
  }

  /** The last rune unread. */
  lemma GoodUnget(all: seq<byte>, c: seq<byte>, w: seq<byte>, off: nat, more: seq<byte>,
                  line: int, col: int, n: int, last: int, back: int)
    requires Good(all, c, w, off, more, line, col, n, last, back) && 0 < last
    ensures last <= |c| && last <= off
    ensures var c' := c[..|c| - last];
      Good(all, c', w, off - last, more, if col == 0 then line - 1 else line,
           if col == 0 then back else col - last, n - last, -1, back)
    ensures w[off - last..] + more == c[|c| - last..] + (w[off..] + more)
    ensures w[off - last..] + [] == c[|c| - last..] + (w[off..] + [])
  {
    var c', r := c[..|c| - last], c[|c| - last..];
    assert c == c' + r;
    CutRune(w, off - last, last, more);
    CutRune(w, off - last, last, []);
    Assoc(c', r, w[off..] + more);
    if r == [LF] {
      LineEnd(c');
    } else {
      NoLineEnd(c', r);
    }
  }

  /** Slides the bytes of a buffer down. */
  method SlideDown(buf: array<byte>, len: nat, slide: nat)
    requires slide <= len <= buf.Length
    modifies buf
    ensures buf[..len - slide] == old(buf[..len])[slide..]
  {
    forall i | 0 <= i < len - slide {
      buf[i] := buf[i + slide];
    }
  }

  class Source {
    const src: Reader
    const buf: array<byte>
    var len: nat
    var off: nat
    var err: Stop
    var line: int
    var col: int
    var n: int
    var recHasNULL: bool
    var replaceNULL: bool
    var lastRuneLen: int
    var lastCol: int
    // The bytes of the runes read and not unread.
    ghost var consumed: seq<byte>

    ghost predicate Valid()
      reads this, src, buf
    {
      && Sized()
      && Good(src.data, consumed, buf[..len], off, src.Rest(), line, col, n, lastRuneLen, lastCol)
    }

    ghost predicate Sized()
      reads `len, `err, src
    {
      && src.Valid() && buf.Length == CAP && len <= CAP
      && (err.Ended? ==> err.e == src.last && src.Rest() == [])
    }

    /** What GetRune will still deliver. After a full buffer or an unread too
        many nothing more is fetched. */
    ghost function Rest(): seq<byte>
      reads this, src, buf
      requires Valid()
    {
      buf[..len][off..] + More()
    }

    ghost function More(): seq<byte>
      reads this, src
      requires src.Valid()
    {
      if err.NothingToUnread? || err.NoProgress? then [] else src.Rest()
    }

    constructor (src: Reader)
      requires src.Valid() && src.pos == 0
      ensures Valid() && Rest() == src.data && consumed == [] && err == Going && fresh(buf)
      ensures this.src == src && !replaceNULL && lastRuneLen == 0
    {
      this.src := src;
      buf := new byte[CAP];
      len, off, err := 0, 0, Going;
      line, col, n := 0, 0, 0;
      recHasNULL, replaceNULL, lastRuneLen, lastCol := false, false, 0, 0;
      consumed := [];
      new;
      assert src.data[0..] == src.data;
      assert [] + ([] + src.data) == src.data;
    }

    /** Slides out what is no longer needed, all but the last rune. */
    method Slide()
      requires Valid()
      modifies `len, `off, buf
      ensures Valid() && off <= 4 && buf[..len][off..] == old(buf[..len][off..])
    {
      hide Good;
      GoodHere();
      var slideOff := off;
      if lastRuneLen > 0 {
        slideOff := slideOff - lastRuneLen;
      }
      if slideOff > 0 {
        GoodSlide(src.data, consumed, buf[..len], off, src.Rest(), line, col, n, lastRuneLen, lastCol, slideOff);
        SlideDown(buf, len, slideOff);
        len := len - slideOff;
        off := off - slideOff;
      }
    }

    lemma GoodHere()
      requires Valid()
      ensures src.Valid() && off <= len <= buf.Length && lastRuneLen <= 4 && lastRuneLen <= off
      ensures |buf[..len][off..]| == len - off
    {
    }

    /** Reads into what is free of the buffer. */
    method Fetch()
      requires Valid() && err.Going?
      modifies `len, `err, buf, src`pos
      ensures Valid() && !err.NothingToUnread? && old(len) <= len
      ensures !err.NoProgress? ==> Rest() == old(Rest())
      ensures err.NoProgress? ==> old(len) == CAP
      ensures |src.Rest()| < old(|src.Rest()|) || !err.Going?
      ensures |src.Rest()| <= old(|src.Rest()|)
    {
      hide Good, FullRune;
      ghost var before := buf[..len];
      var got, e := src.Read(buf, len, buf.Length);
      assert buf[..len] == before;
      ghost var piece := buf[len..len + got];
      GoodMore(src.data, consumed, before, off, piece, src.Rest(), line, col, n, lastRuneLen, lastCol);
      assert buf[..len + got] == before + piece;
      len := len + got;
      if e != NoError {
        err := Ended(e);
      } else if got == 0 {
        err := NoProgress;
      }
    }

    /** Makes room and reads. The test for a full buffer looks at the offset,
        which is small by then, so it never fires; a buffer full of bytes would
        show as a read without progress. */
    method Fill()
      requires Valid() && err.Going?
      modifies `len, `off, `err, buf, src`pos
      ensures Valid() && !err.NothingToUnread? && old(len - off) <= len - off
      ensures !err.NoProgress? ==> Rest() == old(Rest())
      ensures err.NoProgress? ==> old(len - off) >= CAP - 4
      ensures |src.Rest()| < old(|src.Rest()|) || !err.Going?
      ensures |src.Rest()| <= old(|src.Rest()|)
    {
      hide Good;
      GoodHere();
      Slide();
      GoodHere();
      if off == buf.Length {
        assert false; // _ErrMaxBufExceeded
      }
      Fetch();
    }

    /** Reads until the rune `peekOff` bytes ahead is known. As long as that is
        not most of the buffer away, the buffer's limit is never hit. */
    method FillTo(peekOff: nat)
      requires Valid() && peekOff + 16 <= 4096
      modifies `len, `off, `err, buf, src`pos
      ensures Valid() && Rest() == old(Rest()) && Decided(buf[..len][off..], peekOff, err)
      ensures off <= len && old(len - off) <= len - off
      ensures err == old(err) || (old(err).Going? && err.Ended?)
    {
      hide Good, Rest;
      GoodHere();
      while err.Going?
        invariant Valid() && Rest() == old(Rest()) && off <= len && old(len - off) <= len - off
        invariant err == old(err) || (old(err).Going? && err.Ended?)
        decreases |src.Rest()|, err.Going?
      {
        if off + peekOff + UTF_MAX <= len {
          break;
        }
        if off + peekOff < len && FullRune(buf[off + peekOff..len]) {
          assert buf[..len][off..][peekOff..] == buf[off + peekOff..len];
          break;
        }
        Fill();
        GoodHere();
      }
    }

    /** The rune `peekOff` bytes ahead, after a FillTo. */
    method RuneAt(peekOff: nat) returns (rn: int, size: nat)
      requires Valid() && Decided(buf[..len][off..], peekOff, err) && off + peekOff <= len
      ensures peekOff <= |Rest()|
      ensures off + peekOff == len ==> Rest()[peekOff..] == [] && rn == -1 && size == 0 && !err.Going?
      ensures off + peekOff < len ==>
        && Rest()[peekOff..] != []
        && var d := DecodeRune(Rest()[peekOff..]);
        && rn == Shown(d.rn, replaceNULL) && size == d.size && off + peekOff + size <= len
    {
      hide Good;
      GoodHere();
      ghost var avail := buf[..len][off..];
      assert More() == [] || err.Going?;
      DecidedRune(avail, More(), peekOff, err);
      var at := off + peekOff;
      assert avail[peekOff..] == buf[at..len];
      if at >= len {
        return -1, 0;
      }
      AsciiAt(buf[at..len]);
      size := 1;
      rn := buf[at];
      if rn >= 0x80 {
        var d := DecodeRune(buf[at..len]);
        rn, size := d.rn, d.size;
      }
      if replaceNULL && rn == 0 {
        rn := RUNE_ERROR;
      }
    }

    lemma AsciiAt(p: seq<byte>)
      requires p != []
      ensures p[0] < 0x80 ==> DecodeRune(p) == Decoded(p[0], 1)
      ensures p[0] >= 0x80 ==> DecodeRune(p).rn >= 0x80
    {
    }

    method Peek() returns (rn: int, size: nat)
      requires Valid()
      modifies `len, `off, `err, buf, src`pos
      ensures Valid() && Rest() == old(Rest())
      ensures Rest() == [] ==> rn == -1 && size == 0 && !err.Going?
      ensures Rest() != [] ==>
        && rn == Shown(DecodeRune(Rest()).rn, replaceNULL) && size == DecodeRune(Rest()).size
        && off + size <= len
      ensures err == old(err) || (old(err).Going? && err.Ended?)
    {
      hide Good, Shown, Decided, Rest, DecodeRune;
      FillTo(0);
      GoodHere();
      assert Rest()[0..] == Rest();
      rn, size := RuneAt(0);
    }

    /** One rune of PeekRunes. */
    method PeekNext(runes: array<int>, i: nat, peekOff: nat, ghost all: seq<byte>) returns (more: bool, peekOff': nat)
      requires Valid() && Rest() == all && i < runes.Length <= 1000 && peekOff <= 4 * i
      requires off <= len && peekOff <= len - off && Shows(runes[..i], all, peekOff, runes.Length, replaceNULL)
      modifies `len, `off, `err, buf, src`pos, runes
      ensures Valid() && Rest() == all && off <= len
      ensures more ==>
        && peekOff' <= 4 * (i + 1) && peekOff' <= len - off
        && Shows(runes[..i + 1], all, peekOff', runes.Length, replaceNULL)
      ensures !more ==> runes[..] == Ahead(all, runes.Length, replaceNULL) && -1 in runes[..]
    {
      hide *;
      FillTo(peekOff);
      var rn, size := RuneAt(peekOff);
      peekOff' := peekOff + size;
      if off + peekOff >= len {
        AheadHere(runes[..i], all, peekOff, runes.Length, replaceNULL);
        FillRest(runes, i, Ahead(all, runes.Length, replaceNULL));
        return false, peekOff';
      }
      ShowsOne(runes[..i], all, peekOff, runes.Length, replaceNULL);
      ghost var before := runes[..i];
      runes[i] := rn;
      assert runes[..i + 1] == before + [rn];
      more := true;
    }

    /** At most 1000 runes; the scanner asks for three. */
    method PeekRunes(runes: array<int>) returns (e: Stop)
      requires Valid() && runes.Length <= 1000
      modifies `len, `off, `err, buf, src`pos, runes
      ensures Valid() && Rest() == old(Rest())
      ensures runes[..] == Ahead(Rest(), runes.Length, replaceNULL)
      ensures e.Going? || (e == err && -1 in runes[..])
    {
      var peekOff: nat, i: nat := 0, 0;
      ghost var all := Rest();
      assert all[0..] == all;
      GoodHere();
      assert Shows(runes[..0], all, 0, runes.Length, replaceNULL);
      hide *;
      while i < runes.Length
        invariant i <= runes.Length && Valid() && Rest() == all && peekOff <= 4 * i && off <= len && peekOff <= len - off
        invariant Shows(runes[..i], all, peekOff, runes.Length, replaceNULL)
      {
        var more;
        more, peekOff := PeekNext(runes, i, peekOff, all);
        if !more {
          return err;
        }
        i := i + 1;
      }
      assert runes[..i] == runes[..];
      AheadHere(runes[..], all, peekOff, runes.Length, replaceNULL);
      return Going;
    }

    /** Behind the end there is -1 only. */
    method FillRest(runes: array<int>, i0: nat, ghost want: seq<int>)
      requires i0 < runes.Length && runes[..i0] + Ahead([], runes.Length - i0, replaceNULL) == want
      modifies runes
      ensures runes[..] == want && -1 in runes[..]
    {
      var i := i0;
      while i < runes.Length
        invariant i0 <= i <= runes.Length
        invariant runes[..i] + Ahead([], runes.Length - i, replaceNULL) == want
        invariant i > i0 ==> runes[i0] == -1
      {
        ghost var before := runes[..i];
        runes[i] := -1;
        assert runes[..i + 1] == before + [-1];
        Assoc(before, [-1], Ahead([], runes.Length - i - 1, replaceNULL));
        i := i + 1;
      }
      assert runes[..i] + [] == runes[..];
      assert runes[..][i0] == -1;
    }

    lemma RestSplit(size: nat)
      requires Valid() && off + size <= len
      ensures Rest()[..size] == buf[..len][off..off + size]
      ensures Rest()[size..] == buf[..len][off + size..] + More()
    {
      hide Good;
      CutRune(buf[..len], off, size, More());
    }

    /** Reads the next rune, or answers -1 at the end. */
    method GetRune() returns (rn: int)
      requires Valid()
      modifies this, buf, src`pos
      ensures Valid() && replaceNULL == old(replaceNULL)
      ensures old(Rest()) == [] ==> rn == -1 && Rest() == [] && consumed == old(consumed) && !err.Going?
      ensures old(Rest()) == [] ==> lastRuneLen == old(lastRuneLen)
      ensures old(Rest()) != [] ==>
        var d := DecodeRune(old(Rest()));
        && rn == Shown(d.rn, replaceNULL) && lastRuneLen == d.size
        && Rest() == old(Rest())[d.size..] && consumed == old(consumed) + old(Rest())[..d.size]
      ensures err == old(err) || (old(err).Going? && err.Ended?)
    {
      var size;
      rn, size := Peek();
      RuneHere();
      hide *;
      if rn == -1 {
        return;
      }
      Accept(rn, size);
    }

    lemma RuneHere()
      requires Valid()
      ensures Rest() != [] ==>
        var d := DecodeRune(Rest());
        && Shown(d.rn, replaceNULL) != -1
        && (if Shown(d.rn, replaceNULL) == LF then Rest()[..d.size] == [LF] else LF !in Rest()[..d.size])
    {
      hide Good, Rest, DecodeRune;
      if Rest() != [] {
        RuneBytes(Rest());
      }
    }

    /** Steps over a rune of `size` bytes. */
    method Accept(rn: int, size: nat)
      requires Valid() && 0 < size <= 4 && size <= |Rest()| && off + size <= len
      requires if rn == LF then Rest()[..size] == [LF] else LF !in Rest()[..size]
      modifies this
      ensures Valid() && replaceNULL == old(replaceNULL) && err == old(err) && lastRuneLen == size
      ensures Rest() == old(Rest())[size..] && consumed == old(consumed) + old(Rest())[..size]
    {
      hide Good, Sized, DecodeRune;
      GoodHere();
      RestSplit(size);
      GoodGet(src.data, consumed, buf[..len], off, src.Rest(), line, col, n, lastRuneLen, lastCol, size);
      consumed := consumed + buf[..len][off..off + size];
      lastRuneLen := size;
      off := off + size;
      if replaceNULL && rn == RUNE_ERROR && size == 1 {
        recHasNULL := true;
      }
      if rn == LF {
        lastCol := col;
        line := line + 1;
        col := 0;
      } else {
        col := col + size;
      }
      n := n + size;
    }

    method Overdrawn()
      requires Valid()
      modifies `err
      ensures Valid() && err.NothingToUnread? && Rest() == old(buf[..len][off..])
    {
      hide Good;
      GoodHere();
      err := NothingToUnread;
      assert buf[..len][off..] + [] == buf[..len][off..];
    }

    /** Unreads the last rune: everything is as it was before GetRune, wherever
        the buffer has slid to in between. A second time it is an error. */
    method UngetRune()
      requires Valid()
      modifies this
      ensures replaceNULL == old(replaceNULL)
      ensures old(lastRuneLen) > 0 ==>
        && Valid() && lastRuneLen == -1 && err == old(err)
        && var k := |old(consumed)| - old(lastRuneLen);
        && 0 <= k && consumed == old(consumed)[..k]
        && Rest() == old(consumed)[k..] + old(Rest())
      ensures old(lastRuneLen) < 0 ==>
        && Valid() && err.NothingToUnread? && consumed == old(consumed)
        && Rest() == old(buf[..len][off..])
      ensures old(lastRuneLen) == 0 ==>
        && off == old(off) && n == old(n) && err == old(err) && lastRuneLen == -1
        && (old(col) == 0 ==> line == old(line) - 1)
    {
      hide Good, Sized;
      GoodHere();
      if lastRuneLen < 0 {
        Overdrawn();
        return;
      }
      if lastRuneLen > 0 {
        GoodUnget(src.data, consumed, buf[..len], off, src.Rest(), line, col, n, lastRuneLen, lastCol);
        consumed := consumed[..|consumed| - lastRuneLen];
      }
      off := off - lastRuneLen;
      n := n - lastRuneLen;
      if col == 0 {
        col := lastCol;
        line := line - 1;
      } else {
        col := col - lastRuneLen;
      }
      lastRuneLen := -1;
    }

    /** Where reading stands: lines, bytes into the line, bytes in all. */
    method Pos() returns (l: int, c: int, total: int)
      requires Valid()
      ensures l == Lines(consumed) && c == Column(consumed) && total == |consumed|
    {
      return line, col, n;
    }

    method SetReplaceNULL(v: bool)
      requires Valid()
      modifies `replaceNULL
      ensures Valid() && replaceNULL == v
    {
      replaceNULL := v;
    }
  }

  /** All the runes of a source, one after the other: the runes of its bytes,
      whatever the reads were. */
  method ReadAll(data: seq<byte>, last: Err) returns (runes: seq<int>, lines: int)
    requires last != NoError
    ensures runes == Runes(data) && lines == Lines(data)
  {
    var src := new Reader(data, last);
    var s := new Source(src);
    runes := [];
    var rn := 0;
    assert [] + Runes(data) == Runes(data);
    while rn != -1
      invariant s.Valid() && !s.replaceNULL && s.src == src && fresh(s) && fresh(s.buf) && fresh(src) && src.data == data
      invariant s.err.Going? || s.err.Ended?
      invariant runes + Runes(s.Rest()) == Runes(data)
      invariant rn == -1 ==> s.Rest() == []
      decreases |s.Rest()|, rn != -1
    {
      ghost var rest := s.Rest();
      rn := s.GetRune();
      if rn != -1 {
        assert rest != [];
        Assoc(runes, [rn], Runes(s.Rest()));
        runes := runes + [rn];
      }
    }
    assert runes + [] == runes;
    assert s.consumed + [] == s.consumed;
    var l, c, t := s.Pos();
    lines := l;
  }
}
