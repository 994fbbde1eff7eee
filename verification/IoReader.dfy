/** Go's io.Reader over a fixed byte string, cut into reads in any way. */
module IoReader {
  import opened Bytes

  datatype Err = NoError | Eof | Failed

  /** Where reads end: anywhere, or behind every byte up to `u` and then at
      `v`, if the buffers are that long, and anywhere behind it. */
  datatype Cutting = Anywhere | Bytewise(u: nat, v: nat)

  /** Delivers `data` in pieces of its own choosing and then keeps answering
      `last`, possibly together with the last piece. A read into a buffer that
      is not empty yields a byte or the error. */
  class Reader {
    const data: seq<byte>
    const last: Err
    const cutting: Cutting
    var pos: nat

    constructor (data: seq<byte>, last: Err, cutting: Cutting := Anywhere)
      requires last != NoError
      ensures Valid() && Rest() == data && this.data == data && pos == 0 && this.last == last
      ensures this.cutting == cutting
    {
      this.data := data;
      this.last := last;
      this.cutting := cutting;
      pos := 0;
    }

    ghost predicate Valid()
      reads this
    {
      pos <= |data| && last != NoError
    }

    ghost function Rest(): seq<byte>
      reads this
      requires Valid()
    {
      data[pos..]
    }

    /** Reads into buf[lo..hi]; the whole window may be used as scratch. */
    method Read(buf: array<byte>, lo: nat, hi: nat) returns (n: nat, err: Err)
      requires Valid() && lo <= hi <= buf.Length
      modifies this`pos, buf
      ensures Valid() && n <= hi - lo
      ensures old(Rest()) == buf[lo..lo + n] + Rest()
      ensures forall i | 0 <= i < buf.Length && !(lo <= i < hi) :: buf[i] == old(buf[i])
      ensures err != NoError ==> err == last && Rest() == []
      ensures lo < hi ==> 0 < n || err != NoError
      ensures pos == old(pos) + n && buf[lo..lo + n] == data[old(pos)..pos]
      ensures cutting.Bytewise? && lo < hi && old(pos) < |data| ==>
        && (old(pos) < cutting.u ==> n == 1)
        && (old(pos) == cutting.u < cutting.v <= |data| && cutting.v - cutting.u <= hi - lo ==> pos == cutting.v)
    {
      var room, avail := hi - lo, |data| - pos;
      if avail == 0 {
        return 0, last;
      }
      n :| 0 <= n <= room && n <= avail && (0 < room ==> 0 < n);
      if cutting.Bytewise? && 0 < room {
        if pos < cutting.u {
          n := 1;
        } else if pos == cutting.u < cutting.v <= |data| && cutting.v - cutting.u <= room {
          n := cutting.v - cutting.u;
        }
      }
      forall i | lo <= i < lo + n {
        buf[i] := data[pos + i - lo];
      }
      assert buf[lo..lo + n] == data[pos..pos + n];
      assert data[pos..] == data[pos..pos + n] + data[pos + n..];
      pos := pos + n;
      err := NoError;
      if pos == |data| {
        var early: bool :| true;
        if early {
          err := last;
        }
      }
    }
  }
}
