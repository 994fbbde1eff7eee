/** Sequence numbers of messages that leave a mailbox one by one, and what a
    client that replays the reported numbers ends up with. A mask marks the
    messages that leave. */
module ListReplay {
  import opened Bytes
  import opened SeqSet

  function RemoveAt<T>(l: seq<T>, n: nat): seq<T>
    requires 1 <= n <= |l|
  {
    l[..n - 1] + l[n..]
  }

  /** Removing the numbered messages one at a time is possible and leads from
      `l` to `out`. */
  ghost predicate Replays<T>(l: seq<T>, nums: seq<nat>, out: seq<T>)
    decreases |nums|
  {
    if nums == [] then out == l
    else 1 <= nums[0] <= |l| && Replays(RemoveAt(l, nums[0]), nums[1..], out)
  }

  lemma {:induction false} ReplaysAppend<T>(l: seq<T>, a: seq<nat>, m: seq<T>, b: seq<nat>, out: seq<T>)
    requires Replays(l, a, m) && Replays(m, b, out)
    ensures Replays(l, a + b, out)
    decreases |a|
  {
    if a == [] {
      assert a + b == b;
    } else {
      assert (a + b)[1..] == a[1..] + b;
      ReplaysAppend(RemoveAt(l, a[0]), a[1..], m, b, out);
    }
  }

  function Chosen<T>(l: seq<T>, m: seq<bool>): seq<T>
    requires |m| == |l|
  {
    if l == [] then []
    else if m[0] then [l[0]] + Chosen(l[1..], m[1..])
    else Chosen(l[1..], m[1..])
  }

  function Kept<T>(l: seq<T>, m: seq<bool>): seq<T>
    requires |m| == |l|
  {
    if l == [] then []
    else if m[0] then Kept(l[1..], m[1..])
    else [l[0]] + Kept(l[1..], m[1..])
  }

  /** The numbers reported when the marked ones leave in order, counting from
      place `i`: each one's place less the `gone` ones that left before it. */
  function Numbers(m: seq<bool>, i: nat, gone: nat): seq<nat>
    requires gone < i
    decreases |m|
  {
    if m == [] then []
    else if m[0] then [i - gone] + Numbers(m[1..], i + 1, gone + 1)
    else Numbers(m[1..], i + 1, gone)
  }

  /** All the numbers of one pass over a list. */
  function Reported(m: seq<bool>): seq<nat> { Numbers(m, 1, 0) }

  lemma RemoveMiddle<T>(pre: seq<T>, x: T, rest: seq<T>)
    ensures RemoveAt(pre + ([x] + rest), |pre| + 1) == pre + rest
  {
  }

  /** Replaying the numbers leaves exactly the messages that were kept. */
  lemma {:induction false} NumbersReplay<T>(pre: seq<T>, l: seq<T>, m: seq<bool>, i: nat, gone: nat)
    requires |m| == |l| && gone < i && |pre| == i - 1 - gone
    ensures Replays(pre + l, Numbers(m, i, gone), pre + Kept(l, m))
    decreases |l|
  {
    if l == [] {
      return;
    }
    var tail := Kept(l[1..], m[1..]);
    assert l == [l[0]] + l[1..];
    if m[0] {
      NumbersReplay(pre, l[1..], m[1..], i + 1, gone + 1);
      RemoveMiddle(pre, l[0], l[1..]);
    } else {
      NumbersReplay(pre + [l[0]], l[1..], m[1..], i + 1, gone);
      Assoc(pre, [l[0]], l[1..]);
      Assoc(pre, [l[0]], tail);
    }
  }

  lemma ReportedReplay<T>(l: seq<T>, m: seq<bool>)
    requires |m| == |l|
    ensures Replays(l, Reported(m), Kept(l, m))
  {
    NumbersReplay([], l, m, 1, 0);
    assert [] + l == l && [] + Kept(l, m) == Kept(l, m);
  }

  /** Nothing is lost or doubled between the chosen and the kept. */
  lemma {:induction false} ChosenAndKept<T>(l: seq<T>, m: seq<bool>)
    requires |m| == |l|
    ensures multiset(Chosen(l, m)) + multiset(Kept(l, m)) == multiset(l)
    decreases |l|
  {
    if l != [] {
      ChosenAndKept(l[1..], m[1..]);
      assert l == [l[0]] + l[1..];
    }
  }

  lemma {:induction false} ChosenAppend<T>(a: seq<T>, b: seq<T>, ma: seq<bool>, mb: seq<bool>)
    requires |ma| == |a| && |mb| == |b|
    ensures Chosen(a + b, ma + mb) == Chosen(a, ma) + Chosen(b, mb)
    ensures Kept(a + b, ma + mb) == Kept(a, ma) + Kept(b, mb)
    decreases |a|
  {
    if a == [] {
      assert a + b == b && ma + mb == mb;
    } else {
      assert (a + b)[1..] == a[1..] + b && (ma + mb)[1..] == ma[1..] + mb;
      ChosenAppend(a[1..], b, ma[1..], mb);
    }
  }

  /** `n` places all marked, or all not. */
  function Flat(n: nat, yes: bool): (m: seq<bool>)
    ensures |m| == n
  {
    seq(n, k => yes)
  }

  lemma {:induction false} ChosenFlat<T>(l: seq<T>, yes: bool)
    ensures Chosen(l, Flat(|l|, yes)) == if yes then l else []
    ensures Kept(l, Flat(|l|, yes)) == if yes then [] else l
    decreases |l|
  {
    if l != [] {
      assert Flat(|l|, yes)[1..] == Flat(|l[1..]|, yes);
      ChosenFlat(l[1..], yes);
      assert l == [l[0]] + l[1..];
    }
  }

  // ------------------------------------------------ MOVE, range after range

  const MAX_UINT32: nat := 0xFFFF_FFFF

  function Upper(r: SeqRange): nat { if r.max == 0 then MAX_UINT32 else r.max }

  predicate Within(r: SeqRange, n: int, delta: nat) {
    r.min - delta <= n <= Upper(r) - delta
  }

  /** What one range selects of the UIDs that are left, after `delta` messages
      have moved already: by UID, or by place with the range shifted. */
  function RangeMask(uids: seq<nat>, r: SeqRange, useUid: bool, delta: nat): (m: seq<bool>)
    ensures |m| == |uids|
  {
    seq(|uids|, k requires 0 <= k < |uids| => if useUid then Within(r, uids[k], 0) else Within(r, k + 1, delta))
  }

  /** The outcome of moving range after range. */
  datatype Moved = Moved(moved: seq<nat>, nums: seq<nat>, rest: seq<nat>)

  function MoveRanges(uids: seq<nat>, rs: seq<SeqRange>, useUid: bool, delta: nat): Moved
    decreases |rs|
  {
    if rs == [] then Moved([], [], uids)
    else
      var m := RangeMask(uids, rs[0], useUid, delta);
      var out := Chosen(uids, m);
      var more := MoveRanges(Kept(uids, m), rs[1..], useUid, delta + |out|);
      Moved(out + more.moved, Reported(m) + more.nums, more.rest)
  }

  /** The numbers reported range by range lead the client from the old list to
      what is left, whatever the ranges are and whatever they count. */
  lemma NothingToReplay<T>(l: seq<T>)
    ensures Replays(l, [], l)
  {
  }

  lemma {:induction false} MoveRangesReplay(uids: seq<nat>, rs: seq<SeqRange>, useUid: bool, delta: nat)
    ensures var m := MoveRanges(uids, rs, useUid, delta); Replays(uids, m.nums, m.rest)
    decreases |rs|
  {
    hide Replays, RangeMask, Chosen, Kept, Reported;
    if rs == [] {
      NothingToReplay(uids);
    } else {
      var m := RangeMask(uids, rs[0], useUid, delta);
      var out, kept := Chosen(uids, m), Kept(uids, m);
      ReportedReplay(uids, m);
      MoveRangesReplay(kept, rs[1..], useUid, delta + |out|);
      var more := MoveRanges(kept, rs[1..], useUid, delta + |out|);
      ReplaysAppend(uids, Reported(m), kept, more.nums, more.rest);
    }
  }

  // --------------------------------------------------- by sequence number

  /** Ascending, disjoint ranges of which only the last may be open. */
  ghost predicate Ascending(rs: seq<SeqRange>) {
    && (forall i | 0 <= i < |rs| :: 0 < rs[i].min <= Upper(rs[i]) <= MAX_UINT32)
    && (forall i | 0 <= i < |rs| - 1 :: 0 < rs[i].max && rs[i].max < rs[i + 1].min)
  }

  /** Which of the `n` places after place `p` the whole set covers. */
  function SetMask(rs: seq<SeqRange>, p: nat, n: nat): (m: seq<bool>)
    ensures |m| == n
  {
    seq(n, k requires 0 <= k => SeqContains(rs, p + k + 1))
  }

  lemma {:induction false} BelowAll(rs: seq<SeqRange>, v: nat)
    requires Ascending(rs) && (rs != [] ==> v < rs[0].min)
    ensures !SeqContains(rs, v)
  {
    if rs != [] {
      assert Ascending(rs[1..]);
      BelowAll(rs[1..], v);
    }
  }

  /** Where range `r` begins and ends among the `n` places after place `p`. */
  function Before(r: SeqRange, p: nat, n: nat): nat
    requires p < r.min
  {
    if r.min - 1 < p + n then r.min - 1 - p else n
  }

  function Through(r: SeqRange, p: nat, n: nat): nat
    requires p < r.min <= Upper(r)
  {
    if Upper(r) < p + n then Upper(r) - p else n
  }

  /** Of a set, the first range covers what it covers; from there on the other
      ranges decide. */
  lemma SetMaskSplit(rs: seq<SeqRange>, p: nat, n: nat)
    requires Ascending(rs) && rs != [] && p < rs[0].min && p + n <= MAX_UINT32
    ensures var a, b := Before(rs[0], p, n), Through(rs[0], p, n);
      a <= b <= n && SetMask(rs, p, n) == Flat(a, false) + (Flat(b - a, true) + SetMask(rs[1..], p + b, n - b))
  {
    var a, b := Before(rs[0], p, n), Through(rs[0], p, n);
    var s, t := SetMask(rs, p, n), Flat(a, false) + (Flat(b - a, true) + SetMask(rs[1..], p + b, n - b));
    forall k | 0 <= k < n
      ensures s[k] == t[k]
    {
      assert s[k] == SeqContains(rs, p + k + 1);
      if k < a {
        BelowAll(rs, p + k + 1);
        assert t[k] == Flat(a, false)[k];
      } else if k < b {
        assert InRange(rs[0], p + k + 1);
        assert t[k] == Flat(b - a, true)[k - a];
      } else {
        assert !InRange(rs[0], p + k + 1);
        assert t[k] == SetMask(rs[1..], p + b, n - b)[k - b];
      }
    }
    assert s == t;
  }

  /** The shifted range marks just that stretch, behind whatever was kept. */
  lemma RangeMaskSplit(pre: seq<nat>, l: seq<nat>, p: nat, r: SeqRange)
    requires |pre| <= p && p < r.min <= Upper(r)
    ensures var a, b := Before(r, p, |l|), Through(r, p, |l|);
      a <= b <= |l| &&
      RangeMask(pre + l, r, false, p - |pre|) ==
      Flat(|pre|, false) + (Flat(a, false) + (Flat(b - a, true) + Flat(|l| - b, false)))
  {
    var a, b := Before(r, p, |l|), Through(r, p, |l|);
    var s := RangeMask(pre + l, r, false, p - |pre|);
    var t := Flat(|pre|, false) + (Flat(a, false) + (Flat(b - a, true) + Flat(|l| - b, false)));
    forall k | 0 <= k < |pre| + |l|
      ensures s[k] == t[k]
    {
      assert s[k] == Within(r, k + 1, p - |pre|);
    }
    assert s == t;
  }

  /** Choosing the middle one of three parts; the last one by its own mask. */
  lemma ChooseMiddle<T>(l: seq<T>, x: seq<T>, y: seq<T>, z: seq<T>, mz: seq<bool>)
    requires l == x + (y + z) && |mz| == |z|
    ensures var m := Flat(|x|, false) + (Flat(|y|, true) + mz);
      Chosen(l, m) == y + Chosen(z, mz) && Kept(l, m) == x + Kept(z, mz)
  {
    ChosenAppend(x, y + z, Flat(|x|, false), Flat(|y|, true) + mz);
    ChosenAppend(y, z, Flat(|y|, true), mz);
    ChosenFlat(x, false);
    ChosenFlat(y, true);
    assert [] + (y + Chosen(z, mz)) == y + Chosen(z, mz);
    assert [] + Kept(z, mz) == Kept(z, mz);
  }

  /** One round by place: the stretch goes and the rest closes up. */
  lemma OneRange(pre: seq<nat>, x: seq<nat>, y: seq<nat>, z: seq<nat>, p: nat, r: SeqRange)
    requires |pre| <= p && p < r.min <= Upper(r)
    requires var n := |x| + |y| + |z|; |x| == Before(r, p, n) && |x| + |y| == Through(r, p, n)
    ensures var l := pre + (x + (y + z));
      var m := RangeMask(l, r, false, p - |pre|);
      Chosen(l, m) == y && Kept(l, m) == pre + x + z
  {
    hide Chosen, Kept, RangeMask, Flat;
    var l := x + (y + z);
    var mz := Flat(|z|, false);
    RangeMaskSplit(pre, l, p, r);
    var m := Flat(|x|, false) + (Flat(|y|, true) + mz);
    ChosenAppend(pre, l, Flat(|pre|, false), m);
    ChosenFlat(pre, false);
    ChooseMiddle(l, x, y, z, mz);
    ChosenFlat(z, false);
    assert [] + (y + []) == y;
    Assoc(pre, x, z);
  }

  lemma NoneMask(p: nat, n: nat)
    ensures SetMask([], p, n) == Flat(n, false)
  {
    forall k | 0 <= k < n
      ensures !SetMask([], p, n)[k]
    {
      assert !SeqContains([], p + k + 1);
    }
    assert SetMask([], p, n) == Flat(n, false);
  }

  lemma {:induction false} MoveAscending(pre: seq<nat>, l: seq<nat>, p: nat, rs: seq<SeqRange>)
    requires Ascending(rs) && |pre| <= p && p + |l| <= MAX_UINT32
    requires rs != [] ==> p < rs[0].min
    ensures var m := MoveRanges(pre + l, rs, false, p - |pre|);
      && m.moved == Chosen(l, SetMask(rs, p, |l|))
      && m.rest == pre + Kept(l, SetMask(rs, p, |l|))
    decreases |rs|
  {
    if rs == [] {
      NoneMask(p, |l|);
      ChosenFlat(l, false);
    } else {
      SetMaskSplit(rs, p, |l|);
      var a, b := Before(rs[0], p, |l|), Through(rs[0], p, |l|);
      var x, y, z := l[..a], l[a..b], l[b..];
      assert l == x + (y + z);
      MoveParts(pre, l, x, y, z, p, rs);
    }
  }

  lemma {:induction false} MoveParts(pre: seq<nat>, l: seq<nat>, x: seq<nat>, y: seq<nat>, z: seq<nat>, p: nat,
                                     rs: seq<SeqRange>)
    requires Ascending(rs) && rs != [] && |pre| <= p && p < rs[0].min && p + |l| <= MAX_UINT32
    requires l == x + (y + z) && |x| == Before(rs[0], p, |l|) && |x| + |y| == Through(rs[0], p, |l|)
    requires SetMask(rs, p, |l|) == Flat(|x|, false) + (Flat(|y|, true) + SetMask(rs[1..], p + |x| + |y|, |z|))
    ensures var m := MoveRanges(pre + l, rs, false, p - |pre|);
      && m.moved == Chosen(l, SetMask(rs, p, |l|))
      && m.rest == pre + Kept(l, SetMask(rs, p, |l|))
    decreases |rs|, 0
  {
    var p' := p + |x| + |y|;
    var mz := SetMask(rs[1..], p', |z|);
    ChooseMiddle(l, x, y, z, mz);
    OneRange(pre, x, y, z, p, rs[0]);
    assert Ascending(rs[1..]);
    MoveAscending(pre + x, z, p', rs[1..]);
    assert p' - |pre + x| == p - |pre| + |y|;
    Assoc(pre, x, Kept(z, mz));
  }

  /** For every ascending, disjoint set the shifted ranges move exactly the
      messages whose original numbers are in the set, in order, and leave the
      others; the reported numbers replay to that. */
  lemma MoveBySequenceNumber(uids: seq<nat>, rs: seq<SeqRange>)
    requires Ascending(rs) && |uids| <= MAX_UINT32
    ensures var m := MoveRanges(uids, rs, false, 0);
      && m.moved == Chosen(uids, SetMask(rs, 0, |uids|))
      && m.rest == Kept(uids, SetMask(rs, 0, |uids|))
      && Replays(uids, m.nums, m.rest)
  {
    MoveAscending([], uids, 0, rs);
    assert [] + uids == uids;
    assert [] + Kept(uids, SetMask(rs, 0, |uids|)) == Kept(uids, SetMask(rs, 0, |uids|));
    MoveRangesReplay(uids, rs, false, 0);
  }

  // ------------------------------------------- any ranges, place by place

  function Count(g: seq<bool>): nat {
    if g == [] then 0 else (if g[0] then 1 else 0) + Count(g[1..])
  }

  /** Of the places from `p` on those marked in `g` have moved. A range then
      takes those whose number, raised by how many have moved from behind them,
      it holds. */
  function Shifted(g: seq<bool>, p: nat, r: SeqRange): (h: seq<bool>)
    ensures |h| == |g|
    decreases |g|
  {
    if g == [] then []
    else [g[0] || Within(r, p + Count(g[1..]), 0)] + Shifted(g[1..], p + 1, r)
  }

  /** The places that have moved after all ranges. */
  function ShiftedAll(rs: seq<SeqRange>, g: seq<bool>): (h: seq<bool>)
    ensures |h| == |g|
    decreases |rs|
  {
    if rs == [] then g else ShiftedAll(rs[1..], Shifted(g, 1, rs[0]))
  }

  /** The mask of a shifted range from number `c` on. */
  function WithinMask(n: nat, r: SeqRange, c: nat, delta: nat): (m: seq<bool>)
    ensures |m| == n
  {
    seq(n, k requires 0 <= k < n => Within(r, c + k, delta))
  }

  /** One range on the list that is left, told in places of the old list. */
  lemma {:induction false} ShiftedTurn(l: seq<nat>, g: seq<bool>, p: nat, r: SeqRange, c: nat, delta: nat)
    requires |l| == |g| && c + delta == p + Count(g)
    ensures var left, h := Kept(l, g), Shifted(g, p, r);
      var m := WithinMask(|left|, r, c, delta);
      && Kept(left, m) == Kept(l, h)
      && |Chosen(left, m)| + Count(g) == Count(h)
    decreases |l|
  {
    if l != [] {
      var t, gt := l[1..], g[1..];
      var left, h := Kept(t, gt), Shifted(gt, p + 1, r);
      assert Shifted(g, p, r)[1..] == h;
      if g[0] {
        ShiftedTurn(t, gt, p + 1, r, c, delta);
      } else {
        ShiftedTurn(t, gt, p + 1, r, c + 1, delta);
        var m := WithinMask(1 + |left|, r, c, delta);
        assert m[1..] == WithinMask(|left|, r, c + 1, delta);
        assert c + delta == p + Count(gt);
        assert m[0] == Within(r, c + 0, delta) == Within(r, p + Count(gt), 0);
        assert ([l[0]] + left)[1..] == left;
      }
    }
  }

  lemma {:induction false} MoveByPlacesFrom(uids: seq<nat>, g: seq<bool>, rs: seq<SeqRange>)
    requires |g| == |uids|
    ensures MoveRanges(Kept(uids, g), rs, false, Count(g)).rest == Kept(uids, ShiftedAll(rs, g))
    decreases |rs|
  {
    if rs != [] {
      var left, h := Kept(uids, g), Shifted(g, 1, rs[0]);
      ShiftedTurn(uids, g, 1, rs[0], 1, Count(g));
      assert RangeMask(left, rs[0], false, Count(g)) == WithinMask(|left|, rs[0], 1, Count(g));
      MoveByPlacesFrom(uids, h, rs[1..]);
    }
  }

  lemma {:induction false} CountNone(n: nat)
    ensures Count(Flat(n, false)) == 0
  {
    if n > 0 {
      CountNone(n - 1);
      assert Flat(n, false)[1..] == Flat(n - 1, false);
    }
  }

  /** Whatever the ranges, the places that move are those `ShiftedAll` says. */
  lemma MoveByPlaces(uids: seq<nat>, rs: seq<SeqRange>)
    ensures var m, h := MoveRanges(uids, rs, false, 0), ShiftedAll(rs, Flat(|uids|, false));
      && m.rest == Kept(uids, h)
      && multiset(m.moved) == multiset(Chosen(uids, h))
  {
    var g, h := Flat(|uids|, false), ShiftedAll(rs, Flat(|uids|, false));
    var m := MoveRanges(uids, rs, false, 0);
    ChosenFlat(uids, false);
    CountNone(|uids|);
    MoveByPlacesFrom(uids, g, rs);
    MoveKeeps(uids, rs, false, 0);
    ChosenAndKept(uids, h);
    CancelRest(multiset(m.moved), multiset(Chosen(uids, h)), multiset(m.rest), multiset(uids));
  }

  // The set moves exactly.

  ghost predicate Different<T>(l: seq<T>) {
    forall i, j | 0 <= i < j < |l| :: l[i] != l[j]
  }

  lemma {:induction false} KeptWithin<T>(l: seq<T>, m: seq<bool>)
    requires |m| == |l|
    ensures forall x | x in Kept(l, m) :: x in l
    decreases |l|
  {
    if l != [] {
      KeptWithin(l[1..], m[1..]);
      assert l == [l[0]] + l[1..];
    }
  }

  /** What is left of different messages tells which have left. */
  lemma {:induction false} KeptTells<T>(l: seq<T>, a: seq<bool>, b: seq<bool>)
    requires |a| == |b| == |l| && Different(l)
    ensures Kept(l, a) == Kept(l, b) <==> a == b
    decreases |l|
  {
    if l != [] {
      var t := l[1..];
      assert l == [l[0]] + t && l[0] !in t;
      KeptTells(t, a[1..], b[1..]);
      KeptWithin(t, a[1..]);
      KeptWithin(t, b[1..]);
      assert a == [a[0]] + a[1..] && b == [b[0]] + b[1..];
      var ka, kb := Kept(t, a[1..]), Kept(t, b[1..]);
      assert ([l[0]] + ka)[0] == l[0] && ([l[0]] + ka)[1..] == ka && ([l[0]] + kb)[0] == l[0] && ([l[0]] + kb)[1..] == kb;
      assert Kept(l, a) == Kept(l, b) ==> a[0] == b[0] by {
        if a[0] != b[0] {
          assert Kept(l, a) == if a[0] then ka else [l[0]] + ka;
          assert (l[0] in Kept(l, a)) != (l[0] in Kept(l, b));
        }
      }
    }
  }

  /** No place outside the earlier ranges gets into a range, or out of it, by
      the shift: by how many of the places behind it the earlier ranges hold. */
  ghost predicate Unshifted(rs: seq<SeqRange>, n: nat) {
    forall j, k | 0 <= j < |rs| && 0 <= k < n :: UnshiftedAt(rs[..j], rs[j], n, k)
  }

  predicate UnshiftedAt(before: seq<SeqRange>, r: SeqRange, n: nat, k: nat)
    requires k < n
  {
    SeqContains(before, k + 1) ||
    (InRange(r, k + 1) <==> InRange(r, k + 1 + Count(SetMask(before, 0, n)[k + 1..])))
  }

  lemma {:induction false} CountBound(g: seq<bool>)
    ensures Count(g) <= |g|
  {
    if g != [] {
      CountBound(g[1..]);
    }
  }

  lemma {:induction false} ShiftedAt(g: seq<bool>, p: nat, r: SeqRange, k: nat)
    requires k < |g|
    ensures Shifted(g, p, r)[k] == (g[k] || Within(r, p + k + Count(g[k + 1..]), 0))
    decreases |g|
  {
    if k > 0 {
      ShiftedAt(g[1..], p + 1, r, k - 1);
      assert g[1..][k..] == g[k + 1..];
    }
  }

  lemma {:induction false} ShiftedMore(rs: seq<SeqRange>, r: SeqRange, g: seq<bool>)
    ensures ShiftedAll(rs + [r], g) == Shifted(ShiftedAll(rs, g), 1, r)
    decreases |rs|
  {
    if rs == [] {
      assert [] + [r] == [r] && [r][1..] == [];
    } else {
      assert (rs + [r])[1..] == rs[1..] + [r];
      ShiftedMore(rs[1..], r, Shifted(g, 1, rs[0]));
    }
  }

  lemma ContainsMore(rs: seq<SeqRange>, r: SeqRange, v: nat)
    ensures SeqContains(rs + [r], v) <==> SeqContains(rs, v) || InRange(r, v)
  {
    var s := rs + [r];
    if SeqContains(rs, v) {
      var i :| 0 <= i < |rs| && InRange(rs[i], v);
      assert InRange(s[i], v);
    }
    assert s[|rs|] == r;
  }

  /** One more range: with exactly the earlier ones' places moved, it takes
      exactly its own if and only if none is shifted. */
  lemma OneMoreExact(rs: seq<SeqRange>, r: SeqRange, n: nat)
    requires n <= MAX_UINT32
    ensures Shifted(SetMask(rs, 0, n), 1, r) == SetMask(rs + [r], 0, n)
       <==> forall k | 0 <= k < n :: UnshiftedAt(rs, r, n, k)
  {
    var g := SetMask(rs, 0, n);
    var h, want := Shifted(g, 1, r), SetMask(rs + [r], 0, n);
    forall k | 0 <= k < n
      ensures h[k] == want[k] <==> UnshiftedAt(rs, r, n, k)
    {
      ShiftedAt(g, 1, r, k);
      CountBound(g[k + 1..]);
      ContainsMore(rs, r, k + 1);
    }
  }

  ghost predicate ExactUpTo(rs: seq<SeqRange>, n: nat, j: nat)
    requires j <= |rs|
  {
    ShiftedAll(rs[..j], Flat(n, false)) == SetMask(rs[..j], 0, n)
  }

  lemma ExactNext(rs: seq<SeqRange>, n: nat, j: nat)
    requires n <= MAX_UINT32 && j < |rs| && ExactUpTo(rs, n, j)
    ensures ExactUpTo(rs, n, j + 1) <==> forall k | 0 <= k < n :: UnshiftedAt(rs[..j], rs[j], n, k)
  {
    assert rs[..j + 1] == rs[..j] + [rs[j]];
    ShiftedMore(rs[..j], rs[j], Flat(n, false));
    OneMoreExact(rs[..j], rs[j], n);
  }

  lemma {:induction false} UnshiftedExact(rs: seq<SeqRange>, n: nat, j: nat)
    requires n <= MAX_UINT32 && Unshifted(rs, n) && j <= |rs|
    ensures ExactUpTo(rs, n, j)
  {
    if j == 0 {
      NoneMask(0, n);
    } else {
      UnshiftedExact(rs, n, j - 1);
      ExactNext(rs, n, j - 1);
    }
  }

  /** A MOVE by number on different messages, and each of its beginnings, moves
      exactly the messages whose numbers are in the set if and only if no place
      is shifted into a range or out of it. */
  lemma MoveByNumberExact(uids: seq<nat>, rs: seq<SeqRange>)
    requires Different(uids) && |uids| <= MAX_UINT32
    ensures (forall j | 0 <= j <= |rs| ::
              MoveRanges(uids, rs[..j], false, 0).rest == Kept(uids, SetMask(rs[..j], 0, |uids|)))
       <==> Unshifted(rs, |uids|)
  {
    var n := |uids|;
    forall j | 0 <= j <= |rs|
      ensures MoveRanges(uids, rs[..j], false, 0).rest == Kept(uids, SetMask(rs[..j], 0, n)) <==> ExactUpTo(rs, n, j)
    {
      MoveByPlaces(uids, rs[..j]);
      KeptTells(uids, ShiftedAll(rs[..j], Flat(n, false)), SetMask(rs[..j], 0, n));
    }
    hide MoveRanges, ExactUpTo, UnshiftedAt;
    if Unshifted(rs, n) {
      forall j | 0 <= j <= |rs|
        ensures ExactUpTo(rs, n, j)
      {
        UnshiftedExact(rs, n, j);
      }
    }
    if forall j | 0 <= j <= |rs| :: ExactUpTo(rs, n, j) {
      forall j, k | 0 <= j < |rs| && 0 <= k < n
        ensures UnshiftedAt(rs[..j], rs[j], n, k)
      {
        assert ExactUpTo(rs, n, j + 1);
        ExactNext(rs, n, j);
      }
    }
  }

  /** So an unshifted set, in any order and with overlaps, moves exactly. */
  lemma UnshiftedMoves(uids: seq<nat>, rs: seq<SeqRange>)
    requires Unshifted(rs, |uids|) && |uids| <= MAX_UINT32
    ensures var m := MoveRanges(uids, rs, false, 0);
      && m.rest == Kept(uids, SetMask(rs, 0, |uids|))
      && multiset(m.moved) == multiset(Chosen(uids, SetMask(rs, 0, |uids|)))
  {
    UnshiftedExact(rs, |uids|, |rs|);
    assert rs[..|rs|] == rs;
    MoveByPlaces(uids, rs);
  }

  /** Of the whole MOVE alone: it is exact if and only if the places taken in
      turn are those of the set. */
  lemma MoveWholeExact(uids: seq<nat>, rs: seq<SeqRange>)
    requires Different(uids)
    ensures MoveRanges(uids, rs, false, 0).rest == Kept(uids, SetMask(rs, 0, |uids|))
       <==> forall k | 0 <= k < |uids| :: ShiftedAll(rs, Flat(|uids|, false))[k] == SeqContains(rs, k + 1)
  {
    hide *;
    var h, want := ShiftedAll(rs, Flat(|uids|, false)), SetMask(rs, 0, |uids|);
    FlatLength(|uids|);
    SetMaskAt(rs, |uids|);
    MoveByPlaces(uids, rs);
    KeptTells(uids, h, want);
    assert h == want <==> forall k | 0 <= k < |uids| :: h[k] == want[k];
  }

  lemma FlatLength(n: nat)
    ensures |Flat(n, false)| == n
  {
  }

  lemma SetMaskAt(rs: seq<SeqRange>, n: nat)
    ensures forall k | 0 <= k < n :: SetMask(rs, 0, n)[k] == SeqContains(rs, k + 1)
  {
  }

  /** Ascending sets are unshifted: what is behind a place, of the ranges in
      front of a later one, does not reach up to that. */
  lemma AscendingUnshifted(rs: seq<SeqRange>, n: nat)
    requires Ascending(rs) && n <= MAX_UINT32
    ensures Unshifted(rs, n)
  {
    forall j, k | 0 <= j < |rs| && 0 <= k < n
      ensures UnshiftedAt(rs[..j], rs[j], n, k)
    {
      var before := rs[..j];
      var g := SetMask(before, 0, n)[k + 1..];
      CountBound(g);
      if k + 1 < rs[j].min {
        forall i | 0 <= i < |g| && rs[j].min <= k + 2 + i
          ensures !g[i]
        {
          NotBefore(rs, j, k + 2 + i);
        }
        CountPrefix(g, rs[j].min - 1 - (k + 1));
      } else {
        forall i | 0 <= i < |g|
          ensures !g[i]
        {
          NotBefore(rs, j, k + 2 + i);
        }
        CountPrefix(g, 0);
      }
    }
  }

  lemma NotBefore(rs: seq<SeqRange>, j: nat, v: nat)
    requires Ascending(rs) && j < |rs| && rs[j].min <= v
    ensures !SeqContains(rs[..j], v)
  {
    forall i | 0 <= i < j
      ensures !InRange(rs[i], v)
    {
      Climb(rs, i, j);
    }
  }

  lemma {:induction false} Climb(rs: seq<SeqRange>, i: nat, j: nat)
    requires Ascending(rs) && i < j < |rs|
    ensures 0 < rs[i].max < rs[j].min
    decreases j - i
  {
    if i + 1 < j {
      Climb(rs, i + 1, j);
    }
  }

  lemma {:induction false} CountPrefix(g: seq<bool>, n: nat)
    requires forall i | n <= i < |g| :: !g[i]
    ensures Count(g) <= n
    decreases |g|
  {
    if g != [] {
      CountPrefix(g[1..], if n == 0 then 0 else n - 1);
    }
  }

  /** A beginning that goes wrong may be made good by later ranges: of two
      messages, "2,1" leaves the first, and "2,1,1:2" takes it. */
  lemma MadeGood(a: nat, b: nat)
    ensures var rs := [SeqRange(2, 2), SeqRange(1, 1), SeqRange(1, 2)];
      && ShiftedAll(rs[..2], [false, false]) == [false, true] != SetMask(rs[..2], 0, 2)
      && ShiftedAll(rs, [false, false]) == [true, true] == SetMask(rs, 0, 2)
      && !UnshiftedAt(rs[..1], rs[1], 2, 0)
  {
    var rs := [SeqRange(2, 2), SeqRange(1, 1), SeqRange(1, 2)];
    var g := [false, true];
    TwoPlaces(false, false, rs[0]);
    TwoPlaces(false, true, rs[1]);
    TwoPlaces(false, true, rs[2]);
    assert rs[..2] == [rs[0], rs[1]] && rs[..2][1..] == [rs[1]] && rs[..2][1..][1..] == [];
    assert ShiftedAll([rs[1]], g) == ShiftedAll([], Shifted(g, 1, rs[1])) by { assert [rs[1]][1..] == []; }
    assert rs[1..] == [rs[1], rs[2]] && rs[1..][1..] == [rs[2]] && [rs[2]][1..] == [];
    assert InRange(rs[2], 1) && InRange(rs[2], 2) && InRange(rs[..2][1], 1);
    assert SetMask(rs[..2], 0, 2)[0];
    assert rs[..1] == [rs[0]] && SetMask(rs[..1], 0, 2)[1..] == [true] && [true][1..] == [];
  }

  lemma TwoPlaces(a: bool, b: bool, r: SeqRange)
    ensures Shifted([a, b], 1, r) == [a || Within(r, if b then 2 else 1, 0), b || Within(r, 2, 0)]
  {
    assert [a, b][1..] == [b] && [b][1..] == [];
    assert Count([b]) == (if b then 1 else 0) + Count([]);
  }

  /** Out of order, the shift moves the wrong messages: of three, "3,1:2"
      takes the third, then looks for places 0 and 1 only. */
  lemma MoveOutOfOrder(a: nat, b: nat, c: nat)
    ensures var rs := [SeqRange(3, 3), SeqRange(1, 2)];
      && MoveRanges([a, b, c], rs, false, 0).moved == [c, a]
      && SetMask(rs, 0, 3) == [true, true, true]
  {
    var rs := [SeqRange(3, 3), SeqRange(1, 2)];
    ChooseMiddle([a, b, c], [a, b], [c], [], []);
    RangeMaskSplit([], [a, b, c], 0, rs[0]);
    assert Flat(0, false) + (Flat(2, false) + (Flat(1, true) + Flat(0, false))) == Flat(2, false) + (Flat(1, true) + []);
    assert [] + [a, b, c] == [a, b, c];
    assert [c] + [] == [c] && [a, b] + [] == [a, b];
    ChooseMiddle([a, b], [], [a], [b], [false]);
    assert RangeMask([a, b], rs[1], false, 1) == Flat(0, false) + (Flat(1, true) + [false]);
    ChosenFlat([b], false);
    assert Flat(1, false) == [false];
    assert rs[1..] == [SeqRange(1, 2)] && rs[1..][1..] == [];
    assert [a] + [] == [a] && [c] + ([a] + []) == [c, a];
    assert SeqContains(rs[1..], 1) && SeqContains(rs[1..], 2) && SeqContains(rs, 3);
  }

  // --------------------------------------------------------------- by UID

  /** Which UIDs are in the set. */
  function UidMask(uids: seq<nat>, rs: seq<SeqRange>): (m: seq<bool>)
    ensures |m| == |uids|
  {
    seq(|uids|, k requires 0 <= k < |uids| => SeqContains(rs, uids[k]))
  }

  ghost predicate Fits(uids: seq<nat>) { forall k | 0 <= k < |uids| :: uids[k] <= MAX_UINT32 }

  lemma {:induction false} KeptFits(uids: seq<nat>, m: seq<bool>)
    requires |m| == |uids| && Fits(uids)
    ensures Fits(Kept(uids, m))
    decreases |uids|
  {
    if uids != [] {
      assert Fits(uids[1..]);
      KeptFits(uids[1..], m[1..]);
    }
  }

  /** Dropping what the first range has and then what the others have is
      dropping what the set has. */
  lemma {:induction false} KeptInTurn(uids: seq<nat>, rs: seq<SeqRange>, delta: nat)
    requires rs != [] && Fits(uids)
    ensures var left := Kept(uids, RangeMask(uids, rs[0], true, delta));
      Kept(left, UidMask(left, rs[1..])) == Kept(uids, UidMask(uids, rs))
    decreases |uids|
  {
    if uids != [] {
      hide Upper;
      var m, t := RangeMask(uids, rs[0], true, delta), uids[1..];
      assert Fits(t);
      KeptInTurn(t, rs, delta);
      assert m[1..] == RangeMask(t, rs[0], true, delta);
      assert UidMask(uids, rs)[1..] == UidMask(t, rs);
      var left := Kept(t, m[1..]);
      if !m[0] {
        assert ([uids[0]] + left)[1..] == left;
        assert UidMask([uids[0]] + left, rs[1..])[1..] == UidMask(left, rs[1..]);
      }
    }
  }

  lemma {:induction false} RestByUid(uids: seq<nat>, rs: seq<SeqRange>, delta: nat)
    requires Fits(uids)
    ensures MoveRanges(uids, rs, true, delta).rest == Kept(uids, UidMask(uids, rs))
    decreases |rs|
  {
    if rs == [] {
      assert forall k | 0 <= k < |uids| :: !UidMask(uids, rs)[k];
      assert UidMask(uids, rs) == Flat(|uids|, false);
      ChosenFlat(uids, false);
    } else {
      var m := RangeMask(uids, rs[0], true, delta);
      KeptFits(uids, m);
      RestByUid(Kept(uids, m), rs[1..], delta + |Chosen(uids, m)|);
      KeptInTurn(uids, rs, delta);
    }
  }

  /** Whatever the ranges, each message either moves, once, or stays. */
  lemma {:induction false} MoveKeeps(uids: seq<nat>, rs: seq<SeqRange>, useUid: bool, delta: nat)
    ensures var m := MoveRanges(uids, rs, useUid, delta); multiset(m.moved) + multiset(m.rest) == multiset(uids)
    decreases |rs|
  {
    if rs == [] {
      assert MoveRanges(uids, rs, useUid, delta).moved == [];
    } else {
      var m := RangeMask(uids, rs[0], useUid, delta);
      var out, kept := Chosen(uids, m), Kept(uids, m);
      MoveKeeps(kept, rs[1..], useUid, delta + |out|);
      var more := MoveRanges(kept, rs[1..], useUid, delta + |out|);
      assert MoveRanges(uids, rs, useUid, delta).moved == out + more.moved;
      ChosenAndKept(uids, m);
      Regroup(uids, out, kept, more.moved, more.rest);
    }
  }

  lemma Regroup<T>(all: seq<T>, out: seq<T>, kept: seq<T>, moved: seq<T>, rest: seq<T>)
    requires multiset(out) + multiset(kept) == multiset(all)
    requires multiset(moved) + multiset(rest) == multiset(kept)
    ensures multiset(out + moved) + multiset(rest) == multiset(all)
  {
  }

  lemma CancelRest<T>(a: multiset<T>, b: multiset<T>, rest: multiset<T>, all: multiset<T>)
    requires a + rest == all && b + rest == all
    ensures a == b
  {
    assert a == all - rest && b == all - rest;
  }

  /** By UID the ranges may come in any order and overlap: exactly the messages
      whose UIDs are in the set leave, each once, and the reported numbers
      replay to the others. */
  lemma MoveByUid(uids: seq<nat>, rs: seq<SeqRange>)
    requires Fits(uids)
    ensures var m := MoveRanges(uids, rs, true, 0);
      && m.rest == Kept(uids, UidMask(uids, rs))
      && multiset(m.moved) == multiset(Chosen(uids, UidMask(uids, rs)))
      && Replays(uids, m.nums, m.rest)
  {
    var m := MoveRanges(uids, rs, true, 0);
    RestByUid(uids, rs, 0);
    MoveRangesReplay(uids, rs, true, 0);
    MoveKeeps(uids, rs, true, 0);
    ChosenAndKept(uids, UidMask(uids, rs));
    CancelRest(multiset(m.moved), multiset(Chosen(uids, UidMask(uids, rs))), multiset(m.rest), multiset(uids));
  }
}
