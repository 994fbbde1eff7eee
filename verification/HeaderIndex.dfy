/** A header as its entries in order and, beside them, the values by key
    (email/header.go): the index is made when it is first needed. */
module HeaderIndex {
  import opened Bytes
  import opened Wrappers
  import opened HeaderFold

  type Index = map<seq<byte>, seq<seq<byte>>>

  /** The values under a key, in the order of the entries. */
  function Values(es: seq<Entry>, k: seq<byte>): seq<seq<byte>> {
    if es == [] then []
    else (if es[0].key == k then [es[0].value] else []) + Values(es[1..], k)
  }

  function Without(es: seq<Entry>, k: seq<byte>): seq<Entry> {
    if es == [] then []
    else (if es[0].key == k then [] else [es[0]]) + Without(es[1..], k)
  }

  function Listed(ix: Index, k: seq<byte>): seq<seq<byte>> { if k in ix then ix[k] else [] }

  function Push(ix: Index, e: Entry): Index { ix[e.key := Listed(ix, e.key) + [e.value]] }

  function First(vs: seq<seq<byte>>): Option<seq<byte>> { if vs == [] then None else Some(vs[0]) }

  /** The index lists just what is in the entries. */
  ghost predicate Agrees(es: seq<Entry>, ix: Index) {
    forall k :: Listed(ix, k) == Values(es, k)
  }

  lemma {:induction false} ValuesMore(es: seq<Entry>, e: Entry, k: seq<byte>)
    ensures Values(es + [e], k) == Values(es, k) + if e.key == k then [e.value] else []
  {
    if es == [] {
      assert [] + [e] == [e];
    } else {
      ValuesMore(es[1..], e, k);
      assert (es + [e])[1..] == es[1..] + [e];
    }
  }

  lemma PushAgrees(es: seq<Entry>, ix: Index, e: Entry)
    requires Agrees(es, ix)
    ensures Agrees(es + [e], Push(ix, e))
  {
    forall k
      ensures Listed(Push(ix, e), k) == Values(es + [e], k)
    {
      ValuesMore(es, e, k);
    }
  }

  lemma {:induction false} ValuesWithout(es: seq<Entry>, gone: seq<byte>, k: seq<byte>)
    ensures Values(Without(es, gone), k) == if k == gone then [] else Values(es, k)
  {
    if es != [] {
      ValuesWithout(es[1..], gone, k);
      var t := Without(es[1..], gone);
      assert ([es[0]] + t)[1..] == t && [] + t == t;
    }
  }

  lemma RemoveAgrees(es: seq<Entry>, ix: Index, k: seq<byte>)
    requires Agrees(es, ix)
    ensures Agrees(Without(es, k), ix - {k})
  {
    forall j
      ensures Listed(ix - {k}, j) == Values(Without(es, k), j)
    {
      ValuesWithout(es, k, j);
    }
  }

  /** An index begun with one entry is right only if there were no others. */
  lemma {:induction false} BegunExact(es: seq<Entry>, e: Entry)
    ensures Agrees(es + [e], Push(map[], e)) <==> es == []
  {
    var ix := Push(map[], e);
    if es == [] {
      assert Agrees([], map[]);
      PushAgrees([], map[], e);
    } else {
      var k := es[0].key;
      ValuesMore(es, e, k);
      assert |Values(es, k)| >= 1;
      assert k != e.key ==> Listed(ix, k) == [];
      assert k == e.key ==> |Listed(ix, k)| == 1;
      assert Listed(ix, k) != Values(es + [e], k);
    }
  }

  // ------------------------------------------------------------ the text

  /** The header as it is written, if each of its entries can be. */
  function HeaderText(es: seq<Entry>): Option<seq<byte>> {
    if es == [] then Some(CRLF)
    else
      var more := HeaderText(es[1..]);
      if FoldEntry(es[0].key, es[0].value).Panics? || more.None? then None
      else Some(Text(es[0].key, es[0].value) + more.value)
  }

  /** It fails only at a value under a key of 80 bytes or more. */
  lemma {:induction false} HeaderTextExact(es: seq<Entry>)
    ensures HeaderText(es).Some? <==> forall e | e in es :: |e.key| < 80 || e.value == []
  {
    if es != [] {
      EncodePanics(es[0].key, es[0].value);
      HeaderTextExact(es[1..]);
      hide HeaderText, FoldEntry;
      assert es == [es[0]] + es[1..];
    }
  }

  // ----------------------------------------------------------- the header

  class Header {
    var entries: seq<Entry>
    var index: Option<Index>

    /** What index there is, is right. */
    ghost predicate Valid()
      reads this
    {
      index.Some? ==> Agrees(entries, index.value)
    }

    constructor (entries: seq<Entry>)
      ensures Valid() && this.entries == entries && index.None?
    {
      this.entries := entries;
      index := None;
    }

    /** Adding to a header without an index begins one with this entry alone. */
    method Add(k: seq<byte>, v: seq<byte>)
      modifies this
      ensures entries == old(entries) + [Entry(k, v)]
      ensures index == Some(Push(if old(index).Some? then old(index).value else map[], Entry(k, v)))
      ensures old(Valid()) ==> (Valid() <==> old(index).Some? || old(entries) == [])
    {
      var e := Entry(k, v);
      if old(Valid()) {
        if index.Some? {
          PushAgrees(entries, index.value, e);
        } else {
          BegunExact(entries, e);
        }
      }
      entries := entries + [e];
      if index.None? {
        index := Some(map[]);
      }
      index := Some(index.value[k := Listed(index.value, k) + [v]]);
    }

    method MakeIndex()
      requires index.None?
      modifies `index
      ensures index.Some? && Agrees(entries, index.value)
    {
      var ix: Index := map[];
      for i := 0 to |entries|
        invariant Agrees(entries[..i], ix)
      {
        PushAgrees(entries[..i], ix, entries[i]);
        assert entries[..i + 1] == entries[..i] + [entries[i]];
        ix := ix[entries[i].key := Listed(ix, entries[i].key) + [entries[i].value]];
      }
      assert entries[..|entries|] == entries;
      index := Some(ix);
    }

    /** The first value under the key. */
    method Get(k: seq<byte>) returns (v: Option<seq<byte>>)
      modifies `index
      ensures index.Some? && (old(index).Some? ==> index == old(index))
      ensures v == First(Listed(index.value, k))
      ensures old(Valid()) ==> Valid() && v == First(Values(entries, k))
    {
      if index.None? {
        MakeIndex();
      }
      var vals := Listed(index.value, k);
      v := if |vals| == 0 then None else Some(vals[0]);
    }

    method Del(k: seq<byte>)
      modifies this
      ensures entries == Without(old(entries), k) && Values(entries, k) == []
      ensures index == if old(index).Some? then Some(old(index).value - {k}) else None
      ensures old(Valid()) ==> Valid()
    {
      if old(Valid()) && index.Some? {
        RemoveAgrees(entries, index.value, k);
      }
      ValuesWithout(entries, k, k);
      var e: seq<Entry> := [];
      assert entries[0..] == entries && [] + Without(entries, k) == Without(entries, k);
      for i := 0 to |entries|
        invariant entries == old(entries) && index == old(index)
        invariant e + Without(entries[i..], k) == Without(entries, k)
      {
        assert entries[i..][1..] == entries[i + 1..];
        if entries[i].key != k {
          Assoc(e, [entries[i]], Without(entries[i + 1..], k));
          e := e + [entries[i]];
        } else {
          assert [] + Without(entries[i + 1..], k) == Without(entries[i + 1..], k);
        }
      }
      assert entries[|entries|..] == [] && e + [] == e;
      entries := e;
      if index.Some? {
        index := Some(index.value - {k});
      }
    }

    /** On a writer that never fails. */
    method Encode() returns (text: seq<byte>, panicked: bool)
      ensures panicked <==> HeaderText(entries).None?
      ensures !panicked ==> Some(text) == HeaderText(entries)
    {
      text := [];
      ghost var whole := HeaderText(entries);
      assert entries[0..] == entries;
      for i := 0 to |entries|
        invariant var rest := HeaderText(entries[i..]);
          (whole.None? <==> rest.None?) && (whole.Some? ==> whole.value == text + rest.value)
      {
        assert entries[i..][1..] == entries[i + 1..];
        var line, n, bad := HeaderFold.Encode(entries[i].key, entries[i].value);
        if bad {
          return text, true;
        }
        var more := HeaderText(entries[i + 1..]);
        if more.Some? {
          Assoc(text, line, more.value);
        }
        text := text + line;
      }
      text := text + CRLF;
      panicked := false;
    }
  }

  // ------------------------------------------------------------ whole runs

  datatype Op = Add(e: Entry) | Del(k: seq<byte>) | Get(k: seq<byte>)

  /** The entries after a run of operations. */
  function Apply(es: seq<Entry>, ops: seq<Op>): seq<Entry>
    decreases |ops|
  {
    if ops == [] then es
    else
      match ops[0]
      case Add(e) => Apply(es + [e], ops[1..])
      case Del(k) => Apply(Without(es, k), ops[1..])
      case Get(_) => Apply(es, ops[1..])
  }

  /** What is left of entries when those of some keys are deleted. */
  function Spared(es: seq<Entry>, ops: seq<Op>): seq<Entry>
    decreases |ops|
  {
    if ops == [] then es
    else Spared(if ops[0].Del? then Without(es, ops[0].k) else es, ops[1..])
  }

  /** The entries that no lookup will find: those that were there when the first
      one was added without a lookup before, and have not been deleted since. */
  function Forgotten(es: seq<Entry>, ops: seq<Op>): seq<Entry>
    decreases |ops|
  {
    if ops == [] then []
    else
      match ops[0]
      case Add(_) => Spared(es, ops[1..])
      case Del(k) => Forgotten(Without(es, k), ops[1..])
      case Get(_) => []
  }

  lemma {:induction false} WithoutMore(a: seq<Entry>, b: seq<Entry>, k: seq<byte>)
    ensures Without(a + b, k) == Without(a, k) + Without(b, k)
    decreases |a|
  {
    if a == [] {
      assert a + b == b && [] + Without(b, k) == Without(b, k);
    } else {
      assert (a + b)[1..] == a[1..] + b;
      WithoutMore(a[1..], b, k);
      Assoc(if a[0].key == k then [] else [a[0]], Without(a[1..], k), Without(b, k));
    }
  }

  lemma {:induction false} ValuesJoin(a: seq<Entry>, b: seq<Entry>, k: seq<byte>)
    ensures Values(a + b, k) == Values(a, k) + Values(b, k)
    decreases |a|
  {
    if a == [] {
      assert a + b == b && [] + Values(b, k) == Values(b, k);
    } else {
      assert (a + b)[1..] == a[1..] + b;
      ValuesJoin(a[1..], b, k);
      Assoc(if a[0].key == k then [a[0].value] else [], Values(a[1..], k), Values(b, k));
    }
  }

  /** Without an index there are the entries `early`, and none is known to be
      forgotten; with one, it lists `late`. */
  ghost predicate Known(early: seq<Entry>, late: seq<Entry>, index: Option<Index>) {
    if index.Some? then Agrees(late, index.value) else late == []
  }

  /** What a run comes to, from entries of which the index lists the later ones:
      the forgotten ones stay in front. */
  ghost predicate Ends(early: seq<Entry>, late: seq<Entry>, looked: bool, ops: seq<Op>, es: seq<Entry>, lost: seq<Entry>) {
    && es == Apply(early + late, ops)
    && lost == if looked then Spared(early, ops) else Forgotten(early, ops)
  }

  /** The values that a lookup knows, and those there are. */
  lemma LookupExact(lost: seq<Entry>, late: seq<Entry>, k: seq<byte>)
    ensures First(Values(late, k)) == First(Values(lost + late, k))
       <==> Values(lost, k) == [] || (Values(late, k) != [] && Values(late, k)[0] == Values(lost, k)[0])
  {
    ValuesJoin(lost, late, k);
    assert Values(lost, k) == [] ==> [] + Values(late, k) == Values(late, k);
  }

  /** Any run of operations on a header of given entries: what the entries are,
      and that a lookup afterwards finds the first value of those that are not
      forgotten. */
  method RunHeader(es: seq<Entry>, ops: seq<Op>, k: seq<byte>) returns (v: Option<seq<byte>>, entries: seq<Entry>)
    ensures entries == Apply(es, ops)
    ensures var lost := Forgotten(es, ops);
      lost <= entries && v == First(Values(entries[|lost|..], k))
    ensures var lost := Values(Forgotten(es, ops), k);
      v == First(Values(entries, k)) <==> lost == [] || v == Some(lost[0])
  {
    RunExact(es, ops, k);
    var h := new Header(es);
    ghost var early, late, ended := es, [], Apply(es, ops);
    ghost var lost, looked := Forgotten(es, ops), false;
    assert ops[0..] == ops && es + [] == es;
    for i := 0 to |ops|
      invariant fresh(h) && h.entries == early + late
      invariant looked <==> h.index.Some?
      invariant Known(early, late, h.index) && Ends(early, late, looked, ops[i..], ended, lost)
    {
      assert ops[i..][0] == ops[i] && ops[i..][1..] == ops[i + 1..];
      match ops[i] {
        case Add(e) =>
          AddKnown(early, late, h.index, e);
          Assoc(early, late, [e]);
          h.Add(e.key, e.value);
          late := late + [e];
        case Del(key) =>
          DelKnown(early, late, h.index, key);
          WithoutMore(early, late, key);
          h.Del(key);
          early, late := Without(early, key), Without(late, key);
        case Get(key) =>
          GetKnown(early, ops[i..]);
          var x := h.Get(key);
          if !looked {
            early, late := [], early;
            assert early + late == late == late + [];
          }
      }
      looked := h.index.Some?;
    }
    assert ops[|ops|..] == [];
    if !looked {
      assert early + [] == early && [] + early == early;
      early, late := [], early;
    }
    v := h.Get(k);
    entries := h.entries;
    assert entries[|early|..] == late;
  }

  lemma AddKnown(early: seq<Entry>, late: seq<Entry>, index: Option<Index>, e: Entry)
    requires Known(early, late, index)
    ensures Agrees(late + [e], Push(if index.Some? then index.value else map[], e))
  {
    assert index.None? ==> Agrees(late, map[]);
    PushAgrees(late, if index.Some? then index.value else map[], e);
  }

  lemma DelKnown(early: seq<Entry>, late: seq<Entry>, index: Option<Index>, k: seq<byte>)
    requires Known(early, late, index)
    ensures Known(Without(early, k), Without(late, k), if index.Some? then Some(index.value - {k}) else None)
  {
    if index.Some? {
      RemoveAgrees(late, index.value, k);
    }
  }

  lemma {:induction false} SparedNone(ops: seq<Op>)
    ensures Spared([], ops) == []
    decreases |ops|
  {
    if ops != [] {
      SparedNone(ops[1..]);
    }
  }

  lemma GetKnown(early: seq<Entry>, ops: seq<Op>)
    requires ops != [] && ops[0].Get?
    ensures Forgotten(early, ops) == [] == Spared([], ops[1..])
  {
    SparedNone(ops[1..]);
  }

  /** After any run a lookup is right if and only if no forgotten entry has the
      key, or one that is known has it too and begins with the same value. */
  lemma RunExact(es: seq<Entry>, ops: seq<Op>, k: seq<byte>)
    ensures var entries, lost := Apply(es, ops), Forgotten(es, ops);
      && lost <= entries
      && var known := Values(entries[|lost|..], k);
      First(known) == First(Values(entries, k)) <==>
        Values(lost, k) == [] || (known != [] && known[0] == Values(lost, k)[0])
  {
    ForgottenFirst(es, ops);
    var entries, lost := Apply(es, ops), Forgotten(es, ops);
    assert entries == lost + entries[|lost|..];
    LookupExact(lost, entries[|lost|..], k);
  }

  lemma {:induction false} SparedFirst(early: seq<Entry>, late: seq<Entry>, ops: seq<Op>)
    ensures Spared(early, ops) <= Apply(early + late, ops)
    decreases |ops|
  {
    if ops != [] {
      var t := ops[1..];
      match ops[0]
      case Add(e) =>
        Assoc(early, late, [e]);
        SparedFirst(early, late + [e], t);
      case Del(k) =>
        WithoutMore(early, late, k);
        SparedFirst(Without(early, k), Without(late, k), t);
      case Get(_) => SparedFirst(early, late, t);
    }
  }

  lemma {:induction false} ForgottenFirst(es: seq<Entry>, ops: seq<Op>)
    ensures Forgotten(es, ops) <= Apply(es, ops)
    decreases |ops|
  {
    if ops != [] {
      match ops[0]
      case Add(e) => SparedFirst(es, [e], ops[1..]);
      case Del(k) => ForgottenFirst(Without(es, k), ops[1..]);
      case Get(_) =>
    }
  }

  /** There are no entries when the first is added, or something was looked up
      before. */
  predicate Begins(es: seq<Entry>, ops: seq<Op>)
    decreases |ops|
  {
    es == [] || ops == [] || ops[0].Get? || (ops[0].Del? && Begins(Without(es, ops[0].k), ops[1..]))
  }

  /** A run that begins well forgets nothing. */
  lemma {:induction false} BeginsWell(es: seq<Entry>, ops: seq<Op>)
    requires Begins(es, ops)
    ensures Forgotten(es, ops) == []
    decreases |ops|
  {
    if ops != [] {
      match ops[0]
      case Add(_) => SparedNone(ops[1..]);
      case Del(k) => BeginsWell(Without(es, k), ops[1..]);
      case Get(_) =>
    }
  }

  /** One that does not forgets what it does not delete: an entry there from the
      start is not found after another one is added. */
  lemma AddForgets(e: Entry, f: Entry, ops: seq<Op>)
    requires e.key != f.key && forall i | 0 <= i < |ops| :: ops[i].Del? ==> ops[i].k != e.key
    ensures e in Forgotten([e], [Add(f)] + ops)
  {
    assert ([Add(f)] + ops)[1..] == ops;
    SparedOther(e, ops);
  }

  lemma {:induction false} SparedOther(e: Entry, ops: seq<Op>)
    requires forall i | 0 <= i < |ops| :: ops[i].Del? ==> ops[i].k != e.key
    ensures Spared([e], ops) == [e]
    decreases |ops|
  {
    if ops != [] {
      assert ops[0].Del? ==> Without([e], ops[0].k) == [e] + [];
      assert [e] + [] == [e];
      SparedOther(e, ops[1..]);
    }
  }
}
