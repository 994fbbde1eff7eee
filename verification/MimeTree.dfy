/** The MIME tree a message is built into (email/msgbuilder/tree.go) and the
    flat list of parts it is cleaved into again (email/msgcleaver). */
module MimeTree {
  import opened Bytes
  import opened Wrappers

  /** A part of a message; `encoding` is set only if it was fixed beforehand. */
  datatype Part = Part(name: string, isBody: bool, isAttachment: bool, ctype: string, cid: string, encoding: string,
                       content: Option<seq<byte>>)

  /** The headers of a leaf, taken apart: empty strings are absent. */
  datatype Header = Header(ctype: string, name: string, cid: string, attachment: bool, encoding: string)

  datatype Kind = Mixed | Alternative | Related

  /** A boundary is known by which draw of the message's random source it is. */
  datatype Node = Leaf(hdr: Header, part: Part) | Multi(kind: Kind, boundary: nat, kids: seq<Node>)

  const TEXT_HTML := "text/html"
  const TEXT_PLAIN := "text/plain"

  // ----------------------------------------------------------------- headers

  function LowerChar(c: char): char { if 'A' <= c <= 'Z' then c + 32 as char else c }

  function Lower(s: string): (r: string)
    ensures |r| == |s|
  {
    seq(|s|, i requires 0 <= i < |s| => LowerChar(s[i]))
  }

  predicate IsBlank(c: char) { c == ' ' || '\t' <= c <= '\r' }

  function Trim(s: string): (r: string) {
    if s != "" && IsBlank(s[0]) then Trim(s[1..])
    else if s != "" && IsBlank(s[|s| - 1]) then Trim(s[..|s| - 1])
    else s
  }

  /** Up to the first `c`. */
  function Before(s: string, c: char): string {
    if s == "" || s[0] == c then "" else [s[0]] + Before(s[1..], c)
  }

  /** Behind the first `c`. */
  function After(s: string, c: char): string {
    if s == "" then "" else if s[0] == c then s[1..] else After(s[1..], c)
  }

  predicate IsToken(s: string) {
    s != "" && forall c | c in s :: '!' <= c <= '~' && c !in "()<>@,;:\\\"/[]?="
  }

  /** mime.ParseMediaType without the parameters: in lower case, or an error. */
  function MediaType(t: string): Option<string> {
    var m := Trim(Lower(Before(t, ';')));
    var major := Before(m, '/');
    if IsToken(major) && (major == m || IsToken(After(m, '/'))) then Some(m) else None
  }

  predicate IsMultipart(t: string) {
    MediaType(t).Some? && |"multipart/"| <= |MediaType(t).value| && MediaType(t).value[..|"multipart/"|] == "multipart/"
  }

  predicate Ascii(c: seq<byte>) { forall i | 0 <= i < |c| :: 0 < c[i] < 0x80 }

  /** No line, without its line end, is longer than 120 bytes. */
  predicate ShortLines(c: seq<byte>)
    decreases |c|
  {
    var i := IndexByte(c, LF);
    if i == -1 then |c| <= 120
    else (if 0 < i && c[i - 1] == CR then i - 1 else i) <= 120 && ShortLines(c[i + 1..])
  }

  /** The media type the builder finds in the header it has begun: with
      parameters, whether a charset, a name or its own, in lower case. */
  function TypeSeen(p: Part, name: string): string {
    if p.ctype == TEXT_PLAIN || p.ctype == TEXT_HTML || (name != "" && p.ctype != "") || ';' in p.ctype
    then Trim(Lower(Before(p.ctype, ';')))
    else p.ctype
  }

  function EncodingOf(p: Part, name: string): string {
    if p.encoding != "" then p.encoding
    else if p.content.None? then ""
    else
      var c, t := p.content.value, TypeSeen(p, name);
      if Ascii(c) || t == TEXT_PLAIN || t == TEXT_HTML then
        if Ascii(c) && ShortLines(c) then "7bit" else "quoted-printable"
      else "base64"
  }

  /** A name, or else the content ID in its place. */
  function NameOf(p: Part): string { if p.name == "" then p.cid else p.name }

  function HeaderOf(p: Part): Header {
    Header(p.ctype, NameOf(p), p.cid, p.isAttachment, EncodingOf(p, NameOf(p)))
  }

  /** What can be written as a header at all. */
  predicate Writable(p: Part) {
    '"' !in p.cid && '"' !in NameOf(p) && (p.encoding != "" || p.content.Some?)
  }

  // ---------------------------------------------------------------- the tree

  function Decimal(n: nat): string {
    if n < 10 then ["0123456789"[n]] else Decimal(n / 10) + ["0123456789"[n % 10]]
  }

  /** A part that is no body has a name. */
  function Named(p: Part, i: nat): Part {
    if !p.isBody && p.name == "" then p.(name := "attachment-" + Decimal(i)) else p
  }

  function NameAll(ps: seq<Part>, i: nat): (r: seq<Part>)
    ensures |r| == |ps|
  {
    if ps == [] then [] else [Named(ps[0], i)] + NameAll(ps[1..], i + 1)
  }

  function Bodies(ps: seq<Part>): seq<Part> {
    if ps == [] then []
    else if ps[0].isBody then [ps[0]] + Bodies(ps[1..])
    else Bodies(ps[1..])
  }

  function Relateds(ps: seq<Part>): seq<Part> {
    if ps == [] then []
    else if !ps[0].isBody && !ps[0].isAttachment then [ps[0]] + Relateds(ps[1..])
    else Relateds(ps[1..])
  }

  function Attachments(ps: seq<Part>): seq<Part> {
    if ps == [] then []
    else if !ps[0].isBody && ps[0].isAttachment then [ps[0]] + Attachments(ps[1..])
    else Attachments(ps[1..])
  }

  function LeafOf(p: Part): Node { Leaf(HeaderOf(p), p) }

  function Leaves(ps: seq<Part>): (r: seq<Node>)
    ensures |r| == |ps|
  {
    if ps == [] then [] else [LeafOf(ps[0])] + Leaves(ps[1..])
  }

  /** A body and what goes with it; `k` boundaries are drawn already. */
  function WithRelated(b: Part, rel: seq<Part>, k: nat): Node {
    if rel == [] then LeafOf(b) else Multi(Related, k, [LeafOf(b)] + Leaves(rel))
  }

  /** Among several bodies the first HTML one takes the related parts. */
  function Choices(bs: seq<Part>, rel: seq<Part>, k: nat): (r: seq<Node>)
    ensures |r| == |bs|
    decreases |bs|
  {
    if bs == [] then []
    else if bs[0].ctype == TEXT_HTML
    then [WithRelated(bs[0], rel, k)] + Choices(bs[1..], [], if rel == [] then k else k + 1)
    else [LeafOf(bs[0])] + Choices(bs[1..], rel, k)
  }

  predicate HasHtml(bs: seq<Part>) { exists b :: b in bs && b.ctype == TEXT_HTML }

  /** Whether the related parts find a place. */
  predicate Placed(bs: seq<Part>, rel: seq<Part>) { rel != [] && (|bs| == 1 || HasHtml(bs)) }

  function BodyNode(bs: seq<Part>, rel: seq<Part>): Node
    requires bs != []
  {
    if |bs| == 1 then WithRelated(bs[0], rel, 0) else Multi(Alternative, 0, Choices(bs, rel, 1))
  }

  /** The boundaries drawn for it. */
  function Drawn(bs: seq<Part>, rel: seq<Part>): nat {
    (if |bs| > 1 then 1 else 0) + (if Placed(bs, rel) then 1 else 0)
  }

  function Tree(ps: seq<Part>): Node
    requires Bodies(ps) != []
  {
    var bs, rel, att := Bodies(ps), Relateds(ps), Attachments(ps);
    var n := BodyNode(bs, rel);
    if att == [] then n else Multi(Mixed, Drawn(bs, rel), [n] + Leaves(att))
  }

  function PartsOf(n: Node): seq<Part>
    decreases n
  {
    match n
    case Leaf(_, p) => [p]
    case Multi(_, _, kids) => PartsOfAll(kids)
  }

  function PartsOfAll(ns: seq<Node>): seq<Part>
    decreases ns
  {
    if ns == [] then [] else PartsOf(ns[0]) + PartsOfAll(ns[1..])
  }

  // ---------------------------------------------------------------- cleaving

  function Jpeg(t: string): string { if t == "image/jpg" then "image/jpeg" else t }

  /** The media type of a leaf that is read, if it has one. */
  function Norm(t: string): string {
    match MediaType(t)
    case Some(m) => Jpeg(m)
    case None => t
  }

  /** One leaf of a message that is read: what it is depends on the kind of
      container it is in and on its place there. */
  function Classify(hdr: Header, content: Option<seq<byte>>, parent: Option<Kind>, i: nat): Part {
    var isBody := parent.None? || parent == Some(Alternative) || i == 0;
    Part(hdr.name, isBody, hdr.attachment, Norm(hdr.ctype), hdr.cid, "", content)
  }

  /** A message is cleaved only if each leaf has a media type. */
  predicate Typed(n: Node)
    decreases n, 0
  {
    match n
    case Leaf(hdr, _) => MediaType(hdr.ctype).Some?
    case Multi(_, _, kids) => TypedAll(kids)
  }

  predicate TypedAll(ns: seq<Node>)
    decreases ns, 1
  {
    ns == [] || (Typed(ns[0]) && TypedAll(ns[1..]))
  }

  /** No leaf looks like a container. */
  predicate Apart(n: Node)
    decreases n, 0
  {
    match n
    case Leaf(hdr, _) => !IsMultipart(hdr.ctype)
    case Multi(_, _, kids) => ApartAll(kids)
  }

  predicate ApartAll(ns: seq<Node>)
    decreases ns, 1
  {
    ns == [] || (Apart(ns[0]) && ApartAll(ns[1..]))
  }

  function Flatten(n: Node, parent: Option<Kind>, i: nat): seq<Part>
    decreases n, 0
  {
    match n
    case Leaf(hdr, p) => [Classify(hdr, p.content, parent, i)]
    case Multi(kind, _, kids) => FlattenAll(kids, kind, 0)
  }

  function FlattenAll(ns: seq<Node>, kind: Kind, i: nat): seq<Part>
    decreases ns, 1
  {
    if ns == [] then [] else Flatten(ns[0], Some(kind), i) + FlattenAll(ns[1..], kind, i + 1)
  }

  /** A part as it comes back. */
  function Cleaved(p: Part): Part { p.(name := NameOf(p), ctype := Norm(p.ctype), encoding := "") }

  function CleavedAll(ps: seq<Part>): (r: seq<Part>)
    ensures |r| == |ps|
  {
    if ps == [] then [] else [Cleaved(ps[0])] + CleavedAll(ps[1..])
  }

  lemma {:induction false} CleavedAppend(a: seq<Part>, b: seq<Part>)
    ensures CleavedAll(a + b) == CleavedAll(a) + CleavedAll(b)
    decreases |a|
  {
    if a == [] {
      assert a + b == b;
    } else {
      assert (a + b)[1..] == a[1..] + b;
      CleavedAppend(a[1..], b);
    }
  }

  predicate AllBodies(ps: seq<Part>) { forall p | p in ps :: p.isBody }

  predicate NoBodies(ps: seq<Part>) { forall p | p in ps :: !p.isBody }

  /** Leaves behind the first place of a container are no bodies. */
  lemma {:induction false} FlattenLeaves(ps: seq<Part>, kind: Kind, i: nat)
    requires i > 0 && kind != Alternative && NoBodies(ps)
    ensures FlattenAll(Leaves(ps), kind, i) == CleavedAll(ps)
    ensures PartsOfAll(Leaves(ps)) == ps
    decreases |ps|
  {
    hide EncodingOf, NameOf, Norm;
    if ps != [] {
      FlattenLeaves(ps[1..], kind, i + 1);
      assert ps[0] in ps && forall p | p in ps[1..] :: p in ps;
      assert Leaves(ps)[1..] == Leaves(ps[1..]);
      assert ps == [ps[0]] + ps[1..];
    }
  }

  lemma FlattenWith(b: Part, rel: seq<Part>, k: nat, parent: Option<Kind>, i: nat)
    requires b.isBody && NoBodies(rel)
    requires parent.None? || parent == Some(Alternative) || i == 0
    ensures Flatten(WithRelated(b, rel, k), parent, i) == CleavedAll([b] + rel)
    ensures PartsOf(WithRelated(b, rel, k)) == [b] + rel
  {
    var one := LeafOf(b);
    ConsParts(b, rel);
    if rel == [] {
      assert [b] + rel == [b];
      assert [Cleaved(b)] + [] == [Cleaved(b)];
    } else {
      FlattenLeaves(rel, Related, 1);
      assert ([one] + Leaves(rel))[1..] == Leaves(rel);
      var r := FlattenAll([one] + Leaves(rel), Related, 0);
      assert Flatten(one, Some(Related), 0) == [Cleaved(b)];
      assert r == [Cleaved(b)] + CleavedAll(rel);
      assert PartsOfAll([one] + Leaves(rel)) == [b] + rel;
    }
  }

  lemma ConsParts(b: Part, rel: seq<Part>)
    ensures CleavedAll([b] + rel) == [Cleaved(b)] + CleavedAll(rel)
  {
    assert ([b] + rel)[1..] == rel;
  }

  lemma {:induction false} FlattenChoices(bs: seq<Part>, rel: seq<Part>, k: nat, i: nat)
    requires AllBodies(bs) && NoBodies(rel)
    ensures FlattenAll(Choices(bs, rel, k), Alternative, i) == CleavedAll(PartsOfAll(Choices(bs, rel, k)))
    decreases |bs|
  {
    hide Norm, NameOf, EncodingOf;
    if bs != [] {
      assert bs[0] in bs && forall p | p in bs[1..] :: p in bs;
      var html := bs[0].ctype == TEXT_HTML;
      var rel0 := if html then rel else [];
      var n, more := WithRelated(bs[0], rel0, k),
        Choices(bs[1..], if html then [] else rel, if html && rel != [] then k + 1 else k);
      FlattenChoices(bs[1..], if html then [] else rel, if html && rel != [] then k + 1 else k, i + 1);
      FlattenWith(bs[0], rel0, k, Some(Alternative), i);
      assert Choices(bs, rel, k) == [n] + more;
      assert ([n] + more)[1..] == more;
      CleavedAppend(PartsOf(n), PartsOfAll(more));
    }
  }

  lemma {:induction false} Sorted(ps: seq<Part>)
    ensures AllBodies(Bodies(ps)) && NoBodies(Relateds(ps)) && NoBodies(Attachments(ps))
  {
    if ps != [] {
      Sorted(ps[1..]);
    }
  }

  /** Cleaving a built tree recovers every leaf: its place tells whether it is
      a body, its header whether it is an attachment. */
  lemma FlattenTree(ps: seq<Part>)
    requires Bodies(ps) != []
    ensures Flatten(Tree(ps), None, 0) == CleavedAll(PartsOf(Tree(ps)))
  {
    var bs, rel, att := Bodies(ps), Relateds(ps), Attachments(ps);
    Sorted(ps);
    var n := BodyNode(bs, rel);
    var parent := if att == [] then None else Some(Mixed);
    assert Flatten(n, parent, 0) == CleavedAll(PartsOf(n)) by {
      if |bs| == 1 {
        assert bs[0] in bs;
        FlattenWith(bs[0], rel, 0, parent, 0);
      } else {
        FlattenChoices(bs, rel, 1, 0);
      }
    }
    if att != [] {
      FlattenLeaves(att, Mixed, 1);
      assert ([n] + Leaves(att))[1..] == Leaves(att);
      CleavedAppend(PartsOf(n), att);
    }
  }

  // ------------------------------------------------------------ conservation

  lemma {:induction false} ChoicesParts(bs: seq<Part>, rel: seq<Part>, k: nat)
    requires AllBodies(bs) && NoBodies(rel)
    ensures multiset(PartsOfAll(Choices(bs, rel, k)))
         == multiset(bs) + if HasHtml(bs) then multiset(rel) else multiset{}
    decreases |bs|
  {
    hide HeaderOf, LeafOf, Flatten, CleavedAll, WithRelated;
    if bs != [] {
      var b, t := bs[0], bs[1..];
      assert b in bs && forall p | p in t :: p in bs;
      assert bs == [b] + t;
      var html := b.ctype == TEXT_HTML;
      var rel0, rel1, k1 := if html then rel else [], if html then [] else rel, if html && rel != [] then k + 1 else k;
      ChoicesParts(t, rel1, k1);
      FlattenWith(b, rel0, k, Some(Alternative), 0);
      ChoicesCons(bs, rel, k);
      HtmlCons(b, t);
      hide Choices, HasHtml, WithRelated, PartsOfAll;
    }
  }

  lemma {:induction false} SplitParts(ps: seq<Part>)
    ensures multiset(Bodies(ps)) + multiset(Relateds(ps)) + multiset(Attachments(ps)) == multiset(ps)
  {
    if ps != [] {
      SplitParts(ps[1..]);
      assert ps == [ps[0]] + ps[1..];
    }
  }

  /** Every part is a leaf exactly once, if and only if there is one body, or
      an HTML one, or nothing related; otherwise just the related parts are
      lost. */
  lemma PartsConserved(ps: seq<Part>)
    requires Bodies(ps) != []
    ensures multiset(PartsOf(Tree(ps))) == multiset(ps)
       <==> |Bodies(ps)| == 1 || HasHtml(Bodies(ps)) || Relateds(ps) == []
    ensures multiset(PartsOf(Tree(ps))) + (if |Bodies(ps)| == 1 || HasHtml(Bodies(ps)) then multiset{} else multiset(Relateds(ps)))
         == multiset(ps)
  {
    var bs, rel, att := Bodies(ps), Relateds(ps), Attachments(ps);
    SplitParts(ps);
    TreeParts(ps);
    BodyParts(ps);
    hide *;
    CountParts(multiset(bs), multiset(rel), multiset(att), |bs| == 1 || HasHtml(bs));
    EmptyCount(rel);
  }

  lemma EmptyCount(ps: seq<Part>)
    ensures multiset(ps) == multiset{} <==> ps == []
  {
    if ps != [] {
      assert ps[0] in multiset(ps);
    }
  }

  lemma CountParts(b: multiset<Part>, r: multiset<Part>, a: multiset<Part>, placed: bool)
    ensures b + (if placed then r else multiset{}) + a == b + r + a <==> placed || r == multiset{}
    ensures b + (if placed then r else multiset{}) + a + (if placed then multiset{} else r) == b + r + a
  {
    if !placed && b + a == b + r + a {
      forall x: Part
        ensures r[x] == 0
      {
        assert (b + a)[x] == (b + r + a)[x];
      }
      assert r == multiset{};
    }
  }

  lemma BodyParts(ps: seq<Part>)
    requires Bodies(ps) != []
    ensures var bs, rel := Bodies(ps), Relateds(ps);
      multiset(PartsOf(BodyNode(bs, rel))) ==
      multiset(bs) + if |bs| == 1 || HasHtml(bs) then multiset(rel) else multiset{}
  {
    var bs, rel := Bodies(ps), Relateds(ps);
    Sorted(ps);
    if |bs| == 1 {
      assert bs == [bs[0]] && bs[0] in bs;
      FlattenWith(bs[0], rel, 0, None, 0);
    } else {
      ChoicesParts(bs, rel, 1);
    }
  }

  lemma TreeParts(ps: seq<Part>)
    requires Bodies(ps) != []
    ensures multiset(PartsOf(Tree(ps)))
         == multiset(PartsOf(BodyNode(Bodies(ps), Relateds(ps)))) + multiset(Attachments(ps))
  {
    var n, att := BodyNode(Bodies(ps), Relateds(ps)), Attachments(ps);
    Sorted(ps);
    if att != [] {
      FlattenLeaves(att, Mixed, 1);
      assert ([n] + Leaves(att))[1..] == Leaves(att);
    }
  }

  // -------------------------------------------------------------- rebuilding

  /** What of a tree is written: everything but the parts themselves. */
  datatype Shape = SLeaf(hdr: Header) | SMulti(kind: Kind, boundary: nat, kids: seq<Shape>)

  function Erase(n: Node): Shape
    decreases n
  {
    match n
    case Leaf(hdr, _) => SLeaf(hdr)
    case Multi(kind, k, kids) => SMulti(kind, k, EraseAll(kids))
  }

  function EraseAll(ns: seq<Node>): (r: seq<Shape>)
    ensures |r| == |ns|
    decreases ns
  {
    if ns == [] then [] else [Erase(ns[0])] + EraseAll(ns[1..])
  }

  /** The same with the headers the cleaved parts would get. */
  function Again(n: Node): Shape
    decreases n
  {
    match n
    case Leaf(_, p) => SLeaf(HeaderOf(Cleaved(p)))
    case Multi(kind, k, kids) => SMulti(kind, k, AgainAll(kids))
  }

  function AgainAll(ns: seq<Node>): (r: seq<Shape>)
    ensures |r| == |ns|
    decreases ns
  {
    if ns == [] then [] else [Again(ns[0])] + AgainAll(ns[1..])
  }

  /** A part whose header can be read, and does not change by it. */
  predicate Steady(p: Part) { MediaType(p.ctype).Some? && HeaderOf(Cleaved(p)) == HeaderOf(p) }

  lemma SteadyExact(p: Part)
    ensures Steady(p) <==>
      && MediaType(p.ctype) == Some(p.ctype) && p.ctype != "image/jpg"
      && (p.encoding == "" || p.encoding == EncodingOf(p.(encoding := ""), NameOf(p)))
  {
    hide Ascii, ShortLines, Lower, MediaType, Trim, Before;
    var q := Cleaved(p);
    assert NameOf(q) == NameOf(p);
    assert "image/jpeg" != "image/jpg" by { assert |"image/jpeg"| != |"image/jpg"|; }
    if q.ctype == p.ctype {
      assert EncodingOf(q, NameOf(q)) == EncodingOf(p.(encoding := ""), NameOf(p));
      NormTwice(p.ctype);
    }
  }

  /** A media type that was read is one, and is read as itself. */
  lemma MediaTypeTwice(t: string)
    requires MediaType(t).Some?
    ensures MediaType(MediaType(t).value) == MediaType(t)
  {
    hide Trim, Lower, Before, After;
    var m := MediaType(t).value;
    LowerTrimmed(Before(t, ';'));
    SlashSplits(m);
    var major, minor := Before(m, '/'), After(m, '/');
    assert major[0] in major && major[|major| - 1] in major;
    if major != m {
      assert minor[|minor| - 1] in minor;
    }
    NoneBefore(m, ';');
    TrimNone(m);
  }

  lemma {:induction false} SlashSplits(s: string)
    ensures Before(s, '/') == s || s == Before(s, '/') + "/" + After(s, '/')
  {
    if s != "" && s[0] != '/' {
      SlashSplits(s[1..]);
      assert s == [s[0]] + s[1..];
    }
  }

  lemma {:induction false} NoneBefore(s: string, c: char)
    requires c !in s
    ensures Before(s, c) == s
  {
    if s != "" {
      NoneBefore(s[1..], c);
      assert s == [s[0]] + s[1..];
    }
  }

  lemma TrimNone(s: string)
    requires s != "" && !IsBlank(s[0]) && !IsBlank(s[|s| - 1])
    ensures Trim(s) == s
  {
  }

  lemma {:induction false} LowerTrimmed(s: string)
    ensures var r := Trim(Lower(s)); Lower(r) == r && (r != "" ==> !IsBlank(r[0]) && !IsBlank(r[|r| - 1]))
  {
    TrimWithin(Lower(s));
  }

  lemma {:induction false} TrimWithin(s: string)
    requires Lower(s) == s
    ensures var r := Trim(s); Lower(r) == r && (r != "" ==> !IsBlank(r[0]) && !IsBlank(r[|r| - 1]))
    decreases |s|
  {
    if s != "" && IsBlank(s[0]) {
      assert Lower(s[1..]) == Lower(s)[1..];
      TrimWithin(s[1..]);
    } else if s != "" && IsBlank(s[|s| - 1]) {
      assert Lower(s[..|s| - 1]) == Lower(s)[..|s| - 1];
      TrimWithin(s[..|s| - 1]);
    }
  }

  lemma NormTwice(t: string)
    ensures Norm(Norm(t)) == Norm(t)
    ensures MediaType(t).Some? ==> MediaType(Norm(t)) == Some(Norm(t))
  {
    if MediaType(t).Some? {
      MediaTypeTwice(t);
      JpegType();
      hide MediaType;
      assert "image/jpeg" != "image/jpg" by { assert |"image/jpeg"| != |"image/jpg"|; }
    }
  }

  lemma JpegType()
    ensures MediaType("image/jpeg") == Some("image/jpeg")
  {
    var t := "image/jpeg";
    JpegLetters();
    hide IsToken, Lower, Before, After, Trim, IsBlank;
    NoneBefore(t, ';');
    TrimNone(t);
    AtSlash("image", "jpeg");
    assert "image" + "/" + "jpeg" == t;
  }

  lemma JpegLetters()
    ensures IsToken("image") && IsToken("jpeg") && Lower("image/jpeg") == "image/jpeg"
    ensures ';' !in "image/jpeg" && '/' !in "image" && !IsBlank('i') && !IsBlank('g')
  {
  }

  lemma {:induction false} AtSlash(a: string, b: string)
    requires '/' !in a
    ensures Before(a + "/" + b, '/') == a && After(a + "/" + b, '/') == b
  {
    if a != "" {
      AtSlash(a[1..], b);
      assert (a + "/" + b)[1..] == a[1..] + "/" + b;
      assert a == [a[0]] + a[1..];
    } else {
      assert (a + "/" + b)[1..] == b;
    }
  }

  /** Every leaf has its part's header. */
  predicate Built(n: Node)
    decreases n
  {
    match n
    case Leaf(hdr, p) => hdr == HeaderOf(p)
    case Multi(_, _, kids) => BuiltAll(kids)
  }

  predicate BuiltAll(ns: seq<Node>)
    decreases ns
  {
    ns == [] || (Built(ns[0]) && BuiltAll(ns[1..]))
  }

  predicate AllSteady(ps: seq<Part>) { forall p | p in ps :: Steady(p) }

  predicate AllTyped(ps: seq<Part>) { forall p | p in ps :: MediaType(p.ctype).Some? }

  /** The header is kept. */
  predicate Keeps(p: Part) { HeaderOf(Cleaved(p)) == HeaderOf(p) }

  predicate AllKeep(ps: seq<Part>) { forall p | p in ps :: Keeps(p) }

  /** The media type is kept. */
  predicate AllNormal(ps: seq<Part>) { forall p | p in ps :: Norm(p.ctype) == p.ctype }

  lemma SteadyIs(ps: seq<Part>)
    ensures AllSteady(ps) <==> AllTyped(ps) && AllKeep(ps)
    ensures AllKeep(ps) ==> AllNormal(ps)
  {
    hide MediaType, EncodingOf, NameOf, Norm;
    assert forall p | p in ps :: Steady(p) <==> MediaType(p.ctype).Some? && Keeps(p);
  }

  lemma PartsAppend(a: seq<Part>, b: seq<Part>)
    ensures AllKeep(a + b) <==> AllKeep(a) && AllKeep(b)
    ensures AllNormal(a + b) <==> AllNormal(a) && AllNormal(b)
    ensures AllTyped(a + b) <==> AllTyped(a) && AllTyped(b)
  {
    hide MediaType, Keeps, Norm;
    assert forall p | p in a :: p in a + b;
    assert forall p | p in b :: p in a + b;
  }

  /** The media types of all leaves are as they are read. */
  predicate NormalShape(s: Shape)
    decreases s
  {
    match s
    case SLeaf(hdr) => Norm(hdr.ctype) == hdr.ctype
    case SMulti(_, _, kids) => NormalShapes(kids)
  }

  predicate NormalShapes(ss: seq<Shape>)
    decreases ss
  {
    ss == [] || (NormalShape(ss[0]) && NormalShapes(ss[1..]))
  }

  lemma {:induction false} AgainExact(n: Node)
    requires Built(n)
    ensures Again(n) == Erase(n) <==> AllKeep(PartsOf(n))
    ensures NormalShape(Erase(n)) <==> AllNormal(PartsOf(n))
    ensures Typed(n) <==> AllTyped(PartsOf(n))
    decreases n
  {
    hide EncodingOf, Cleaved, Norm, MediaType;
    match n
    case Leaf(hdr, p) =>
      assert p in PartsOf(n);
    case Multi(_, _, kids) =>
      AgainAllExact(kids);
  }

  lemma {:induction false} AgainAllExact(ns: seq<Node>)
    requires BuiltAll(ns)
    ensures AgainAll(ns) == EraseAll(ns) <==> AllKeep(PartsOfAll(ns))
    ensures NormalShapes(EraseAll(ns)) <==> AllNormal(PartsOfAll(ns))
    ensures TypedAll(ns) <==> AllTyped(PartsOfAll(ns))
    decreases ns
  {
    hide Keeps, HeaderOf, Cleaved, Norm, MediaType;
    if ns != [] {
      AgainExact(ns[0]);
      AgainAllExact(ns[1..]);
      PartsAppend(PartsOf(ns[0]), PartsOfAll(ns[1..]));
      Heads(Again(ns[0]), AgainAll(ns[1..]), Erase(ns[0]), EraseAll(ns[1..]));
      assert EraseAll(ns)[1..] == EraseAll(ns[1..]);
    }
  }

  lemma Heads<T>(x: T, s: seq<T>, y: T, t: seq<T>)
    ensures [x] + s == [y] + t <==> x == y && s == t
  {
    if [x] + s == [y] + t {
      assert ([x] + s)[0] == ([y] + t)[0];
      assert ([x] + s)[1..] == s && ([y] + t)[1..] == t;
    }
  }

  lemma {:induction false} LeavesAgain(ps: seq<Part>)
    ensures EraseAll(Leaves(CleavedAll(ps))) == AgainAll(Leaves(ps)) && BuiltAll(Leaves(ps))
  {
    hide HeaderOf, Cleaved;
    if ps != [] {
      LeavesAgain(ps[1..]);
      assert CleavedAll(ps)[1..] == CleavedAll(ps[1..]);
      assert Leaves(ps)[1..] == Leaves(ps[1..]);
      assert Leaves(CleavedAll(ps))[1..] == Leaves(CleavedAll(ps[1..]));
    }
  }

  lemma WithAgain(b: Part, rel: seq<Part>, k: nat)
    ensures Erase(WithRelated(Cleaved(b), CleavedAll(rel), k)) == Again(WithRelated(b, rel, k))
    ensures Built(WithRelated(b, rel, k))
  {
    hide HeaderOf, Cleaved;
    if rel != [] {
      LeavesAgain(rel);
      var a, c := [LeafOf(b)] + Leaves(rel), [LeafOf(Cleaved(b))] + Leaves(CleavedAll(rel));
      assert a[1..] == Leaves(rel) && c[1..] == Leaves(CleavedAll(rel));
      assert EraseAll(c) == [Erase(c[0])] + EraseAll(c[1..]);
      assert AgainAll(a) == [Again(a[0])] + AgainAll(a[1..]);
      assert BuiltAll(a);
      assert WithRelated(Cleaved(b), CleavedAll(rel), k) == Multi(Related, k, c);
    }
  }

  lemma {:induction false} ChoicesAgain(bs: seq<Part>, rel: seq<Part>, k: nat)
    requires AllNormal(bs)
    ensures EraseAll(Choices(CleavedAll(bs), CleavedAll(rel), k)) == AgainAll(Choices(bs, rel, k))
    ensures BuiltAll(Choices(bs, rel, k))
    decreases |bs|
  {
    hide HeaderOf, NameOf, Norm, WithRelated;
    if bs != [] {
      NormalCons(bs);
      assert CleavedAll(bs)[1..] == CleavedAll(bs[1..]) && CleavedAll([]) == [];
      WithAgain(bs[0], rel, k);
      LeafAgain(bs[0]);
      if bs[0].ctype == TEXT_HTML {
        ChoicesAgain(bs[1..], [], if rel == [] then k else k + 1);
      } else {
        ChoicesAgain(bs[1..], rel, k);
      }
      var c, d := Choices(bs, rel, k), Choices(CleavedAll(bs), CleavedAll(rel), k);
      assert EraseAll(d) == [Erase(d[0])] + EraseAll(d[1..]) && AgainAll(c) == [Again(c[0])] + AgainAll(c[1..]);
    }
  }

  lemma LeafAgain(b: Part)
    ensures Erase(LeafOf(Cleaved(b))) == Again(LeafOf(b)) && Built(LeafOf(b))
  {
  }

  /** Without an HTML body the related parts leave no trace. */
  lemma {:induction false} ChoicesDrop(bs: seq<Part>, rel: seq<Part>, k: nat)
    requires !HasHtml(bs)
    ensures Choices(bs, rel, k) == Choices(bs, [], k)
    decreases |bs|
  {
    if bs != [] {
      assert bs[0] in bs;
      assert forall b | b in bs[1..] :: b in bs;
      ChoicesDrop(bs[1..], rel, k);
    }
  }

  lemma NormalCons(ps: seq<Part>)
    requires AllNormal(ps) && ps != []
    ensures Norm(ps[0].ctype) == ps[0].ctype && AllNormal(ps[1..])
  {
    assert ps[0] in ps && forall p | p in ps[1..] :: p in ps;
  }

  lemma {:induction false} HtmlCleaved(bs: seq<Part>)
    requires AllNormal(bs)
    ensures HasHtml(CleavedAll(bs)) <==> HasHtml(bs)
  {
    hide Norm, NameOf;
    if bs != [] {
      NormalCons(bs);
      HtmlCleaved(bs[1..]);
      HtmlCons(bs[0], bs[1..]);
      HtmlCons(Cleaved(bs[0]), CleavedAll(bs[1..]));
      assert bs == [bs[0]] + bs[1..];
    }
  }

  lemma HtmlCons(b: Part, bs: seq<Part>)
    ensures HasHtml([b] + bs) <==> b.ctype == TEXT_HTML || HasHtml(bs)
  {
    assert b in [b] + bs;
    if HasHtml(bs) {
      var x :| x in bs && x.ctype == TEXT_HTML;
      assert x in [b] + bs;
    }
  }

  // The parts of a tree, sorted again.

  lemma {:induction false} SortAppend(a: seq<Part>, b: seq<Part>)
    ensures Bodies(a + b) == Bodies(a) + Bodies(b)
    ensures Relateds(a + b) == Relateds(a) + Relateds(b)
    ensures Attachments(a + b) == Attachments(a) + Attachments(b)
    decreases |a|
  {
    if a == [] {
      assert a + b == b;
    } else {
      var t := a[1..];
      assert (a + b)[1..] == t + b && (a + b)[0] == a[0];
      SortAppend(t, b);
      Assoc([a[0]], Bodies(t), Bodies(b));
      Assoc([a[0]], Relateds(t), Relateds(b));
      Assoc([a[0]], Attachments(t), Attachments(b));
    }
  }

  lemma CleavedKind(p: Part)
    ensures Cleaved(p).isBody == p.isBody && Cleaved(p).isAttachment == p.isAttachment
  {
  }

  lemma {:induction false} SortCleaved(ps: seq<Part>)
    ensures Bodies(CleavedAll(ps)) == CleavedAll(Bodies(ps))
    ensures Relateds(CleavedAll(ps)) == CleavedAll(Relateds(ps))
    ensures Attachments(CleavedAll(ps)) == CleavedAll(Attachments(ps))
  {
    if ps != [] {
      CleavedKind(ps[0]);
      hide Cleaved;
      SortCleaved(ps[1..]);
      assert CleavedAll(ps)[1..] == CleavedAll(ps[1..]);
      ConsParts(ps[0], Bodies(ps[1..]));
      ConsParts(ps[0], Relateds(ps[1..]));
      ConsParts(ps[0], Attachments(ps[1..]));
    }
  }

  predicate AllRelated(ps: seq<Part>) { forall p | p in ps :: !p.isBody && !p.isAttachment }

  predicate AllAttached(ps: seq<Part>) { forall p | p in ps :: !p.isBody && p.isAttachment }

  lemma {:induction false} SortPure(ps: seq<Part>)
    ensures AllBodies(ps) ==> Bodies(ps) == ps && Relateds(ps) == [] && Attachments(ps) == []
    ensures AllRelated(ps) ==> Bodies(ps) == [] && Relateds(ps) == ps && Attachments(ps) == []
    ensures AllAttached(ps) ==> Bodies(ps) == [] && Relateds(ps) == [] && Attachments(ps) == ps
  {
    if ps != [] {
      assert ps[0] in ps && forall p | p in ps[1..] :: p in ps;
      SortPure(ps[1..]);
      assert ps == [ps[0]] + ps[1..];
    }
  }

  lemma {:induction false} SortedWell(ps: seq<Part>)
    ensures AllBodies(Bodies(ps)) && AllRelated(Relateds(ps)) && AllAttached(Attachments(ps))
  {
    if ps != [] {
      SortedWell(ps[1..]);
    }
  }

  lemma {:induction false} ChoicesSorted(bs: seq<Part>, rel: seq<Part>, k: nat)
    requires AllBodies(bs) && AllRelated(rel)
    ensures var q := PartsOfAll(Choices(bs, rel, k));
      Bodies(q) == bs && Relateds(q) == (if HasHtml(bs) then rel else []) && Attachments(q) == []
    decreases |bs|
  {
    if bs != [] {
      var b, t := bs[0], bs[1..];
      assert b in bs && forall p | p in t :: p in bs;
      assert bs == [b] + t;
      HtmlCons(b, t);
      var html := b.ctype == TEXT_HTML;
      var rel0, rel1, k1 := if html then rel else [], if html then [] else rel, if html && rel != [] then k + 1 else k;
      ChoicesSorted(t, rel1, k1);
      FlattenWith(b, rel0, k, None, 0);
      ChoicesCons(bs, rel, k);
      SortBehind(b, rel0, PartsOfAll(Choices(t, rel1, k1)));
    }
  }

  lemma SortBehind(b: Part, rel: seq<Part>, q: seq<Part>)
    requires b.isBody && AllRelated(rel)
    ensures var s := [b] + rel + q;
      Bodies(s) == [b] + Bodies(q) && Relateds(s) == rel + Relateds(q) && Attachments(s) == Attachments(q)
  {
    SortPure([b]);
    SortPure(rel);
    assert AllBodies([b]);
    SortAppend([b] + rel, q);
    SortAppend([b], rel);
    hide Bodies, Relateds, Attachments;
    assert [] + rel == rel && [b] + [] == [b];
    assert [] + Attachments(q) == Attachments(q);
  }

  lemma ChoicesCons(bs: seq<Part>, rel: seq<Part>, k: nat)
    requires bs != []
    ensures var html := bs[0].ctype == TEXT_HTML;
      PartsOfAll(Choices(bs, rel, k)) ==
      PartsOf(WithRelated(bs[0], if html then rel else [], k)) +
      PartsOfAll(Choices(bs[1..], if html then [] else rel, if html && rel != [] then k + 1 else k))
  {
    hide HeaderOf;
    var c := Choices(bs, rel, k);
    assert PartsOfAll(c) == PartsOf(c[0]) + PartsOfAll(c[1..]);
  }

  /** What is placed in the tree of the related parts. */
  function Kept(bs: seq<Part>, rel: seq<Part>): seq<Part> { if |bs| == 1 || HasHtml(bs) then rel else [] }

  lemma TreeSorted(ps: seq<Part>)
    requires Bodies(ps) != []
    ensures var q := PartsOf(Tree(ps));
      && Bodies(q) == Bodies(ps) && Relateds(q) == Kept(Bodies(ps), Relateds(ps))
      && Attachments(q) == Attachments(ps)
  {
    hide Bodies, Relateds, Attachments, Leaves, WithRelated, Choices, AllBodies, AllRelated, AllAttached;
    var bs, rel, att := Bodies(ps), Relateds(ps), Attachments(ps);
    SortedWell(ps);
    var n := BodyNode(bs, rel);
    var q := PartsOf(n);
    assert Bodies(q) == bs && Relateds(q) == Kept(bs, rel) && Attachments(q) == [] by {
      if |bs| == 1 {
        assert bs == [bs[0]] && bs[0] in bs;
        FlattenWith(bs[0], rel, 0, None, 0);
        SortAppend(bs, rel);
        SortPure(bs);
        SortPure(rel);
      } else {
        ChoicesSorted(bs, rel, 1);
      }
    }
    if att != [] {
      FlattenLeaves(att, Mixed, 1);
      assert ([n] + Leaves(att))[1..] == Leaves(att);
      SortAppend(q, att);
      SortPure(att);
    }
  }

  lemma {:induction false} NamesKept(ps: seq<Part>, i: nat)
    requires forall p | p in ps :: p.isBody || p.name != ""
    ensures NameAll(ps, i) == ps
    decreases |ps|
  {
    if ps != [] {
      assert ps[0] in ps && forall p | p in ps[1..] :: p in ps;
      NamesKept(ps[1..], i + 1);
      assert ps == [ps[0]] + ps[1..];
    }
  }

  /** Building the cleaved parts again gives the tree again, with the headers
      the cleaved parts have. */
  lemma BodyAgain(bs: seq<Part>, rel: seq<Part>)
    requires bs != [] && AllNormal(bs)
    ensures Erase(BodyNode(CleavedAll(bs), CleavedAll(Kept(bs, rel)))) == Again(BodyNode(bs, rel))
    ensures Built(BodyNode(bs, rel))
    ensures Drawn(CleavedAll(bs), CleavedAll(Kept(bs, rel))) == Drawn(bs, rel)
  {
    hide HeaderOf, Cleaved, WithRelated, Norm;
    HtmlCleaved(bs);
    if |bs| == 1 {
      WithAgain(bs[0], rel, 0);
    } else {
      ChoicesAgain(bs, rel, 1);
      if !HasHtml(bs) {
        ChoicesDrop(bs, rel, 1);
        ChoicesAgain(bs, [], 1);
      }
    }
  }

  lemma TreeAgain(ps: seq<Part>)
    requires Bodies(ps) != [] && AllNormal(Bodies(ps))
    ensures Bodies(CleavedAll(PartsOf(Tree(ps)))) != []
    ensures Erase(Tree(CleavedAll(PartsOf(Tree(ps))))) == Again(Tree(ps))
  {
    var bs, rel, att := Bodies(ps), Relateds(ps), Attachments(ps);
    var q := PartsOf(Tree(ps));
    TreeSorted(ps);
    SortCleaved(q);
    BodyAgain(bs, rel);
    LeavesAgain(att);
    hide HeaderOf, Cleaved, BodyNode, Drawn, PartsOf, Bodies, Relateds, Attachments;
    if att != [] {
      var a, c := [BodyNode(bs, rel)] + Leaves(att),
        [BodyNode(CleavedAll(bs), CleavedAll(Kept(bs, rel)))] + Leaves(CleavedAll(att));
      assert a[1..] == Leaves(att) && c[1..] == Leaves(CleavedAll(att));
    }
  }

  lemma {:induction false} ChoicesBuilt(bs: seq<Part>, rel: seq<Part>, k: nat)
    ensures BuiltAll(Choices(bs, rel, k))
    decreases |bs|
  {
    hide HeaderOf, WithRelated;
    if bs != [] {
      WithAgain(bs[0], rel, k);
      LeafAgain(bs[0]);
      if bs[0].ctype == TEXT_HTML {
        ChoicesBuilt(bs[1..], [], if rel == [] then k else k + 1);
      } else {
        ChoicesBuilt(bs[1..], rel, k);
      }
    }
  }

  lemma TreeBuilt(ps: seq<Part>)
    requires Bodies(ps) != []
    ensures Built(Tree(ps))
  {
    var bs, rel, att := Bodies(ps), Relateds(ps), Attachments(ps);
    var n := BodyNode(bs, rel);
    WithAgain(bs[0], rel, 0);
    ChoicesBuilt(bs, rel, 1);
    LeavesAgain(att);
    hide HeaderOf, WithRelated, Choices, Bodies, Relateds, Attachments, Drawn;
    assert Built(n);
    assert ([n] + Leaves(att))[1..] == Leaves(att);
  }

  /** A message is cleaved exactly if all parts that are placed have a media
      type. */
  lemma TypedExact(ps: seq<Part>)
    requires Bodies(ps) != []
    ensures Typed(Tree(ps)) <==> AllTyped(PartsOf(Tree(ps)))
  {
    TreeBuilt(ps);
    AgainExact(Tree(ps));
  }

  /** Whatever is built of cleaved parts has media types that stay. */
  lemma CleavedNormal(ps: seq<Part>)
    requires Bodies(CleavedAll(ps)) != []
    ensures NormalShape(Erase(Tree(CleavedAll(ps))))
  {
    var flat := CleavedAll(ps);
    AllCleaved(ps);
    PartsConserved(flat);
    var q := PartsOf(Tree(flat));
    assert forall p | p in q :: p in multiset(q) && p in multiset(flat);
    TreeBuilt(flat);
    AgainExact(Tree(flat));
  }

  lemma {:induction false} AllCleaved(ps: seq<Part>)
    ensures AllNormal(CleavedAll(ps))
  {
    hide Norm;
    if ps != [] {
      AllCleaved(ps[1..]);
      NormTwice(ps[0].ctype);
      var a := [Cleaved(ps[0])];
      assert AllNormal(a);
      PartsAppend(a, CleavedAll(ps[1..]));
    }
  }

  lemma BodiesPlaced(ps: seq<Part>)
    requires Bodies(ps) != [] && AllNormal(PartsOf(Tree(ps)))
    ensures AllNormal(Bodies(ps))
  {
    hide Norm;
    TreeSorted(ps);
    var q := PartsOf(Tree(ps));
    SplitParts(q);
    assert forall p | p in Bodies(ps) :: p in multiset(Bodies(q)) && p in multiset(q);
  }

  /** Building a message, cleaving it and building it once more, from the same
      seed, gives the same tree exactly when every leaf is steady: its media type
      one that is read as it is written, in lower case, without parameters and
      not image/jpg, which is read as image/jpeg; and its encoding none but the
      one the content calls for. */
  lemma RebuildExact(ps: seq<Part>)
    requires Bodies(ps) != [] && forall p | p in ps :: p.isBody || p.name != ""
    ensures var flat := Flatten(Tree(ps), None, 0);
      && NameAll(flat, 0) == flat && Bodies(flat) != []
      && (Typed(Tree(ps)) && Erase(Tree(flat)) == Erase(Tree(ps)) <==> AllSteady(PartsOf(Tree(ps))))
  {
    var q := PartsOf(Tree(ps));
    var flat := CleavedAll(q);
    FlattenTree(ps);
    TreeNamed(ps);
    NamesKept(flat, 0);
    TreeSorted(ps);
    SortCleaved(q);
    TreeBuilt(ps);
    AgainExact(Tree(ps));
    SteadyIs(q);
    if AllNormal(q) {
      BodiesPlaced(ps);
      TreeAgain(ps);
    } else {
      CleavedNormal(q);
    }
  }

  lemma TreeNamed(ps: seq<Part>)
    requires Bodies(ps) != [] && forall p | p in ps :: p.isBody || p.name != ""
    ensures forall p | p in CleavedAll(PartsOf(Tree(ps))) :: p.isBody || p.name != ""
  {
    var q := PartsOf(Tree(ps));
    PartsConserved(ps);
    assert forall p | p in q :: p in multiset(q) && p in multiset(ps);
    CleavedNamed(q);
  }

  lemma {:induction false} CleavedNamed(q: seq<Part>)
    requires forall p | p in q :: p.isBody || p.name != ""
    ensures forall p | p in CleavedAll(q) :: p.isBody || p.name != ""
  {
    if q != [] {
      assert q[0] in q && forall p | p in q[1..] :: p in q;
      CleavedNamed(q[1..]);
    }
  }

  // ------------------------------------------------------------- the builder

  datatype Result<T> = Ok(value: T) | Err

  class Msg {
    var parts: seq<Part>

    constructor (parts: seq<Part>)
      ensures this.parts == parts
    {
      this.parts := parts;
    }

    /** Sorts the parts, and names those that are no bodies. */
    method PullParts() returns (body: seq<Part>, related: seq<Part>, attachments: seq<Part>)
      modifies this
      ensures parts == NameAll(old(parts), 0)
      ensures body == Bodies(parts) && related == Relateds(parts) && attachments == Attachments(parts)
    {
      hide Bodies, Relateds, Attachments, NameAll, Decimal;
      body, related, attachments := [], [], [];
      ghost var all, want := parts, NameAll(parts, 0);
      assert all[0..] == all && want[0..] == want;
      NoneSorted();
      var i := 0;
      while i < |parts|
        invariant i <= |parts| == |all| && parts[..i] == want[..i] && parts[i..] == all[i..]
        invariant want[i..] == NameAll(all[i..], i)
        invariant Bodies(want) == body + Bodies(want[i..])
        invariant Relateds(want) == related + Relateds(want[i..])
        invariant Attachments(want) == attachments + Attachments(want[i..])
      {
        assert parts[i] == parts[i..][0] == all[i];
        assert parts[i + 1..] == parts[i..][1..] == all[i + 1..];
        NamedHere(all, want, i);
        SortedHere(want, i, body, related, attachments);
        var p := parts[i];
        if p.isBody {
          body := body + [p];
        } else {
          if p.name == "" {
            p := p.(name := "attachment-" + Decimal(i));
            parts := parts[i := p];
          }
          if p.isAttachment {
            attachments := attachments + [p];
          } else {
            related := related + [p];
          }
        }
        assert parts[..i + 1] == want[..i] + [want[i]] == want[..i + 1];
        i := i + 1;
      }
      assert want[|want|..] == [] && parts[..i] == parts && want[..i] == want;
    }

    lemma NamedHere(all: seq<Part>, want: seq<Part>, i: nat)
      requires i < |all| == |want| && want[i..] == NameAll(all[i..], i)
      ensures want[i] == Named(all[i], i) && want[i + 1..] == NameAll(all[i + 1..], i + 1)
    {
      hide Named;
      assert want[i] == want[i..][0] && want[i..][1..] == want[i + 1..] && all[i..][1..] == all[i + 1..];
    }

    /** One part further, as it is sorted. */
    lemma SortedHere(want: seq<Part>, i: nat, body: seq<Part>, related: seq<Part>, attachments: seq<Part>)
      requires i < |want|
      ensures var p, w := want[i], want[i + 1..];
        && body + Bodies(want[i..]) == (if p.isBody then body + [p] else body) + Bodies(w)
        && related + Relateds(want[i..])
           == (if !p.isBody && !p.isAttachment then related + [p] else related) + Relateds(w)
        && attachments + Attachments(want[i..])
           == (if !p.isBody && p.isAttachment then attachments + [p] else attachments) + Attachments(w)
    {
      var p, w := want[i], want[i + 1..];
      assert want[i..][0] == p && want[i..][1..] == w;
      Assoc(body, [p], Bodies(w));
      Assoc(related, [p], Relateds(w));
      Assoc(attachments, [p], Attachments(w));
    }

    lemma NoneSorted()
      ensures Bodies([]) == [] && Relateds([]) == [] && Attachments([]) == []
    {
    }
  }

  /** The random source: what counts of it is how often it was drawn from. */
  class Random {
    var drawn: nat

    constructor ()
      ensures drawn == 0
    {
      drawn := 0;
    }

    method Boundary() returns (k: nat)
      modifies this
      ensures k == old(drawn) && drawn == k + 1
    {
      k := drawn;
      drawn := drawn + 1;
    }
  }

  predicate AllWritable(ps: seq<Part>) { forall p | p in ps :: Writable(p) }

  lemma WritableAppend(a: seq<Part>, b: seq<Part>)
    ensures AllWritable(a + b) <==> AllWritable(a) && AllWritable(b)
  {
    assert forall p | p in a :: p in a + b;
    assert forall p | p in b :: p in a + b;
  }

  method BuildPartHeader(p: Part) returns (r: Result<Header>)
    ensures r == if Writable(p) then Ok(HeaderOf(p)) else Err
  {
    if p.cid != "" && '"' in p.cid {
      return Err;
    }
    var name := if p.name == "" then p.cid else p.name;
    if name != "" && '"' in name {
      return Err;
    }
    if p.encoding == "" && p.content.None? {
      return Err;
    }
    return Ok(Header(p.ctype, name, p.cid, p.isAttachment, EncodingOf(p, name)));
  }

  /** Leaves for parts, one after the other. */
  method BuildLeaves(first: Node, ps: seq<Part>) returns (r: Result<seq<Node>>)
    ensures r == if AllWritable(ps) then Ok([first] + Leaves(ps)) else Err
  {
    var kids := [first];
    assert ps[0..] == ps;
    for i := 0 to |ps|
      invariant AllWritable(ps[..i]) && kids + Leaves(ps[i..]) == [first] + Leaves(ps)
    {
      assert ps[i..][1..] == ps[i + 1..] && ps[..i + 1] == ps[..i] + [ps[i]];
      var hdr := BuildPartHeader(ps[i]);
      if hdr.Err? {
        assert ps[i] in ps;
        return Err;
      }
      Assoc(kids, [LeafOf(ps[i])], Leaves(ps[i + 1..]));
      kids := kids + [Leaf(hdr.value, ps[i])];
    }
    assert ps[..|ps|] == ps && kids + [] == kids;
    return Ok(kids);
  }

  method BuildTreeRelated(rnd: Random, b: Part, rel: seq<Part>) returns (r: Result<Node>)
    modifies rnd
    ensures r.Ok? <==> Writable(b) && AllWritable(rel)
    ensures r.Ok? ==> r.value == WithRelated(b, rel, old(rnd.drawn))
    ensures r.Ok? ==> rnd.drawn == old(rnd.drawn) + if rel == [] then 0 else 1
  {
    hide HeaderOf, Writable;
    var hdr := BuildPartHeader(b);
    if hdr.Err? {
      return Err;
    }
    var node := Leaf(hdr.value, b);
    if |rel| == 0 {
      return Ok(node);
    }
    var k := rnd.Boundary();
    var kids := BuildLeaves(node, rel);
    if kids.Err? {
      return Err;
    }
    return Ok(Multi(Related, k, kids.value));
  }

  method BuildTreeBody(rnd: Random, body: seq<Part>, related: seq<Part>) returns (r: Result<Node>)
    requires rnd.drawn == 0
    modifies rnd
    ensures r.Ok? <==> body != [] && AllWritable(body) && AllWritable(Kept(body, related))
    ensures r.Ok? ==> r.value == BodyNode(body, related) && rnd.drawn == Drawn(body, related)
  {
    hide HeaderOf, Writable;
    if |body| == 0 {
      return Err;
    }
    if |body| == 1 {
      r := BuildTreeRelated(rnd, body[0], related);
      assert body == [body[0]];
      return;
    }
    var k := rnd.Boundary();
    var kids := BuildChoices(rnd, body, related);
    r := if kids.Err? then Err else Ok(Multi(Alternative, k, kids.value));
  }

  method BuildChoices(rnd: Random, body: seq<Part>, related: seq<Part>) returns (r: Result<seq<Node>>)
    requires rnd.drawn == 1
    modifies rnd
    ensures r.Ok? <==> AllWritable(body) && (HasHtml(body) ==> AllWritable(related))
    ensures r.Ok? ==> r.value == Choices(body, related, 1)
    ensures r.Ok? ==> rnd.drawn == 1 + if HasHtml(body) && related != [] then 1 else 0
  {
    hide HeaderOf, Writable, WithRelated;
    var kids := [];
    var seenHTML := false;
    ghost var want := Choices(body, related, 1);
    assert body[0..] == body && [] + want == want;
    for i := 0 to |body|
      invariant AllWritable(body[..i]) && seenHTML == HasHtml(body[..i])
      invariant seenHTML ==> AllWritable(related)
      invariant rnd.drawn == 1 + if seenHTML && related != [] then 1 else 0
      invariant kids + Choices(body[i..], if seenHTML then [] else related, rnd.drawn) == want
    {
      var b := body[i];
      ChoicesAt(body, i);
      ghost var rest := body[i + 1..];
      var rel := [];
      if b.ctype == TEXT_HTML && !seenHTML {
        seenHTML := true;
        rel := related;
      }
      ghost var drawn := rnd.drawn;
      var bNode := BuildTreeRelated(rnd, b, rel);
      if bNode.Err? {
        assert b in body;
        WritableHtml(body, b);
        return Err;
      }
      PlainIs(b, drawn);
      Assoc(kids, [bNode.value], Choices(rest, if seenHTML then [] else related, rnd.drawn));
      kids := kids + [bNode.value];
    }
    assert body[..|body|] == body && kids + [] == kids;
    return Ok(kids);
  }

  lemma ChoicesAt(body: seq<Part>, i: nat)
    requires i < |body|
    ensures body[i..][0] == body[i] && body[i..][1..] == body[i + 1..] && body[..i + 1] == body[..i] + [body[i]]
    ensures HasHtml(body[..i + 1]) <==> HasHtml(body[..i]) || body[i].ctype == TEXT_HTML
  {
    assert body[..i + 1] == body[..i] + [body[i]];
    if HasHtml(body[..i]) {
      var x :| x in body[..i] && x.ctype == TEXT_HTML;
      assert x in body[..i + 1];
    }
    assert body[i] in body[..i + 1];
  }

  lemma PlainIs(b: Part, k: nat)
    ensures WithRelated(b, [], k) == LeafOf(b)
  {
  }

  lemma WritableHtml(body: seq<Part>, b: Part)
    requires b in body
    ensures AllWritable(body) ==> Writable(b)
    ensures b.ctype == TEXT_HTML ==> HasHtml(body)
  {
  }

  /** BuildTree: it fails without a body, or if the header of a part that it
      places cannot be written; the related parts it does not place are not
      looked at. */
  method BuildTree(msg: Msg) returns (r: Result<Node>)
    modifies msg
    ensures msg.parts == NameAll(old(msg.parts), 0)
    ensures r.Ok? <==> Bodies(msg.parts) != [] && AllWritable(PartsOf(Tree(msg.parts)))
    ensures r.Ok? ==> r.value == Tree(msg.parts)
  {
    var rnd := new Random();
    var body, related, attachments := msg.PullParts();
    ghost var ps := msg.parts;
    hide Writable, HeaderOf, BodyNode, Drawn;
    if body != [] {
      TreeWritable(ps);
    }
    var bodyNode := BuildTreeBody(rnd, body, related);
    if bodyNode.Err? {
      return Err;
    }
    if |attachments| == 0 {
      return bodyNode;
    }
    var k := rnd.Boundary();
    var kids := BuildLeaves(bodyNode.value, attachments);
    r := if kids.Err? then Err else Ok(Multi(Mixed, k, kids.value));
  }

  /** The parts a tree has to write. */
  lemma TreeWritable(ps: seq<Part>)
    requires Bodies(ps) != []
    ensures AllWritable(PartsOf(Tree(ps))) <==>
      AllWritable(Bodies(ps)) && AllWritable(Kept(Bodies(ps), Relateds(ps))) && AllWritable(Attachments(ps))
  {
    var q := PartsOf(Tree(ps));
    TreeSorted(ps);
    SplitParts(q);
    hide Writable;
    var a, b, c := Bodies(q), Relateds(q), Attachments(q);
    assert multiset(a + b + c) == multiset(q);
    assert forall p :: p in q <==> p in a + b + c by {
      assert forall p :: p in q <==> p in multiset(q);
      assert forall p :: p in a + b + c <==> p in multiset(a + b + c);
    }
    WritableAppend(a + b, c);
    WritableAppend(a, b);
  }

  // -------------------------------------------------------------- the cleaver

  /** Collects the leaves of a message that is walked. */
  class Cleaver {
    var parts: seq<Part>

    constructor ()
      ensures parts == []
    {
      parts := [];
    }

    /** The walk fails at the first leaf without a media type. */
    method WalkMime(n: Node, parent: Option<Kind>, i: nat) returns (ok: bool)
      requires Apart(n)
      modifies this
      ensures ok <==> Typed(n)
      ensures ok ==> parts == old(parts) + Flatten(n, parent, i)
      decreases n
    {
      match n
      case Leaf(hdr, p) =>
        ok := ProcessPart(hdr, p.content, parent, i);
      case Multi(kind, _, kids) =>
        ghost var before := parts;
        assert kids[0..] == kids;
        for j := 0 to |kids|
          invariant parts + FlattenAll(kids[j..], kind, j) == before + FlattenAll(kids, kind, 0)
          invariant ApartAll(kids[j..]) && (TypedAll(kids) <==> TypedAll(kids[j..]))
        {
          assert kids[j..][1..] == kids[j + 1..];
          Assoc(parts, Flatten(kids[j], Some(kind), j), FlattenAll(kids[j + 1..], kind, j + 1));
          ok := WalkMime(kids[j], Some(kind), j);
          if !ok {
            return;
          }
        }
        assert parts + [] == parts;
        ok := true;
    }

    /** Decides what a leaf is. */
    method ProcessPart(hdr: Header, content: Option<seq<byte>>, parent: Option<Kind>, i: nat) returns (ok: bool)
      modifies this
      ensures ok <==> MediaType(hdr.ctype).Some?
      ensures parts == old(parts) + if ok then [Classify(hdr, content, parent, i)] else []
    {
      var m := MediaType(hdr.ctype);
      if m.None? {
        return false;
      }
      var isBody := false;
      match parent {
        case None => isBody := true;
        case Some(kind) =>
          match kind {
            case Alternative => isBody := true;
            case Mixed => isBody := i == 0;
            case Related => isBody := i == 0;
          }
      }
      var mediaType := m.value;
      if mediaType == "image/jpg" {
        mediaType := "image/jpeg";
      }
      parts := parts + [Part(hdr.name, isBody, hdr.attachment, mediaType, hdr.cid, "", content)];
      return true;
    }
  }
}
