/** The shape of a built MIME tree, part by part (email/msgbuilder/tree.go): what
    is a child of what, which transfer encoding a part gets, and which name. */
module MimeMeaning {
  import opened Bytes
  import opened Wrappers
  import opened MimeTree

  // ---------------------------------------------------------------- the tree

  predicate IsHtml(p: Part) { p.ctype == "text/html" }

  /** Body `i` is the first HTML one. */
  ghost predicate FirstHtml(bs: seq<Part>, i: nat)
    requires i < |bs|
  {
    IsHtml(bs[i]) && forall j | 0 <= j < i :: !IsHtml(bs[j])
  }

  predicate IsLeaf(n: Node, p: Part) { n.Leaf? && n.part == p && n.hdr == HeaderOf(p) }

  ghost predicate AreLeaves(ns: seq<Node>, ps: seq<Part>) {
    |ns| == |ps| && forall i | 0 <= i < |ns| :: IsLeaf(ns[i], ps[i])
  }

  lemma {:induction false} LeavesAre(ps: seq<Part>)
    ensures AreLeaves(Leaves(ps), ps)
  {
    if ps != [] {
      LeavesAre(ps[1..]);
      var ns := Leaves(ps);
      assert forall i | 0 < i < |ns| :: ns[i] == Leaves(ps[1..])[i - 1] && ps[i] == ps[1..][i - 1];
    }
  }

  /** A body, with the related parts if there are any. */
  ghost predicate BodyWith(n: Node, b: Part, rel: seq<Part>) {
    if rel == [] then IsLeaf(n, b)
    else n.Multi? && n.kind == Related && AreLeaves(n.kids, [b] + rel)
  }

  lemma WithRelatedIs(b: Part, rel: seq<Part>, k: nat)
    ensures BodyWith(WithRelated(b, rel, k), b, rel)
  {
    LeavesAre([b] + rel);
    assert ([b] + rel)[1..] == rel;
    hide HeaderOf;
  }

  /** Of several bodies each is one alternative, in order, and the first HTML one
      has all the related parts with it. */
  lemma {:induction false} ChoicesMean(bs: seq<Part>, rel: seq<Part>, k: nat, i: nat)
    requires i < |bs|
    ensures BodyWith(Choices(bs, rel, k)[i], bs[i], if FirstHtml(bs, i) then rel else [])
    decreases |bs|
  {
    hide HeaderOf, WithRelated, BodyWith, IsHtml;
    var b, t := bs[0], bs[1..];
    HtmlIs(b);
    if i == 0 {
      WithRelatedIs(b, if IsHtml(b) then rel else [], k);
      AloneIs(b, k);
    } else {
      assert t[i - 1] == bs[i];
      assert forall j | 0 <= j < i - 1 :: t[j] == bs[j + 1];
      if IsHtml(b) {
        ChoicesMean(t, [], if rel == [] then k else k + 1, i - 1);
        assert !FirstHtml(bs, i);
      } else {
        ChoicesMean(t, rel, k, i - 1);
        assert FirstHtml(bs, i) <==> FirstHtml(t, i - 1);
      }
    }
  }

  lemma HtmlIs(b: Part)
    ensures IsHtml(b) <==> b.ctype == TEXT_HTML
  {
  }

  lemma AloneIs(b: Part, k: nat)
    ensures WithRelated(b, [], k) == LeafOf(b)
  {
  }

  /** The body of a message: one by itself, or one alternative for each. */
  ghost predicate BodyIs(n: Node, bs: seq<Part>, rel: seq<Part>) {
    if |bs| == 1 then BodyWith(n, bs[0], rel)
    else
      && n.Multi? && n.kind == Alternative && |n.kids| == |bs|
      && forall i | 0 <= i < |bs| :: BodyWith(n.kids[i], bs[i], if FirstHtml(bs, i) then rel else [])
  }

  /** The tree of a message: its body, with the attachments behind it in a
      multipart/mixed if there are any. */
  lemma TreeMeans(ps: seq<Part>)
    requires Bodies(ps) != []
    ensures var bs, rel, att, n := Bodies(ps), Relateds(ps), Attachments(ps), Tree(ps);
      if att == [] then BodyIs(n, bs, rel)
      else n.Multi? && n.kind == Mixed && n.kids != [] && BodyIs(n.kids[0], bs, rel) && AreLeaves(n.kids[1..], att)
  {
    var bs, rel, att := Bodies(ps), Relateds(ps), Attachments(ps);
    var n := BodyNode(bs, rel);
    LeavesAre(att);
    if |bs| == 1 {
      WithRelatedIs(bs[0], rel, 0);
    } else {
      forall i | 0 <= i < |bs|
        ensures BodyWith(n.kids[i], bs[i], if FirstHtml(bs, i) then rel else [])
      {
        ChoicesMean(bs, rel, 1, i);
      }
    }
    assert ([n] + Leaves(att))[1..] == Leaves(att);
    hide BodyWith, IsLeaf, Choices, WithRelated;
  }

  // ------------------------------------------------------- transfer encodings

  /** A line from `i` to `j`, without the LF behind it. */
  predicate LineAt(c: seq<byte>, i: nat, j: nat) {
    && i <= j <= |c|
    && (i == 0 || c[i - 1] as char == '\n')
    && (j == |c| || c[j] as char == '\n')
    && (forall k | i <= k < j :: c[k] as char != '\n')
  }

  predicate LineFits(c: seq<byte>, i: nat, j: nat)
    requires i <= j <= |c|
  {
    j - i <= if j < |c| && i < j && c[j - 1] as char == '\r' then 121 else 120
  }

  /** No line is longer than 120 bytes, not counting the CR of a CRLF. */
  ghost predicate LinesFit(c: seq<byte>) {
    forall i, j | 0 <= i <= j <= |c| && LineAt(c, i, j) :: LineFits(c, i, j)
  }

  lemma LineLater(c: seq<byte>, n: nat, i: nat, j: nat)
    requires n < |c| && c[n] as char == '\n' && i <= j <= |c| - n - 1
    ensures LineAt(c[n + 1..], i, j) <==> LineAt(c, n + 1 + i, n + 1 + j)
    ensures LineFits(c[n + 1..], i, j) <==> LineFits(c, n + 1 + i, n + 1 + j)
  {
    var d := c[n + 1..];
    assert forall k | 0 <= k < |d| :: d[k] == c[n + 1 + k];
    if LineAt(d, i, j) {
      forall k | n + 1 + i <= k < n + 1 + j
        ensures c[k] as char != '\n'
      {
        assert d[k - n - 1] == c[k];
      }
    }
  }

  /** The first line, and the lines behind it. */
  lemma LinesAfter(c: seq<byte>, n: nat)
    requires n < |c| && c[n] as char == '\n' && forall k | 0 <= k < n :: c[k] as char != '\n'
    ensures LinesFit(c) <==> LineFits(c, 0, n) && LinesFit(c[n + 1..])
  {
    hide LineFits;
    var d := c[n + 1..];
    assert LineAt(c, 0, n);
    if LinesFit(c) {
      forall i, j | 0 <= i <= j <= |d| && LineAt(d, i, j)
        ensures LineFits(d, i, j)
      {
        LineLater(c, n, i, j);
      }
    }
    if LineFits(c, 0, n) && LinesFit(d) {
      forall i, j | 0 <= i <= j <= |c| && LineAt(c, i, j)
        ensures LineFits(c, i, j)
      {
        if i == 0 {
          assert j == n;
        } else {
          assert i > n;
          LineLater(c, n, i - n - 1, j - n - 1);
        }
      }
    }
  }

  lemma OneLine(c: seq<byte>)
    requires forall k | 0 <= k < |c| :: c[k] as char != '\n'
    ensures LinesFit(c) <==> |c| <= 120
  {
    assert LineAt(c, 0, |c|);
    assert LineFits(c, 0, |c|) <==> |c| <= 120;
    assert forall i, j | 0 <= i <= j <= |c| && LineAt(c, i, j) :: i == 0 && j == |c|;
  }

  lemma LineEndAt(c: seq<byte>, n: int)
    requires n == IndexByte(c, LF)
    ensures n == -1 ==> forall k | 0 <= k < |c| :: c[k] as char != '\n'
    ensures n >= 0 ==> c[n] as char == '\n' && forall k | 0 <= k < n :: c[k] as char != '\n'
  {
    hide IndexByte;
    forall k | 0 <= k < |c| && (n == -1 || k < n)
      ensures c[k] as char != '\n'
    {
      assert n == -1 ==> c[k] in c;
      assert n >= 0 ==> c[..n][k] in c[..n];
    }
  }

  lemma FirstFits(c: seq<byte>, n: int)
    requires 0 <= n < |c|
    ensures LineFits(c, 0, n) <==> (if 0 < n && c[n - 1] == CR then n - 1 else n) <= 120
  {
    assert n > 0 ==> (c[n - 1] as char == '\r' <==> c[n - 1] == CR);
  }

  lemma ShortUnfolds(c: seq<byte>, n: int)
    requires n == IndexByte(c, LF)
    ensures n == -1 ==> (ShortLines(c) <==> |c| <= 120)
    ensures n >= 0 ==> (ShortLines(c) <==> LineFits(c, 0, n) && ShortLines(c[n + 1..]))
  {
    hide IndexByte, LineFits;
    if n >= 0 {
      FirstFits(c, n);
    }
  }

  lemma ShortLinesStep(c: seq<byte>) returns (n: int)
    ensures -1 <= n < |c|
    ensures n == -1 ==> (forall k | 0 <= k < |c| :: c[k] as char != '\n') && (ShortLines(c) <==> |c| <= 120)
    ensures n >= 0 ==> c[n] as char == '\n' && (forall k | 0 <= k < n :: c[k] as char != '\n')
    ensures n >= 0 ==> (ShortLines(c) <==> LineFits(c, 0, n) && ShortLines(c[n + 1..]))
  {
    hide *;
    n := IndexByte(c, LF);
    LineEndAt(c, n);
    ShortUnfolds(c, n);
  }

  lemma {:induction false} ShortLinesMean(c: seq<byte>)
    ensures ShortLines(c) <==> LinesFit(c)
    decreases |c|
  {
    hide *;
    var n := ShortLinesStep(c);
    if n == -1 {
      OneLine(c);
    } else {
      ShortLinesMean(c[n + 1..]);
      LinesAfter(c, n);
    }
  }

  /** The encoding a part gets that has none: "7bit" if and only if its content is
      ASCII without NUL in lines that fit, and "base64" only for what is neither
      ASCII nor plain text or HTML. */
  lemma EncodingMeans(p: Part, name: string)
    requires p.encoding == "" && p.content.Some?
    ensures var c, e := p.content.value, EncodingOf(p, name);
      && e in {"7bit", "quoted-printable", "base64"}
      && (e == "7bit" <==> (forall i | 0 <= i < |c| :: 1 <= c[i] <= 127) && LinesFit(c))
      && (e == "base64" <==> !(forall i | 0 <= i < |c| :: 1 <= c[i] <= 127)
                             && TypeSeen(p, name) !in {"text/plain", "text/html"})
  {
    ShortLinesMean(p.content.value);
    assert |"7bit"| == 4 && |"quoted-printable"| == 16 && |"base64"| == 6;
    hide ShortLines, LinesFit, TypeSeen;
  }

  // --------------------------------------------------------------- media types

  const UPPER := "ABCDEFGHIJKLMNOPQRSTUVWXYZ"
  const LOWER := "abcdefghijklmnopqrstuvwxyz"

  /** The characters of a token in section 5.1 of RFC 2045. */
  predicate TokenChar(c: char) {
    || 'A' <= c <= 'Z' || 'a' <= c <= 'z' || '0' <= c <= '9'
    || c in {'!', '#', '$', '%', '&', '\'', '*', '+', '-', '.', '^', '_', '`', '{', '|', '}', '~'}
  }

  predicate White(c: char) { c in {' ', '\t', '\n', '\r', 11 as char, 12 as char} }

  ghost predicate Blank(s: string) { forall i | 0 <= i < |s| :: White(s[i]) }

  ghost predicate Token(s: string) { s != "" && forall i | 0 <= i < |s| :: TokenChar(s[i]) }

  lemma LettersMean(c: char)
    ensures forall i | 0 <= i < 26 :: LowerChar(UPPER[i]) == LOWER[i]
    ensures !('A' <= c <= 'Z') ==> LowerChar(c) == c
    ensures IsBlank(c) <==> White(c)
    ensures TokenChar(LowerChar(c)) <==> TokenChar(c)
    ensures White(LowerChar(c)) <==> White(c)
    ensures LowerChar(c) == '/' <==> c == '/'
  {
  }

  lemma TokensMean(s: string)
    ensures IsToken(s) <==> Token(s)
  {
    forall c: char
      ensures TokenChar(c) <==> '!' <= c <= '~' && c !in "()<>@,;:\\\"/[]?="
    {
      TokenCharIs(c);
    }
    hide TokenChar;
  }

  lemma TokenCharIs(c: char)
    ensures TokenChar(c) <==> '!' <= c <= '~' && c !in "()<>@,;:\\\"/[]?="
  {
    var t := "()<>@,;:\\\"/[]?=";
    assert t == ['(', ')', '<', '>', '@', ',', ';', ':', '\\', '"', '/', '[', ']', '?', '='];
    if c in t {
      var i :| 0 <= i < |t| && t[i] == c;
    }
    assert t[0] == '(' && t[1] == ')' && t[2] == '<' && t[3] == '>' && t[4] == '@';
    assert t[5] == ',' && t[6] == ';' && t[7] == ':';
    assert t[8] == '\\' && t[9] == '"' && t[10] == '/' && t[11] == '[' && t[12] == ']' && t[13] == '?' && t[14] == '=';
  }

  lemma LowerAppend(a: string, b: string)
    ensures Lower(a + b) == Lower(a) + Lower(b)
  {
  }

  lemma LowerKinds(s: string)
    ensures Blank(s) ==> Blank(Lower(s))
    ensures Token(s) ==> Token(Lower(s)) && '/' !in Lower(s)
  {
    forall i | 0 <= i < |s|
      ensures White(Lower(s)[i]) <==> White(s[i])
      ensures TokenChar(Lower(s)[i]) <==> TokenChar(s[i])
    {
      LettersMean(s[i]);
    }
    assert !TokenChar('/');
    hide White, TokenChar;
  }

  lemma {:induction false} BeforeAt(a: string, c: char, rest: string)
    requires c !in a
    ensures Before(a + ([c] + rest), c) == a && After(a + ([c] + rest), c) == rest && Before(a, c) == a
  {
    var s := a + ([c] + rest);
    if a == "" {
      assert s == [c] + rest && s[1..] == rest;
    } else {
      BeforeAt(a[1..], c, rest);
      assert s[1..] == a[1..] + ([c] + rest);
      assert a == [a[0]] + a[1..];
    }
  }

  lemma {:induction false} TrimLeft(pad: string, x: string)
    requires Blank(pad)
    ensures Trim(pad + x) == Trim(x)
  {
    if pad == "" {
      assert pad + x == x;
    } else {
      var s := pad + x;
      assert s[0] == pad[0] && s[1..] == pad[1..] + x;
      LettersMean(pad[0]);
      TrimLeft(pad[1..], x);
    }
  }

  lemma {:induction false} TrimRight(x: string, pad: string)
    requires Blank(pad) && x != "" && !White(x[0]) && !White(x[|x| - 1])
    ensures Trim(x + pad) == x
    decreases |pad|
  {
    LettersMean(x[0]);
    if pad == "" {
      assert x + pad == x;
      LettersMean(x[|x| - 1]);
      TrimNone(x);
    } else {
      var n := |pad| - 1;
      var s := x + pad;
      assert s[0] == x[0] && s[|s| - 1] == pad[n] && s[..|s| - 1] == x + pad[..n];
      LettersMean(pad[n]);
      TrimRight(x, pad[..n]);
    }
  }

  /** Two tokens with a slash between them are a media type, in small letters,
      whatever white space is around them and whatever stands behind a
      semicolon. */
  lemma TypesMean(pad: string, major: string, minor: string, pad2: string, params: string)
    requires Blank(pad) && Blank(pad2) && Token(major) && Token(minor)
    requires params == "" || params[0] == ';'
    ensures MediaType(pad + (major + ("/" + minor)) + pad2 + params) == Some(Lower(major) + ("/" + Lower(minor)))
  {
    var x := major + ("/" + minor);
    var head := pad + x + pad2;
    var y := Lower(major) + ("/" + Lower(minor));
    LowerKinds(major);
    LowerKinds(minor);
    TokensMean(Lower(major));
    TokensMean(Lower(minor));
    NoSemicolon(pad, major, minor, pad2);
    CutParams(head, params);
    TrimType(pad, major, minor, pad2);
    BeforeAt(Lower(major), '/', Lower(minor));
    assert ['/'] + Lower(minor) == "/" + Lower(minor);
    assert y[|Lower(major)|] == '/' && '/' !in Lower(major);
    hide Token, Lower, Trim, Before, After, IsToken, Blank;
  }

  lemma CutParams(head: string, params: string)
    requires ';' !in head && (params == "" || params[0] == ';')
    ensures Before(head + params, ';') == head
  {
    if params == "" {
      BeforeAt(head, ';', "");
      assert head + params == head;
    } else {
      BeforeAt(head, ';', params[1..]);
      assert params == [';'] + params[1..];
    }
  }

  lemma NoSemicolon(pad: string, major: string, minor: string, pad2: string)
    requires Blank(pad) && Blank(pad2) && Token(major) && Token(minor)
    ensures ';' !in pad + (major + ("/" + minor)) + pad2
  {
    assert !White(';') && !TokenChar(';');
    hide White, TokenChar;
    assert ';' !in pad && ';' !in major && ';' !in minor && ';' !in pad2 && ';' !in "/";
  }

  lemma TrimType(pad: string, major: string, minor: string, pad2: string)
    requires Blank(pad) && Blank(pad2) && Token(major) && Token(minor)
    ensures Trim(Lower(pad + (major + ("/" + minor)) + pad2)) == Lower(major) + ("/" + Lower(minor))
  {
    var x, y := major + ("/" + minor), Lower(major) + ("/" + Lower(minor));
    LowerKinds(pad);
    LowerKinds(pad2);
    LowerKinds(major);
    LowerKinds(minor);
    TokenNotWhite(Lower(major));
    TokenNotWhite(Lower(minor));
    assert Lower("/") == "/";
    LowerAppend(pad + x, pad2);
    LowerAppend(pad, x);
    LowerAppend(major, "/" + minor);
    LowerAppend("/", minor);
    hide White, TokenChar, Trim, Lower, LowerChar, Blank;
    assert y[0] == Lower(major)[0] && y[|y| - 1] == Lower(minor)[|minor| - 1];
    assert Lower(pad + x + pad2) == Lower(pad) + y + Lower(pad2);
    assert Lower(pad) + y + Lower(pad2) == Lower(pad) + (y + Lower(pad2));
    TrimLeft(Lower(pad), y + Lower(pad2));
    TrimRight(y, Lower(pad2));
  }

  lemma TokenNotWhite(s: string)
    requires Token(s)
    ensures !White(s[0]) && !White(s[|s| - 1])
  {
    assert TokenChar(s[0]) && TokenChar(s[|s| - 1]);
  }

  lemma FirstWord(w: string, a: string, b: string)
    requires '/' !in w && '/' !in a
    ensures w + "/" <= a + ("/" + b) <==> w == a
  {
    var y := a + ("/" + b);
    BeforeAt(a, '/', b);
    assert "/" + b == ['/'] + b;
    if w + "/" <= y {
      var rest := y[|w| + 1..];
      BeforeAt(w, '/', rest);
      assert y == w + (['/'] + rest);
    }
    hide Before, After;
  }

  lemma MultipartWord()
    ensures "multipart/" == "multipart" + "/" && '/' !in "multipart"
  {
  }

  lemma MultipartIs(t: string)
    ensures IsMultipart(t) <==> MediaType(t).Some? && "multipart/" <= MediaType(t).value
  {
    hide MediaType;
  }

  /** It is a container if and only if the first token is "multipart", in letters
      of either case. */
  lemma ContainersMean(pad: string, major: string, minor: string, pad2: string, params: string)
    requires Blank(pad) && Blank(pad2) && Token(major) && Token(minor)
    requires params == "" || params[0] == ';'
    ensures IsMultipart(pad + (major + ("/" + minor)) + pad2 + params) <==> Lower(major) == "multipart"
  {
    hide *;
    TypesMean(pad, major, minor, pad2, params);
    LowerKinds(major);
    MultipartIs(pad + (major + ("/" + minor)) + pad2 + params);
    MultipartWord();
    FirstWord("multipart", Lower(major), Lower(minor));
  }

  /** The Content-Type as the builder has it when it looks for the encoding, */
  function TypeText(p: Part, name: string): string {
    var t := p.ctype + if p.ctype == "text/plain" || p.ctype == "text/html" then "; charset=\"UTF-8\"" else "";
    t + if name != "" && t != "" then "; name=\"" + name + "\"" else ""
  }

  /** and the media type in it: up to a semicolon, without white space around it
      and in small letters, or all of it. */
  function TypeIn(v: string): string {
    if ';' in v then Trim(Lower(Before(v, ';'))) else v
  }

  lemma {:induction false} BeforeMore(a: string, b: string)
    requires b == "" || b[0] == ';'
    ensures Before(a + b, ';') == Before(a, ';')
  {
    if a == "" {
      assert a + b == b;
    } else {
      assert (a + b)[1..] == a[1..] + b;
      BeforeMore(a[1..], b);
    }
  }

  lemma TypeSeenMeans(p: Part, name: string)
    ensures TypeSeen(p, name) == TypeIn(TypeText(p, name))
  {
    var charset := if p.ctype == "text/plain" || p.ctype == "text/html" then "; charset=\"UTF-8\"" else "";
    var named := if name != "" && p.ctype + charset != "" then "; name=\"" + name + "\"" else "";
    assert TypeText(p, name) == p.ctype + charset + named;
    assert p.ctype + charset + named == p.ctype + (charset + named);
    assert charset != "" ==> charset[0] == ';';
    assert named != "" ==> named[0] == ';';
    BeforeMore(p.ctype, charset + named);
    hide Trim, Lower, Before;
    assert charset != "" ==> ';' in charset;
    assert named != "" ==> ';' in named;
  }

  /** A part can be written if and only if no quote stands in its content ID or in
      the name it is given, and it has an encoding or content to find one for. */
  lemma WritableMeans(p: Part)
    ensures Writable(p) <==>
      && (forall i | 0 <= i < |p.cid| :: p.cid[i] != '"')
      && (p.name != "" ==> forall i | 0 <= i < |p.name| :: p.name[i] != '"')
      && (p.encoding == "" ==> p.content.Some?)
  {
  }

  // --------------------------------------------------------------------- names

  lemma {:induction false} NameAt(ps: seq<Part>, k: nat, i: nat)
    requires i < |ps|
    ensures NameAll(ps, k)[i] == Named(ps[i], k + i)
    decreases |ps|
  {
    hide Named;
    if i > 0 {
      NameAt(ps[1..], k + 1, i - 1);
    }
  }

  lemma {:induction false} DecimalTells(m: nat, n: nat)
    requires Decimal(m) == Decimal(n)
    ensures m == n
    decreases m
  {
    DigitTells(m % 10, n % 10);
    LastDigit(m);
    LastDigit(n);
    if m >= 10 && n >= 10 {
      DecimalTells(m / 10, n / 10);
    } else {
      DecimalLength(m);
      DecimalLength(n);
    }
  }

  lemma DigitTells(a: nat, b: nat)
    requires a < 10 && b < 10
    ensures "0123456789"[a] == "0123456789"[b] <==> a == b
  {
  }

  lemma LastDigit(n: nat)
    ensures Decimal(n) != "" && Decimal(n)[|Decimal(n)| - 1] == "0123456789"[n % 10]
    ensures n >= 10 ==> Decimal(n)[..|Decimal(n)| - 1] == Decimal(n / 10)
  {
  }

  lemma DecimalLength(n: nat)
    ensures if n < 10 then |Decimal(n)| == 1 else |Decimal(n)| > 1
  {
    if n >= 10 {
      LastDigit(n / 10);
    }
  }

  predicate Unnamed(p: Part) { !p.isBody && p.name == "" }

  lemma NamedIs(p: Part, i: nat)
    ensures Named(p, i).name == if Unnamed(p) then "attachment-" + Decimal(i) else p.name
    ensures Named(p, i) == p.(name := Named(p, i).name)
  {
    hide Decimal;
  }

  /** A part without a name that is no body is called "attachment-" and its place
      in the message, and nothing else of it changes; */
  lemma NamesMean(ps: seq<Part>, i: nat)
    requires i < |ps|
    ensures var p, q := ps[i], NameAll(ps, 0)[i];
      q == p.(name := q.name) && q.name == if Unnamed(p) then "attachment-" + Decimal(i) else p.name
  {
    hide *;
    NameAt(ps, 0, i);
    NamedIs(ps[i], i);
  }

  /** so no two of them are called alike. */
  lemma NamesDiffer(ps: seq<Part>, i: nat, j: nat)
    requires i < |ps| && j < |ps| && i != j && Unnamed(ps[i]) && Unnamed(ps[j])
    ensures NameAll(ps, 0)[i].name != NameAll(ps, 0)[j].name
  {
    hide *;
    NamesMean(ps, i);
    NamesMean(ps, j);
    if "attachment-" + Decimal(i) == "attachment-" + Decimal(j) {
      Cancel("attachment-", Decimal(i), Decimal(j));
      DecimalTells(i, j);
    }
  }
}
