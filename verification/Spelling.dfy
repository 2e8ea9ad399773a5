// Documents as they can be written by hand: any blanks between the marks,
// comments anywhere, text after other content, attributes without a value.
// Reading one gives the tree it spells.
module Spelling {
  import opened Option
  import opened Dom
  import opened Lalr
  import opened Grammar
  import opened Scanner
  import opened Patterns
  import opened Munch
  import opened Lexicon
  import opened Parsing
  import opened LalrComplete
  import opened PrintScan

  datatype Quoted = Quoted(before: string, after: string, text: string)

  datatype Attr = Attr(gap: string, name: string, value: Option<Quoted>)

  datatype Elem = Elem(name: string, attrs: seq<Attr>, inTag: string, body: Option<Inside>, after: string)

  datatype Inside = Inside(open: string, parts: seq<Part>, inEnd: string)

  datatype Part = Remark(body: string, after: string) | Chars(text: string, after: string) | Nested(e: Elem)

  // The characters of a document.
  function AttrText(a: Attr): string {
    a.gap + a.name
    + match a.value case None => "" case Some(q) => q.before + ("=" + (q.after + ("\"" + q.text + "\"")))
  }

  function AttrsText(attrs: seq<Attr>): string {
    if attrs == [] then "" else AttrText(attrs[0]) + AttrsText(attrs[1..])
  }

  function ElemText(e: Elem): string
    decreases e
  {
    "<" + e.name + (AttrsText(e.attrs) + (e.inTag + TailText(e)))
  }

  function TailText(e: Elem): string
    decreases e, 0
  {
    match e.body
    case None => "/" + (">" + e.after)
    case Some(b) => ">" + b.open + (PartsText(b.parts) + EndText(e.name, b.inEnd, e.after))
  }

  function EndText(name: string, inEnd: string, after: string): string { "</" + (name + (inEnd + (">" + after))) }

  function PartText(p: Part): string
    decreases p
  {
    match p
    case Remark(body, after) => "<!--" + body + "-->" + after
    case Chars(text, after) => text + ("\n" + after)
    case Nested(e) => ElemText(e)
  }

  function PartsText(ps: seq<Part>): string
    decreases ps
  {
    if ps == [] then "" else PartText(ps[0]) + PartsText(ps[1..])
  }

  // What may be spelled.
  predicate AttrFine(a: Attr) {
    a.gap != "" && Blanks(a.gap) && IsWord(a.name)
    && match a.value case None => true case Some(q) => Blanks(q.before) && Blanks(q.after) && Without(q.text, "\"&")
  }

  predicate AttrsFine(attrs: seq<Attr>) { forall i | 0 <= i < |attrs| :: AttrFine(attrs[i]) }

  predicate TextFine(text: string) { text != "" && Without(text, "<\n&") && !Blanks(text[..1]) }

  // Without -- in it or a dash at its end, and no > or -> at its beginning.
  predicate RemarkFine(body: string) { body != "" && NoDashes(body) && body[0] != '>' && !("->" <= body) }

  predicate ElemFine(e: Elem)
    decreases e
  {
    IsWord(e.name) && AttrsFine(e.attrs) && Blanks(e.inTag) && Blanks(e.after)
    && match e.body case None => true case Some(b) => Blanks(b.open) && Blanks(b.inEnd) && PartsFine(b.parts, true)
  }

  // Text may follow anything but text.
  predicate PartsFine(ps: seq<Part>, text: bool)
    decreases ps
  {
    ps == [] || (PartFine(ps[0]) && (ps[0].Chars? ==> text) && PartsFine(ps[1..], !ps[0].Chars?))
  }

  predicate PartFine(p: Part)
    decreases p
  {
    match p
    case Remark(body, after) => RemarkFine(body) && Blanks(after)
    case Chars(text, after) => TextFine(text) && Blanks(after)
    case Nested(e) => ElemFine(e)
  }

  // Without the characters isspace(3) accepts at its beginning.
  function DropBlanks(s: string): string {
    if s != "" && s[0] in {' ', '\t', '\n', '\r', '\U{B}', '\U{C}'} then DropBlanks(s[1..]) else s
  }

  // What comment() takes of a comment with n blanks before it: it skips four
  // characters, whatever they are, and then blanks.
  function Taken(n: nat, body: string): string {
    if n == 0 then DropBlanks(body)
    else if n == 1 then "-" + body
    else if n == 2 then "--" + body
    else if n == 3 then "!--" + body
    else "<!--" + body
  }

  // The blanks left in front of what follows a part: after text the end of its line.
  function LeftBy(p: Part): string { if p.Chars? then "\n" + p.after else "" }

  // The tree it spells: attributes in order, the last text for value, and
  // comments and elements for children.
  function TreeOf(e: Elem): Tree
    decreases e
  {
    match e.body
    case None => Tree(e.name, None, Pairs(e.attrs), [])
    case Some(b) => Tree(e.name, LastText(b.parts), Pairs(e.attrs), TreesOf(b.parts, 0))
  }

  function Pairs(attrs: seq<Attr>): seq<(string, string)> {
    if attrs == [] then []
    else [(attrs[0].name, match attrs[0].value case None => "" case Some(q) => q.text)] + Pairs(attrs[1..])
  }

  function LastText(ps: seq<Part>): Option<string> {
    if ps == [] then None
    else if ps[|ps| - 1].Chars? then Some(ps[|ps| - 1].text) else LastText(ps[..|ps| - 1])
  }

  function TreesOf(ps: seq<Part>, n: nat): seq<Tree>
    decreases ps
  {
    if ps == [] then [] else PartTrees(ps[0], n) + TreesOf(ps[1..], |LeftBy(ps[0])|)
  }

  function PartTrees(p: Part, n: nat): seq<Tree>
    decreases p
  {
    match p
    case Remark(body, _) => [Tree("#comment", Some(Taken(n, body)), [], [])]
    case Chars(_, _) => []
    case Nested(e) => [TreeOf(e)]
  }

  // The derivation its tokens have.
  function Derivation(e: Elem): Element
    decreases e
  {
    Element(e.name, Attributes(e.attrs),
            match e.body case None => Short case Some(b) => Long(Items(b.parts, 0), e.name))
  }

  function Attributes(attrs: seq<Attr>): seq<Attribute> {
    if attrs == [] then []
    else [Attribute(attrs[0].name, match attrs[0].value case None => None case Some(q) => Some(q.text))]
         + Attributes(attrs[1..])
  }

  function Items(ps: seq<Part>, n: nat): seq<Item>
    decreases ps
  {
    if ps == [] then [] else [PartItem(ps[0], n)] + Items(ps[1..], |LeftBy(ps[0])|)
  }

  function PartItem(p: Part, n: nat): Item
    decreases p
  {
    match p
    case Remark(body, _) => CommentItem(Taken(n, body))
    case Chars(text, _) => DataItem(text)
    case Nested(e) => ElementItem(Derivation(e))
  }

  lemma {:induction false} PairsDenoted(attrs: seq<Attr>)
    ensures AttributePairs(Attributes(attrs)) == Pairs(attrs)
  {
    if attrs != [] {
      PairsDenoted(attrs[1..]);
      assert Attributes(attrs)[1..] == Attributes(attrs[1..]);
    }
  }

  lemma {:induction false} TreeDenoted(e: Elem)
    ensures ElementTree(Derivation(e)) == TreeOf(e) && Matched(Derivation(e))
    decreases e
  {
    PairsDenoted(e.attrs);
    if e.body.Some? {
      PartsDenoted(e.body.value.parts, 0, None);
      LastTextIs(e.body.value.parts, 0, None);
    }
  }

  lemma {:induction false} PartsDenoted(ps: seq<Part>, n: nat, v: Option<string>)
    ensures ItemTrees(Items(ps, n)) == TreesOf(ps, n) && AllMatched(Items(ps, n))
    decreases ps
  {
    if ps != [] {
      PartsDenoted(ps[1..], |LeftBy(ps[0])|, v);
      assert Items(ps, n)[1..] == Items(ps[1..], |LeftBy(ps[0])|);
      PartDenoted(ps[0], n);
    }
  }

  lemma {:induction false} PartDenoted(p: Part, n: nat)
    ensures ItemTree(PartItem(p, n)) == PartTrees(p, n) && ItemMatched(PartItem(p, n))
    decreases p
  {
    if p.Nested? { TreeDenoted(p.e); }
  }

  lemma {:induction false} LastTextIs(ps: seq<Part>, n: nat, v: Option<string>)
    ensures LastData(Items(ps, n), v) == if LastText(ps) == None then v else LastText(ps)
  {
    if ps != [] {
      var v' := if ps[0].Chars? then Some(ps[0].text) else v;
      LastTextIs(ps[1..], |LeftBy(ps[0])|, v');
      assert Items(ps, n)[1..] == Items(ps[1..], |LeftBy(ps[0])|);
      LastTextMore(ps);
    }
  }

  lemma {:induction false} LastTextMore(ps: seq<Part>)
    requires ps != []
    ensures LastText(ps) ==
      if LastText(ps[1..]).Some? then LastText(ps[1..]) else if ps[0].Chars? then Some(ps[0].text) else None
  {
    if |ps| == 1 {
      assert ps[1..] == [] && ps[..0] == [];
    } else {
      var front := ps[..|ps| - 1];
      LastTextMore(front);
      assert front[1..] == ps[1..][..|ps| - 2];
    }
  }

  // The literal conditions are those of the patterns.
  lemma FineMeans(w: string, name: string, text: string)
    ensures Blanks(w) ==> AllWs(w)
    ensures IsWord(name) ==> IsName(name)
    ensures Without(text, "\"&") ==> All(Not({'"', '&'}), text)
    ensures TextFine(text) ==> text != "" && All(Not({'<', '\n', '&'}), text) && !IsWs(text[0])
  {
    BlanksIs(w);
    WordIs(name);
    WithoutIs(text, Not({'"', '&'}), "\"&");
    WithoutIs(text, Not({'<', '\n', '&'}), "<\n&");
    if TextFine(text) { BlanksIs(text[..1]); assert text[..1][0] == text[0]; }
  }

  // Blanks inside a tag.
  lemma ScanGap(w: string, rest: string)
    requires Blanks(w) && rest != "" && !IsWs(rest[0]) && rest[0] != '<'
    ensures Scan(Initial, w + rest) == Scan(Initial, rest)
  {
    hide Scan;
    FineMeans(w, "", "");
    if w == "" {
      assert w + rest == rest;
    } else {
      assert (w + rest)[|w|..] == rest;
      BlanksWin(w, rest);
      ScanTakes(Initial, w + rest, 0, |w|);
      assert [] + Scan(Initial, rest).0 == Scan(Initial, rest).0;
    }
  }

  lemma ScanEquals(rest: string)
    ensures Scan(Initial, "=" + rest) == Then([Eq], Scan(Initial, rest))
  {
    hide Scan;
    assert ("=" + rest)[1..] == rest;
    MarkWins('=', rest);
    ScanTakes(Initial, "=" + rest, 2, 1);
  }

  lemma ScanQuoted(v: string, rest: string)
    requires All(Not({'"', '&'}), v)
    ensures Scan(Initial, "\"" + v + "\"" + rest) == Then([Value(v)], Scan(Initial, rest))
  {
    hide Scan;
    var u, n := "\"" + v + "\"" + rest, |v| + 2;
    assert u[..n] == "\"" + v + "\"" && u[..n][1..] == v + "\"" && u[n..] == rest;
    ValueWins(v, rest);
    ScanTakes(Initial, u, 5, n);
    UntilQuoteOf(v);
  }

  // name = "value", with any blanks around the equals sign.
  lemma ScanAttr(a: Attr, more: string)
    requires AttrFine(a) && more != "" && !IsNameChar(more[0])
    ensures Scan(Initial, AttrText(a) + more)
         == Then([Name(a.name)] + (match a.value case None => [] case Some(q) => [Eq, Value(q.text)]),
                 Scan(Initial, more))
  {
    hide Scan, Blanks, Without, All, AllWs;
    FineMeans("", a.name, "");
    var r := Scan(Initial, more);
    match a.value
    case None =>
      assert AttrText(a) + more == a.gap + (a.name + more);
      ScanGap(a.gap, a.name + more);
      ScanName(a.name, more);
      assert [Name(a.name)] + [] == [Name(a.name)];
    case Some(q) =>
      FineMeans("", "", q.text);
      var u4 := "\"" + q.text + "\"" + more;
      var u3 := q.after + u4;
      var u2 := "=" + u3;
      var u1 := q.before + u2;
      assert AttrText(a) + more == a.gap + (a.name + u1);
      ScanGap(a.gap, a.name + u1);
      EqualsNext(q.before, u3);
      ScanName(a.name, u1);
      ScanGap(q.before, u2);
      ScanEquals(u3);
      ScanGap(q.after, u4);
      ScanQuoted(q.text, more);
      assert [Name(a.name)] + ([Eq] + ([Value(q.text)] + r.0)) == ([Name(a.name)] + [Eq, Value(q.text)]) + r.0;
  }

  lemma EqualsNext(w: string, rest: string)
    requires Blanks(w)
    ensures !StartsWith(w + ("=" + rest), NameChar)
  {}

  lemma {:induction false} ScanAttrs(attrs: seq<Attr>, more: string)
    requires AttrsFine(attrs) && more != "" && !IsNameChar(more[0])
    ensures Scan(Initial, AttrsText(attrs) + more) == Then(AttributesTokens(Attributes(attrs)), Scan(Initial, more))
    ensures AttrsText(attrs) + more != "" && !IsNameChar((AttrsText(attrs) + more)[0])
    decreases |attrs|
  {
    hide Scan, AttrText;
    if attrs == [] {
      assert AttrsText(attrs) + more == more && [] + Scan(Initial, more).0 == Scan(Initial, more).0;
    } else {
      var rest := attrs[1..];
      ScanAttrs(rest, more);
      var u := AttrsText(rest) + more;
      assert AttrsText(attrs) + more == AttrText(attrs[0]) + u;
      ScanAttr(attrs[0], u);
      AttrOpens(attrs[0], u);
      AttributesTokensMore(attrs);
      var one := [Name(attrs[0].name)] + match attrs[0].value case None => [] case Some(q) => [Eq, Value(q.text)];
      assert one + (AttributesTokens(Attributes(rest)) + Scan(Initial, more).0)
          == (one + AttributesTokens(Attributes(rest))) + Scan(Initial, more).0;
    }
  }

  lemma AttrOpens(a: Attr, u: string)
    requires AttrFine(a)
    ensures AttrText(a) + u != "" && !IsNameChar((AttrText(a) + u)[0])
  {
    assert (AttrText(a) + u)[0] == a.gap[0];
  }

  lemma AttributesTokensMore(attrs: seq<Attr>)
    requires attrs != []
    ensures AttributesTokens(Attributes(attrs))
         == [Name(attrs[0].name)] + (match attrs[0].value case None => [] case Some(q) => [Eq, Value(q.text)])
            + AttributesTokens(Attributes(attrs[1..]))
  {
    assert Attributes(attrs)[1..] == Attributes(attrs[1..]);
  }

  predicate ArrowAt(s: string, i: nat) { i + 2 < |s| && s[i] == '-' && s[i + 1] == '-' && s[i + 2] == '>' }

  lemma ArrowIs(s: string)
    ensures "-->" <= s <==> ArrowAt(s, 0)
  {
    if ArrowAt(s, 0) { assert s[..3] == "-->"; }
  }

  lemma {:induction false} UntilArrowOf(p: string, tail: string)
    requires forall i: nat | i < |p| :: !ArrowAt(p + "-->" + tail, i)
    ensures UntilArrow(p + "-->" + tail) == p
    decreases |p|
  {
    var s := p + "-->" + tail;
    if p == "" {
      assert s[..3] == "-->";
    } else {
      var q := p[1..];
      assert s[1..] == q + "-->" + tail;
      forall i: nat | i < |q| ensures !ArrowAt(q + "-->" + tail, i) { assert !ArrowAt(s, i + 1); }
      UntilArrowOf(q, tail);
      assert !ArrowAt(s, 0);
      ArrowIs(s);
    }
  }

  lemma NoArrow(pre: string, x: string, tail: string)
    requires NoDashes(x) && x != ""
    requires pre == "" || (pre in {"-", "--", "!--", "<!--"} && x[0] != '>' && !("->" <= x))
    ensures forall i: nat | i < |pre + x| :: !ArrowAt((pre + x) + "-->" + tail, i)
  {
    var s, n := (pre + x) + "-->" + tail, |pre|;
    assert s[n..] == x + "-->" + tail && s[..n] == pre;
    assert |x| >= 2 && x[0] == '-' && x[1] == '>' ==> x[..2] == "->";
    forall i: nat | i < |pre + x| ensures !ArrowAt(s, i) {
      if i >= n {
        NoArrowIn(x, tail, i - n);
        assert forall j | i <= j < |s| :: s[j] == s[n..][j - n];
      } else {
        assert s[i] == pre[i] && s[n] == x[0];
      }
    }
  }

  lemma NoArrowIn(x: string, tail: string, i: nat)
    requires NoDashes(x) && i < |x|
    ensures !ArrowAt(x + "-->" + tail, i)
  {
    var s := x + "-->" + tail;
    assert s[i] == x[i] && s[i + 1] == if i + 1 < |x| then x[i + 1] else '-';
  }

  lemma {:induction false} DroppedOf(x: string, u: string)
    requires u != "" && u[0] == '-'
    ensures SkipSpace(x + u) == DropBlanks(x) + u
    ensures NoDashes(x) ==> NoDashes(DropBlanks(x))
    decreases |x|
  {
    if x == "" {
      assert x + u == u;
    } else if IsSpace(x[0]) {
      assert (x + u)[1..] == x[1..] + u;
      DroppedOf(x[1..], u);
      if NoDashes(x) { assert NoDashes(x[1..]); }
    }
  }

  lemma {:induction false} SkipSpaceOf(w: string, u: string)
    requires AllWs(w) && u != "" && !IsSpace(u[0])
    ensures SkipSpace(w + u) == u
    decreases |w|
  {
    if w == "" {
      assert w + u == u;
    } else {
      assert (w + u)[1..] == w[1..] + u;
      SkipSpaceOf(w[1..], u);
    }
  }

  // What comment() makes of the match of a comment.
  lemma TakenOf(w: string, x: string, b: string)
    requires AllWs(w) && RemarkFine(x)
    ensures CommentText(w + "<!--" + x + "-->" + b) == Taken(|w|, x)
  {
    hide AllWs, RemarkFine, CommentText, Taken;
    if |w| == 0 {
      assert w + "<!--" + x + "-->" + b == "<!--" + x + "-->" + b;
      TakenAtOnce(x, b);
    } else {
      TakenLate(w, x, b);
    }
  }

  lemma TakenAtOnce(x: string, b: string)
    requires RemarkFine(x)
    ensures CommentText("<!--" + x + "-->" + b) == Taken(0, x)
  {
    hide NoDashes, UntilArrow, SkipSpace, DropBlanks;
    assert ("<!--" + x + "-->" + b)[4..] == x + ("-->" + b);
    DroppedOf(x, "-->" + b);
    UndashedEnd(DropBlanks(x), b);
  }

  lemma UndashedEnd(d: string, b: string)
    requires NoDashes(d)
    ensures UntilArrow(d + ("-->" + b)) == d
  {
    hide NoDashes, UntilArrow;
    assert d + ("-->" + b) == d + "-->" + b && "" + d == d;
    if d != "" { NoArrow("", d, b); }
    UntilArrowOf(d, b);
  }

  lemma TakenLate(w: string, x: string, b: string)
    requires w != "" && AllWs(w) && RemarkFine(x)
    ensures CommentText(w + "<!--" + x + "-->" + b) == Taken(|w|, x)
  {
    hide NoDashes, AllWs;
    var pre := if |w| == 1 then "-" else if |w| == 2 then "--" else if |w| == 3 then "!--" else "<!--";
    var v := if |w| < 4 then "" else w[4..];
    assert (w + "<!--" + x + "-->" + b)[4..] == v + ((pre + x) + "-->" + b);
    AllWsDrop(w);
    SkipSpaceOf(v, (pre + x) + "-->" + b);
    NoArrow(pre, x, b);
    UntilArrowOf(pre + x, b);
  }

  lemma AllWsDrop(w: string)
    requires AllWs(w)
    ensures AllWs("") && (|w| >= 4 ==> AllWs(w[4..]))
  {}

  lemma ScanRemark(mode: Mode, w: string, body: string, after: string, rest: string)
    requires Blanks(w) && RemarkFine(body) && Blanks(after)
    ensures Scan(mode, w + ("<!--" + body + "-->" + after) + rest)
         == Then([Comment(Taken(|w|, body))], Scan(mode, Trim(rest)))
  {
    TrimOf(rest);
    FineMeans(w, "", "");
    FineMeans(after, "", "");
    var b := LeadingBlanks(rest);
    assert AllWs(after + b);
    hide Scan, AllWs, Blanks, Trim, LeadingBlanks, RemarkFine, Taken, StartsWith;
    var r := Trim(rest);
    assert w + ("<!--" + body + "-->" + after) + (b + r) == w + "<!--" + body + "-->" + (after + b) + r;
    RemarkTaken(mode, w, body, after + b, r);
  }

  lemma RemarkTaken(mode: Mode, w: string, body: string, b: string, r: string)
    requires AllWs(w) && RemarkFine(body) && AllWs(b) && !StartsWith(r, Space)
    ensures Scan(mode, w + "<!--" + body + "-->" + b + r) == Then([Comment(Taken(|w|, body))], Scan(mode, r))
  {
    UndashedIs(body);
    hide Scan, AllWs, NoDashes, Undashed, Taken, CommentText, Wins, StartsWith;
    var t, n := w + "<!--" + body + "-->" + b + r, |w| + |body| + |b| + 7;
    assert t[..n] == w + "<!--" + body + "-->" + b && t[n..] == r;
    CommentWins(mode, w, body, b, r);
    TakenOf(w, body, b);
    hide RemarkFine;
    ScanTakes(mode, t, 9, n);
  }

  lemma ScanEndText(w: string, name: string, inEnd: string, after: string, rest: string)
    requires Blanks(w) && IsWord(name) && Blanks(inEnd) && Blanks(after)
    ensures Scan(InContent, w + EndText(name, inEnd, after) + rest)
         == Then([End, Name(name), Close], Scan(InContent, Trim(rest)))
  {
    hide Scan, IsWord, IsName;
    FineMeans(w, name, "");
    FineMeans(after, "", "");
    var u := ">" + after + rest;
    assert w + EndText(name, inEnd, after) + rest == w + "</" + (name + (inEnd + u));
    ScanEnd(InContent, w, name + (inEnd + u));
    GapThenNoName(inEnd, u);
    ScanName(name, inEnd + u);
    ScanGap(inEnd, u);
    ScanClose(after, rest);
    var r := Scan(InContent, Trim(rest)).0;
    assert [End] + ([Name(name)] + ([Close] + r)) == [End, Name(name), Close] + r;
  }

  lemma GapThenNoName(w: string, u: string)
    requires Blanks(w) && u != "" && u[0] in {'>', '/'}
    ensures w + u != "" && !IsNameChar((w + u)[0]) && !StartsWith(w + u, NameChar)
  {}

  lemma {:induction false} ScanElem(e: Elem, mode: Mode, w: string, rest: string)
    requires ElemFine(e) && Blanks(w)
    ensures Scan(mode, w + ElemText(e) + rest) == Then(ElementTokens(Derivation(e)), Scan(InContent, Trim(rest)))
    decreases e, 1
  {
    hide Scan, IsWord, IsName, Blanks, AttrsFine, AttrsText, TailText, PartsFine, Trim, AttributesTokens, BodyTokens;
    FineMeans(w, e.name, "");
    var u := TailText(e) + rest;
    TailOpens(e, rest);
    GapThenNoName(e.inTag, u);
    var v := e.inTag + u;
    assert w + ElemText(e) + rest == w + "<" + e.name + (AttrsText(e.attrs) + v);
    ScanAttrs(e.attrs, v);
    NoNameAhead(AttrsText(e.attrs) + v);
    ScanStart(mode, w, e.name, AttrsText(e.attrs) + v);
    ScanGap(e.inTag, u);
    ScanTail(e, rest);
    var ats, b := AttributesTokens(Attributes(e.attrs)), BodyTokens(Derivation(e).body);
    var r := Scan(InContent, Trim(rest)).0;
    assert ElementTokens(Derivation(e)) == [Start(e.name)] + ats + b;
    assert [Start(e.name)] + (ats + (b + r)) == ([Start(e.name)] + ats + b) + r;
  }

  lemma NoNameAhead(s: string)
    requires s != "" && !IsNameChar(s[0])
    ensures !StartsWith(s, NameChar)
  {}

  lemma TailOpens(e: Elem, rest: string)
    ensures var u := TailText(e) + rest; u != "" && u[0] in {'>', '/'} && !IsWs(u[0]) && u[0] != '<'
  {}

  lemma {:induction false} ScanTail(e: Elem, rest: string)
    requires ElemFine(e)
    ensures Scan(Initial, TailText(e) + rest) == Then(BodyTokens(Derivation(e).body), Scan(InContent, Trim(rest)))
    decreases e, 0
  {
    hide Scan, Trim, PartsText, PartsFine, EndText, Blanks, IsWord;
    var r := Scan(InContent, Trim(rest)).0;
    match e.body
    case None =>
      FineMeans(e.after, "", "");
      assert TailText(e) + rest == "/" + (">" + e.after + rest);
      ScanSlash(">" + e.after + rest);
      ScanClose(e.after, rest);
      assert [Slash] + ([Close] + r) == [Slash, Close] + r;
    case Some(b) =>
      FineMeans(b.open, "", "");
      var y := PartsText(b.parts) + (EndText(e.name, b.inEnd, e.after) + rest);
      assert TailText(e) + rest == ">" + b.open + y;
      ScanClose(b.open, y);
      PartsOpen(b.parts, true, e.name, b.inEnd, e.after, rest);
      assert "" + y == y && Blanks("") by { NoBlankAtAll(); }
      ScanParts(b.parts, "", true, e.name, b.inEnd, e.after, rest);
      var items := ItemsTokens(Items(b.parts, 0));
      assert [Close] + ((items + [End, Name(e.name), Close]) + r)
          == ([Close] + items + [End, Name(e.name), Close]) + r;
  }

  lemma NoBlankAtAll()
    ensures Blanks("")
  {}

  // Nothing that follows content begins with a blank.
  lemma PartsOpen(ps: seq<Part>, text: bool, name: string, inEnd: string, after: string, rest: string)
    requires PartsFine(ps, text)
    ensures var y := PartsText(ps) + (EndText(name, inEnd, after) + rest); Trim(y) == y
  {
    var y := PartsText(ps) + (EndText(name, inEnd, after) + rest);
    if ps == [] {
      assert y[0] == '<';
    } else {
      PartOpens(ps[0]);
      assert y[0] == PartText(ps[0])[0];
    }
  }

  lemma PartOpens(p: Part)
    requires PartFine(p)
    ensures PartText(p) != "" && !IsWs(PartText(p)[0])
  {
    if p.Chars? { FineMeans("", "", p.text); }
  }

  // Content and the end tag after it, with the blanks w left in front.
  lemma {:induction false} ScanParts(ps: seq<Part>, w: string, text: bool, name: string, inEnd: string, after: string,
                                     rest: string)
    requires PartsFine(ps, text) && Blanks(w) && (text ==> w == "")
    requires IsWord(name) && Blanks(inEnd) && Blanks(after)
    ensures Scan(InContent, w + (PartsText(ps) + (EndText(name, inEnd, after) + rest)))
         == Then(ItemsTokens(Items(ps, |w|)) + [End, Name(name), Close], Scan(InContent, Trim(rest)))
    decreases ps
  {
    hide Scan, Trim, EndText, Blanks, IsWord, ElemText, Derivation, ElementTokens, TextFine, RemarkFine, ElemFine;
    var tail, r := EndText(name, inEnd, after) + rest, Scan(InContent, Trim(rest));
    var ends := [End, Name(name), Close];
    if ps == [] {
      assert w + (PartsText(ps) + tail) == w + EndText(name, inEnd, after) + rest;
      ScanEndText(w, name, inEnd, after, rest);
      assert [] + ends == ends;
    } else {
      var p, more := ps[0], PartsText(ps[1..]) + tail;
      assert w + (PartsText(ps) + tail) == w + PartText(p) + more;
      assert Items(ps, |w|)[1..] == Items(ps[1..], |LeftBy(p)|);
      PartsOpen(ps[1..], !p.Chars?, name, inEnd, after, rest);
      LeftBlank(p);
      ScanParts(ps[1..], LeftBy(p), !p.Chars?, name, inEnd, after, rest);
      ScanPart(p, w, more);
      var items := ItemsTokens(Items(ps[1..], |LeftBy(p)|));
      var first := ItemTokens(PartItem(p, |w|));
      assert first + ((items + ends) + r.0) == ((first + items) + ends) + r.0;
    }
  }

  lemma LeftBlank(p: Part)
    requires PartFine(p)
    ensures Blanks(LeftBy(p))
  {}

  lemma {:induction false} ScanPart(p: Part, w: string, more: string)
    requires PartFine(p) && Blanks(w) && (p.Chars? ==> w == "") && Trim(more) == more
    ensures Scan(InContent, w + PartText(p) + more)
         == Then(ItemTokens(PartItem(p, |w|)), Scan(InContent, LeftBy(p) + more))
    decreases p
  {
    hide Scan, Trim, ElemText, Derivation, ElementTokens;
    match p
    case Remark(body, after) =>
      ScanRemark(InContent, w, body, after, more);
      assert "" + more == more;
    case Chars(text, after) =>
      FineMeans("", "", text);
      assert w + PartText(p) + more == text + "\n" + (after + more);
      ScanData(text, after + more);
      assert "\n" + (after + more) == LeftBy(p) + more;
    case Nested(e) =>
      ScanElem(e, InContent, w, more);
      assert "" + more == more;
  }

  // A document: a declaration or not, comments, the root element, comments.
  datatype Declared = Declared(text: string, after: string)

  datatype Note = Note(body: string, after: string)

  datatype Doc = Doc(declared: Option<Declared>, before: seq<Note>, root: Elem, after: seq<Note>)

  function DeclaredText(d: Option<Declared>): string {
    match d case None => "" case Some(x) => "<?" + x.text + ">" + x.after
  }

  function NotesText(ns: seq<Note>): string {
    if ns == [] then "" else ("<!--" + ns[0].body + "-->" + ns[0].after) + NotesText(ns[1..])
  }

  function DocText(d: Doc): string {
    DeclaredText(d.declared) + (NotesText(d.before) + (ElemText(d.root) + NotesText(d.after)))
  }

  predicate NotesFine(ns: seq<Note>) { forall i | 0 <= i < |ns| :: RemarkFine(ns[i].body) && Blanks(ns[i].after) }

  predicate DocFine(d: Doc) {
    && (d.declared.Some? ==>
          var x := d.declared.value;
          x.text != "" && x.text[0] != '-' && Without(x.text, ">") && Blanks(x.after))
    && NotesFine(d.before) && ElemFine(d.root) && NotesFine(d.after)
  }

  function NotesTaken(ns: seq<Note>): seq<string> {
    if ns == [] then [] else [Taken(0, ns[0].body)] + NotesTaken(ns[1..])
  }

  function DocDerivation(d: Doc): Document {
    Document(NotesTaken(d.before), Derivation(d.root), NotesTaken(d.after))
  }

  lemma NotesOpen(ns: seq<Note>, rest: string)
    requires Trim(rest) == rest
    ensures Trim(NotesText(ns) + rest) == NotesText(ns) + rest
  {
    if ns == [] { assert NotesText(ns) + rest == rest; } else { assert (NotesText(ns) + rest)[0] == '<'; }
  }

  lemma {:induction false} ScanNotes(ns: seq<Note>, mode: Mode, rest: string)
    requires NotesFine(ns) && Trim(rest) == rest
    ensures Scan(mode, NotesText(ns) + rest) == Then(CommentsTokens(NotesTaken(ns)), Scan(mode, rest))
    ensures Trim(NotesText(ns) + rest) == NotesText(ns) + rest
    decreases |ns|
  {
    NotesOpen(ns, rest);
    if ns == [] {
      assert NotesText(ns) + rest == rest && [] + Scan(mode, rest).0 == Scan(mode, rest).0;
    } else {
      ScanNotes(ns[1..], mode, rest);
      ScanNote(ns, mode, rest);
    }
  }

  lemma ScanNote(ns: seq<Note>, mode: Mode, rest: string)
    requires ns != [] && NotesFine(ns) && Trim(rest) == rest
    requires Scan(mode, NotesText(ns[1..]) + rest) == Then(CommentsTokens(NotesTaken(ns[1..])), Scan(mode, rest))
    ensures Scan(mode, NotesText(ns) + rest) == Then(CommentsTokens(NotesTaken(ns)), Scan(mode, rest))
  {
    hide Scan, RemarkFine, Blanks, Trim, Taken;
    var n, more, ts, r := ns[0], NotesText(ns[1..]) + rest, CommentsTokens(NotesTaken(ns[1..])), Scan(mode, rest).0;
    NoBlankAtAll();
    NotesOpen(ns[1..], rest);
    ScanRemark(mode, "", n.body, n.after, more);
    assert NotesText(ns) + rest == "" + ("<!--" + n.body + "-->" + n.after) + more;
    assert NotesTaken(ns)[1..] == NotesTaken(ns[1..]);
    assert CommentsTokens(NotesTaken(ns)) == [Comment(Taken(0, n.body))] + ts;
    assert [Comment(Taken(0, n.body))] + (ts + r) == ([Comment(Taken(0, n.body))] + ts) + r;
  }

  // A declaration, or what looks like one, is skipped with the blanks after it.
  lemma ScanDeclared(mode: Mode, d: Declared, rest: string)
    requires d.text != "" && d.text[0] != '-' && Without(d.text, ">") && Blanks(d.after) && Trim(rest) == rest
    ensures Scan(mode, DeclaredText(Some(d)) + rest) == Scan(mode, rest)
  {
    hide Scan;
    FineMeans(d.after, "", "");
    WithoutIs(d.text, Not({'>'}), ">");
    TrimOf(rest);
    var t, n := "<?" + d.text + ">" + d.after + rest, |d.text| + |d.after| + 3;
    assert t[n..] == rest && DeclaredText(Some(d)) + rest == t;
    DeclarationWins(mode, d.text, d.after, rest);
    ScanTakes(mode, t, 10, n);
    assert [] + Scan(mode, rest).0 == Scan(mode, rest).0;
  }

  // A document scans to the tokens of its derivation, without an error.
  lemma {:induction false} ScanDoc(d: Doc)
    requires DocFine(d)
    ensures Scan(Initial, DocText(d)) == (DocumentTokens(DocDerivation(d)), "")
  {
    hide Scan, ElemText, NotesText, NotesFine, Trim, CommentsTokens, NotesTaken, ElementTokens, Derivation, ElemFine,
      DeclaredText, Blanks, Without;
    var notes := NotesText(d.after);
    NoBlankAtAll();
    EmptyEnd();
    ScanNotes(d.after, InContent, "");
    assert notes + "" == notes;
    ScanElem(d.root, Initial, "", notes);
    var body := ElemText(d.root) + notes;
    assert "" + ElemText(d.root) + notes == body;
    ElemOpens(d.root, notes);
    ScanNotes(d.before, Initial, body);
    var all := NotesText(d.before) + body;
    if d.declared.Some? {
      ScanDeclared(Initial, d.declared.value, all);
    } else {
      assert DeclaredText(d.declared) == "" by { NotDeclared(); }
      assert "" + all == all;
    }
    var x, z := CommentsTokens(NotesTaken(d.before)), CommentsTokens(NotesTaken(d.after));
    var y := ElementTokens(Derivation(d.root));
    assert x + (y + (z + [])) == x + y + z;
  }

  lemma NotDeclared()
    ensures DeclaredText(None) == ""
  {}

  lemma EmptyEnd()
    ensures Trim("") == "" && Scan(InContent, "") == ([], "")
  {}

  lemma ElemOpens(e: Elem, rest: string)
    ensures Trim(ElemText(e) + rest) == ElemText(e) + rest
  {
    assert (ElemText(e) + rest)[0] == '<';
  }

  // Reading a document gives the tree its root spells, whatever the blanks and
  // the comments around it, exactly when the parser's stack can hold it.
  lemma {:induction false} SpelledReads(d: Doc)
    requires DocFine(d)
    ensures Scan(Initial, DocText(d)).1 == ""
    ensures Read(DocText(d)).status == Returned(0) <==> FitsStack(DocDerivation(d))
    ensures FitsStack(DocDerivation(d)) ==> Denotes(Read(DocText(d)).maker, TreeOf(d.root))
  {
    hide Scan, Parse, DocText, DocFine, Derivation, TreeOf, FitsStack, Matched, DocumentTokens;
    ScanDoc(d);
    TreeDenoted(d.root);
    DocumentRuns(DocDerivation(d));
    if FitsStack(DocDerivation(d)) { ParseBuilds(DocDerivation(d)); }
  }

  // Blanks before a tag, in it and after a bracket change nothing.
  lemma BlanksDoNotMatter(mode: Mode, w: string, name: string, rest: string)
    requires forall i | 0 <= i < |w| :: w[i] == ' ' || w[i] == '\t' || w[i] == '\r' || w[i] == '\n'
    requires IsWord(name) && (rest == "" || !NameLetter(rest[0]))
    ensures Scan(mode, w + "<" + name + rest) == Scan(mode, "<" + name + rest)
    ensures Scan(mode, w + "</" + rest) == Scan(mode, "</" + rest)
    ensures Scan(mode, "<" + w + name + rest) == Scan(mode, "<" + name + rest)
    ensures Scan(mode, "<" + w + "/" + rest) == Scan(mode, "</" + rest)
    ensures Scan(Initial, ">" + w + rest) == Scan(Initial, ">" + rest)
    ensures Scan(Initial, w + name + rest) == Scan(Initial, name + rest)
  {
    hide Scan;
    FineMeans(w, name, "");
    FineMeans("", "", "");
    assert "" + "<" + name + rest == "<" + name + rest && "" + "</" + rest == "</" + rest;
    assert ">" + "" + rest == ">" + rest;
    ScanStart(mode, w, name, rest);
    ScanStart(mode, "", name, rest);
    ScanEnd(mode, w, rest);
    ScanEnd(mode, "", rest);
    LateNames(mode, w, name, rest);
    ScanClose(w, rest);
    ScanClose("", rest);
    assert w + (name + rest) == w + name + rest;
    ScanGap(w, name + rest);
  }

  lemma LateNames(mode: Mode, o: string, name: string, rest: string)
    requires AllWs(o) && IsName(name) && !StartsWith(rest, NameChar)
    ensures Scan(mode, "<" + o + name + rest) == Then([Start(name)], Scan(Initial, rest))
    ensures Scan(mode, "<" + o + "/" + rest) == Then([End], Scan(Initial, rest))
  {
    hide Scan;
    assert "" + "<" + o + name + rest == "<" + o + name + rest && "" + "<" + o + "/" + rest == "<" + o + "/" + rest;
    ScanLateStart(mode, "", o, name, rest);
    ScanLateEnd(mode, "", o, rest);
  }

  // ?> inside a tag is a token of its own, which no rule of the grammar has.
  lemma QuestionMark(w: string, rest: string)
    requires Blanks(w) && Trim(rest) == rest
    ensures Scan(Initial, "?>" + w + rest) == Then([EndDef], Scan(Initial, rest))
  {
    hide Scan;
    FineMeans(w, "", "");
    TrimOf(rest);
    var t, n := "?>" + w + rest, |w| + 2;
    assert t[..n][..2] == "?>" && t[..n][2..] == w && t[n..] == rest;
    RuleMatches(6, t[..n]);
    QuestionMarkBound(w, rest);
    ScanTakes(Initial, t, 6, n);
  }

  lemma QuestionMarkBound(w: string, rest: string)
    requires AllWs(w) && !StartsWith(rest, Space)
    requires var t := "?>" + w + rest; In(Pattern(6), t[..|w| + 2])
    ensures Wins(Initial, "?>" + w + rest, 6, |w| + 2)
  {
    hide In, Pattern;
    var t, n := "?>" + w + rest, |w| + 2;
    forall other, m | Matches(Initial, t, other, m) ensures m < n || (m == n && 6 <= other) {
      if 7 <= other <= 10 {
        var i := OpenAt(other, t, m, 0);
      } else if other == 6 {
        assert m > n ==> t[..m][2..][n - 2] == rest[0];
        RuleMatches(6, t[..m]);
      } else {
        assert t[..m][0] == '?';
        Facts(other, t[..m]);
      }
    }
  }

  // A line end between two lines of text is skipped.
  lemma TextLines(v: string, rest: string)
    requires TextFine(v)
    ensures Scan(InContent, "\n" + (v + "\n" + rest)) == Then([Data(v)], Scan(InContent, "\n" + rest))
  {
    hide Scan;
    FineMeans("", "", v);
    var u := v + "\n" + rest;
    var t := "\n" + u;
    assert t[1..] == u && t[..1] == "\n";
    NewlineWins(u);
    ScanTakes(InContent, t, 13, 1);
    ScanData(v, rest);
    assert [] + Scan(InContent, u).0 == Scan(InContent, u).0;
  }

  lemma NewlineWins(u: string)
    requires u != "" && !IsWs(u[0]) && u[0] != '<'
    ensures Wins(InContent, "\n" + u, 13, 1)
  {
    hide In, Pattern;
    var t := "\n" + u;
    assert t[..1] == "\n";
    RuleMatches(13, t[..1]);
    forall other, m | Matches(InContent, t, other, m) ensures m < 1 || (m == 1 && 13 <= other) {
      if 7 <= other <= 10 {
        var i := OpenAt(other, t, m, 1);
      } else {
        assert t[..m][0] == '\n' && (m > 1 ==> t[..m][1] == u[0]);
        Facts(other, t[..m]);
      }
    }
  }

  // An ampersand is reported and passed over.
  lemma AmpersandIsWrong(mode: Mode, rest: string)
    ensures var (ts, bad) := Scan(mode, rest); Scan(mode, "&" + rest) == (ts, "&" + bad)
  {
    hide Scan;
    var t := "&" + rest;
    assert t[1..] == rest && t[..1] == "&";
    AmpersandWins(mode, rest);
    ScanTakes(mode, t, 12, 1);
    assert [] + Scan(mode, rest).0 == Scan(mode, rest).0;
  }

  lemma AmpersandWins(mode: Mode, rest: string)
    ensures Wins(mode, "&" + rest, 12, 1)
  {
    hide In, Pattern;
    var t := "&" + rest;
    assert t[..1] == "&";
    RuleMatches(12, t[..1]);
    forall other, m | Matches(mode, t, other, m) ensures m < 1 || (m == 1 && 12 <= other) {
      if 7 <= other <= 10 {
        var i := OpenAt(other, t, m, 0);
      } else {
        assert t[..m][0] == '&';
        Facts(other, t[..m]);
      }
    }
  }
}
