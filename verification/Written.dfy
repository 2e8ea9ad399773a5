// What the printer writes, comments included, as a spelling, and what reading
// it back gives.
module Written {
  import opened Option
  import opened Dom
  import opened Lalr
  import opened Grammar
  import opened Printer
  import opened Lexicon
  import opened Spelling
  import opened Parsing
  import opened PrintScan

  predicate TwoDashes(s: string) { exists i :: 0 <= i < |s| - 1 && s[i] == '-' && s[i + 1] == '-' }

  // A tree with comments that can be written and read.
  predicate Writable(t: Tree)
    decreases t, 0
  {
    && IsWord(t.name) && (t.value.Some? ==> TextFine(t.value.value))
    && (forall i | 0 <= i < |t.attrs| :: IsWord(t.attrs[i].0) && Without(t.attrs[i].1, "\"&"))
    && AllWritable(t.children)
  }

  predicate AllWritable(ts: seq<Tree>)
    decreases ts
  {
    ts == [] || (ChildWritable(ts[0]) && AllWritable(ts[1..]))
  }

  predicate ChildWritable(t: Tree)
    decreases t, 1
  {
    if t.name == "#comment" then t.value.Some? && !TwoDashes(t.value.value) else Writable(t)
  }

  // The written document, each mark with the line end and the indentation after it.
  function Laid(t: Tree, n: nat, after: string): Elem
    decreases t, 0
  {
    Elem(t.name, LaidAttrs(t.attrs), "",
         if t.value == None && t.children == [] then None
         else Some(Inside("\n" + Indent(n + 1), LaidValue(t, n) + LaidChildren(t.children, n), "")),
         after)
  }

  function LaidAttrs(attrs: seq<(string, string)>): seq<Attr> {
    if attrs == [] then [] else [Attr(" ", attrs[0].0, Some(Quoted("", "", attrs[0].1)))] + LaidAttrs(attrs[1..])
  }

  function LaidValue(t: Tree, n: nat): seq<Part> {
    match t.value case None => [] case Some(v) => [Chars(v, Indent(if t.children == [] then n else n + 1))]
  }

  function LaidChildren(ts: seq<Tree>, n: nat): seq<Part>
    decreases ts
  {
    if ts == [] then []
    else [LaidChild(ts[0], n + 1, "\n" + Indent(if |ts| == 1 then n else n + 1))] + LaidChildren(ts[1..], n)
  }

  function LaidChild(t: Tree, n: nat, after: string): Part
    decreases t, 1
  {
    if t.name == "#comment" then Remark(" " + OrNothing(t.value) + " ", after) else Nested(Laid(t, n, after))
  }

  // The tree that comes back: a comment that stands first after a text has the
  // mark it began with, any other has lost the blanks at its beginning; both
  // have one blank more at their end.
  function ReadBack(t: Tree): Tree
    decreases t, 0
  {
    Tree(t.name, t.value, t.attrs, AllReadBack(t.children, t.value.Some?))
  }

  function AllReadBack(ts: seq<Tree>, text: bool): seq<Tree>
    decreases ts
  {
    if ts == [] then [] else [ChildReadBack(ts[0], text)] + AllReadBack(ts[1..], false)
  }

  function ChildReadBack(t: Tree, text: bool): Tree
    decreases t, 1
  {
    if t.name != "#comment" then ReadBack(t)
    else
      var taken := if text then "<!-- " + OrNothing(t.value) + " " else DropBlanks(OrNothing(t.value) + " ");
      Tree("#comment", Some(taken), [], [])
  }

  lemma {:induction false} AttrsWritten(attrs: seq<(string, string)>)
    ensures AttrsText(LaidAttrs(attrs)) == PrintAttributes(attrs) && Pairs(LaidAttrs(attrs)) == attrs
  {
    if attrs != [] {
      AttrsWritten(attrs[1..]);
      var (a, v) := attrs[0];
      assert AttrText(LaidAttrs(attrs)[0]) == " " + a + "=\"" + v + "\"";
      assert LaidAttrs(attrs)[1..] == LaidAttrs(attrs[1..]);
    }
  }

  lemma {:induction false} ElemWritten(t: Tree, n: nat, i: string)
    requires t.name != "#comment"
    ensures ElemText(Laid(t, n, "\n" + i)) == Markup(t, n) + i
    decreases t, 0
  {
    hide AttrsText, PrintAttributes, LaidAttrs, PartsText, PrintAll, LaidChildren, Indent;
    AttrsWritten(t.attrs);
    var e := Laid(t, n, "\n" + i);
    TailWritten(t, n, i);
    hide TailText, Rest;
    var a := PrintAttributes(t.attrs);
    assert ElemText(e) == "<" + t.name + (a + ("" + TailText(e)));
    assert ("<" + t.name + a + Rest(t, n)) + i == "<" + t.name + (a + ("" + (Rest(t, n) + i)));
  }

  lemma {:induction false} TailWritten(t: Tree, n: nat, i: string)
    ensures TailText(Laid(t, n, "\n" + i)) == Rest(t, n) + i
    decreases t.children, 2
  {
    hide PartsText, PrintAll, LaidChildren, Indent;
    if t.value == None && t.children == [] {
      assert "/" + (">" + ("\n" + i)) == "/>\n" + i;
    } else {
      InsideWritten(t, n);
      var ps := LaidValue(t, n) + LaidChildren(t.children, n);
      var x, y := Indent(n + 1), PartsText(ps);
      var v, c, d := Line(t.value, n + 1), PrintAll(t.children, n + 1), Indent(n);
      assert x + y == v + c + d;
      var z := "</" + (t.name + ("" + (">" + ("\n" + i))));
      assert z == "</" + t.name + ">\n" + i;
      assert ">" + ("\n" + x) + (y + z) == ">\n" + (x + y) + z;
      assert ">\n" + (v + c + d) + z == (">\n" + v + c + d + "</" + t.name + ">\n") + i;
    }
  }

  // The value and the children, from the first indentation to that of the end tag.
  lemma {:induction false} InsideWritten(t: Tree, n: nat)
    requires !(t.value == None && t.children == [])
    ensures Indent(n + 1) + PartsText(LaidValue(t, n) + LaidChildren(t.children, n))
         == Line(t.value, n + 1) + PrintAll(t.children, n + 1) + Indent(n)
    decreases t.children, 1
  {
    hide Indent;
    var ch := LaidChildren(t.children, n);
    if t.children != [] { ChildrenWritten(t.children, n); }
    match t.value
    case None => assert [] + ch == ch;
    case Some(v) =>
      var d := Indent(if t.children == [] then n else n + 1);
      var ps := [Chars(v, d)] + ch;
      assert ps[1..] == ch && PartsText(ps) == (v + ("\n" + d)) + PartsText(ch);
      if t.children == [] {
        assert Indent(n + 1) + ((v + ("\n" + d)) + "") == (Indent(n + 1) + v + "\n") + "" + d;
      } else {
        assert Indent(n + 1) + ((v + ("\n" + d)) + PartsText(ch)) == (Indent(n + 1) + v + "\n") + (d + PartsText(ch));
      }
  }

  lemma {:induction false} ChildrenWritten(ts: seq<Tree>, n: nat)
    requires ts != []
    ensures Indent(n + 1) + PartsText(LaidChildren(ts, n)) == PrintAll(ts, n + 1) + Indent(n)
    decreases ts, 0
  {
    hide Indent, Markup, ElemText, Laid;
    var i := Indent(if |ts| == 1 then n else n + 1);
    var ps, rest := LaidChildren(ts, n), LaidChildren(ts[1..], n);
    ChildWritten(ts[0], n + 1, i);
    assert ps[1..] == rest && PartsText(ps) == (Markup(ts[0], n + 1) + i) + PartsText(rest);
    if |ts| == 1 {
      assert ts[1..] == [] && rest == [];
      assert Indent(n + 1) + ((Markup(ts[0], n + 1) + i) + "") == (Indent(n + 1) + Markup(ts[0], n + 1) + "") + i;
    } else {
      ChildrenWritten(ts[1..], n);
      assert Indent(n + 1) + ((Markup(ts[0], n + 1) + i) + PartsText(rest))
          == Indent(n + 1) + Markup(ts[0], n + 1) + (i + PartsText(rest));
    }
  }

  lemma {:induction false} ChildWritten(t: Tree, n: nat, i: string)
    ensures PartText(LaidChild(t, n, "\n" + i)) == Markup(t, n) + i
    decreases t, 1
  {
    if t.name != "#comment" { ElemWritten(t, n, i); }
  }

  lemma BlankIndent(n: nat)
    ensures Blanks(Indent(n)) && |Indent(n)| == 4 * n
  {}

  // It is a spelling, of the tree that comes back.
  lemma {:induction false} LaidFine(t: Tree, n: nat, after: string)
    requires Writable(t) && Blanks(after)
    ensures ElemFine(Laid(t, n, after)) && TreeOf(Laid(t, n, after)) == ReadBack(t)
    decreases t, 0
  {
    AttrsWritten(t.attrs);
    AttrsLaidFine(t.attrs);
    if !(t.value == None && t.children == []) { InsideFine(t, n); }
    OpenFine(n);
    hide Indent, IsWord, TextFine, LaidAttrs, LaidChildren, LaidValue, AttrsFine, Pairs, PartsFine, TreesOf, LastText,
      Blanks, AllReadBack, AllWritable;
  }

  lemma OpenFine(n: nat)
    ensures Blanks("\n" + Indent(n + 1)) && Blanks("")
  {
    BlankIndent(n + 1);
  }

  lemma {:induction false} InsideFine(t: Tree, n: nat)
    requires !(t.value == None && t.children == []) && (t.value.Some? ==> TextFine(t.value.value))
    requires AllWritable(t.children)
    ensures var ps := LaidValue(t, n) + LaidChildren(t.children, n);
      PartsFine(ps, true) && TreesOf(ps, 0) == AllReadBack(t.children, t.value.Some?) && LastText(ps) == t.value
    decreases t.children, 1
  {
    hide Indent, TextFine, LaidChildren, PartsFine, TreesOf, LastText, LaidValue;
    BlankIndent(n + 1);
    BlankIndent(n);
    ChildrenLaidFine(t.children, n, t.value.Some?, if t.value.Some? then 1 + |Indent(n + 1)| else 0);
    if t.children == [] { ChildrenLaidFine([], n, t.value.Some?, if t.value.Some? then 5 else 0); NoTrees(n); }
    LaidInside(t, n);
  }

  lemma NoTrees(n: nat)
    ensures LaidChildren([], n) == [] && forall m :: TreesOf(LaidChildren([], n), m) == []
  {}

  lemma {:induction false} AttrsLaidFine(attrs: seq<(string, string)>)
    requires forall i | 0 <= i < |attrs| :: IsWord(attrs[i].0) && Without(attrs[i].1, "\"&")
    ensures AttrsFine(LaidAttrs(attrs))
  {
    hide IsWord, Without;
    if attrs != [] {
      AttrsLaidFine(attrs[1..]);
      assert AttrFine(LaidAttrs(attrs)[0]);
    }
  }

  lemma LaidInside(t: Tree, n: nat)
    requires !(t.value == None && t.children == []) && (t.value.Some? ==> TextFine(t.value.value))
    requires Blanks(Indent(n)) && Blanks(Indent(n + 1))
    requires PartsFine(LaidChildren(t.children, n), t.value == None)
    ensures var ps := LaidValue(t, n) + LaidChildren(t.children, n);
      && PartsFine(ps, true)
      && TreesOf(ps, 0)
         == TreesOf(LaidChildren(t.children, n), if t.value.Some? && t.children != [] then 1 + |Indent(n + 1)| else 0)
      && LastText(ps) == t.value
  {
    hide Indent, TextFine;
    var ch := LaidChildren(t.children, n);
    NoTexts(t.children, n);
    match t.value
    case None => assert [] + ch == ch;
    case Some(v) =>
      var ps := LaidValue(t, n) + ch;
      assert ps[1..] == ch;
      LastTextMore(ps);
      if t.children == [] { assert ch == []; }
  }

  lemma {:induction false} NoTexts(ts: seq<Tree>, n: nat)
    ensures LastText(LaidChildren(ts, n)) == None && (ts != [] ==> !LaidChildren(ts, n)[0].Chars?)
  {
    if ts != [] {
      NoTexts(ts[1..], n);
      LastTextMore(LaidChildren(ts, n));
      assert LaidChildren(ts, n)[1..] == LaidChildren(ts[1..], n);
    }
  }

  lemma {:induction false} ChildrenLaidFine(ts: seq<Tree>, n: nat, text: bool, m: nat)
    requires AllWritable(ts) && (if text then m >= 5 else m == 0)
    ensures PartsFine(LaidChildren(ts, n), !text) && TreesOf(LaidChildren(ts, n), m) == AllReadBack(ts, text)
    decreases ts, 0
  {
    if ts != [] {
      var after := "\n" + Indent(if |ts| == 1 then n else n + 1);
      BlankIndent(if |ts| == 1 then n else n + 1);
      hide Indent, Laid, ReadBack, ElemFine, TreeOf;
      var ps := LaidChildren(ts, n);
      ChildLaidFine(ts[0], n + 1, after, text, m);
      ChildrenLaidFine(ts[1..], n, false, 0);
      assert ps[1..] == LaidChildren(ts[1..], n) && !ps[0].Chars?;
      PartsFineMore(ts[1..], n);
    }
  }

  lemma PartsFineMore(ts: seq<Tree>, n: nat)
    requires PartsFine(LaidChildren(ts, n), true)
    ensures PartsFine(LaidChildren(ts, n), false) || ts == []
  {
    NoTexts(ts, n);
  }

  lemma {:induction false} ChildLaidFine(t: Tree, n: nat, after: string, text: bool, m: nat)
    requires ChildWritable(t) && Blanks(after) && (if text then m >= 5 else m == 0)
    ensures var p := LaidChild(t, n, after);
      PartFine(p) && !p.Chars? && PartTrees(p, m) == [ChildReadBack(t, text)]
    decreases t, 1
  {
    if t.name == "#comment" {
      var v := t.value.value;
      var body := " " + v + " ";
      assert body[1..] == v + " ";
      assert NoDashes(body) by { SpacedFine(v); }
      assert DropBlanks(body) == DropBlanks(v + " ");
      assert "<!--" + body == "<!-- " + v + " ";
    } else {
      LaidFine(t, n, after);
    }
  }

  lemma SpacedFine(v: string)
    requires !TwoDashes(v)
    ensures NoDashes(" " + v + " ")
  {
    var body := " " + v + " ";
    forall i | 0 <= i < |body| - 1 ensures !(body[i] == '-' && body[i + 1] == '-') {
      if 1 <= i && i + 1 <= |v| { assert body[i] == v[i - 1]; if i < |v| { assert body[i + 1] == v[i]; } }
    }
  }

  // How many states the parser needs for a tree, comments apart.
  function NeedOf(t: Tree): nat
    decreases t
  {
    Max(if t.attrs == [] then 0 else 6,
        if t.value == None && t.children == [] then 5 else Max(8, 5 + NeedsOf(t.children)))
  }

  function NeedsOf(ts: seq<Tree>): nat
    decreases ts
  {
    if ts == [] then 0 else Max(if ts[0].name == "#comment" then 0 else NeedOf(ts[0]), NeedsOf(ts[1..]))
  }

  lemma {:induction false} LaidNeeds(t: Tree, n: nat, after: string)
    ensures Need(Derivation(Laid(t, n, after))) == NeedOf(t)
    decreases t, 0
  {
    hide Indent;
    AttrsNeed(t.attrs);
    if !(t.value == None && t.children == []) {
      var ch := LaidChildren(t.children, n);
      var ps := LaidValue(t, n) + ch;
      match t.value {
        case None =>
          assert ps == ch;
          ChildrenNeedOf(t.children, n, 0);
        case Some(v) =>
          var d := Indent(if t.children == [] then n else n + 1);
          assert ps == [Chars(v, d)] + ch;
          ValueNeeds(v, d, ch);
          ChildrenNeedOf(t.children, n, 1 + |d|);
      }
    }
  }

  lemma ValueNeeds(v: string, d: string, ch: seq<Part>)
    ensures ItemsNeed(Items([Chars(v, d)] + ch, 0)) == Max(1, ItemsNeed(Items(ch, 1 + |d|)))
  {
    var ps := [Chars(v, d)] + ch;
    assert ps[1..] == ch;
    var items := Items(ps, 0);
    assert items == [PartItem(ps[0], 0)] + Items(ch, 1 + |d|);
    assert items[1..] == Items(ch, 1 + |d|);
  }

  lemma {:induction false} AttrsNeed(attrs: seq<(string, string)>)
    ensures AttributesNeed(Attributes(LaidAttrs(attrs))) == if attrs == [] then 0 else 6
  {
    if attrs != [] {
      AttrsNeed(attrs[1..]);
      assert LaidAttrs(attrs)[1..] == LaidAttrs(attrs[1..]);
      assert Attributes(LaidAttrs(attrs))[1..] == Attributes(LaidAttrs(attrs[1..]));
    }
  }

  lemma {:induction false} ChildrenNeedOf(ts: seq<Tree>, n: nat, m: nat)
    ensures NeedsOf(ts) <= ItemsNeed(Items(LaidChildren(ts, n), m)) <= Max(1, NeedsOf(ts))
    decreases ts
  {
    if ts != [] {
      hide Indent, Need, NeedOf, Laid, Derivation;
      var ps := LaidChildren(ts, n);
      assert ps[1..] == LaidChildren(ts[1..], n) && LeftBy(ps[0]) == "";
      assert Items(ps, m)[1..] == Items(ps[1..], 0);
      ChildrenNeedOf(ts[1..], n, 0);
      ChildNeed(ts[0], n + 1, "\n" + Indent(if |ts| == 1 then n else n + 1), m);
    }
  }

  lemma {:induction false} ChildNeed(t: Tree, n: nat, after: string, m: nat)
    ensures ItemNeed(PartItem(LaidChild(t, n, after), m)) == if t.name == "#comment" then 1 else NeedOf(t)
    decreases t, 1
  {
    if t.name != "#comment" { LaidNeeds(t, n, after); }
  }

  function WrittenDoc(codeset: Option<string>, t: Tree): Doc {
    Doc(Some(Declared(Version(codeset), "\n\n")), [], Laid(t, 0, "\n"), [])
  }

  lemma {:induction false} WrittenIsSpelled(codeset: Option<string>, t: Tree)
    requires Writable(t) && (codeset.Some? ==> Without(codeset.value, ">"))
    ensures DocFine(WrittenDoc(codeset, t)) && DocText(WrittenDoc(codeset, t)) == Write(codeset, t)
    ensures TreeOf(WrittenDoc(codeset, t).root) == ReadBack(t)
  {
    VersionFine(codeset);
    hide Version, ElemText, Markup, Laid, ElemFine, TreeOf, ReadBack;
    LaidFine(t, 0, "\n");
    assert t.name != "#comment";
    ElemWritten(t, 0, "");
    assert "\n" + "" == "\n";
    var x, e := Version(codeset), Laid(t, 0, "\n");
    assert ElemText(e) == Markup(t, 0) + "" == Markup(t, 0);
    assert Indent(0) + Markup(t, 0) == Markup(t, 0);
    assert DeclaredText(Some(Declared(x, "\n\n"))) + ("" + (ElemText(e) + "")) == Declaration(codeset) + Markup(t, 0);
  }

  lemma VersionFine(codeset: Option<string>)
    requires codeset.Some? ==> Without(codeset.value, ">")
    ensures var x := Version(codeset); x != "" && x[0] != '-' && Without(x, ">")
  {
    if codeset.Some? {
      var y := " encoding=\"" + codeset.value + "\"?";
      assert forall i | 0 <= i < |y| :: y[i] != '>';
      assert Version(codeset) == "xml version=\"1.0\"" + y;
    }
  }

  // The round trip with comments.
  lemma {:induction false} WriteThenReadComments(codeset: Option<string>, t: Tree)
    requires Writable(t) && (codeset.Some? ==> Without(codeset.value, ">"))
    ensures Read(Write(codeset, t)).status == Returned(0) <==> 2 + NeedOf(t) < MAX_DEPTH
    ensures 2 + NeedOf(t) < MAX_DEPTH ==> Denotes(Read(Write(codeset, t)).maker, ReadBack(t))
  {
    hide Read, Write, Laid, DocText, DocFine, TreeOf, ReadBack, Derivation, Need, NeedOf, Denotes;
    WrittenIsSpelled(codeset, t);
    SpelledReads(WrittenDoc(codeset, t));
    LaidNeeds(t, 0, "\n");
  }

  // Neither a comment in it, at any depth.
  predicate NoComments(t: Tree)
    decreases t
  {
    t.name != "#comment" && NoneCommented(t.children)
  }

  predicate NoneCommented(ts: seq<Tree>)
    decreases ts
  {
    ts == [] || (NoComments(ts[0]) && NoneCommented(ts[1..]))
  }

  // No comment stands first after a text, and none begins with a blank or is empty.
  predicate Settled(t: Tree)
    decreases t
  {
    AllSettled(t.children, t.value.Some?)
  }

  predicate AllSettled(ts: seq<Tree>, text: bool)
    decreases ts
  {
    ts == []
    || ((if ts[0].name == "#comment"
         then !text && ts[0].value.Some? && Begins(ts[0].value.value) && ts[0] == Bare(ts[0])
         else Settled(ts[0]))
        && AllSettled(ts[1..], false))
  }

  predicate Begins(s: string) { s != "" && s[0] !in {' ', '\t', '\n', '\r', '\U{B}', '\U{C}'} }

  function Bare(t: Tree): Tree { Tree(t.name, t.value, [], []) }

  // Every comment with one blank more.
  function OneBlankMore(t: Tree): Tree
    decreases t
  {
    if t.name == "#comment" then Bare(t).(value := Some(OrNothing(t.value) + " "))
    else t.(children := AllOneBlankMore(t.children))
  }

  function AllOneBlankMore(ts: seq<Tree>): seq<Tree>
    decreases ts
  {
    if ts == [] then [] else [OneBlankMore(ts[0])] + AllOneBlankMore(ts[1..])
  }

  // What usually comes back: the tree, with one blank more in each comment.
  lemma {:induction false} ReadBackAddsBlanks(t: Tree)
    requires t.name != "#comment" && Settled(t)
    ensures ReadBack(t) == OneBlankMore(t)
    decreases t
  {
    AllReadBackAddsBlanks(t.children, t.value.Some?);
  }

  lemma {:induction false} AllReadBackAddsBlanks(ts: seq<Tree>, text: bool)
    requires AllSettled(ts, text)
    ensures AllReadBack(ts, text) == AllOneBlankMore(ts)
    decreases ts
  {
    if ts != [] {
      AllReadBackAddsBlanks(ts[1..], false);
      if ts[0].name != "#comment" { ReadBackAddsBlanks(ts[0]); }
    }
  }

  // And without comments, the tree itself.
  lemma {:induction false} ReadBackIsTree(t: Tree)
    requires NoComments(t)
    ensures ReadBack(t) == t
    decreases t
  {
    AllReadBackAre(t.children, t.value.Some?);
  }

  lemma {:induction false} AllReadBackAre(ts: seq<Tree>, text: bool)
    requires NoneCommented(ts)
    ensures AllReadBack(ts, text) == ts
    decreases ts
  {
    if ts != [] {
      ReadBackIsTree(ts[0]);
      AllReadBackAre(ts[1..], false);
    }
  }

  // e has the marks of the written tree t, with other blanks between them.
  predicate Respells(e: Elem, t: Tree)
    decreases t
  {
    && e.name == t.name && Pairs(e.attrs) == t.attrs
    && match e.body
       case None => t.value == None && t.children == []
       case Some(b) =>
         match t.value
         case None => RespellsAll(b.parts, t.children)
         case Some(v) =>
           b.parts != [] && b.parts[0].Chars? && b.parts[0].text == v && RespellsAll(b.parts[1..], t.children)
  }

  predicate RespellsAll(ps: seq<Part>, ts: seq<Tree>)
    decreases ts
  {
    if ts == [] then ps == []
    else ps != [] && ps[0].Nested? && Respells(ps[0].e, ts[0]) && RespellsAll(ps[1..], ts[1..])
  }

  lemma {:induction false} RespelledTree(e: Elem, t: Tree)
    requires Respells(e, t)
    ensures TreeOf(e) == t
    decreases t
  {
    if e.body.Some? {
      var ps := e.body.value.parts;
      if t.value == None {
        RespelledTrees(ps, t.children, 0);
      } else {
        RespelledTrees(ps[1..], t.children, |LeftBy(ps[0])|);
        LastTextMore(ps);
        assert TreesOf(ps, 0) == PartTrees(ps[0], 0) + TreesOf(ps[1..], |LeftBy(ps[0])|);
        assert [] + TreesOf(ps[1..], |LeftBy(ps[0])|) == t.children;
      }
    }
  }

  lemma {:induction false} RespelledTrees(ps: seq<Part>, ts: seq<Tree>, n: nat)
    requires RespellsAll(ps, ts)
    ensures TreesOf(ps, n) == ts && LastText(ps) == None
    decreases ts
  {
    if ts != [] {
      RespelledTree(ps[0].e, ts[0]);
      RespelledTrees(ps[1..], ts[1..], 0);
      LastTextMore(ps);
    }
  }

  // Any spelling of a written tree, whatever its indentation and line ends,
  // reads back as that tree, if the parser's stack can hold it.
  lemma {:induction false} RespelledReads(d: Doc, t: Tree)
    requires DocFine(d) && Respells(d.root, t)
    ensures Read(DocText(d)).status == Returned(0) <==> FitsStack(DocDerivation(d))
    ensures FitsStack(DocDerivation(d)) ==> Denotes(Read(DocText(d)).maker, t)
  {
    hide Read, DocText, DocFine, FitsStack, TreeOf, Denotes;
    SpelledReads(d);
    RespelledTree(d.root, t);
  }

  function Leaf(a: string): Tree { Tree(a, None, [], []) }

  lemma LeafWritten(g: string)
    requires g != "#comment"
    ensures forall n: nat :: Markup(Leaf(g), n) == "<" + g + "/>\n"
  {
    hide Indent;
    assert PrintAttributes([]) == "";
    assert "<" + g + "" + "/>\n" == "<" + g + "/>\n";
  }

  lemma ParentWritten(f: string, g: string)
    requires f != "#comment" && g != "#comment"
    ensures Markup(Tree(f, None, [], [Leaf(g)]), 1) == "<" + f + ">\n" + "        <" + g + "/>\n" + "    </" + f + ">\n"
  {
    LeafWritten(g);
    var e := Tree(f, None, [], [Leaf(g)]);
    assert e.children[1..] == [] && PrintAll([], 2) == "" && PrintAttributes([]) == "";
    hide Markup;
    Indents();
    hide Indent;
    var x := "        " + ("<" + g + "/>\n") + "";
    assert PrintAll(e.children, 2) == x;
    assert ">\n" + "" + x + "    " + "</" + f + ">\n" == ">\n" + "        <" + g + "/>\n" + "    </" + f + ">\n";
    assert Rest(e, 1) == ">\n" + "        <" + g + "/>\n" + "    </" + f + ">\n";
    hide Rest;
    assert Markup(e, 1) == "<" + f + "" + Rest(e, 1) by { MarkupIs(e, 1); }
  }

  lemma MarkupIs(t: Tree, n: nat)
    requires t.name != "#comment"
    ensures Markup(t, n) == "<" + t.name + PrintAttributes(t.attrs) + Rest(t, n)
  {}

  lemma Indents()
    ensures Indent(0) == "" && Indent(1) == "    " && Indent(2) == "        "
  {}

  lemma RootWritten(a: string, v: string, b: string, x: string, k: Tree, e: Tree, l: Tree)
    requires a != "#comment"
    ensures Markup(Tree(a, Some(v), [(b, x)], [k, e, l]), 0)
         == "<" + a + (" " + b + "=\"" + x + "\"") + (">\n" + ("    " + v + "\n")
            + ("    " + Markup(k, 1) + "    " + Markup(e, 1) + "    " + Markup(l, 1)) + ("</" + a + ">\n"))
  {
    hide Indent, Markup, PrintAttributes, PrintAll, Rest;
    var t := Tree(a, Some(v), [(b, x)], [k, e, l]);
    MarkupIs(t, 0);
    ThreeWritten(k, e, l);
    OneWritten(b, x);
    LinesWritten(t);
  }

  lemma OneWritten(b: string, x: string)
    ensures PrintAttributes([(b, x)]) == " " + b + "=\"" + x + "\""
  {
    assert [(b, x)][1..] == [] && PrintAttributes([]) == "";
    assert " " + b + "=\"" + x + "\"" + "" == " " + b + "=\"" + x + "\"";
  }

  lemma LinesWritten(t: Tree)
    requires t.value.Some?
    ensures Rest(t, 0) == ">\n" + ("    " + t.value.value + "\n") + PrintAll(t.children, 1) + ("</" + t.name + ">\n")
  {
    Indents();
    hide Indent, PrintAll;
    var y, ps := ">\n" + ("    " + t.value.value + "\n"), PrintAll(t.children, 1);
    assert y + ps + "" + "</" + t.name + ">\n" == y + ps + ("</" + t.name + ">\n");
  }

  lemma ThreeWritten(k: Tree, e: Tree, l: Tree)
    ensures PrintAll([k, e, l], 1) == "    " + Markup(k, 1) + "    " + Markup(e, 1) + "    " + Markup(l, 1)
  {
    Indents();
    hide Indent, Markup;
    assert [k, e, l][1..] == [e, l] && [e, l][1..] == [l] && [l][1..] == [];
    assert PrintAll([], 1) == "";
    assert PrintAll([l], 1) == "    " + Markup(l, 1);
    assert PrintAll([e, l], 1) == "    " + Markup(e, 1) + ("    " + Markup(l, 1));
  }

  // The characters of a written document: four spaces to the level, a line to
  // the value, and the children after it.
  lemma SampleWritten(c: string, a: string, v: string, b: string, x: string, y: string, f: string, g: string)
    requires a != "#comment" && f != "#comment" && g != "#comment"
    ensures var t := Tree(a, Some(v), [(b, x)],
              [Tree("#comment", Some(y), [], []), Tree(f, None, [], [Leaf(g)]), Leaf(g)]);
      Write(Some(c), t) == "<?xml version=\"1.0\" encoding=\"" + c + "\"?>\n\n" + (
      "<" + a + (" " + b + "=\"" + x + "\"") + (">\n" + ("    " + v + "\n")
      + ("    " + ("<!-- " + y + " -->\n")
         + "    " + ("<" + f + ">\n" + "        <" + g + "/>\n" + "    </" + f + ">\n")
         + "    " + ("<" + g + "/>\n"))
      + ("</" + a + ">\n")))
    ensures Write(None, Leaf(g)) == "<?xml version=\"1.0\"?>\n\n" + ("<" + g + "/>\n")
  {
    WithoutCodeset(g);
    var k, e := Tree("#comment", Some(y), [], []), Tree(f, None, [], [Leaf(g)]);
    assert Markup(k, 1) == "<!-- " + y + " -->\n";
    LeafWritten(g);
    ParentWritten(f, g);
    RootWritten(a, v, b, x, k, e, Leaf(g));
    hide Markup;
    var t := Tree(a, Some(v), [(b, x)], [k, e, Leaf(g)]);
    Indents();
    hide Indent;
    assert Print(t, 0) == Markup(t, 0);
    assert Declaration(Some(c)) == "<?xml version=\"1.0\" encoding=\"" + c + "\"?>\n\n" by { DeclarationIs(c); }
  }

  lemma WithoutCodeset(g: string)
    requires g != "#comment"
    ensures Write(None, Leaf(g)) == "<?xml version=\"1.0\"?>\n\n" + ("<" + g + "/>\n")
  {
    LeafWritten(g);
    Indents();
    NoCodeset();
    hide Markup, Declaration, Indent;
    assert "" + Markup(Leaf(g), 0) == Markup(Leaf(g), 0);
  }

  lemma NoCodeset()
    ensures Declaration(None) == "<?xml version=\"1.0\"?>\n\n"
  {
    assert Version(None) == "xml version=\"1.0\"" + "?";
  }

  lemma DeclarationIs(c: string)
    ensures Declaration(Some(c)) == "<?xml version=\"1.0\" encoding=\"" + c + "\"?>\n\n"
  {
    assert Version(Some(c)) == "xml version=\"1.0\"" + (" encoding=\"" + c + "\"?");
  }
}
