// Scanning a printed tree gives the tokens of its derivation, without an error.
module PrintScan {
  import opened Option
  import opened Dom
  import opened Lalr
  import opened Grammar
  import opened Scanner
  import opened Patterns
  import opened Munch
  import opened Printer
  import opened RoundTrip
  import opened Parsing
  import opened LalrComplete

  // Tokens in front of the result of a scan.
  function Then(ts: seq<Token>, r: (seq<Token>, string)): (seq<Token>, string) { (ts + r.0, r.1) }

  // What is left of a text when the blanks in front of it are gone.
  function Trim(s: string): string { if s != "" && IsWs(s[0]) then Trim(s[1..]) else s }

  function LeadingBlanks(s: string): string { if s != "" && IsWs(s[0]) then [s[0]] + LeadingBlanks(s[1..]) else "" }

  lemma {:induction false} TrimOf(s: string)
    ensures s == LeadingBlanks(s) + Trim(s) && AllWs(LeadingBlanks(s)) && !StartsWith(Trim(s), Space)
  {
    if s != "" && IsWs(s[0]) { TrimOf(s[1..]); }
  }

  lemma {:induction false} TrimBlanks(w: string, s: string)
    requires AllWs(w) && !StartsWith(s, Space)
    ensures Trim(w + s) == s
  {
    if w == "" {
      assert w + s == s;
    } else {
      assert (w + s)[1..] == w[1..] + s;
      TrimBlanks(w[1..], s);
    }
  }

  lemma {:induction false} IndentBlank(n: nat)
    ensures AllWs(Indent(n))
  {
    if n > 0 { IndentBlank(n - 1); }
  }

  lemma {:induction false} SkipBlankOf(w: string, s: string)
    requires AllWs(w)
    ensures SkipBlank(w + s) == SkipBlank(s)
  {
    if w == "" {
      assert w + s == s;
    } else {
      assert (w + s)[1..] == w[1..] + s;
      SkipBlankOf(w[1..], s);
    }
  }

  lemma {:induction false} UntilSpaceOf(s: string)
    requires All(NameChar, s)
    ensures UntilSpace(s) == s
  {
    if s != "" { UntilSpaceOf(s[1..]); }
  }

  // word() takes the name out of a start tag.
  lemma WordTextOf(w: string, o: string, name: string)
    requires AllWs(w) && AllWs(o) && IsName(name)
    ensures WordText(w + "<" + (o + name)) == name
  {
    assert w + "<" + (o + name) == w + ("<" + (o + name));
    SkipBlankOf(w, "<" + (o + name));
    assert ("<" + (o + name))[1..] == o + name && SkipBlank(name) == name;
    SkipBlankOf(o, name);
    UntilSpaceOf(name);
  }

  // string() takes the quotes off a value.
  lemma {:induction false} UntilQuoteOf(v: string)
    requires All(Not({'"', '&'}), v)
    ensures UntilQuote(v + "\"") == v
  {
    if v == "" {
      assert v + "\"" == "\"";
    } else {
      assert (v + "\"")[1..] == v[1..] + "\"";
      UntilQuoteOf(v[1..]);
    }
  }

  lemma ScanStart(mode: Mode, w: string, name: string, rest: string)
    requires AllWs(w) && IsName(name) && !StartsWith(rest, NameChar)
    ensures Scan(mode, w + "<" + name + rest) == Then([Start(name)], Scan(Initial, rest))
  {
    hide Scan;
    assert w + "<" + name + rest == w + "<" + "" + name + rest;
    ScanLateStart(mode, w, "", name, rest);
  }

  lemma ScanLateStart(mode: Mode, w: string, o: string, name: string, rest: string)
    requires AllWs(w) && AllWs(o) && IsName(name) && !StartsWith(rest, NameChar)
    ensures Scan(mode, w + "<" + o + name + rest) == Then([Start(name)], Scan(Initial, rest))
  {
    hide Scan;
    var t, n := w + "<" + o + name + rest, |w| + 1 + |o| + |name|;
    assert t[..n] == w + "<" + (o + name) && t[n..] == rest;
    StartWins(mode, w, o, name, rest);
    ScanTakes(mode, t, 7, n);
    WordTextOf(w, o, name);
  }

  lemma ScanEnd(mode: Mode, w: string, rest: string)
    requires AllWs(w)
    ensures Scan(mode, w + "</" + rest) == Then([End], Scan(Initial, rest))
  {
    hide Scan;
    assert w + "</" + rest == w + "<" + "" + "/" + rest;
    ScanLateEnd(mode, w, "", rest);
  }

  lemma ScanLateEnd(mode: Mode, w: string, o: string, rest: string)
    requires AllWs(w) && AllWs(o)
    ensures Scan(mode, w + "<" + o + "/" + rest) == Then([End], Scan(Initial, rest))
  {
    hide Scan;
    var t, n := w + "<" + o + "/" + rest, |w| + |o| + 2;
    assert t[n..] == rest;
    EndWins(mode, w, o, rest);
    ScanTakes(mode, t, 8, n);
  }

  lemma ScanName(name: string, rest: string)
    requires IsName(name) && !StartsWith(rest, NameChar)
    ensures Scan(Initial, name + rest) == Then([Name(name)], Scan(Initial, rest))
  {
    hide Scan;
    var t, n := name + rest, |name|;
    assert t[..n] == name && t[n..] == rest;
    NameWins(name, rest);
    ScanTakes(Initial, t, 4, n);
  }

  lemma ScanClose(w: string, rest: string)
    requires AllWs(w)
    ensures Scan(Initial, ">" + w + rest) == Then([Close], Scan(InContent, Trim(rest)))
  {
    hide Scan;
    TrimOf(rest);
    var b, r := w + LeadingBlanks(rest), Trim(rest);
    var t := ">" + w + rest;
    assert t == ">" + b + r && t[|b| + 1..] == r;
    CloseWins(b, r);
    ScanTakes(Initial, t, 3, |b| + 1);
  }

  lemma ScanSlash(rest: string)
    ensures Scan(Initial, "/" + rest) == Then([Slash], Scan(Initial, rest))
  {
    hide Scan;
    assert ("/" + rest)[1..] == rest;
    MarkWins('/', rest);
    ScanTakes(Initial, "/" + rest, 1, 1);
  }

  lemma ScanData(v: string, rest: string)
    requires v != "" && All(Not({'<', '\n', '&'}), v) && !IsWs(v[0])
    ensures Scan(InContent, v + "\n" + rest) == Then([Data(v)], Scan(InContent, "\n" + rest))
  {
    hide Scan;
    var t := v + "\n" + rest;
    assert t[..|v|] == v && t[|v|..] == "\n" + rest;
    DataWins(v, rest);
    ScanTakes(InContent, t, 11, |v|);
  }

  // name="value"
  lemma ScanValue(v: string, rest: string)
    requires All(Not({'"', '&'}), v)
    ensures Scan(Initial, "=\"" + v + "\"" + rest) == Then([Eq, Value(v)], Scan(Initial, rest))
  {
    hide Scan;
    var u := "\"" + v + "\"" + rest;
    var t := "=" + u;
    assert t == "=\"" + v + "\"" + rest && t[1..] == u;
    MarkWins('=', u);
    ScanTakes(Initial, t, 2, 1);
    var n := |v| + 2;
    assert u[..n] == "\"" + v + "\"" && u[..n][1..] == v + "\"" && u[n..] == rest;
    ValueWins(v, rest);
    ScanTakes(Initial, u, 5, n);
    UntilQuoteOf(v);
    assert [Eq] + ([Value(v)] + Scan(Initial, rest).0) == [Eq, Value(v)] + Scan(Initial, rest).0;
  }

  lemma ScanSpace(rest: string)
    requires rest != "" && !IsWs(rest[0]) && rest[0] != '<'
    ensures Scan(Initial, " " + rest) == Scan(Initial, rest)
  {
    hide Scan;
    assert (" " + rest)[1..] == rest;
    BlanksWin(" ", rest);
    ScanTakes(Initial, " " + rest, 0, 1);
    assert [] + Scan(Initial, rest).0 == Scan(Initial, rest).0;
  }

  lemma ScanAttribute(a: string, v: string, more: string)
    requires IsName(a) && All(Not({'"', '&'}), v)
    ensures Scan(Initial, " " + a + "=\"" + v + "\"" + more) == Then([Name(a), Eq, Value(v)], Scan(Initial, more))
  {
    hide Scan, All;
    var u := "=\"" + v + "\"" + more;
    assert " " + a + "=\"" + v + "\"" + more == " " + (a + u);
    ScanSpace(a + u);
    ScanName(a, u);
    ScanValue(v, more);
    assert [Name(a)] + ([Eq, Value(v)] + Scan(Initial, more).0) == [Name(a), Eq, Value(v)] + Scan(Initial, more).0;
  }

  lemma AttributesTokensOf(attrs: seq<(string, string)>)
    ensures AttributesTokens(AttributesOf(attrs)) ==
      if attrs == [] then []
      else [Name(attrs[0].0), Eq, Value(attrs[0].1)] + AttributesTokens(AttributesOf(attrs[1..]))
  {
    if attrs != [] {
      assert AttributesOf(attrs)[1..] == AttributesOf(attrs[1..]);
      assert AttributeTokens(AttributesOf(attrs)[0]) == [Name(attrs[0].0), Eq, Value(attrs[0].1)];
    }
  }

  lemma {:induction false} ScanAttributes(attrs: seq<(string, string)>, rest: string)
    requires CleanAttributes(attrs) && rest != "" && rest[0] in {'/', '>'}
    ensures Scan(Initial, PrintAttributes(attrs) + rest)
         == Then(AttributesTokens(AttributesOf(attrs)), Scan(Initial, rest))
    decreases |attrs|
  {
    hide Scan, All, IsName, AttributesOf, AttributesTokens;
    AttributesTokensOf(attrs);
    if attrs == [] {
      assert PrintAttributes(attrs) + rest == rest && [] + Scan(Initial, rest).0 == Scan(Initial, rest).0;
    } else {
      var (a, v) := attrs[0];
      var one, p := " " + a + "=\"" + v + "\"", PrintAttributes(attrs[1..]);
      assert PrintAttributes(attrs) == one + p;
      assert (one + p) + rest == one + (p + rest);
      ScanAttribute(a, v, p + rest);
      ScanAttributes(attrs[1..], rest);
      var ts, r := AttributesTokens(AttributesOf(attrs[1..])), Scan(Initial, rest).0;
      assert [Name(a), Eq, Value(v)] + (ts + r) == ([Name(a), Eq, Value(v)] + ts) + r;
    }
  }

  // The children of an element and its end tag, with and without the indentation in front.
  function Unindented(ts: seq<Tree>, n: nat, name: string, rest: string): string
    decreases |ts|, 0
  {
    if ts == [] then "</" + (name + (">\n" + rest)) else Markup(ts[0], n + 1) + Indented(ts[1..], n, name, rest)
  }

  function Indented(ts: seq<Tree>, n: nat, name: string, rest: string): string
    decreases |ts|, 1
  {
    Indent(if ts == [] then n else n + 1) + Unindented(ts, n, name, rest)
  }

  lemma {:induction false} IndentedIsPrinted(ts: seq<Tree>, n: nat, name: string, rest: string)
    ensures PrintAll(ts, n + 1) + Indent(n) + "</" + name + ">\n" + rest == Indented(ts, n, name, rest)
    decreases |ts|
  {
    hide Markup, Indent;
    if ts == [] {
    } else {
      IndentedIsPrinted(ts[1..], n, name, rest);
      var i, b, p, c := Indent(n + 1), Markup(ts[0], n + 1), PrintAll(ts[1..], n + 1),
          Indent(n) + "</" + name + ">\n" + rest;
      assert PrintAll(ts, n + 1) == i + b + p;
      assert p + Indent(n) + "</" + name + ">\n" + rest == p + c;
      assert (i + b + p) + Indent(n) + "</" + name + ">\n" + rest == i + (b + (p + c));
    }
  }

  // Both begin with a < once the blanks are gone.
  lemma UnindentedOpens(ts: seq<Tree>, n: nat, name: string, rest: string)
    requires AllClean(ts)
    ensures !StartsWith(Unindented(ts, n, name, rest), Space)
    ensures Trim(Indented(ts, n, name, rest)) == Unindented(ts, n, name, rest)
  {
    IndentBlank(if ts == [] then n else n + 1);
    if ts != [] { assert Markup(ts[0], n + 1)[0] == '<'; }
    TrimBlanks(Indent(if ts == [] then n else n + 1), Unindented(ts, n, name, rest));
  }

  lemma ScanEndTag(w: string, name: string, rest: string)
    requires AllWs(w) && IsName(name)
    ensures Scan(InContent, w + ("</" + (name + (">\n" + rest))))
         == Then([End, Name(name), Close], Scan(InContent, Trim(rest)))
  {
    hide Scan;
    var u := ">\n" + rest;
    assert w + ("</" + (name + u)) == w + "</" + (name + u);
    ScanEnd(InContent, w, name + u);
    ScanName(name, u);
    assert u == ">" + "\n" + rest;
    ScanClose("\n", rest);
    var r := Scan(InContent, Trim(rest)).0;
    assert [End] + ([Name(name)] + ([Close] + r)) == [End, Name(name), Close] + r;
  }

  lemma {:induction false} ScanElement(t: Tree, n: nat, mode: Mode, w: string, rest: string)
    requires Clean(t) && AllWs(w)
    ensures Scan(mode, w + Markup(t, n) + rest) == Then(ElementTokens(Syntax(t)), Scan(InContent, Trim(rest)))
    decreases t, 1
  {
    hide Scan, IsName, All, AllWs, PrintAttributes, Rest, Trim, AttributesTokens, BodyTokens, AttributesOf, CleanValue,
      AllClean, Syntax, ElementTokens, Markup;
    var u := Rest(t, n) + rest;
    var v := PrintAttributes(t.attrs) + u;
    MarkupOf(t, n);
    assert w + ("<" + t.name + PrintAttributes(t.attrs) + Rest(t, n)) + rest == w + "<" + t.name + v;
    RestOpens(t, n, rest);
    ScanStart(mode, w, t.name, v);
    ScanAttributes(t.attrs, u);
    ScanRest(t, n, rest);
    TokensOf(t);
    var ats, b, r := AttributesTokens(AttributesOf(t.attrs)), BodyTokens(Syntax(t).body), Scan(InContent, Trim(rest)).0;
    assert [Start(t.name)] + (ats + (b + r)) == ([Start(t.name)] + ats + b) + r;
  }

  lemma MarkupOf(t: Tree, n: nat)
    requires IsName(t.name)
    ensures Markup(t, n) == "<" + t.name + PrintAttributes(t.attrs) + Rest(t, n)
  {}

  lemma TokensOf(t: Tree)
    ensures ElementTokens(Syntax(t))
         == [Start(t.name)] + AttributesTokens(AttributesOf(t.attrs)) + BodyTokens(Syntax(t).body)
  {}

  lemma RestOpens(t: Tree, n: nat, rest: string)
    ensures Rest(t, n) + rest != "" && (Rest(t, n) + rest)[0] in {'/', '>'}
    ensures !StartsWith(PrintAttributes(t.attrs) + (Rest(t, n) + rest), NameChar)
  {}

  lemma {:induction false} ScanRest(t: Tree, n: nat, rest: string)
    requires Clean(t)
    ensures Scan(Initial, Rest(t, n) + rest) == Then(BodyTokens(Syntax(t).body), Scan(InContent, Trim(rest)))
    decreases t, 0
  {
    hide Scan, Indent, PrintAll, Trim;
    var r := Scan(InContent, Trim(rest)).0;
    if t.value == None && t.children == [] {
      assert Rest(t, n) + rest == "/" + (">" + "\n" + rest);
      ScanSlash(">" + "\n" + rest);
      ScanClose("\n", rest);
      assert [Slash] + ([Close] + r) == [Slash, Close] + r;
    } else {
      var x := Indented(t.children, n, t.name, rest);
      var y := Line(t.value, n + 1) + x;
      IndentedIsPrinted(t.children, n, t.name, rest);
      assert Rest(t, n) + rest == ">" + "\n" + y;
      ScanClose("\n", y);
      ScanContent(t, n, rest);
      var items := ItemsTokens(ValueItem(t.value) + ChildItems(t.children));
      assert [Close] + ((items + [End, Name(t.name), Close]) + r) == ([Close] + items + [End, Name(t.name), Close]) + r;
    }
  }

  // The value line, the children and the end tag.
  lemma {:induction false} ScanContent(t: Tree, n: nat, rest: string)
    requires Clean(t) && !(t.value == None && t.children == [])
    ensures Scan(InContent, Trim(Line(t.value, n + 1) + Indented(t.children, n, t.name, rest)))
         == Then(ItemsTokens(ValueItem(t.value) + ChildItems(t.children)) + [End, Name(t.name), Close],
                 Scan(InContent, Trim(rest)))
    decreases t.children, 1
  {
    hide Scan, Indent, Trim;
    var x, y := Indented(t.children, n, t.name, rest), Unindented(t.children, n, t.name, rest);
    UnindentedOpens(t.children, n, t.name, rest);
    var tail, r := ItemsTokens(ChildItems(t.children)) + [End, Name(t.name), Close], Scan(InContent, Trim(rest)).0;
    match t.value
    case None =>
      assert Line(t.value, n + 1) + x == x && "" + y == y;
      assert [] + ChildItems(t.children) == ChildItems(t.children);
      ScanChildren(t.children, n, "", t.name, rest);
    case Some(v) =>
      var i := Indent(if t.children == [] then n else n + 1);
      IndentBlank(n + 1);
      IndentBlank(n);
      assert Line(t.value, n + 1) + x == Indent(n + 1) + (v + "\n" + x);
      TrimBlanks(Indent(n + 1), v + "\n" + x);
      ScanData(v, x);
      assert "\n" + x == ("\n" + i) + y;
      ScanChildren(t.children, n, "\n" + i, t.name, rest);
      var items := [DataItem(v)] + ChildItems(t.children);
      assert items[1..] == ChildItems(t.children);
      assert [Data(v)] + (tail + r) == (ItemsTokens(items) + [End, Name(t.name), Close]) + r;
  }

  lemma NoBlanks()
    ensures AllWs("")
  {}

  lemma ChildTokens(ts: seq<Tree>)
    requires ts != []
    ensures ItemsTokens(ChildItems(ts)) == ElementTokens(Syntax(ts[0])) + ItemsTokens(ChildItems(ts[1..]))
  {
    hide Syntax, ElementTokens;
    assert ChildItems(ts)[1..] == ChildItems(ts[1..]);
  }

  lemma ThenThen(a: seq<Token>, b: seq<Token>, c: seq<Token>, r: (seq<Token>, string))
    ensures Then(a, Then(b + c, r)) == Then((a + b) + c, r)
  {
    assert a + ((b + c) + r.0) == ((a + b) + c) + r.0;
  }

  lemma {:induction false} ScanChildren(ts: seq<Tree>, n: nat, w: string, name: string, rest: string)
    requires AllClean(ts) && AllWs(w) && IsName(name)
    ensures Scan(InContent, w + Unindented(ts, n, name, rest))
         == Then(ItemsTokens(ChildItems(ts)) + [End, Name(name), Close], Scan(InContent, Trim(rest)))
    decreases ts, 0
  {
    hide Scan, Indent, Trim, Markup, Syntax, ElementTokens, IsName, All, AllWs, Indented;
    assert AllWs("") by { NoBlanks(); }
    if ts == [] {
      ScanEndTag(w, name, rest);
      assert [] + [End, Name(name), Close] == [End, Name(name), Close];
    } else {
      var more := Indented(ts[1..], n, name, rest);
      assert w + Unindented(ts, n, name, rest) == w + Markup(ts[0], n + 1) + more;
      ScanElement(ts[0], n + 1, InContent, w, more);
      UnindentedOpens(ts[1..], n, name, rest);
      assert Trim(more) == "" + Unindented(ts[1..], n, name, rest);
      ScanChildren(ts[1..], n, "", name, rest);
      ChildTokens(ts);
      ThenThen(ElementTokens(Syntax(ts[0])), ItemsTokens(ChildItems(ts[1..])), [End, Name(name), Close],
               Scan(InContent, Trim(rest)));
    }
  }

  lemma AllOfBoth(k: Class, a: string, b: string)
    requires All(k, a) && All(k, b)
    ensures All(k, a + b)
  {}

  lemma VersionOf(codeset: Option<string>)
    requires codeset.Some? ==> All(Not({'>'}), codeset.value)
    ensures Version(codeset) != "" && Version(codeset)[0] == 'x' && All(Not({'>'}), Version(codeset))
  {
    var k := Not({'>'});
    match codeset
    case None => AllOfBoth(k, "xml version=\"1.0\"", "?");
    case Some(c) =>
      AllOfBoth(k, " encoding=\"", c);
      AllOfBoth(k, " encoding=\"" + c, "\"?");
      AllOfBoth(k, "xml version=\"1.0\"", " encoding=\"" + c + "\"?");
  }

  // The declaration is skipped, with the blank line after it.
  lemma ScanDeclaration(codeset: Option<string>, rest: string)
    requires codeset.Some? ==> All(Not({'>'}), codeset.value)
    requires !StartsWith(rest, Space)
    ensures Scan(Initial, Declaration(codeset) + rest) == Scan(Initial, rest)
  {
    VersionOf(codeset);
    hide *;
    var x := Version(codeset);
    DeclarationShape(codeset, x, rest);
    DeclarationTaken(x, rest);
  }

  lemma DeclarationShape(codeset: Option<string>, x: string, rest: string)
    requires x == Version(codeset)
    ensures Declaration(codeset) + rest == "<?" + x + ">" + "\n\n" + rest
  {
    hide Version;
  }

  lemma {:induction false} DeclarationTaken(x: string, rest: string)
    requires x != "" && x[0] != '-' && All(Not({'>'}), x) && !StartsWith(rest, Space)
    ensures Scan(Initial, "<?" + x + ">" + "\n\n" + rest) == Scan(Initial, rest)
  {
    assert AllWs("\n\n");
    hide Scan, All, AllWs, StartsWith, Wins, Choose, Pattern;
    var w := "\n\n";
    DeclarationWins(Initial, x, w, rest);
    var t, n := "<?" + x + ">" + w + rest, |x| + 5;
    assert t[n..] == rest;
    ScanTakes(Initial, t, 10, n);
    assert [] + Scan(Initial, rest).0 == Scan(Initial, rest).0;
  }

  // Printing, then scanning.
  lemma ScanWritten(codeset: Option<string>, t: Tree)
    requires Clean(t) && (codeset.Some? ==> All(Not({'>'}), codeset.value))
    ensures Scan(Initial, Write(codeset, t)) == (ElementTokens(Syntax(t)), "")
  {
    hide Scan;
    var b := Markup(t, 0);
    assert Print(t, 0) == b && b[0] == '<';
    ScanDeclaration(codeset, b);
    assert "" + b + "" == b;
    ScanElement(t, 0, Initial, "", "");
    assert Scan(InContent, Trim("")) == ([], "") by { ScanNothing(); }
    assert ElementTokens(Syntax(t)) + [] == ElementTokens(Syntax(t));
  }

  lemma ScanNothing()
    ensures Scan(InContent, "") == ([], "") && Trim("") == ""
  {}

  // __sd_domnode_xml_read: scan, then parse.
  function Read(s: string): Parser { Parse(Scan(Initial, s).0) }

  // The round trip.  What was written reads back as the same tree, with the
  // order of attributes and children kept and no error reported, exactly when
  // it is not too deep for the parser's stack.
  lemma WriteThenRead(codeset: Option<string>, t: Tree)
    requires Clean(t) && (codeset.Some? ==> All(Not({'>'}), codeset.value))
    ensures Scan(Initial, Write(codeset, t)).1 == ""
    ensures Read(Write(codeset, t)).status == Returned(0) <==> 2 + StackNeed(t) < MAX_DEPTH
    ensures 2 + StackNeed(t) < MAX_DEPTH ==> Denotes(Read(Write(codeset, t)).maker, t)
  {
    hide Scan, Parse, Write;
    ScanWritten(codeset, t);
    SyntaxDenotes(t);
    SyntaxNeeds(t);
    var d := Document([], Syntax(t), []);
    assert [] + ElementTokens(Syntax(t)) + [] == ElementTokens(Syntax(t));
    assert DocumentTokens(d) == ElementTokens(Syntax(t));
    DocumentRuns(d);
    if FitsStack(d) { ParseBuilds(d); }
  }

  function Depth(t: Tree): nat { 1 + Depths(t.children) }

  function Depths(ts: seq<Tree>): nat { if ts == [] then 0 else Max(Depth(ts[0]), Depths(ts[1..])) }

  // Five entries a level, and at most three more.
  lemma {:induction false} StackNeedOfDepth(t: Tree)
    ensures 5 * Depth(t) <= StackNeed(t) <= 5 * Depth(t) + 3
    decreases t
  {
    if t.children != [] { StackNeedsOfDepths(t.children); }
  }

  lemma {:induction false} StackNeedsOfDepths(ts: seq<Tree>)
    requires ts != []
    ensures 5 * Depths(ts) <= StackNeeds(ts) <= 5 * Depths(ts) + 3
    decreases ts
  {
    StackNeedOfDepth(ts[0]);
    if ts[1..] != [] { StackNeedsOfDepths(ts[1..]); }
  }

  // So every clean tree of at most 1998 levels round-trips, and none of 2000 does.
  lemma RoundTripDepth(codeset: Option<string>, t: Tree)
    requires Clean(t) && (codeset.Some? ==> All(Not({'>'}), codeset.value))
    ensures Depth(t) <= 1998 ==>
      Read(Write(codeset, t)).status == Returned(0) && Denotes(Read(Write(codeset, t)).maker, t)
    ensures Depth(t) >= 2000 ==> Read(Write(codeset, t)).status != Returned(0)
  {
    hide Read, Write;
    StackNeedOfDepth(t);
    WriteThenRead(codeset, t);
  }

  // A tree of n levels, for a clean one of every depth.
  function Chain(n: nat): Tree {
    Tree("a", None, [], if n <= 1 then [] else [Chain(n - 1)])
  }

  lemma {:induction false} ChainIsClean(n: nat)
    requires n >= 1
    ensures Clean(Chain(n)) && Depth(Chain(n)) == n
  {
    if n > 1 {
      ChainIsClean(n - 1);
      OnlyChildIsClean(Chain(n - 1));
    }
  }

  lemma OnlyChildIsClean(t: Tree)
    requires Clean(t)
    ensures Clean(Tree("a", None, [], [t])) && Depth(Tree("a", None, [], [t])) == Depth(t) + 1
  {
    var ts := [t];
    assert ts[1..] == [];
    assert Depths(ts) == Max(Depth(t), Depths([])) == Depth(t);
  }

  lemma DeepChainDoesNotComeBack(n: nat)
    requires n >= 2000
    ensures Clean(Chain(n)) && Read(Write(None, Chain(n))).status != Returned(0)
  {
    hide Chain, Read, Write, Clean;
    ChainIsClean(n);
    RoundTripDepth(None, Chain(n));
  }
}
