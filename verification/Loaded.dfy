// What a document configures, said of its elements, attributes and texts (rc.c):
// every place holds what the last element that gives it a value says.
module Loaded {
  import opened Option
  import opened Dom
  import opened Config
  import opened Loader
  import Category

  // The first attribute of that name.
  ghost predicate Has(t: Tree, name: string, v: string) {
    exists i :: 0 <= i < |t.attrs| && t.attrs[i] == (name, v) && forall j | 0 <= j < i :: t.attrs[j].0 != name
  }

  ghost predicate Named(t: Tree) { exists n :: Has(t, "name", n) }

  // A word in capital or small letters, or both.
  predicate Spells(s: string, small: string, capital: string)
    requires |small| == |capital|
  {
    |s| == |small| && forall i | 0 <= i < |s| :: s[i] == small[i] || s[i] == capital[i]
  }

  predicate Truth(s: string, v: Value) {
    (Spells(s, "false", "FALSE") && v == Bool(false)) || (Spells(s, "true", "TRUE") && v == Bool(true))
  }

  predicate EndsIn(s: string, suffix: string) { |s| >= |suffix| && s[|s| - |suffix|..] == suffix }

  // The number a size begins with, in bytes.
  function Size(env: Env, s: string): int {
    var n := env.strtol(s);
    if n <= 0 then 0
    else if EndsIn(s, "KB") then 1024 * n
    else if EndsIn(s, "MB") then 1048576 * n
    else if EndsIn(s, "GB") then 1073741824 * n
    else n
  }

  function TextOf(t: Tree): string { if t.value == None then "" else t.value.value }

  // The type, if it is one of those known.
  function OneOf(types: set<string>, v: string): Value { Name(if v in types then Some(v) else None) }

  // A child of a config element gives a field a value.
  ghost predicate GivesField(env: Env, f: Tree, k: Key, v: Value) {
    match k
    case Nocleanup => f.name == "nocleanup" && v == Int(env.atoi(TextOf(f)))
    case Bufsize => f.name == "bufsize" && v == Int(Size(env, TextOf(f)))
    case Debug => f.name == "debug" && exists l :: Has(f, "level", l) && v == Int(env.atoi(l))
    case Reread => f.name == "reread" && v == Int(env.atoi(TextOf(f)))
    case _ => false
  }

  // The last child of a config element that gives a field a value.
  ghost predicate LastField(env: Env, fs: seq<Tree>, k: Key, v: Value) {
    exists j :: 0 <= j < |fs| && GivesField(env, fs[j], k, v)
                && forall i, w | j < i < |fs| :: !GivesField(env, fs[i], k, w)
  }

  // An element of the document gives a place a value.
  ghost predicate Gives(env: Env, e: Tree, k: Key, v: Value) {
    match k
    case Priority(n) =>
      e.name == "category" && Has(e, "name", n) && exists p :: Has(e, "priority", p) && v == Int(env.priority(p))
    case Additive(n) =>
      e.name == "category" && Has(e, "name", n) && exists a :: Has(e, "additivity", a) && Truth(a, v)
    case Appender(n) =>
      e.name == "category" && Has(e, "name", n) && exists a :: Has(e, "appender", a) && v == Name(Some(a))
    case AppenderType(n) =>
      e.name == "appender" && Has(e, "name", n) && exists y :: Has(e, "type", y) && v == OneOf(env.appenderTypes, y)
    case Layout(n) =>
      e.name == "appender" && Has(e, "name", n) && exists l :: Has(e, "layout", l) && v == Name(Some(l))
    case LayoutType(n) =>
      e.name == "layout" && Has(e, "name", n) && exists y :: Has(e, "type", y) && v == OneOf(env.layoutTypes, y)
    case _ => e.name == "config" && LastField(env, e.children, k, v)
  }

  // An element names an appender, or a layout, that is made if there is none.
  ghost predicate UsesAppender(e: Tree, a: string) {
    (e.name == "appender" && Has(e, "name", a)) || (e.name == "category" && Named(e) && Has(e, "appender", a))
  }

  ghost predicate UsesLayout(e: Tree, l: string) {
    (e.name == "layout" && Has(e, "name", l)) || (e.name == "appender" && Named(e) && Has(e, "layout", l))
  }

  // The name or one of its dotted prefixes, down to root.
  ghost predicate OnPath(m: string, n: string) {
    m == "root" || (Category.Cut(m, n) && !(Category.Cut("root", n) && |m| < |"root"|))
  }

  // After an element the object of a place is there.
  ghost predicate Makes(e: Tree, k: Key) {
    match k
    case Priority(m) => e.name == "category" && exists n :: Has(e, "name", n) && OnPath(m, n)
    case Additive(m) => e.name == "category" && exists n :: Has(e, "name", n) && OnPath(m, n)
    case Appender(m) => e.name == "category" && exists n :: Has(e, "name", n) && OnPath(m, n)
    case AppenderType(m) => exists a :: UsesAppender(e, a) && m in {"stderr", "stdout", a}
    case Layout(m) => exists a :: UsesAppender(e, a) && m in {"stderr", "stdout", a}
    case LayoutType(m) =>
      || (m in {"dated", "basic"} && exists a :: UsesAppender(e, a))
      || exists l :: UsesLayout(e, l) && m in {"dated", "basic", l}
    case _ => false
  }

  // What a place of a new object holds.
  function Initially(k: Key): Value {
    match k
    case Priority(_) => Int(900)
    case Additive(_) => Bool(true)
    case Appender(_) => Name(None)
    case AppenderType(_) => Name(Some("stream"))
    case Layout(_) => Name(Some("basic"))
    case LayoutType(n) => Name(Some(if n == "dated" then "dated" else "basic"))
    case _ => Int(0)
  }

  // A document the loader accepts.
  ghost predicate Acceptable(env: Env, doc: Tree) {
    doc.name == "log4c" && forall v | Has(doc, "version", v) :: v == env.version
  }

  // What the deprecated attribute of the document gives.
  ghost predicate GivesCleanup(env: Env, doc: Tree, k: Key, v: Value) {
    k == Nocleanup && exists c :: Has(doc, "cleanup", c) && v == Int(if env.atoi(c) == 0 then 1 else 0)
  }

  lemma {:induction false} HasIs(attrs: seq<(string, string)>, t: Tree, name: string, v: string)
    requires t.attrs == attrs
    ensures Has(t, name, v) <==> AttrsGet(attrs, name) == Some(v)
  {
    if attrs != [] {
      var rest := t.(attrs := attrs[1..]);
      HasIs(attrs[1..], rest, name, v);
      if i :| 0 <= i < |attrs| && attrs[i] == (name, v) && forall j | 0 <= j < i :: attrs[j].0 != name {
        if i > 0 {
          assert attrs[0].0 != name;
          assert rest.attrs[i - 1] == (name, v) && forall j | 0 <= j < i - 1 :: rest.attrs[j] == attrs[j + 1];
        }
      }
      if AttrsGet(attrs, name) == Some(v) {
        if attrs[0].0 == name {
          assert t.attrs[0] == (name, v);
        } else {
          var i :| 0 <= i < |rest.attrs| && rest.attrs[i] == (name, v)
            && forall j | 0 <= j < i :: rest.attrs[j].0 != name;
          assert t.attrs[i + 1] == (name, v);
          forall j | 0 <= j < i + 1 ensures t.attrs[j].0 != name {
            if j > 0 { assert t.attrs[j] == rest.attrs[j - 1]; }
          }
        }
      }
    }
  }

  lemma AttributeIs(t: Tree, name: string)
    ensures forall v :: Has(t, name, v) <==> AttrsGet(t.attrs, name) == Some(v)
  {
    hide Has, AttrsGet;
    forall v ensures Has(t, name, v) <==> AttrsGet(t.attrs, name) == Some(v) { HasIs(t.attrs, t, name, v); }
  }

  lemma SpellsIs(s: string)
    ensures SameIgnoringCase(s, "false") <==> Spells(s, "false", "FALSE")
    ensures SameIgnoringCase(s, "true") <==> Spells(s, "true", "TRUE")
  {
    forall c: char
      ensures (Fold(c) == 'f' <==> c == 'f' || c == 'F') && (Fold(c) == 'a' <==> c == 'a' || c == 'A')
      ensures (Fold(c) == 'l' <==> c == 'l' || c == 'L') && (Fold(c) == 's' <==> c == 's' || c == 'S')
      ensures (Fold(c) == 'e' <==> c == 'e' || c == 'E') && (Fold(c) == 't' <==> c == 't' || c == 'T')
      ensures (Fold(c) == 'r' <==> c == 'r' || c == 'R') && (Fold(c) == 'u' <==> c == 'u' || c == 'U')
    {
    }
  }

  lemma SizeIs(env: Env, s: string)
    ensures ParseByteSize(env, s) == Size(env, s)
  {
    if |s| >= 2 {
      var n := |s| - 2;
      assert s[n..] == [s[n], s[n + 1]];
    }
  }

  lemma {:induction false} LastSetJoins(a: seq<Op>, b: seq<Op>, k: Key)
    ensures LastSet(a + b, k) == if LastSet(b, k).Some? then LastSet(b, k) else LastSet(a, k)
  {
    if b == [] {
      assert a + b == a;
    } else {
      hide Sets;
      LastSetJoins(a, b[..|b| - 1], k);
      assert (a + b)[..|a + b| - 1] == a + b[..|b| - 1];
    }
  }

  lemma TouchedJoins(a: seq<Op>, b: seq<Op>, k: Key)
    ensures Touched(a + b, k) <==> Touched(a, k) || Touched(b, k)
  {
    hide Touches;
    if Touched(a, k) {
      var op :| op in a && Touches(op, k);
      assert op in a + b;
    }
    if Touched(b, k) {
      var op :| op in b && Touches(op, k);
      assert op in a + b;
    }
  }

  // What a sequence of operations does to a place.
  ghost predicate Does(ops: seq<Op>, k: Key, last: Option<Value>, makes: bool) {
    LastSet(ops, k) == last && (Touched(ops, k) <==> makes)
  }

  lemma DoesJoins(a: seq<Op>, b: seq<Op>, k: Key)
    ensures Does(a + b, k, if LastSet(b, k).Some? then LastSet(b, k) else LastSet(a, k), Touched(a, k) || Touched(b, k))
  {
    LastSetJoins(a, b, k);
    TouchedJoins(a, b, k);
    hide LastSet, Touched;
  }

  lemma DoesNothing(k: Key)
    ensures Does([], k, None, false)
  {}

  lemma DoesOne(op: Op, k: Key)
    ensures Does([op], k, Sets(op, k), Touches(op, k))
  {
    hide Sets, Touches;
    var ops := [op];
    assert ops[..0] == [] && op in ops && LastSet(ops[..0], k) == None;
  }

  lemma {:induction false} CategoryGetDoes(n: string, k: Key)
    ensures Does(CategoryGet(n), k, None,
                 (k.Priority? || k.Additive? || k.Appender?) && k.name in Category.Path(n))
    decreases Category.Measure(n)
  {
    hide Sets, Touches, LastSet, Touched;
    DoesOne(TouchCategory(n), k);
    TouchDoes(n, k);
    if n == Category.ROOT {
      assert CategoryGet(n) == [TouchCategory(n)];
      assert Category.Path(n) == [n];
    } else {
      CategoryGetDoes(Category.DotDirname(n), k);
      DoesJoins(CategoryGet(Category.DotDirname(n)), [TouchCategory(n)], k);
      assert Category.Path(n) == [n] + Category.Path(Category.DotDirname(n));
    }
  }

  lemma TouchDoes(n: string, k: Key)
    ensures Sets(TouchCategory(n), k) == Sets(TouchAppender(n), k) == Sets(TouchLayout(n), k) == None
    ensures Touches(TouchCategory(n), k) <==> (k.Priority? || k.Additive? || k.Appender?) && k.name == n
    ensures Touches(TouchAppender(n), k) <==> (k.AppenderType? || k.Layout?) && k.name == n
    ensures Touches(TouchLayout(n), k) <==> k.LayoutType? && k.name == n
  {}

  lemma LayoutGetDoes(n: string, k: Key)
    ensures Does(LayoutGet(n), k, None, k.LayoutType? && k.name in {"dated", "basic", n})
  {
    hide Sets, Touches, LastSet, Touched;
    var a, b, c := TouchLayout("dated"), TouchLayout("basic"), TouchLayout(n);
    assert LayoutGet(n) == ([a] + [b]) + [c];
    TouchDoes("dated", k);
    TouchDoes("basic", k);
    TouchDoes(n, k);
    DoesOne(a, k);
    DoesOne(b, k);
    DoesOne(c, k);
    DoesJoins([a], [b], k);
    DoesJoins([a] + [b], [c], k);
  }

  lemma AppenderGetDoes(n: string, k: Key)
    ensures Does(AppenderGet(n), k, None,
                 (k.LayoutType? && k.name in {"dated", "basic"})
                 || ((k.AppenderType? || k.Layout?) && k.name in {"stderr", "stdout", n}))
  {
    hide Sets, Touches, LastSet, Touched;
    var a, b, c := TouchAppender("stderr"), TouchAppender("stdout"), TouchAppender(n);
    assert AppenderGet(n) == LayoutGet("basic") + (([a] + [b]) + [c]);
    LayoutGetDoes("basic", k);
    TouchDoes("stderr", k);
    TouchDoes("stdout", k);
    TouchDoes(n, k);
    DoesOne(a, k);
    DoesOne(b, k);
    DoesOne(c, k);
    DoesJoins([a], [b], k);
    DoesJoins([a] + [b], [c], k);
    DoesJoins(LayoutGet("basic"), ([a] + [b]) + [c], k);
  }

  lemma OnPathIs(m: string, n: string)
    ensures m in Category.Path(n) <==> OnPath(m, n)
  {
    Category.PathIsCuts(n);
    var path := Category.Path(n);
    assert path[|path| - 1] in path;
  }

  // The operations of an element do to a place what it gives and makes.
  ghost predicate Tells(env: Env, e: Tree, ops: seq<Op>, k: Key) {
    (forall v :: LastSet(ops, k) == Some(v) <==> Gives(env, e, k, v)) && (Touched(ops, k) <==> Makes(e, k))
  }

  predicate OfCategory(k: Key) { k.Priority? || k.Additive? || k.Appender? }

  lemma PriorityDoes(env: Env, n: string, p: Option<string>, k: Key)
    ensures Does(match p case None => [] case Some(v) => [SetPriority(n, env.priority(v))], k,
                 if k == Priority(n) && p.Some? then Some(Int(env.priority(p.value))) else None,
                 p.Some? && OfCategory(k) && k.name == n)
  {
    match p
    case None => DoesNothing(k);
    case Some(v) => DoesOne(SetPriority(n, env.priority(v)), k);
  }

  function Additivity(n: string, d: Option<string>): seq<Op> {
    match d
    case None => []
    case Some(v) =>
      if SameIgnoringCase(v, "false") then [SetAdditive(n, false)]
      else if SameIgnoringCase(v, "true") then [SetAdditive(n, true)]
      else []
  }

  lemma AdditivityDoes(n: string, d: Option<string>, k: Key) returns (last: Option<Value>)
    ensures forall v :: last == Some(v) <==> k == Additive(n) && d.Some? && Truth(d.value, v)
    ensures Does(Additivity(n, d), k, last, Additivity(n, d) != [] && OfCategory(k) && k.name == n)
  {
    hide Spells, SameIgnoringCase, LastSet, Touched;
    DoesNothing(k);
    DoesOne(SetAdditive(n, false), k);
    DoesOne(SetAdditive(n, true), k);
    if d.Some? {
      SpellsIs(d.value);
      NotBoth(d.value);
    }
    last := LastSet(Additivity(n, d), k);
  }

  lemma NotBoth(s: string)
    ensures !(Spells(s, "false", "FALSE") && Spells(s, "true", "TRUE"))
  {}

  lemma OwnAppenderDoes(n: string, a: Option<string>, k: Key)
    ensures Does(match a case None => [] case Some(v) => AppenderGet(v) + [SetAppender(n, v)], k,
                 if k == Appender(n) && a.Some? then Some(Name(a)) else None,
                 a.Some?
                 && ((OfCategory(k) && k.name == n)
                     || (k.LayoutType? && k.name in {"dated", "basic"})
                     || ((k.AppenderType? || k.Layout?) && k.name in {"stderr", "stdout", a.value})))
  {
    hide LastSet, Touched, AppenderGet;
    match a
    case None => DoesNothing(k);
    case Some(v) =>
      AppenderGetDoes(v, k);
      DoesOne(SetAppender(n, v), k);
      DoesJoins(AppenderGet(v), [SetAppender(n, v)], k);
  }

  lemma {:induction false} CategoryDoes(env: Env, e: Tree, n: string, k: Key) returns (d: Option<Value>)
    requires AttrsGet(e.attrs, "name") == Some(n)
    ensures
      var (p, t, a) := (AttrsGet(e.attrs, "priority"), AttrsGet(e.attrs, "additivity"), AttrsGet(e.attrs, "appender"));
      && (forall v :: d == Some(v) <==> k == Additive(n) && t.Some? && Truth(t.value, v))
      && Does(CategoryLoad(env, e), k,
              if k == Appender(n) && a.Some? then Some(Name(a))
              else if d.Some? then d
              else if k == Priority(n) && p.Some? then Some(Int(env.priority(p.value))) else None,
              (OfCategory(k) && k.name in Category.Path(n))
              || (a.Some? && ((k.LayoutType? && k.name in {"dated", "basic"})
                              || ((k.AppenderType? || k.Layout?) && k.name in {"stderr", "stdout", a.value}))))
  {
    hide LastSet, Touched, AttrsGet, SameIgnoringCase, Spells, CategoryGet, AppenderGet, Category.Path, Truth;
    var p, t, a := AttrsGet(e.attrs, "priority"), AttrsGet(e.attrs, "additivity"), AttrsGet(e.attrs, "appender");
    var ps := match p case None => [] case Some(v) => [SetPriority(n, env.priority(v))];
    var ds := Additivity(n, t);
    var az := match a case None => [] case Some(v) => AppenderGet(v) + [SetAppender(n, v)];
    assert CategoryLoad(env, e) == ((CategoryGet(n) + ps) + ds) + az;
    hide CategoryLoad, Additivity;
    CategoryGetDoes(n, k);
    PriorityDoes(env, n, p, k);
    d := AdditivityDoes(n, t, k);
    OwnAppenderDoes(n, a, k);
    OnPathIs(n, n);
    Category.CutsOf(n, n);
    assert n in Category.Path(n) by { NameOnPath(n); }
    DoesJoins(CategoryGet(n), ps, k);
    DoesJoins(CategoryGet(n) + ps, ds, k);
    DoesJoins((CategoryGet(n) + ps) + ds, az, k);
  }

  lemma NameOnPath(n: string)
    ensures n in Category.Path(n)
  {
    assert Category.Path(n)[0] == n;
  }

  lemma {:induction false} CategoryTells(env: Env, e: Tree, k: Key)
    requires e.name == "category"
    ensures Tells(env, e, CategoryLoad(env, e), k)
  {
    AttributeIs(e, "name");
    hide LastSet, Touched, AttrsGet, Has, Truth, Category.Path, OnPath, LastField;
    match AttrsGet(e.attrs, "name")
    case None =>
      assert CategoryLoad(env, e) == [];
      DoesNothing(k);
    case Some(n) =>
      var d := CategoryDoes(env, e, n, k);
      hide CategoryLoad, Gives, Makes;
      CategoryGives(env, e, n, k);
      CategoryMakes(e, n, k);
  }

  lemma CategoryGives(env: Env, e: Tree, n: string, k: Key)
    requires e.name == "category" && AttrsGet(e.attrs, "name") == Some(n)
    ensures
      var (p, t, a) := (AttrsGet(e.attrs, "priority"), AttrsGet(e.attrs, "additivity"), AttrsGet(e.attrs, "appender"));
      forall v :: Gives(env, e, k, v) <==>
        || (k == Priority(n) && p.Some? && v == Int(env.priority(p.value)))
        || (k == Additive(n) && t.Some? && Truth(t.value, v))
        || (k == Appender(n) && a.Some? && v == Name(a))
  {
    AttributeIs(e, "name");
    AttributeIs(e, "priority");
    AttributeIs(e, "additivity");
    AttributeIs(e, "appender");
    hide AttrsGet, Has, Truth, LastField;
    var p, t, a := AttrsGet(e.attrs, "priority"), AttrsGet(e.attrs, "additivity"), AttrsGet(e.attrs, "appender");
    assert Has(e, "name", n);
    if p.Some? { assert Has(e, "priority", p.value); }
    if t.Some? { assert Has(e, "additivity", t.value); }
    if a.Some? { assert Has(e, "appender", a.value); }
  }

  lemma CategoryMakes(e: Tree, n: string, k: Key)
    requires e.name == "category" && AttrsGet(e.attrs, "name") == Some(n)
    ensures var a := AttrsGet(e.attrs, "appender");
      Makes(e, k) <==>
        || (OfCategory(k) && k.name in Category.Path(n))
        || (a.Some? && ((k.LayoutType? && k.name in {"dated", "basic"})
                        || ((k.AppenderType? || k.Layout?) && k.name in {"stderr", "stdout", a.value})))
  {
    AttributeIs(e, "name");
    AttributeIs(e, "appender");
    hide AttrsGet, Has, Category.Path, OnPath;
    if OfCategory(k) { OnPathIs(k.name, n); }
    var a := AttrsGet(e.attrs, "appender");
    assert Has(e, "name", n);
    if a.Some? { assert Has(e, "appender", a.value) && UsesAppender(e, a.value); }
  }

  lemma OwnLayoutDoes(n: string, l: Option<string>, k: Key)
    ensures Does(match l case None => [] case Some(v) => LayoutGet(v) + [SetLayout(n, v)], k,
                 if k == Layout(n) && l.Some? then Some(Name(l)) else None,
                 l.Some?
                 && (((k.AppenderType? || k.Layout?) && k.name == n)
                     || (k.LayoutType? && k.name in {"dated", "basic", l.value})))
  {
    hide LastSet, Touched, LayoutGet;
    match l
    case None => DoesNothing(k);
    case Some(v) =>
      LayoutGetDoes(v, k);
      DoesOne(SetLayout(n, v), k);
      DoesJoins(LayoutGet(v), [SetLayout(n, v)], k);
  }

  lemma {:induction false} AppenderDoes(env: Env, e: Tree, n: string, k: Key)
    requires AttrsGet(e.attrs, "name") == Some(n)
    ensures var (y, l) := (AttrsGet(e.attrs, "type"), AttrsGet(e.attrs, "layout"));
      Does(AppenderLoad(env, e), k,
           if k == Layout(n) && l.Some? then Some(Name(l))
           else if k == AppenderType(n) && y.Some? then Some(OneOf(env.appenderTypes, y.value)) else None,
           ((k.AppenderType? || k.Layout?) && k.name in {"stderr", "stdout", n})
           || (k.LayoutType? && k.name in {"dated", "basic"})
           || (l.Some? && k.LayoutType? && k.name == l.value))
  {
    hide LastSet, Touched, AttrsGet, AppenderGet, LayoutGet;
    var y, l := AttrsGet(e.attrs, "type"), AttrsGet(e.attrs, "layout");
    var ys := match y case None => [] case Some(v) => [SetAppenderType(n, Known(env.appenderTypes, v))];
    var ls := match l case None => [] case Some(v) => LayoutGet(v) + [SetLayout(n, v)];
    assert AppenderLoad(env, e) == (AppenderGet(n) + ys) + ls;
    hide AppenderLoad;
    AppenderGetDoes(n, k);
    match y {
      case None => DoesNothing(k);
      case Some(v) => DoesOne(SetAppenderType(n, Known(env.appenderTypes, v)), k);
    }
    OwnLayoutDoes(n, l, k);
    DoesJoins(AppenderGet(n), ys, k);
    DoesJoins(AppenderGet(n) + ys, ls, k);
  }

  lemma {:induction false} AppenderTells(env: Env, e: Tree, k: Key)
    requires e.name == "appender"
    ensures Tells(env, e, AppenderLoad(env, e), k)
  {
    AttributeIs(e, "name");
    AttributeIs(e, "type");
    AttributeIs(e, "layout");
    hide LastSet, Touched, AttrsGet, Has, OnPath, LastField, OneOf;
    match AttrsGet(e.attrs, "name")
    case None =>
      assert AppenderLoad(env, e) == [];
      DoesNothing(k);
    case Some(n) =>
      AppenderDoes(env, e, n, k);
      hide AppenderLoad;
      var y, l := AttrsGet(e.attrs, "type"), AttrsGet(e.attrs, "layout");
      assert Has(e, "name", n) && UsesAppender(e, n);
      if y.Some? { assert Has(e, "type", y.value); }
      if l.Some? { assert Has(e, "layout", l.value) && UsesLayout(e, l.value); }
  }

  lemma {:induction false} LayoutTells(env: Env, e: Tree, k: Key)
    requires e.name == "layout"
    ensures Tells(env, e, LayoutLoad(env, e), k)
  {
    AttributeIs(e, "name");
    AttributeIs(e, "type");
    hide LastSet, Touched, AttrsGet, Has, OnPath, LastField, LayoutGet;
    match AttrsGet(e.attrs, "name")
    case None =>
      assert LayoutLoad(env, e) == [];
      DoesNothing(k);
    case Some(n) =>
      var y := AttrsGet(e.attrs, "type");
      var ys := match y case None => [] case Some(v) => [SetLayoutType(n, Known(env.layoutTypes, v))];
      assert LayoutLoad(env, e) == LayoutGet(n) + ys;
      LayoutGetDoes(n, k);
      match y {
        case None => DoesNothing(k);
        case Some(v) => DoesOne(SetLayoutType(n, Known(env.layoutTypes, v)), k);
      }
      DoesJoins(LayoutGet(n), ys, k);
      assert Has(e, "name", n) && UsesLayout(e, n);
      if y.Some? { assert Has(e, "type", y.value); }
  }

  lemma {:induction false} FieldTells(env: Env, f: Tree, k: Key)
    ensures !Touched(FieldLoad(env, f), k)
    ensures forall v :: LastSet(FieldLoad(env, f), k) == Some(v) <==> GivesField(env, f, k, v)
  {
    AttributeIs(f, "level");
    SizeIs(env, TextOf(f));
    assert ValueOf(f) == TextOf(f);
    hide AttrsGet, Has, ParseByteSize, Size, LastSet;
    var ops := FieldLoad(env, f);
    var l := AttrsGet(f.attrs, "level");
    if l.Some? { assert Has(f, "level", l.value); }
    if ops == [] { DoesNothing(k); } else { DoesOne(ops[0], k); }
  }

  // The last of several lists of operations that sets a place; -1 when none does.
  ghost predicate IsLast(parts: seq<seq<Op>>, all: seq<Op>, k: Key, j: int) {
    && -1 <= j < |parts|
    && LastSet(all, k) == (if j == -1 then None else LastSet(parts[j], k))
    && (j >= 0 ==> LastSet(parts[j], k).Some?)
    && (forall i | j < i < |parts| :: LastSet(parts[i], k) == None)
    && (Touched(all, k) <==> exists i :: 0 <= i < |parts| && Touched(parts[i], k))
  }

  lemma LastOfMore(parts: seq<seq<Op>>, all: seq<Op>, k: Key, j: int)
    requires parts != [] && IsLast(parts[1..], all, k, j)
    ensures IsLast(parts, parts[0] + all, k, if j >= 0 || LastSet(parts[0], k).Some? then j + 1 else -1)
  {
    DoesJoins(parts[0], all, k);
    hide LastSet, Touched;
    SomeTouched(parts, k);
    var rest := parts[1..];
    assert forall i | 0 < i < |parts| :: parts[i] == rest[i - 1];
  }

  lemma SomeTouched(parts: seq<seq<Op>>, k: Key)
    requires parts != []
    ensures var rest := parts[1..];
      (exists i :: 0 <= i < |parts| && Touched(parts[i], k))
        <==> Touched(parts[0], k) || exists i :: 0 <= i < |rest| && Touched(rest[i], k)
  {
    hide Touched;
    var rest := parts[1..];
    if i :| 0 <= i < |rest| && Touched(rest[i], k) { assert Touched(parts[i + 1], k); }
    if i :| 0 < i < |parts| && Touched(parts[i], k) { assert Touched(rest[i - 1], k); }
  }

  function FieldParts(env: Env, fs: seq<Tree>): (parts: seq<seq<Op>>)
    ensures |parts| == |fs| && forall i | 0 <= i < |fs| :: parts[i] == FieldLoad(env, fs[i])
  {
    if fs == [] then [] else [FieldLoad(env, fs[0])] + FieldParts(env, fs[1..])
  }

  function ElementParts(env: Env, es: seq<Tree>): (parts: seq<seq<Op>>)
    ensures |parts| == |es| && forall i | 0 <= i < |es| :: parts[i] == ElementLoad(env, es[i])
  {
    if es == [] then [] else [ElementLoad(env, es[0])] + ElementParts(env, es[1..])
  }

  lemma NoParts(k: Key)
    ensures IsLast([], [], k, -1)
  {
    DoesNothing(k);
  }

  lemma {:induction false} LastToSet(env: Env, fs: seq<Tree>, k: Key) returns (j: int)
    ensures IsLast(FieldParts(env, fs), ConfigLoad(env, fs), k, j)
  {
    if fs == [] {
      j := -1;
      NoParts(k);
    } else {
      hide FieldLoad, IsLast;
      j := LastToSet(env, fs[1..], k);
      var parts := FieldParts(env, fs);
      assert parts[1..] == FieldParts(env, fs[1..]);
      LastOfMore(parts, ConfigLoad(env, fs[1..]), k, j);
      j := if j >= 0 || LastSet(parts[0], k).Some? then j + 1 else -1;
    }
  }

  lemma {:induction false} ConfigTells(env: Env, fs: seq<Tree>, k: Key)
    ensures !Touched(ConfigLoad(env, fs), k)
    ensures forall v :: LastSet(ConfigLoad(env, fs), k) == Some(v) <==> LastField(env, fs, k, v)
  {
    var j := LastToSet(env, fs, k);
    forall i | 0 <= i < |fs|
      ensures !Touched(FieldLoad(env, fs[i]), k)
      ensures forall v :: LastSet(FieldLoad(env, fs[i]), k) == Some(v) <==> GivesField(env, fs[i], k, v)
    {
      FieldTells(env, fs[i], k);
    }
    hide FieldLoad, ConfigLoad, LastSet, Touched, GivesField, FieldParts;
    forall i, w | j < i < |fs| ensures !GivesField(env, fs[i], k, w) {}
    if j >= 0 {
      var v := LastSet(FieldLoad(env, fs[j]), k).value;
      assert GivesField(env, fs[j], k, v);
      assert LastField(env, fs, k, v);
      forall w | LastField(env, fs, k, w) ensures w == v {
        var i :| 0 <= i < |fs| && GivesField(env, fs[i], k, w)
          && forall m, x | i < m < |fs| :: !GivesField(env, fs[m], k, x);
        assert i == j;
      }
    }
  }

  lemma {:induction false} ElementTells(env: Env, e: Tree, k: Key)
    ensures Tells(env, e, ElementLoad(env, e), k)
  {
    hide LastSet, Touched, CategoryLoad, AppenderLoad, LayoutLoad, ConfigLoad, Has, OnPath, LastField;
    if e.name == "category" {
      CategoryTells(env, e, k);
    } else if e.name == "appender" {
      AppenderTells(env, e, k);
    } else if e.name == "layout" {
      LayoutTells(env, e, k);
    } else {
      DoesNothing(k);
      ConfigTells(env, e.children, k);
      assert !Makes(e, k);
      if e.name == "config" {
        ConfigOnlyFields(env, e.children, k);
      } else {
        assert ElementLoad(env, e) == [];
      }
    }
  }

  lemma ConfigOnlyFields(env: Env, fs: seq<Tree>, k: Key)
    ensures !(k.Nocleanup? || k.Bufsize? || k.Debug? || k.Reread?) ==> forall v :: !LastField(env, fs, k, v)
  {}

  lemma {:induction false} LastElement(env: Env, es: seq<Tree>, k: Key) returns (j: int)
    ensures IsLast(ElementParts(env, es), ElementsLoad(env, es), k, j)
  {
    if es == [] {
      j := -1;
      NoParts(k);
    } else {
      hide ElementLoad, IsLast;
      j := LastElement(env, es[1..], k);
      var parts := ElementParts(env, es);
      assert parts[1..] == ElementParts(env, es[1..]);
      LastOfMore(parts, ElementsLoad(env, es[1..]), k, j);
      j := if j >= 0 || LastSet(parts[0], k).Some? then j + 1 else -1;
    }
  }

  lemma AcceptableIs(env: Env, doc: Tree)
    ensures Acceptable(env, doc) <==> Accepted(env, doc)
  {
    AttributeIs(doc, "version");
    hide Has, AttrsGet;
    match AttrsGet(doc.attrs, "version")
    case None =>
    case Some(v) => assert Has(doc, "version", v);
  }

  // A document is refused or it is loaded; a file that cannot be opened is refused.
  lemma {:induction false} ResultOfLoad(env: Env, doc: Option<Tree>, s: State)
    ensures Load(env, doc, s).0 == if doc.Some? && Acceptable(env, doc.value) then 0 else -1
    ensures !(doc.Some? && Acceptable(env, doc.value)) ==> Load(env, doc, s).1 == s
  {
    hide Run, DocumentLoad, Has, AttrsGet;
    if doc.Some? { AcceptableIs(env, doc.value); }
    hide Acceptable, Accepted;
  }

  lemma {:induction false} CleanupDoes(env: Env, doc: Tree, k: Key)
    ensures !Touched(Cleanup(env, doc), k)
    ensures forall v :: LastSet(Cleanup(env, doc), k) == Some(v) <==> GivesCleanup(env, doc, k, v)
    ensures (forall v :: !GivesCleanup(env, doc, k, v)) ==> LastSet(Cleanup(env, doc), k) == None
  {
    AttributeIs(doc, "cleanup");
    hide Has, AttrsGet, LastSet, Touched;
    match AttrsGet(doc.attrs, "cleanup")
    case None => DoesNothing(k);
    case Some(c) =>
      var n := if env.atoi(c) == 0 then 1 else 0;
      assert Has(doc, "cleanup", c);
      assert k == Nocleanup ==> GivesCleanup(env, doc, k, Int(n));
      DoesOne(SetNocleanup(if env.atoi(c) == 0 then 1 else 0), k);
  }

  // The value of a place after a document is accepted, when the i-th element is
  // the last that gives it one.
  lemma {:induction false} LastGivenHolds(env: Env, doc: Tree, s: State, k: Key, v: Value, i: nat)
    requires Acceptable(env, doc) && i < |doc.children| && Gives(env, doc.children[i], k, v)
    requires forall j, w | i < j < |doc.children| :: !Gives(env, doc.children[j], k, w)
    ensures Read(Load(env, Some(doc), s).1, k) == Some(v)
  {
    AcceptableIs(env, doc);
    var es := doc.children;
    var m := LastElement(env, es, k);
    AllTell(env, es, k);
    hide LastSet, Touched, ElementParts, ElementsLoad, Cleanup, Gives, Makes, Acceptable, Accepted, Run, Read;
    assert m == i;
    DoesJoins(Cleanup(env, doc), ElementsLoad(env, es), k);
    ReadRun(s, DocumentLoad(env, doc), k);
  }

  lemma {:induction false} AllTell(env: Env, es: seq<Tree>, k: Key)
    ensures var parts := ElementParts(env, es);
      forall i | 0 <= i < |es| ::
        && (forall v :: LastSet(parts[i], k) == Some(v) <==> Gives(env, es[i], k, v))
        && (Touched(parts[i], k) <==> Makes(es[i], k))
        && (LastSet(parts[i], k).Some? ==> Gives(env, es[i], k, LastSet(parts[i], k).value))
  {
    hide ElementLoad, ElementParts, LastSet, Touched, Gives, Makes;
    var parts := ElementParts(env, es);
    forall i | 0 <= i < |es|
      ensures forall v :: LastSet(parts[i], k) == Some(v) <==> Gives(env, es[i], k, v)
      ensures Touched(parts[i], k) <==> Makes(es[i], k)
      ensures LastSet(parts[i], k).Some? ==> Gives(env, es[i], k, LastSet(parts[i], k).value)
    {
      ElementTells(env, es[i], k);
    }
  }

  // And when none gives it one: the deprecated attribute, what it held before,
  // or what a new object has, when some element has had the object made.
  lemma {:induction false} NothingGivenKeeps(env: Env, doc: Tree, s: State, k: Key)
    requires Acceptable(env, doc) && forall j, w | 0 <= j < |doc.children| :: !Gives(env, doc.children[j], k, w)
    ensures forall v | GivesCleanup(env, doc, k, v) :: Read(Load(env, Some(doc), s).1, k) == Some(v)
    ensures (forall v :: !GivesCleanup(env, doc, k, v)) ==>
      Read(Load(env, Some(doc), s).1, k) ==
        if Read(s, k).Some? then Read(s, k)
        else if exists i | 0 <= i < |doc.children| :: Makes(doc.children[i], k) then Some(Initially(k))
        else None
  {
    AcceptableIs(env, doc);
    var es := doc.children;
    var m := LastElement(env, es, k);
    AllTell(env, es, k);
    CleanupDoes(env, doc, k);
    InitiallyIs(k);
    hide LastSet, Touched, ElementParts, ElementsLoad, Cleanup, Gives, Makes, Acceptable, Accepted, Run, Read, Default,
      Initially, GivesCleanup;
    assert m == -1;
    DoesJoins(Cleanup(env, doc), ElementsLoad(env, es), k);
    ReadRun(s, DocumentLoad(env, doc), k);
  }

  lemma InitiallyIs(k: Key)
    ensures Initially(k) == Default(k)
  {}
}
