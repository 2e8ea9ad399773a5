// rc.c as it runs: loops over the elements of a document that assign the fields
// of log4c_rc and of the objects in the three factories.
module RcLoader {
  import opened Option
  import opened Dom
  import opened Config
  import Category
  import L = Loader

  class Rc {
    var nocleanup: int
    var bufsize: int
    var debug: int
    var reread: int
    var categories: map<string, CategoryRec>
    var appenders: map<string, AppenderRec>
    var layouts: map<string, LayoutRec>

    ghost function State(): State
      reads this
    {
      Config.State.State(nocleanup, bufsize, debug, reread, categories, appenders, layouts)
    }

    // The parents of a category are registered, and a factory that has been
    // used holds its default objects.
    ghost predicate Valid()
      reads this
    {
      Ready(State())
    }

    constructor ()
      ensures Valid() && State() == Config.State.State(0, 0, 0, 0, map[], map[], map[])
    {
      nocleanup, bufsize, debug, reread := 0, 0, 0, 0;
      categories, appenders, layouts := map[], map[], map[];
    }

    // log4c_category_get.
    method GetCategory(name: string)
      requires Valid()
      modifies this`categories
      ensures Valid() && name in categories && State() == Run(old(State()), L.CategoryGet(name))
      decreases Category.Measure(name)
    {
      hide Run, L.CategoryGet, Category.DotDirname, Category.Measure, LayoutsReady, AppendersReady;
      if name in categories {
        CategoryThere(State(), name);
        return;
      }
      Category.DirnameDescends(name);
      CategoryGetOf(State(), name);
      if name != Category.ROOT { GetCategory(Category.DotDirname(name)); }
      if name !in categories { categories := categories[name := NEW_CATEGORY]; }
    }

    // log4c_layout_get.
    method GetLayout(name: string)
      requires LayoutsReady(layouts)
      modifies this`layouts
      ensures LayoutsReady(layouts) && name in layouts && layouts == WithLayout(WithDefaults(old(layouts)), name)
    {
      if layouts == map[] {
        layouts := layouts["dated" := LayoutRec(Some("basic"))];
        layouts := layouts["dated" := LayoutRec(Some("dated"))];
        layouts := layouts["basic" := LayoutRec(Some("basic"))];
      }
      if name !in layouts { layouts := layouts[name := LayoutRec(Some("basic"))]; }
    }

    // log4c_appender_get.
    method GetAppender(name: string)
      requires LayoutsReady(layouts) && AppendersReady(appenders, layouts)
      modifies this`layouts, this`appenders
      ensures LayoutsReady(layouts) && AppendersReady(appenders, layouts) && name in appenders
      ensures layouts == WithDefaults(old(layouts))
      ensures appenders == WithAppender(WithAppender(WithAppender(old(appenders), "stderr"), "stdout"), name)
    {
      if appenders == map[] {
        NewAppender("stderr");
        NewAppender("stdout");
      }
      if name !in appenders { NewAppender(name); }
    }

    // log4c_appender_new.
    method NewAppender(name: string)
      requires LayoutsReady(layouts)
      modifies this`layouts, this`appenders
      ensures appenders == old(appenders)[name := NEW_APPENDER]
      ensures LayoutsReady(layouts) && layouts == WithDefaults(old(layouts)) && layouts != map[]
    {
      GetLayout("basic");
      appenders := appenders[name := NEW_APPENDER];
    }

    // category_load.
    method CategoryLoad(env: Env, t: Tree) returns (rc: int)
      requires Valid()
      modifies this`categories, this`appenders, this`layouts
      ensures Valid() && rc == if L.AttrsGet(t.attrs, "name") == None then -1 else 0
      ensures State() == Run(old(State()), L.CategoryLoad(env, t))
    {
      hide L.AttrsGet, L.SameIgnoringCase, L.CategoryLoad, L.CategoryGet, L.AppenderGet, Run, Do, CategoriesReady,
        LayoutsReady, AppendersReady;
      var name := L.AttrsGet(t.attrs, "name");
      var priority := L.AttrsGet(t.attrs, "priority");
      var additivity := L.AttrsGet(t.attrs, "additivity");
      var appender := L.AttrsGet(t.attrs, "appender");
      ghost var s := State();
      if name == None {
        NoName(env, t, s);
        return -1;
      }
      var n := name.value;
      GetCategory(n);
      StaysReady(categories, n);
      ghost var s1 := State();
      if priority.Some? { LoadPriority(n, env.priority(priority.value)); }
      ghost var s2 := State();
      if additivity.Some? { LoadAdditivity(n, additivity.value); }
      ghost var s3 := State();
      if appender.Some? { LoadAppender(n, appender.value); }
      CategoryStages(env, t, n, s, s1, s2, s3, State());
      return 0;
    }

    // The priority attribute.
    method LoadPriority(n: string, v: int)
      requires n in categories
      modifies this`categories
      ensures categories.Keys == old(categories).Keys
      ensures State() == Do(old(State()), SetPriority(n, v))
    {
      categories := categories[n := categories[n].(priority := v)];
    }

    // The appender attribute.
    method LoadAppender(n: string, a: string)
      requires n in categories && LayoutsReady(layouts) && AppendersReady(appenders, layouts)
      modifies this`categories, this`appenders, this`layouts
      ensures categories.Keys == old(categories).Keys && LayoutsReady(layouts) && AppendersReady(appenders, layouts)
      ensures State() == Do(Run(old(State()), L.AppenderGet(a)), SetAppender(n, a))
    {
      hide Run, L.AppenderGet, LayoutsReady, AppendersReady, WithDefaults, WithAppender;
      AppenderGetRuns(State(), a);
      GetAppender(a);
      categories := categories[n := categories[n].(appender := Some(a))];
    }

    // The additivity attribute.
    method LoadAdditivity(n: string, v: string)
      requires n in categories
      modifies this`categories
      ensures categories.Keys == old(categories).Keys
      ensures State() ==
        if L.SameIgnoringCase(v, "false") then Do(old(State()), SetAdditive(n, false))
        else if L.SameIgnoringCase(v, "true") then Do(old(State()), SetAdditive(n, true))
        else old(State())
    {
      hide L.SameIgnoringCase;
      if L.SameIgnoringCase(v, "false") {
        categories := categories[n := categories[n].(additive := false)];
      } else if L.SameIgnoringCase(v, "true") {
        categories := categories[n := categories[n].(additive := true)];
      }
    }

    // The appender of the element.
    method MakeAppender(n: string)
      requires LayoutsReady(layouts) && AppendersReady(appenders, layouts)
      modifies this`appenders, this`layouts
      ensures LayoutsReady(layouts) && AppendersReady(appenders, layouts) && n in appenders && layouts != map[]
      ensures State() == Run(old(State()), L.AppenderGet(n))
    {
      hide Run, L.AppenderGet, LayoutsReady, WithAppender;
      AppenderGetRuns(State(), n);
      GetAppender(n);
    }

    // The type attribute.
    method LoadType(n: string, kind: Option<string>)
      requires n in appenders && AppendersReady(appenders, layouts)
      modifies this`appenders
      ensures n in appenders && AppendersReady(appenders, layouts)
      ensures State() == Do(old(State()), SetAppenderType(n, kind))
    {
      appenders := appenders[n := appenders[n].(kind := kind)];
    }

    // The layout attribute.
    method LoadLayout(n: string, l: string)
      requires n in appenders && LayoutsReady(layouts) && AppendersReady(appenders, layouts)
      modifies this`appenders, this`layouts
      ensures LayoutsReady(layouts) && AppendersReady(appenders, layouts)
      ensures State() == Do(Run(old(State()), L.LayoutGet(l)), SetLayout(n, l))
    {
      hide Run, L.LayoutGet, LayoutsReady, WithLayout;
      LayoutGetRuns(State(), l);
      GetLayout(l);
      appenders := appenders[n := appenders[n].(layout := l)];
    }

    // appender_load, without the rollingfile part.
    method AppenderLoad(env: Env, t: Tree) returns (rc: int)
      requires Valid()
      modifies this`appenders, this`layouts
      ensures Valid() && rc == if L.AttrsGet(t.attrs, "name") == None then -1 else 0
      ensures State() == Run(old(State()), L.AppenderLoad(env, t))
    {
      hide L.AttrsGet, L.AppenderLoad, L.AppenderGet, L.LayoutGet, Run, Do, CategoriesReady, LayoutsReady,
        AppendersReady, L.Known;
      var name := L.AttrsGet(t.attrs, "name");
      var kind := L.AttrsGet(t.attrs, "type");
      var layout := L.AttrsGet(t.attrs, "layout");
      ghost var s := State();
      if name == None {
        NoName(env, t, s);
        return -1;
      }
      var n := name.value;
      MakeAppender(n);
      ghost var s1 := State();
      if kind.Some? { LoadType(n, L.Known(env.appenderTypes, kind.value)); }
      ghost var s2 := State();
      if layout.Some? { LoadLayout(n, layout.value); }
      AppenderStages(env, t, n, s, s1, s2, State());
      return 0;
    }

    // layout_load.
    method LayoutLoad(env: Env, t: Tree) returns (rc: int)
      requires Valid()
      modifies this`layouts
      ensures Valid() && rc == if L.AttrsGet(t.attrs, "name") == None then -1 else 0
      ensures State() == Run(old(State()), L.LayoutLoad(env, t))
    {
      hide L.AttrsGet, L.LayoutLoad, Run, CategoriesReady;
      var name := L.AttrsGet(t.attrs, "name");
      var kind := L.AttrsGet(t.attrs, "type");
      ghost var s := State();
      if name == None {
        NoName(env, t, s);
        return -1;
      }
      var n := name.value;
      LayoutGetRuns(s, n);
      GetLayout(n);
      ghost var s1 := State();
      if kind.Some? { layouts := layouts[n := LayoutRec(L.Known(env.layoutTypes, kind.value))]; }
      LayoutStages(env, t, n, s, s1, State());
      return 0;
    }

    // config_load.
    method ConfigLoad(env: Env, t: Tree)
      requires t.name == "config" && HasValues(t)
      modifies this`nocleanup, this`bufsize, this`debug, this`reread
      ensures State() == Run(old(State()), L.ConfigLoad(env, t.children))
    {
      hide L.AttrsGet, L.ConfigLoad, Run, CategoriesReady, L.ParseByteSize, L.FieldLoad;
      ghost var s := State();
      ConfigFrom(env, s, t.children, 0);
      for i := 0 to |t.children|
        invariant Run(State(), L.ConfigLoad(env, t.children[i..])) == Run(s, L.ConfigLoad(env, t.children))
      {
        ConfigFrom(env, State(), t.children, i);
        var node := t.children[i];
        FieldStages(env, node, State());
        if node.name == "nocleanup" { nocleanup := env.atoi(node.value.value); }
        if node.name == "bufsize" { bufsize := L.ParseByteSize(env, node.value.value); }
        if node.name == "debug" {
          var level := L.AttrsGet(node.attrs, "level");
          if level.Some? { debug := env.atoi(level.value); }
        }
        if node.name == "reread" { reread := env.atoi(node.value.value); }
      }
      ConfigFrom(env, State(), t.children, |t.children|);
    }

    // log4c_rc_load; no document stands for a file that cannot be opened.
    method Load(env: Env, doc: Option<Tree>) returns (rc: int)
      requires Valid() && (doc.Some? ==> forall i | 0 <= i < |doc.value.children| :: HasValues(doc.value.children[i]))
      modifies this
      ensures Valid() && (rc, State()) == L.Load(env, doc, old(State()))
    {
      hide L.AttrsGet, Run, L.ElementsLoad, L.ElementLoad, CategoriesReady, LayoutsReady, AppendersReady, HasValues;
      if doc == None { return -1; }
      var root := doc.value;
      if root.name != "log4c" { return -1; }
      var version := L.AttrsGet(root.attrs, "version");
      if version.Some? && version.value != env.version { return -1; }
      ghost var s := State();
      var cleanup := L.AttrsGet(root.attrs, "cleanup");
      if cleanup.Some? { nocleanup := if env.atoi(cleanup.value) == 0 then 1 else 0; }
      CleanupStages(env, root, s, State());
      ElementsFrom(env, State(), root.children, 0);
      for i := 0 to |root.children|
        invariant Valid()
        invariant Run(State(), L.ElementsLoad(env, root.children[i..])) == Run(s, L.DocumentLoad(env, root))
      {
        ElementsFrom(env, State(), root.children, i);
        LoadElement(env, root.children[i]);
      }
      ElementsFrom(env, State(), root.children, |root.children|);
      return 0;
    }

    method LoadElement(env: Env, node: Tree)
      requires Valid() && HasValues(node)
      modifies this
      ensures Valid() && State() == Run(old(State()), L.ElementLoad(env, node))
    {
      hide L.CategoryLoad, L.AppenderLoad, L.LayoutLoad, L.ConfigLoad, L.AttrsGet;
      if node.name == "category" { var _ := CategoryLoad(env, node); }
      if node.name == "appender" { var _ := AppenderLoad(env, node); }
      if node.name == "layout" { var _ := LayoutLoad(env, node); }
      if node.name == "config" { ConfigLoad(env, node); }
    }
  }

  // The numbers of a config element are there to be read.
  ghost predicate HasValues(t: Tree) {
    t.name == "config" ==> forall i | 0 <= i < |t.children| ::
      t.children[i].name in {"nocleanup", "bufsize", "reread"} ==> t.children[i].value.Some?
  }

  ghost predicate CategoriesReady(cats: map<string, CategoryRec>) {
    forall n | n in cats && n != Category.ROOT :: Category.DotDirname(n) in cats
  }

  ghost predicate LayoutsReady(layouts: map<string, LayoutRec>) {
    layouts != map[] ==> "dated" in layouts && "basic" in layouts
  }

  ghost predicate AppendersReady(appenders: map<string, AppenderRec>, layouts: map<string, LayoutRec>) {
    appenders != map[] ==> "stderr" in appenders && "stdout" in appenders && layouts != map[]
  }

  // See Rc.Valid.
  ghost predicate Ready(s: State) {
    CategoriesReady(s.categories) && LayoutsReady(s.layouts) && AppendersReady(s.appenders, s.layouts)
  }

  ghost function WithLayout(layouts: map<string, LayoutRec>, name: string): map<string, LayoutRec> {
    if name in layouts then layouts else layouts[name := NewLayout(name)]
  }

  ghost function WithDefaults(layouts: map<string, LayoutRec>): map<string, LayoutRec> {
    WithLayout(WithLayout(layouts, "dated"), "basic")
  }

  ghost function WithAppender(appenders: map<string, AppenderRec>, name: string): map<string, AppenderRec> {
    if name in appenders then appenders else appenders[name := NEW_APPENDER]
  }

  lemma RunOne(s: State, op: Op)
    ensures Run(s, [op]) == Do(s, op)
  {
    var one := [op];
    assert one[..0] == [];
  }

  lemma CategoryGetOf(s: State, name: string)
    ensures Run(s, L.CategoryGet(name)) ==
      Do(if name == Category.ROOT then s else Run(s, L.CategoryGet(Category.DotDirname(name))), TouchCategory(name))
  {
    var before := if name == Category.ROOT then [] else L.CategoryGet(Category.DotDirname(name));
    RunJoins(s, before, [TouchCategory(name)]);
    RunOne(Run(s, before), TouchCategory(name));
  }

  lemma {:induction false} CategoryThere(s: State, name: string)
    requires Ready(s) && name in s.categories
    ensures Run(s, L.CategoryGet(name)) == s
    decreases Category.Measure(name)
  {
    CategoryGetOf(s, name);
    if name != Category.ROOT { CategoryThere(s, Category.DotDirname(name)); }
    assert s.categories[name := s.categories[name]] == s.categories;
  }

  lemma LayoutGetOf(s: State, name: string)
    ensures Run(s, L.LayoutGet(name)) == Do(Do(Do(s, TouchLayout("dated")), TouchLayout("basic")), TouchLayout(name))
  {
    var a, b, c := TouchLayout("dated"), TouchLayout("basic"), TouchLayout(name);
    assert [a, b, c] == ([a] + [b]) + [c];
    RunJoins(s, [a] + [b], [c]);
    RunJoins(s, [a], [b]);
    RunOne(s, a);
    RunOne(Do(s, a), b);
    RunOne(Do(Do(s, a), b), c);
  }

  lemma LayoutGetRuns(s: State, name: string)
    ensures Run(s, L.LayoutGet(name)) == s.(layouts := WithLayout(WithDefaults(s.layouts), name))
  {
    LayoutGetOf(s, name);
    hide Run;
    SameMap(s.layouts, "dated");
    SameMap(WithLayout(s.layouts, "dated"), "basic");
    SameMap(WithDefaults(s.layouts), name);
  }

  lemma SameMap<T>(m: map<string, T>, k: string)
    ensures k in m ==> m[k := m[k]] == m
  {}

  lemma AppenderGetRuns(s: State, name: string)
    ensures Run(s, L.AppenderGet(name)) ==
      s.(layouts := WithDefaults(s.layouts),
         appenders := WithAppender(WithAppender(WithAppender(s.appenders, "stderr"), "stdout"), name))
  {
    LayoutGetRuns(s, "basic");
    var a, b, c := TouchAppender("stderr"), TouchAppender("stdout"), TouchAppender(name);
    var s0 := Run(s, L.LayoutGet("basic"));
    assert [a, b, c] == ([a] + [b]) + [c];
    RunJoins(s, L.LayoutGet("basic"), [a, b, c]);
    RunJoins(s0, [a] + [b], [c]);
    RunJoins(s0, [a], [b]);
    RunOne(s0, a);
    RunOne(Do(s0, a), b);
    RunOne(Do(Do(s0, a), b), c);
    hide Run;
    SameMap(s.appenders, "stderr");
    SameMap(WithAppender(s.appenders, "stderr"), "stdout");
    SameMap(WithAppender(WithAppender(s.appenders, "stderr"), "stdout"), name);
  }

  lemma StaysReady(cats: map<string, CategoryRec>, n: string)
    requires CategoriesReady(cats) && n in cats
    ensures forall cats': map<string, CategoryRec> | cats'.Keys == cats.Keys :: CategoriesReady(cats')
  {}

  lemma NoName(env: Env, t: Tree, s: State)
    requires L.AttrsGet(t.attrs, "name") == None
    ensures Run(s, L.CategoryLoad(env, t)) == Run(s, L.AppenderLoad(env, t)) == Run(s, L.LayoutLoad(env, t)) == s
  {}

  lemma CategoryStages(env: Env, t: Tree, n: string, s: State, s1: State, s2: State, s3: State, s4: State)
    requires L.AttrsGet(t.attrs, "name") == Some(n) && s1 == Run(s, L.CategoryGet(n))
    requires s2 ==
      match L.AttrsGet(t.attrs, "priority")
      case None => s1
      case Some(v) => Do(s1, SetPriority(n, env.priority(v)))
    requires s3 ==
      match L.AttrsGet(t.attrs, "additivity")
      case None => s2
      case Some(v) =>
        if L.SameIgnoringCase(v, "false") then Do(s2, SetAdditive(n, false))
        else if L.SameIgnoringCase(v, "true") then Do(s2, SetAdditive(n, true))
        else s2
    requires s4 ==
      match L.AttrsGet(t.attrs, "appender")
      case None => s3
      case Some(a) => Do(Run(s3, L.AppenderGet(a)), SetAppender(n, a))
    ensures s4 == Run(s, L.CategoryLoad(env, t))
  {
    var p := match L.AttrsGet(t.attrs, "priority") case None => [] case Some(v) => [SetPriority(n, env.priority(v))];
    var d := match L.AttrsGet(t.attrs, "additivity")
      case None => []
      case Some(v) =>
        if L.SameIgnoringCase(v, "false") then [SetAdditive(n, false)]
        else if L.SameIgnoringCase(v, "true") then [SetAdditive(n, true)]
        else [];
    var a := match L.AttrsGet(t.attrs, "appender") case None => []
        case Some(a) => L.AppenderGet(a) + [SetAppender(n, a)];
    assert L.CategoryLoad(env, t) == ((L.CategoryGet(n) + p) + d) + a;
    hide L.AttrsGet, L.SameIgnoringCase, L.CategoryLoad, L.CategoryGet, Do, L.AppenderGet;
    RunJoins(s, (L.CategoryGet(n) + p) + d, a);
    RunJoins(s, L.CategoryGet(n) + p, d);
    RunJoins(s, L.CategoryGet(n), p);
    if p != [] { RunOne(s1, p[0]); }
    if d != [] { RunOne(s2, d[0]); }
    if a != [] { RunSnoc(s3, a); }
  }

  lemma RunSnoc(s: State, ops: seq<Op>)
    requires ops != []
    ensures Run(s, ops) == Do(Run(s, ops[..|ops| - 1]), ops[|ops| - 1])
  {}

  lemma AppenderStages(env: Env, t: Tree, n: string, s: State, s1: State, s2: State, s3: State)
    requires L.AttrsGet(t.attrs, "name") == Some(n) && s1 == Run(s, L.AppenderGet(n))
    requires s2 ==
      match L.AttrsGet(t.attrs, "type")
      case None => s1
      case Some(v) => Do(s1, SetAppenderType(n, L.Known(env.appenderTypes, v)))
    requires s3 ==
      match L.AttrsGet(t.attrs, "layout") case None => s2 case Some(l) => Do(Run(s2, L.LayoutGet(l)), SetLayout(n, l))
    ensures s3 == Run(s, L.AppenderLoad(env, t))
  {
    var k := match L.AttrsGet(t.attrs, "type") case None => []
        case Some(v) => [SetAppenderType(n, L.Known(env.appenderTypes, v))];
    var l := match L.AttrsGet(t.attrs, "layout") case None => [] case Some(l) => L.LayoutGet(l) + [SetLayout(n, l)];
    assert L.AppenderLoad(env, t) == (L.AppenderGet(n) + k) + l;
    hide L.AttrsGet, L.AppenderLoad, Do, L.AppenderGet, L.LayoutGet;
    RunJoins(s, L.AppenderGet(n) + k, l);
    RunJoins(s, L.AppenderGet(n), k);
    if k != [] { RunOne(s1, k[0]); }
    if l != [] { RunSnoc(s2, l); }
  }

  lemma LayoutStages(env: Env, t: Tree, n: string, s: State, s1: State, s2: State)
    requires L.AttrsGet(t.attrs, "name") == Some(n) && s1 == Run(s, L.LayoutGet(n))
    requires s2 ==
      match L.AttrsGet(t.attrs, "type")
      case None => s1
      case Some(v) => Do(s1, SetLayoutType(n, L.Known(env.layoutTypes, v)))
    ensures s2 == Run(s, L.LayoutLoad(env, t))
  {
    var k := match L.AttrsGet(t.attrs, "type") case None => []
        case Some(v) => [SetLayoutType(n, L.Known(env.layoutTypes, v))];
    assert L.LayoutLoad(env, t) == L.LayoutGet(n) + k;
    hide L.AttrsGet, L.LayoutLoad, Do, L.LayoutGet;
    RunJoins(s, L.LayoutGet(n), k);
    if k != [] { RunOne(s1, k[0]); }
  }

  lemma FieldStages(env: Env, t: Tree, s: State)
    ensures Run(s, L.FieldLoad(env, t)) ==
      if t.name == "nocleanup" then s.(nocleanup := env.atoi(L.ValueOf(t)))
      else if t.name == "bufsize" then s.(bufsize := L.ParseByteSize(env, L.ValueOf(t)))
      else if t.name == "debug" then
        match L.AttrsGet(t.attrs, "level") case None => s case Some(v) => s.(debug := env.atoi(v))
      else if t.name == "reread" then s.(reread := env.atoi(L.ValueOf(t)))
      else s
  {
    hide L.AttrsGet, L.ParseByteSize;
    var ops := L.FieldLoad(env, t);
    if ops != [] { RunOne(s, ops[0]); }
  }

  lemma ConfigFrom(env: Env, s: State, children: seq<Tree>, i: nat)
    requires i <= |children|
    ensures children[0..] == children
    ensures Run(s, L.ConfigLoad(env, children[i..])) ==
      if i == |children| then s
      else Run(Run(s, L.FieldLoad(env, children[i])), L.ConfigLoad(env, children[i + 1..]))
  {
    if i < |children| {
      assert children[i..][1..] == children[i + 1..];
      RunJoins(s, L.FieldLoad(env, children[i]), L.ConfigLoad(env, children[i + 1..]));
    }
  }

  lemma ElementsFrom(env: Env, s: State, children: seq<Tree>, i: nat)
    requires i <= |children|
    ensures children[0..] == children
    ensures Run(s, L.ElementsLoad(env, children[i..])) ==
      if i == |children| then s
      else Run(Run(s, L.ElementLoad(env, children[i])), L.ElementsLoad(env, children[i + 1..]))
  {
    hide L.ElementLoad;
    if i < |children| {
      assert children[i..][1..] == children[i + 1..];
      RunJoins(s, L.ElementLoad(env, children[i]), L.ElementsLoad(env, children[i + 1..]));
    }
  }

  lemma CleanupStages(env: Env, doc: Tree, s: State, s1: State)
    requires s1 ==
      match L.AttrsGet(doc.attrs, "cleanup")
      case None => s
      case Some(v) => s.(nocleanup := if env.atoi(v) == 0 then 1 else 0)
    ensures Run(s1, L.ElementsLoad(env, doc.children)) == Run(s, L.DocumentLoad(env, doc))
  {
    hide L.AttrsGet, L.ElementsLoad;
    var c := L.Cleanup(env, doc);
    RunJoins(s, c, L.ElementsLoad(env, doc.children));
    if c != [] { RunOne(s, c[0]); }
  }
}
