// log4c_rc_load and what it calls (rc.c): which assignments a document makes.
module Loader {
  import opened Option
  import opened Dom
  import opened Config
  import Category
  import Expat
  import opened Sequences

  // sd_domnode_attrs_get: the first attribute of that name.
  function AttrsGet(attrs: seq<(string, string)>, name: string): Option<string> {
    if attrs == [] then None else if attrs[0].0 == name then Some(attrs[0].1) else AttrsGet(attrs[1..], name)
  }

  function Fold(c: char): char { if 'A' <= c <= 'Z' then (c as int + 32) as char else c }

  // strcasecmp, for equality.
  predicate SameIgnoringCase(a: string, b: string) {
    |a| == |b| && forall i | 0 <= i < |a| :: Fold(a[i]) == Fold(b[i])
  }

  function ParseByteSize(env: Env, s: string): int {
    var res := env.strtol(s);
    if res <= 0 then 0
    else if |s| >= 2 && s[|s| - 1] == 'B' then
      match s[|s| - 2]
      case 'K' => res * 1024
      case 'M' => res * 1024 * 1024
      case 'G' => res * 1024 * 1024 * 1024
      case _ => res
    else res
  }

  // log4c_category_get: the category and its ancestors.
  function CategoryGet(name: string): seq<Op>
    decreases Category.Measure(name)
  {
    (if name == Category.ROOT then [] else CategoryGet(Category.DotDirname(name))) + [TouchCategory(name)]
  }

  // log4c_layout_get and log4c_appender_get, which also make the default objects.
  function LayoutGet(name: string): seq<Op> { [TouchLayout("dated"), TouchLayout("basic"), TouchLayout(name)] }

  function AppenderGet(name: string): seq<Op> {
    LayoutGet("basic") + [TouchAppender("stderr"), TouchAppender("stdout"), TouchAppender(name)]
  }

  function CategoryLoad(env: Env, t: Tree): seq<Op> {
    match AttrsGet(t.attrs, "name")
    case None => []
    case Some(n) =>
      CategoryGet(n)
      + (match AttrsGet(t.attrs, "priority") case None => [] case Some(v) => [SetPriority(n, env.priority(v))])
      + (match AttrsGet(t.attrs, "additivity")
         case None => []
         case Some(v) =>
           if SameIgnoringCase(v, "false") then [SetAdditive(n, false)]
           else if SameIgnoringCase(v, "true") then [SetAdditive(n, true)]
           else [])
      + (match AttrsGet(t.attrs, "appender") case None => [] case Some(a) => AppenderGet(a) + [SetAppender(n, a)])
  }

  function Known(types: set<string>, v: string): Option<string> { if v in types then Some(v) else None }

  function AppenderLoad(env: Env, t: Tree): seq<Op> {
    match AttrsGet(t.attrs, "name")
    case None => []
    case Some(n) =>
      AppenderGet(n)
      + (match AttrsGet(t.attrs, "type")
         case None => []
         case Some(v) => [SetAppenderType(n, Known(env.appenderTypes, v))])
      + (match AttrsGet(t.attrs, "layout") case None => [] case Some(l) => LayoutGet(l) + [SetLayout(n, l)])
  }

  function LayoutLoad(env: Env, t: Tree): seq<Op> {
    match AttrsGet(t.attrs, "name")
    case None => []
    case Some(n) =>
      LayoutGet(n)
      + match AttrsGet(t.attrs, "type") case None => [] case Some(v) => [SetLayoutType(n, Known(env.layoutTypes, v))]
  }

  function ValueOf(t: Tree): string { match t.value case None => "" case Some(v) => v }

  // One child of a config element.
  function FieldLoad(env: Env, t: Tree): seq<Op> {
    if t.name == "nocleanup" then [SetNocleanup(env.atoi(ValueOf(t)))]
    else if t.name == "bufsize" then [SetBufsize(ParseByteSize(env, ValueOf(t)))]
    else if t.name == "debug" then
      match AttrsGet(t.attrs, "level") case None => [] case Some(v) => [SetDebug(env.atoi(v))]
    else if t.name == "reread" then [SetReread(env.atoi(ValueOf(t)))]
    else []
  }

  function ConfigLoad(env: Env, children: seq<Tree>): seq<Op> {
    if children == [] then [] else FieldLoad(env, children[0]) + ConfigLoad(env, children[1..])
  }

  function ElementLoad(env: Env, t: Tree): seq<Op> {
    if t.name == "category" then CategoryLoad(env, t)
    else if t.name == "appender" then AppenderLoad(env, t)
    else if t.name == "layout" then LayoutLoad(env, t)
    else if t.name == "config" then ConfigLoad(env, t.children)
    else []
  }

  function ElementsLoad(env: Env, children: seq<Tree>): seq<Op> {
    if children == [] then [] else ElementLoad(env, children[0]) + ElementsLoad(env, children[1..])
  }

  function Cleanup(env: Env, doc: Tree): seq<Op> {
    match AttrsGet(doc.attrs, "cleanup")
    case None => []
    case Some(v) => [SetNocleanup(if env.atoi(v) == 0 then 1 else 0)]
  }

  predicate Accepted(env: Env, doc: Tree) {
    doc.name == "log4c" && match AttrsGet(doc.attrs, "version") case None => true case Some(v) => v == env.version
  }

  function DocumentLoad(env: Env, doc: Tree): seq<Op> { Cleanup(env, doc) + ElementsLoad(env, doc.children) }

  // log4c_rc_load; no document stands for a file that cannot be opened.
  function Load(env: Env, doc: Option<Tree>, s: State): (r: (int, State)) {
    if doc.None? || !Accepted(env, doc.value) then (-1, s) else (0, Run(s, DocumentLoad(env, doc.value)))
  }

  // Loading a document twice is loading it once.
  lemma LoadTwice(env: Env, doc: Option<Tree>, s: State)
    ensures Load(env, doc, Load(env, doc, s).1) == Load(env, doc, s)
  {
    if doc.Some? { RunTwice(s, DocumentLoad(env, doc.value)); }
  }

  // What an element configures.
  datatype Slot = OfCategory(name: string) | OfAppender(name: string) | OfLayout(name: string) | OfField(k: Key)

  function SlotOf(k: Key): Slot {
    match k
    case Priority(n) => OfCategory(n)
    case Additive(n) => OfCategory(n)
    case Appender(n) => OfCategory(n)
    case AppenderType(n) => OfAppender(n)
    case Layout(n) => OfAppender(n)
    case LayoutType(n) => OfLayout(n)
    case f => OfField(f)
  }

  // Assignments that belong together, and the one slot they go to.
  datatype Unit = Unit(slot: Option<Slot>, ops: seq<Op>)

  function Named(t: Tree, f: string -> Slot): Option<Slot> {
    match AttrsGet(t.attrs, "name") case None => None case Some(n) => Some(f(n))
  }

  function FieldUnit(env: Env, t: Tree): Unit {
    Unit(if t.name == "nocleanup" then Some(OfField(Nocleanup)) else if t.name == "bufsize" then Some(OfField(Bufsize))
         else if t.name == "debug" then Some(OfField(Debug))
         else if t.name == "reread" then Some(OfField(Reread)) else None,
         FieldLoad(env, t))
  }

  function FieldUnits(env: Env, children: seq<Tree>): (us: seq<Unit>)
    ensures |us| == |children|
  {
    seq(|children|, i requires 0 <= i < |children| => FieldUnit(env, children[i]))
  }

  function ElementUnits(env: Env, t: Tree): seq<Unit> {
    if t.name == "category" then [Unit(Named(t, n => OfCategory(n)), ElementLoad(env, t))]
    else if t.name == "appender" then [Unit(Named(t, n => OfAppender(n)), ElementLoad(env, t))]
    else if t.name == "layout" then [Unit(Named(t, n => OfLayout(n)), ElementLoad(env, t))]
    else if t.name == "config" then FieldUnits(env, t.children)
    else []
  }

  function ElementsUnits(env: Env, children: seq<Tree>): seq<Unit> {
    if children == [] then [] else ElementUnits(env, children[0]) + ElementsUnits(env, children[1..])
  }

  function Units(env: Env, doc: Tree): seq<Unit> {
    [Unit(match AttrsGet(doc.attrs, "cleanup") case None => None case Some(_) => Some(OfField(Nocleanup)),
          Cleanup(env, doc))]
    + ElementsUnits(env, doc.children)
  }

  function Flatten(us: seq<Unit>): seq<Op> { if us == [] then [] else us[0].ops + Flatten(us[1..]) }

  lemma {:induction false} FlattenJoins(a: seq<Unit>, b: seq<Unit>)
    ensures Flatten(a + b) == Flatten(a) + Flatten(b)
  {
    if a == [] {
      assert a + b == b;
    } else {
      FlattenJoins(a[1..], b);
      assert (a + b)[1..] == a[1..] + b;
      assert a[0].ops + (Flatten(a[1..]) + Flatten(b)) == (a[0].ops + Flatten(a[1..])) + Flatten(b);
    }
  }

  lemma {:induction false} FieldUnitsFlat(env: Env, children: seq<Tree>)
    ensures Flatten(FieldUnits(env, children)) == ConfigLoad(env, children)
  {
    if children != [] {
      FieldUnitsFlat(env, children[1..]);
      assert FieldUnits(env, children)[1..] == FieldUnits(env, children[1..]);
    }
  }

  lemma {:induction false} ElementsUnitsFlat(env: Env, children: seq<Tree>)
    ensures Flatten(ElementsUnits(env, children)) == ElementsLoad(env, children)
  {
    if children != [] {
      ElementsUnitsFlat(env, children[1..]);
      FlattenJoins(ElementUnits(env, children[0]), ElementsUnits(env, children[1..]));
      ElementUnitsFlat(env, children[0]);
    }
  }

  lemma ElementUnitsFlat(env: Env, t: Tree)
    ensures Flatten(ElementUnits(env, t)) == ElementLoad(env, t)
  {
    hide CategoryLoad, AppenderLoad, LayoutLoad, FieldUnits, ConfigLoad;
    if t.name == "config" {
      FieldUnitsFlat(env, t.children);
    } else {
      var us := ElementUnits(env, t);
      if us != [] { assert us[1..] == [] && Flatten(us) == us[0].ops + []; }
    }
  }

  lemma UnitsFlat(env: Env, doc: Tree)
    ensures Flatten(Units(env, doc)) == DocumentLoad(env, doc)
  {
    ElementsUnitsFlat(env, doc.children);
    assert Units(env, doc)[1..] == ElementsUnits(env, doc.children);
  }

  // Each (kind, name) and each field is configured at most once.
  ghost predicate UniqueKeys(env: Env, doc: Tree) {
    var us := Units(env, doc);
    forall i, j | 0 <= i < j < |us| && us[i].slot.Some? :: us[i].slot != us[j].slot
  }

  // A unit stays in its slot and agrees with itself.
  ghost predicate Tidy(u: Unit) {
    && Agree(u.ops)
    && forall a, k | a in u.ops && Sets(a, k).Some? :: u.slot == Some(SlotOf(k))
  }

  predicate Touching(op: Op) { op.TouchCategory? || op.TouchAppender? || op.TouchLayout? }

  lemma {:induction false} CategoryGetTouches(name: string)
    ensures forall a | a in CategoryGet(name) :: a.TouchCategory?
    decreases Category.Measure(name)
  {
    if name != Category.ROOT { CategoryGetTouches(Category.DotDirname(name)); }
  }

  // A unit is tidy when what it sets is determined by the place.
  lemma TidyFrom(u: Unit, want: Key -> Value)
    requires forall a, k | a in u.ops && Sets(a, k).Some? :: Sets(a, k) == Some(want(k)) && u.slot == Some(SlotOf(k))
    ensures Tidy(u)
  {}

  lemma {:induction false} CategoryTidy(env: Env, t: Tree)
    ensures Tidy(Unit(Named(t, n => OfCategory(n)), CategoryLoad(env, t)))
  {
    hide AttrsGet, SameIgnoringCase, CategoryGet;
    var u := Unit(Named(t, n => OfCategory(n)), CategoryLoad(env, t));
    match AttrsGet(t.attrs, "name")
    case None =>
    case Some(n) =>
      var p := match AttrsGet(t.attrs, "priority") case None => 0 case Some(v) => env.priority(v);
      var d := match AttrsGet(t.attrs, "additivity") case None => false case Some(v) => !SameIgnoringCase(v, "false");
      var s := AttrsGet(t.attrs, "appender");
      forall a, k | a in u.ops && Sets(a, k).Some?
        ensures Sets(a, k) == Some(CategoryWants(k, p, d, s)) && u.slot == Some(SlotOf(k))
      {
        CategoryOps(env, t, n, p, d, s, a);
      }
      hide CategoryLoad, Sets, Tidy;
      TidyFrom(u, k => CategoryWants(k, p, d, s));
  }

  function CategoryWants(k: Key, p: int, d: bool, s: Option<string>): Value {
    match k
    case Priority(_) => Int(p)
    case Additive(_) => Bool(d)
    case _ => Name(s)
  }

  lemma CategoryOps(env: Env, t: Tree, n: string, p: int, d: bool, s: Option<string>, a: Op)
    requires AttrsGet(t.attrs, "name") == Some(n) && a in CategoryLoad(env, t)
    requires p == match AttrsGet(t.attrs, "priority") case None => 0 case Some(v) => env.priority(v)
    requires d == match AttrsGet(t.attrs, "additivity") case None => false case Some(v) => !SameIgnoringCase(v, "false")
    requires s == AttrsGet(t.attrs, "appender")
    ensures Touching(a) || a == SetPriority(n, p) || a == SetAdditive(n, d) || (s.Some? && a == SetAppender(n, s.value))
  {
    CategoryGetTouches(n);
    hide CategoryGet, AttrsGet, SameIgnoringCase;
  }

  lemma {:induction false} AppenderTidy(env: Env, t: Tree)
    ensures Tidy(Unit(Named(t, n => OfAppender(n)), AppenderLoad(env, t)))
  {
    hide AttrsGet, AppenderGet, LayoutGet;
    var u := Unit(Named(t, n => OfAppender(n)), AppenderLoad(env, t));
    match AttrsGet(t.attrs, "name")
    case None =>
    case Some(n) =>
      var kind := match AttrsGet(t.attrs, "type") case None => None case Some(v) => Known(env.appenderTypes, v);
      var layout := AttrsGet(t.attrs, "layout");
      forall a, k | a in u.ops && Sets(a, k).Some?
        ensures Sets(a, k) == Some(AppenderWants(k, kind, layout)) && u.slot == Some(SlotOf(k))
      {
        AppenderOps(env, t, n, kind, layout, a);
      }
      hide AppenderLoad, Sets, Tidy;
      TidyFrom(u, k => AppenderWants(k, kind, layout));
  }

  function AppenderWants(k: Key, kind: Option<string>, layout: Option<string>): Value {
    if k.Layout? then Name(layout) else Name(kind)
  }

  lemma AppenderOps(env: Env, t: Tree, n: string, kind: Option<string>, layout: Option<string>, a: Op)
    requires AttrsGet(t.attrs, "name") == Some(n) && a in AppenderLoad(env, t)
    requires kind == match AttrsGet(t.attrs, "type") case None => None case Some(v) => Known(env.appenderTypes, v)
    requires layout == AttrsGet(t.attrs, "layout")
    ensures Touching(a) || a == SetAppenderType(n, kind) || (layout.Some? && a == SetLayout(n, layout.value))
  {
    hide AttrsGet;
  }

  lemma {:induction false} LayoutTidy(env: Env, t: Tree)
    ensures Tidy(Unit(Named(t, n => OfLayout(n)), LayoutLoad(env, t)))
  {
    hide AttrsGet;
  }

  lemma {:induction false} FieldTidy(env: Env, t: Tree)
    ensures Tidy(FieldUnit(env, t))
  {
    hide AttrsGet, ParseByteSize;
  }

  lemma {:induction false} ElementTidy(env: Env, t: Tree)
    ensures forall u | u in ElementUnits(env, t) :: Tidy(u)
  {
    CategoryTidy(env, t);
    AppenderTidy(env, t);
    LayoutTidy(env, t);
    forall u | u in FieldUnits(env, t.children) ensures Tidy(u) {
      var i :| 0 <= i < |t.children| && u == FieldUnit(env, t.children[i]);
      FieldTidy(env, t.children[i]);
    }
    hide Tidy, CategoryLoad, AppenderLoad, LayoutLoad, FieldUnits, ConfigLoad, Named;
  }

  lemma {:induction false} ElementsUnitsAre(env: Env, children: seq<Tree>)
    ensures forall u :: u in ElementsUnits(env, children) <==>
      exists i :: 0 <= i < |children| && u in ElementUnits(env, children[i])
  {
    if children != [] {
      hide ElementUnits;
      ElementsUnitsAre(env, children[1..]);
      forall u
        ensures u in ElementsUnits(env, children) <==>
          exists i :: 0 <= i < |children| && u in ElementUnits(env, children[i])
      {
        if i :| 0 <= i < |children| && u in ElementUnits(env, children[i]) {
          if i > 0 { assert children[1..][i - 1] == children[i]; }
        }
        if i :| 0 <= i < |children[1..]| && u in ElementUnits(env, children[1..][i]) {
          assert children[i + 1] == children[1..][i];
        }
      }
    }
  }

  lemma {:induction false} UnitsTidy(env: Env, doc: Tree)
    ensures forall u | u in Units(env, doc) :: Tidy(u)
  {
    hide ElementUnits;
    ElementsUnitsAre(env, doc.children);
    forall i | 0 <= i < |doc.children| ensures forall u | u in ElementUnits(env, doc.children[i]) :: Tidy(u) {
      ElementTidy(env, doc.children[i]);
    }
    hide ElementsUnits;
    assert Tidy(Units(env, doc)[0]);
  }

  lemma {:induction false} FlattenMembers(us: seq<Unit>)
    ensures forall a :: a in Flatten(us) <==> exists u :: u in us && a in u.ops
  {
    if us != [] {
      FlattenMembers(us[1..]);
      forall a ensures a in Flatten(us) <==> exists u :: u in us && a in u.ops {
        if u :| u in us && a in u.ops { assert u == us[0] || u in us[1..]; }
      }
    }
  }

  // Unique keys leave no two assignments in disagreement.
  lemma UniqueKeysAgree(env: Env, doc: Tree)
    requires UniqueKeys(env, doc)
    ensures Agree(DocumentLoad(env, doc))
  {
    UnitsFlat(env, doc);
    UnitsTidy(env, doc);
    var us := Units(env, doc);
    FlattenMembers(us);
    hide Units, DocumentLoad, Flatten, Sets;
    forall a, b, k | a in Flatten(us) && b in Flatten(us) && Sets(a, k).Some? && Sets(b, k).Some?
      ensures Sets(a, k) == Sets(b, k)
    {
      var u :| u in us && a in u.ops;
      var w :| w in us && b in w.ops;
      var i :| 0 <= i < |us| && us[i] == u;
      var j :| 0 <= j < |us| && us[j] == w;
      assert us[i].slot == us[j].slot == Some(SlotOf(k));
      assert i == j;
    }
  }

  // Documents that make the same assignments, in whatever order.
  lemma SameUnits(env: Env, doc: Tree, doc': Tree, s: State)
    requires UniqueKeys(env, doc) && forall u :: u in Units(env, doc) <==> u in Units(env, doc')
    ensures Run(s, DocumentLoad(env, doc)) == Run(s, DocumentLoad(env, doc'))
  {
    UniqueKeysAgree(env, doc);
    UnitsFlat(env, doc);
    UnitsFlat(env, doc');
    FlattenMembers(Units(env, doc));
    FlattenMembers(Units(env, doc'));
    hide Units, DocumentLoad, Flatten, Agree, Run;
    OrderDoesNotMatter(s, DocumentLoad(env, doc), DocumentLoad(env, doc'));
  }

  lemma SameElementsUnits(env: Env, doc: Tree, doc': Tree)
    requires AttrsGet(doc.attrs, "cleanup") == AttrsGet(doc'.attrs, "cleanup")
    requires forall u :: u in ElementsUnits(env, doc.children) <==> u in ElementsUnits(env, doc'.children)
    ensures forall u :: u in Units(env, doc) <==> u in Units(env, doc')
  {
    hide ElementsUnits, AttrsGet;
  }

  // With unique keys the elements can be loaded in reverse order.
  lemma {:induction false} LoadReversed(env: Env, doc: Tree, s: State)
    requires UniqueKeys(env, doc)
    ensures Load(env, Some(doc.(children := Reverse(doc.children))), s) == Load(env, Some(doc), s)
  {
    var doc' := doc.(children := Reverse(doc.children));
    ReversedUnits(env, doc.children);
    hide ElementsUnits, UniqueKeys, Units, DocumentLoad, Run, AttrsGet;
    SameElementsUnits(env, doc, doc');
    SameUnits(env, doc, doc', s);
  }

  lemma {:induction false} ReversedUnits(env: Env, children: seq<Tree>)
    ensures forall u :: u in ElementsUnits(env, children) <==> u in ElementsUnits(env, Reverse(children))
  {
    var r := Reverse(children);
    ElementsUnitsAre(env, children);
    ElementsUnitsAre(env, r);
    hide ElementsUnits, ElementUnits;
    forall u ensures u in ElementsUnits(env, children) <==> u in ElementsUnits(env, r) {
      if i :| 0 <= i < |children| && u in ElementUnits(env, children[i]) {
        assert r[|children| - 1 - i] == children[i];
      }
    }
  }

  // Attribute names are unique (XML 1.0, section 3.1), in every node the loader looks at.
  ghost predicate UniqueAttributes(t: Tree) {
    && DistinctNames(t.attrs)
    && forall i | 0 <= i < |t.children| ::
         DistinctNames(t.children[i].attrs)
         && forall j | 0 <= j < |t.children[i].children| :: DistinctNames(t.children[i].children[j].attrs)
  }

  ghost predicate DistinctNames(attrs: seq<(string, string)>) {
    forall i, j | 0 <= i < j < |attrs| :: attrs[i].0 != attrs[j].0
  }

  lemma {:induction false} AttrsGetIs(attrs: seq<(string, string)>, name: string, i: nat)
    requires DistinctNames(attrs) && i < |attrs| && attrs[i].0 == name
    ensures AttrsGet(attrs, name) == Some(attrs[i].1)
  {
    if i > 0 { AttrsGetIs(attrs[1..], name, i - 1); }
  }

  lemma {:induction false} AttrsGetNone(attrs: seq<(string, string)>, name: string)
    requires forall i | 0 <= i < |attrs| :: attrs[i].0 != name
    ensures AttrsGet(attrs, name) == None
  {
    if attrs != [] { AttrsGetNone(attrs[1..], name); }
  }

  lemma AttrsGetReversed(attrs: seq<(string, string)>, name: string)
    requires DistinctNames(attrs)
    ensures AttrsGet(Reverse(attrs), name) == AttrsGet(attrs, name)
  {
    hide AttrsGet;
    var r := Reverse(attrs);
    if i :| 0 <= i < |attrs| && attrs[i].0 == name {
      AttrsGetIs(attrs, name, i);
      AttrsGetIs(r, name, |attrs| - 1 - i);
    } else {
      AttrsGetNone(attrs, name);
      AttrsGetNone(r, name);
    }
  }

  lemma {:induction false} SameAttributes(t: Tree)
    requires DistinctNames(t.attrs)
    ensures forall name :: AttrsGet(Expat.Mirror(t).attrs, name) == AttrsGet(t.attrs, name)
  {
    hide AttrsGet, Expat.Mirrors;
    forall name ensures AttrsGet(Expat.Mirror(t).attrs, name) == AttrsGet(t.attrs, name) {
      AttrsGetReversed(t.attrs, name);
    }
  }

  lemma {:induction false} FieldMirrored(env: Env, t: Tree)
    requires DistinctNames(t.attrs)
    ensures FieldUnit(env, Expat.Mirror(t)) == FieldUnit(env, t)
  {
    SameAttributes(t);
    hide AttrsGet, Expat.Mirrors, ParseByteSize;
  }

  lemma {:induction false} ElementMirrored(env: Env, t: Tree)
    requires DistinctNames(t.attrs) && forall j | 0 <= j < |t.children| :: DistinctNames(t.children[j].attrs)
    ensures forall u :: u in ElementUnits(env, Expat.Mirror(t)) <==> u in ElementUnits(env, t)
  {
    if t.name == "config" {
      FieldsMirrored(env, t.children);
      hide FieldUnits;
    } else {
      SameAttributes(t);
      hide AttrsGet, Expat.Mirrors, CategoryGet, AppenderGet, LayoutGet;
      assert ElementUnits(env, Expat.Mirror(t)) == ElementUnits(env, t);
    }
  }

  lemma {:induction false} FieldsMirrored(env: Env, children: seq<Tree>)
    requires forall j | 0 <= j < |children| :: DistinctNames(children[j].attrs)
    ensures forall u :: u in FieldUnits(env, Reverse(Expat.Mirrors(children))) <==> u in FieldUnits(env, children)
  {
    hide *;
    var r := Reverse(Expat.Mirrors(children));
    ReverseIs(Expat.Mirrors(children));
    var us, vs := FieldUnits(env, children), FieldUnits(env, r);
    forall j | 0 <= j < |children| ensures vs[|children| - 1 - j] == us[j] {
      FieldMirrored(env, children[j]);
      UnitAt(env, children, j);
      UnitAt(env, r, |children| - 1 - j);
    }
    MirrorImage(us, vs);
  }

  lemma {:induction false} UnitAt(env: Env, children: seq<Tree>, j: nat)
    requires j < |children|
    ensures FieldUnits(env, children)[j] == FieldUnit(env, children[j])
  {
    hide FieldUnit;
  }

  // Two sequences that are each other's reverse have the same elements.
  lemma MirrorImage<T>(us: seq<T>, vs: seq<T>)
    requires |us| == |vs| && forall j | 0 <= j < |us| :: vs[|us| - 1 - j] == us[j]
    ensures forall u :: u in vs <==> u in us
  {
    forall u ensures u in vs <==> u in us {
      if u in vs {
        var i :| 0 <= i < |vs| && vs[i] == u;
        assert us[|us| - 1 - i] == u;
      }
    }
  }

  lemma {:induction false} MirroredUnits(env: Env, children: seq<Tree>)
    requires forall i | 0 <= i < |children| ::
      DistinctNames(children[i].attrs)
      && forall j | 0 <= j < |children[i].children| :: DistinctNames(children[i].children[j].attrs)
    ensures forall u :: u in ElementsUnits(env, Reverse(Expat.Mirrors(children))) <==> u in ElementsUnits(env, children)
  {
    var r := Reverse(Expat.Mirrors(children));
    ElementsUnitsAre(env, children);
    ElementsUnitsAre(env, r);
    forall i | 0 <= i < |children|
      ensures forall u :: u in ElementUnits(env, r[|children| - 1 - i]) <==> u in ElementUnits(env, children[i])
    {
      ElementMirrored(env, children[i]);
    }
    hide ElementsUnits, ElementUnits, DistinctNames;
    forall u ensures u in ElementsUnits(env, children) <==> u in ElementsUnits(env, r) {
      if u in ElementsUnits(env, children) {
        var i :| 0 <= i < |children| && u in ElementUnits(env, children[i]);
        assert u in ElementUnits(env, r[|children| - 1 - i]);
      }
      if u in ElementsUnits(env, r) {
        var i :| 0 <= i < |r| && u in ElementUnits(env, r[i]);
        assert u in ElementUnits(env, children[|children| - 1 - i]);
      }
    }
  }

  // Whichever of the two XML readers has built the document, the configuration
  // is the same, when keys and attributes are unique.
  lemma {:induction false} EitherReader(env: Env, doc: Tree, s: State)
    requires UniqueKeys(env, doc) && UniqueAttributes(doc)
    ensures Load(env, Some(Expat.Mirror(doc)), s) == Load(env, Some(doc), s)
  {
    hide *;
    var doc' := Expat.Mirror(doc);
    MirrorParts(doc);
    SameAttributes(doc);
    MirroredUnits(env, doc.children);
    SameElementsUnits(env, doc, doc');
    SameUnits(env, doc, doc', s);
    SameLoad(env, doc, doc', s);
  }

  lemma {:induction false} MirrorParts(doc: Tree)
    requires UniqueAttributes(doc)
    ensures var doc' := Expat.Mirror(doc);
      doc'.name == doc.name && doc'.children == Reverse(Expat.Mirrors(doc.children))
    ensures DistinctNames(doc.attrs)
    ensures forall i | 0 <= i < |doc.children| ::
      DistinctNames(doc.children[i].attrs)
      && forall j | 0 <= j < |doc.children[i].children| :: DistinctNames(doc.children[i].children[j].attrs)
  {
    hide DistinctNames, Expat.Mirrors;
  }

  lemma SameLoad(env: Env, doc: Tree, doc': Tree, s: State)
    requires doc.name == doc'.name && forall name :: AttrsGet(doc'.attrs, name) == AttrsGet(doc.attrs, name)
    requires Run(s, DocumentLoad(env, doc)) == Run(s, DocumentLoad(env, doc'))
    ensures Load(env, Some(doc), s) == Load(env, Some(doc'), s)
  {
    hide Run, DocumentLoad, AttrsGet;
  }

  // Any two documents: loading one is loading the other, from every state, if
  // and only if both are refused, or both accepted and the last value of every
  // place and the objects made are the same.
  lemma {:induction false} SameLoadExactlyWhen(env: Env, doc: Tree, doc': Tree)
    ensures (forall s :: Load(env, Some(doc), s) == Load(env, Some(doc'), s))
      <==> (Accepted(env, doc) <==> Accepted(env, doc'))
           && (Accepted(env, doc) ==> SameLast(DocumentLoad(env, doc), DocumentLoad(env, doc')))
  {
    hide Run, DocumentLoad, Accepted, SameLast;
    SameEffectExactlyWhen(DocumentLoad(env, doc), DocumentLoad(env, doc'));
    if Accepted(env, doc) && Accepted(env, doc') {
      forall s
        ensures Load(env, Some(doc), s) == Load(env, Some(doc'), s)
          <==> Run(s, DocumentLoad(env, doc)) == Run(s, DocumentLoad(env, doc'))
      {
      }
      if SameLast(DocumentLoad(env, doc), DocumentLoad(env, doc')) {
        assert forall s :: Run(s, DocumentLoad(env, doc)) == Run(s, DocumentLoad(env, doc'));
      } else {
        var s :| Run(s, DocumentLoad(env, doc)) != Run(s, DocumentLoad(env, doc'));
        assert Load(env, Some(doc), s) != Load(env, Some(doc'), s);
      }
    } else if Accepted(env, doc) || Accepted(env, doc') {
      assert Load(env, Some(doc), BLANK).0 != Load(env, Some(doc'), BLANK).0;
    }
  }

  // The last assignment to each place is the same in both documents.
  ghost predicate SameLastValues(env: Env, doc: Tree, doc': Tree) {
    forall k :: LastSet(DocumentLoad(env, doc), k) == LastSet(DocumentLoad(env, doc'), k)
  }

  // Documents with the same units make the same objects.
  lemma {:induction false} SameUnitsExactlyWhen(env: Env, doc: Tree, doc': Tree)
    requires forall u :: u in Units(env, doc) <==> u in Units(env, doc')
    requires Accepted(env, doc) <==> Accepted(env, doc')
    ensures (forall s :: Load(env, Some(doc), s) == Load(env, Some(doc'), s))
      <==> !Accepted(env, doc) || SameLastValues(env, doc, doc')
  {
    var ops, ops' := DocumentLoad(env, doc), DocumentLoad(env, doc');
    UnitsFlat(env, doc);
    UnitsFlat(env, doc');
    FlattenMembers(Units(env, doc));
    FlattenMembers(Units(env, doc'));
    hide Units, DocumentLoad, Flatten, Run, Load, Accepted, LastSet;
    assert forall a :: a in ops <==> a in ops';
    forall k ensures Touched(ops, k) <==> Touched(ops', k) {}
    SameLoadExactlyWhen(env, doc, doc');
  }

  // Without unique keys: the order of the elements does not matter exactly when
  // the last assignment to each place stays the last.
  lemma {:induction false} ReversedExactlyWhen(env: Env, doc: Tree)
    ensures var doc' := doc.(children := Reverse(doc.children));
      (forall s :: Load(env, Some(doc'), s) == Load(env, Some(doc), s))
      <==> !Accepted(env, doc) || SameLastValues(env, doc, doc')
  {
    var doc' := doc.(children := Reverse(doc.children));
    ReversedUnits(env, doc.children);
    hide ElementsUnits, Units, DocumentLoad, Run, AttrsGet, Load, SameLastValues;
    SameElementsUnits(env, doc, doc');
    SameUnitsExactlyWhen(env, doc, doc');
  }

  // And so for the two XML readers.
  lemma {:induction false} EitherReaderExactlyWhen(env: Env, doc: Tree)
    requires UniqueAttributes(doc)
    ensures (forall s :: Load(env, Some(Expat.Mirror(doc)), s) == Load(env, Some(doc), s))
      <==> !Accepted(env, doc) || SameLastValues(env, doc, Expat.Mirror(doc))
  {
    hide *;
    var doc' := Expat.Mirror(doc);
    MirrorParts(doc);
    SameAttributes(doc);
    MirroredUnits(env, doc.children);
    SameElementsUnits(env, doc, doc');
    SameAccepted(env, doc, doc');
    SameUnitsExactlyWhen(env, doc, doc');
  }

  lemma SameAccepted(env: Env, doc: Tree, doc': Tree)
    requires doc.name == doc'.name && forall name :: AttrsGet(doc'.attrs, name) == AttrsGet(doc.attrs, name)
    ensures Accepted(env, doc) <==> Accepted(env, doc')
  {
    hide AttrsGet;
  }
}
