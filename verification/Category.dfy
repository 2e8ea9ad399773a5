// The categories of category.c: a registry keyed by dotted names whose
// constructor goes back to the registry for the parent.
module Category {
  import opened Option
  import opened Hash

  const ROOT := "root"
  const NOTSET := 900
  const UNKNOWN := 1000

  // strrchr(s, '.'), -1 when there is none.
  function LastDot(s: string): (i: int)
    ensures -1 <= i < |s|
    ensures i >= 0 ==> s[i] == '.'
    ensures forall j | i < j < |s| :: s[j] != '.'
  {
    if s == "" then -1 else if s[|s| - 1] == '.' then |s| - 1 else LastDot(s[..|s| - 1])
  }

  // dot_dirname.
  function DotDirname(s: string): string { if LastDot(s) == -1 then ROOT else s[..LastDot(s)] }

  function Measure(name: string): nat { if name == ROOT then 0 else |name| + 1 }

  // A category and its ancestors.
  function Path(name: string): (path: seq<string>)
    ensures path != [] && path[0] == name
    decreases Measure(name)
  {
    if name == ROOT then [name] else [name] + Path(DotDirname(name))
  }

  function Dots(s: string): nat { if s == "" then 0 else Dots(s[..|s| - 1]) + if s[|s| - 1] == '.' then 1 else 0 }

  lemma {:induction false} DotsBelow(s: string)
    ensures if LastDot(s) == -1 then Dots(s) == 0 else Dots(s) == Dots(s[..LastDot(s)]) + 1
  {
    if s != "" && s[|s| - 1] != '.' {
      DotsBelow(s[..|s| - 1]);
      if LastDot(s) >= 0 { assert s[..|s| - 1][..LastDot(s)] == s[..LastDot(s)]; }
    }
  }

  // A path ends at the root, never comes back, and takes at most one step per dot and one more.
  lemma {:induction false} PathEnds(name: string)
    ensures var path := Path(name);
      && path[|path| - 1] == ROOT
      && (forall i | 0 <= i < |path| - 1 :: path[i] != ROOT && path[i + 1] == DotDirname(path[i]))
      && (forall i, j | 0 <= i < j < |path| :: Measure(path[j]) < Measure(path[i]))
      && |path| - 1 <= Dots(name) + 1
    decreases Measure(name)
  {
    if name != ROOT {
      PathEnds(DotDirname(name));
      DotsBelow(name);
      var path, rest := Path(name), Path(DotDirname(name));
      assert path == [name] + rest;
      forall i, j | 0 <= i < j < |path| ensures Measure(path[j]) < Measure(path[i]) {
        assert path[j] == rest[j - 1];
        if i == 0 { assert j - 1 > 0 ==> Measure(rest[j - 1]) < Measure(rest[0]); }
      }
    }
  }

  class Category {
    const name: string
    const parent: Category?
    var priority: int
    var additive: bool
    var appender: Option<string>

    constructor (name: string, parent: Category?)
      ensures this.name == name && this.parent == parent && Unset()
    {
      this.name, this.parent, priority, additive, appender := name, parent, NOTSET, true, None;
    }

    ghost predicate Unset()
      reads this
    {
      priority == NOTSET && additive && appender == None
    }
  }

  type Categories = map<string, Category>

  // Every category has its name, and its parent is the registered category of its dotted prefix.
  ghost predicate Closed(cats: Categories) {
    forall k | k in cats ::
      && cats[k].name == k
      && if k == ROOT then cats[k].parent == null
         else DotDirname(k) in cats && cats[k].parent == cats[DotDirname(k)]
  }

  ghost function Names(path: seq<string>): set<string> { set n | n in path }

  lemma {:induction false} AncestorsRegistered(cats: Categories, name: string)
    requires Closed(cats) && name in cats
    ensures Names(Path(name)) <= cats.Keys
    decreases Measure(name)
  {
    if name != ROOT {
      AncestorsRegistered(cats, DotDirname(name));
      NamesOfPath(name);
    }
  }

  lemma PathOf(name: string)
    ensures Path(name) == if name == ROOT then [name] else [name] + Path(DotDirname(name))
  {
    hide DotDirname;
  }

  lemma NotItsAncestor(name: string)
    ensures name != ROOT ==> name !in Path(DotDirname(name))
  {
    PathOf(name);
    PathEnds(name);
    hide *;
    var path := Path(name);
    forall n | name != ROOT && n in Path(DotDirname(name)) ensures n != name {
      var i :| 0 <= i < |Path(DotDirname(name))| && Path(DotDirname(name))[i] == n;
      assert path[i + 1] == n && path[0] == name;
    }
  }

  lemma NamesOfPath(name: string)
    ensures Names(Path(name)) == if name == ROOT then {name} else {name} + Names(Path(DotDirname(name)))
    ensures name != ROOT ==> name !in Names(Path(DotDirname(name)))
  {
    PathOf(name);
    NotItsAncestor(name);
    hide Path, DotDirname, ROOT;
  }

  // Which prefix dot_dirname is: what stands before the last dot.
  lemma {:induction false} CutAtLastDot(a: string, b: string)
    requires '.' !in b
    ensures DotDirname(a + "." + b) == a
  {
    var s, i := a + "." + b, |a|;
    assert s[i] == '.' && forall j | i < j < |s| :: s[j] == b[j - i - 1];
    assert LastDot(s) == i;
  }

  lemma NoDotIsBelowRoot(s: string)
    requires '.' !in s
    ensures DotDirname(s) == "root"
  {}

  // The name itself, or what stands before one of its dots.
  ghost predicate Cut(x: string, s: string) { x == s || exists i :: 0 <= i < |s| && s[i] == '.' && x == s[..i] }

  lemma {:induction false} CutsOf(x: string, s: string)
    ensures Cut(x, s) <==> x == s || (LastDot(s) >= 0 && Cut(x, s[..LastDot(s)]))
    ensures LastDot(s) >= 0 ==> |s[..LastDot(s)]| < |s|
  {
    var n := LastDot(s);
    if n >= 0 {
      var t := s[..n];
      if i :| 0 <= i < |s| && s[i] == '.' && x == s[..i] {
        if i < n { assert t[i] == '.' && x == t[..i]; }
      }
      if i :| 0 <= i < |t| && t[i] == '.' && x == t[..i] {
        assert s[i] == '.' && x == s[..i];
      }
    }
  }

  lemma {:induction false} CutIsPrefix(x: string, s: string)
    requires Cut(x, s)
    ensures x <= s
  {}

  // A category's path: the name and what stands before each of its dots,
  // longest first, down to root; names above a prefix "root" are left out.
  lemma {:induction false} PathIsCuts(name: string)
    ensures var path := Path(name);
      && path[|path| - 1] == "root"
      && (forall i, j | 0 <= i < j < |path| - 1 :: |path[j]| < |path[i]|)
      && forall x | x != "root" :: x in path <==> Cut(x, name) && !(Cut("root", name) && |x| < |"root"|)
    decreases Measure(name)
  {
    var path := Path(name);
    PathEnds(name);
    LengthsDescend(name);
    forall x | x != "root" ensures x in path <==> Cut(x, name) && !(Cut("root", name) && |x| < |"root"|) {
      CutsOf(x, name);
      CutsOf("root", name);
      if name != "root" {
        assert path == [name] + Path(DotDirname(name));
        PathIsCuts(DotDirname(name));
        if LastDot(name) >= 0 {
          if Cut("root", DotDirname(name)) { CutIsPrefix("root", DotDirname(name)); }
        } else {
          assert Path("root") == ["root"];
        }
      } else {
        assert LastDot(name) == -1;
      }
    }
  }

  lemma LengthsDescend(name: string)
    ensures var path := Path(name);
      forall i, j | 0 <= i < j < |path| - 1 :: |path[j]| < |path[i]|
  {
    PathEnds(name);
    var path := Path(name);
    forall i, j | 0 <= i < j < |path| - 1 ensures |path[j]| < |path[i]| {
      assert Measure(path[j]) < Measure(path[i]);
    }
  }

  // In a registry the parent of "a.b" is the category "a", and that of a name
  // without a dot is the root, which has none.
  lemma {:induction false} ParentIsPrefix(r: Registry, a: string, b: string)
    requires r.Valid() && '.' !in b
    ensures a + "." + b in r.cats ==>
      a in r.cats && r.cats[a + "." + b].parent == r.cats[a] && r.cats[a].name == a
    ensures b in r.cats && b != "root" ==>
      "root" in r.cats && r.cats[b].parent == r.cats["root"] && r.cats["root"].name == "root"
    ensures "root" in r.cats ==> r.cats["root"].parent == null
  {
    CutAtLastDot(a, b);
    NoDotIsBelowRoot(b);
    assert '.' in a + "." + b && '.' !in "root";
  }

  // log4c_category_factory and its registry.
  class Registry {
    const table: Table<Category>
    ghost var cats: Categories

    ghost predicate Valid()
      reads this, table, table.tab, table.view.nodes
    {
      table.Valid() && Closed(cats) && Registers(table.Contents(), cats)
    }

    constructor (hash: string -> nat)
      ensures Valid() && cats == map[] && fresh(table) && fresh(table.tab) && table.view.nodes == {}
    {
      table := new Table(20, hash);
      cats := map[];
    }

    // log4c_category_get: sd_factory_get with log4c_category_new for constructor.
    method Get(name: string) returns (c: Category)
      requires Valid()
      modifies this`cats, table, table.tab, table.view.nodes
      ensures Valid() && name in cats && c == cats[name] && Grown(old(cats), cats, Path(name))
      ensures forall k | k in cats && k !in old(cats) :: fresh(cats[k]) && cats[k].Unset()
      ensures table.tab == old(table.tab) || fresh(table.tab)
      ensures fresh(table.view.nodes - old(table.view.nodes))
      decreases Measure(name), 1
    {
      hide *;
      RegistryFacts(this, name);
      ghost var before := cats;
      var i := table.Lookup(name);
      if i != null {
        c := i.data.value;
        return;
      }
      c := New(name);
      RegistryFacts(this, name);
      NamesOfPath(name);
      ClosedMore(before, cats, c);
      RegistersMore(table.Contents(), cats, c);
      ghost var made := cats;
      var _ := table.Add(c.name, c);
      cats := cats[name := c];
      RegistryFrom(this);
      forall k | k in cats && k !in before ensures fresh(cats[k]) && cats[k].Unset() { assert k == name || k in made; }
    }

    // log4c_category_new.
    method New(name: string) returns (c: Category)
      requires Valid() && name !in cats
      modifies this`cats, table, table.tab, table.view.nodes
      ensures Valid() && name !in cats
      ensures fresh(c) && c.name == name && c.Unset()
      ensures if name == ROOT then c.parent == null && cats == old(cats)
        else
          && DotDirname(name) in cats && c.parent == cats[DotDirname(name)]
          && Grown(old(cats), cats, Path(DotDirname(name)))
      ensures forall k | k in cats && k !in old(cats) :: fresh(cats[k]) && cats[k].Unset()
      ensures table.tab == old(table.tab) || fresh(table.tab)
      ensures fresh(table.view.nodes - old(table.view.nodes))
      decreases Measure(name), 0
    {
      hide *;
      NamesOfPath(name);
      DirnameDescends(name);
      var parent: Category? := null;
      if name != ROOT {
        ghost var before := cats;
        parent := Get(DotDirname(name));
        GrownKeys(before, cats, Path(DotDirname(name)));
      }
      c := new Category(name, parent);
    }
  }

  ghost predicate Registers(contents: map<string, Option<Category>>, cats: Categories) {
    contents == map k | k in cats :: Some(cats[k])
  }

  // The categories of the path have been added, and nothing else has changed.
  ghost predicate Grown(cats: Categories, cats': Categories, path: seq<string>) {
    cats'.Keys == cats.Keys + Names(path) && forall k | k in cats :: cats'[k] == cats[k]
  }

  lemma DirnameDescends(name: string)
    ensures name != ROOT ==> Measure(DotDirname(name)) < Measure(name)
  {}

  lemma RegistryFacts(r: Registry, name: string)
    requires r.Valid()
    ensures r.table.Valid() && r.table.view.entries.Keys == r.cats.Keys
    ensures Closed(r.cats) && Registers(r.table.Contents(), r.cats)
    ensures name in r.cats ==>
      r.table.view.entries[name].data == Some(r.cats[name]) && Grown(r.cats, r.cats, Path(name))
  {
    ContentsFacts(r.table);
    hide Table.Valid, Closed, Path, Table.Contents, Measure;
    if name in r.cats {
      assert r.table.Contents()[name] == Some(r.cats[name]);
      AncestorsRegistered(r.cats, name);
    }
  }

  lemma GrownKeys(cats: Categories, cats': Categories, path: seq<string>)
    requires Grown(cats, cats', path)
    ensures cats'.Keys == cats.Keys + Names(path)
  {}

  lemma RegistryFrom(r: Registry)
    requires r.table.Valid() && Closed(r.cats) && Registers(r.table.Contents(), r.cats)
    ensures r.Valid()
  {}

  lemma RegistersMore(contents: map<string, Option<Category>>, cats: Categories, c: Category)
    requires Registers(contents, cats)
    ensures Registers(contents[c.name := Some(c)], cats[c.name := c])
  {}

  // The new category closes the registry again, and completes the path of its name.
  lemma ClosedMore(before: Categories, cats: Categories, c: Category)
    requires Closed(cats) && c.name !in cats
    requires if c.name == ROOT then c.parent == null && cats == before
      else
        && DotDirname(c.name) in cats && c.parent == cats[DotDirname(c.name)]
        && Grown(before, cats, Path(DotDirname(c.name)))
    ensures Closed(cats[c.name := c]) && Grown(before, cats[c.name := c], Path(c.name))
  {
    NamesOfPath(c.name);
    hide Path, DotDirname, ROOT, Names;
  }
}
