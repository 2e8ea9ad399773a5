// Inherited priority and additive delivery along the parents of a category (category.c).
module Delivery {
  import opened Option
  import opened Category

  ghost function Priorities(cats: Categories): map<string, int>
    reads cats.Values
  {
    map k | k in cats :: cats[k].priority
  }

  // Where a category sends its events, and whether its parent gets them too.
  datatype Sink = Sink(appender: Option<string>, additive: bool)

  ghost function Sinks(cats: Categories): map<string, Sink>
    reads cats.Values
  {
    map k | k in cats :: Sink(cats[k].appender, cats[k].additive)
  }

  // The priority set nearest on a path, or that of its end.
  function Nearest(path: seq<string>, priority: map<string, int>): int
    requires path != [] && forall n | n in path :: n in priority
  {
    if |path| == 1 || priority[path[0]] != NOTSET then priority[path[0]] else Nearest(path[1..], priority)
  }

  lemma {:induction false} NearestIsNearest(path: seq<string>, priority: map<string, int>) returns (i: nat)
    requires path != [] && forall n | n in path :: n in priority
    ensures i < |path| && Nearest(path, priority) == priority[path[i]]
    ensures forall j | 0 <= j < i :: priority[path[j]] == 900
    ensures priority[path[i]] != 900 || i == |path| - 1
  {
    if |path| == 1 || priority[path[0]] != NOTSET {
      i := 0;
    } else {
      i := NearestIsNearest(path[1..], priority);
      i := i + 1;
    }
  }

  // No nearer priority hides the i-th category of the path.
  ghost predicate Visible(path: seq<string>, priority: map<string, int>, i: int)
    requires forall n | n in path :: n in priority
  {
    0 <= i < |path| && forall j | 0 <= j < i :: priority[path[j]] == NOTSET
  }

  // Setting one priority changes the effective priority of exactly those whose
  // path reaches that category with no nearer priority set.
  lemma {:induction false} SetPriorityScope(path: seq<string>, priority: map<string, int>, k: string, p: int)
    requires path != [] && forall n | n in path :: n in priority
    requires forall i, j | 0 <= i < j < |path| :: path[i] != path[j]
    ensures (forall i | 0 <= i < |path| && path[i] == k :: !Visible(path, priority, i)) ==>
      Nearest(path, priority[k := p]) == Nearest(path, priority)
    ensures forall i | 0 <= i < |path| && path[i] == k && Visible(path, priority, i) ::
      Nearest(path, priority[k := p]) == if p != NOTSET || i == |path| - 1 then p else Nearest(path[i + 1..], priority)
  {
    var rest := path[1..];
    if path[0] == k {
      if |path| > 1 { Unaffected(rest, priority, k, p); }
      assert Visible(path, priority, 0);
    } else if |path| > 1 && priority[path[0]] == NOTSET {
      SetPriorityScope(rest, priority, k, p);
      forall i | 0 <= i < |path| && path[i] == k
        ensures Visible(path, priority, i) <==> Visible(rest, priority, i - 1)
        ensures path[i + 1..] == rest[i..] && rest[i - 1] == k
      {}
      assert forall i | 0 <= i < |rest| && rest[i] == k :: path[i + 1] == k;
    } else {
      assert forall i | 0 <= i < |path| && path[i] == k :: Visible(path, priority, i) ==> priority[path[0]] == NOTSET;
    }
  }

  lemma {:induction false} Unaffected(path: seq<string>, priority: map<string, int>, k: string, p: int)
    requires path != [] && k !in path && forall n | n in path :: n in priority
    ensures Nearest(path, priority[k := p]) == Nearest(path, priority)
  {
    if |path| > 1 { Unaffected(path[1..], priority, k, p); }
  }

  // The appenders an event reaches, in order.
  function Delivered(path: seq<string>, sinks: map<string, Sink>): seq<string>
    requires forall n | n in path :: n in sinks
  {
    if path == [] then []
    else Own(sinks[path[0]]) + if sinks[path[0]].additive then Delivered(path[1..], sinks) else []
  }

  function Own(s: Sink): seq<string> { match s.appender case None => [] case Some(a) => [a] }

  // All the appenders of a path.
  function Appenders(path: seq<string>, sinks: map<string, Sink>): seq<string>
    requires forall n | n in path :: n in sinks
  {
    if path == [] then [] else Own(sinks[path[0]]) + Appenders(path[1..], sinks)
  }

  // Delivery is to all the appenders up to and including the first category that is not additive.
  lemma {:induction false} DeliveredUpTo(path: seq<string>, sinks: map<string, Sink>, m: nat)
    requires forall n | n in path :: n in sinks
    requires m <= |path| && (forall i | 0 <= i < m - 1 :: sinks[path[i]].additive)
    requires if m == 0 then path == [] else m == |path| || !sinks[path[m - 1]].additive
    ensures Delivered(path, sinks) == Appenders(path[..m], sinks)
  {
    if path != [] {
      assert path[..m][1..] == path[1..][..m - 1];
      if sinks[path[0]].additive {
        DeliveredUpTo(path[1..], sinks, m - 1);
      } else {
        assert m == 1;
        assert path[..m][1..] == [];
      }
    }
  }

  lemma {:induction false} NothingDelivered(path: seq<string>, sinks: map<string, Sink>)
    requires forall n | n in path :: n in sinks && sinks[n].appender == None
    ensures Delivered(path, sinks) == []
  {
    if path != [] { NothingDelivered(path[1..], sinks); }
  }

  // The i-th category of the chain that starts at c; null past its end.
  ghost function Ancestor(cats: Categories, name: string, i: nat): Category?
  {
    if i < |Path(name)| && Path(name)[i] in cats then cats[Path(name)[i]] else null
  }

  // cat_parent walks the path.
  lemma ParentWalks(cats: Categories, name: string, i: nat)
    requires Closed(cats) && name in cats && i < |Path(name)|
    ensures Ancestor(cats, name, 0) == cats[name]
    ensures forall n | n in Path(name) :: n in cats
    ensures var c := Ancestor(cats, name, i);
      && c != null && c.name == Path(name)[i] && c == cats[c.name] && c.parent == Ancestor(cats, name, i + 1)
    ensures Ancestor(cats, name, i + 1) == null <==> i + 1 == |Path(name)|
  {
    PathEnds(name);
    AncestorsRegistered(cats, name);
    hide Path, DotDirname;
    assert forall n | n in Path(name) :: n in Names(Path(name));
    assert Path(name)[i] in cats;
    if i + 1 < |Path(name)| { assert Path(name)[i + 1] in cats; }
  }

  lemma Snapshots(cats: Categories)
    ensures Priorities(cats).Keys == Sinks(cats).Keys == cats.Keys
    ensures forall k | k in cats :: Priorities(cats)[k] == cats[k].priority
    ensures forall k | k in cats :: Sinks(cats)[k] == Sink(cats[k].appender, cats[k].additive)
  {}

  // log4c_category_get_chainedpriority.
  method GetChainedPriority(c: Category?, ghost cats: Categories) returns (p: int)
    requires Closed(cats) && (c != null ==> c.name in cats && cats[c.name] == c)
    ensures c == null ==> p == 1000
    ensures c != null ==>
      && (forall n | n in Path(c.name) :: n in Priorities(cats))
      && p == Nearest(Path(c.name), Priorities(cats))
  {
    if c == null { return UNKNOWN; }
    hide *;
    ghost var path, prio := Path(c.name), Priorities(cats);
    Snapshots(cats);
    ParentWalks(cats, c.name, 0);
    var cat: Category := c;
    ghost var i: nat := 0;
    Drop0(path);
    while cat.priority == NOTSET && cat.parent != null
      invariant i < |path| && cat == Ancestor(cats, c.name, i) && cat.parent == Ancestor(cats, c.name, i + 1)
      invariant cat.name == path[i] && cat == cats[cat.name]
      invariant Ancestor(cats, c.name, i + 1) == null <==> i + 1 == |path|
      invariant Nearest(path[i..], prio) == Nearest(path, prio)
      decreases |path| - i
    {
      NearestNext(path, prio, i);
      ParentWalks(cats, c.name, i + 1);
      cat, i := cat.parent, i + 1;
    }
    NearestHere(path, prio, i);
    p := cat.priority;
  }

  lemma Drop0(path: seq<string>)
    ensures path[0..] == path
  {}

  lemma NearestNext(path: seq<string>, prio: map<string, int>, i: nat)
    requires (forall n | n in path :: n in prio) && i + 1 < |path| && prio[path[i]] == NOTSET
    ensures Nearest(path[i..], prio) == Nearest(path[i + 1..], prio)
  {
    assert path[i..][1..] == path[i + 1..];
  }

  lemma NearestHere(path: seq<string>, prio: map<string, int>, i: nat)
    requires (forall n | n in path :: n in prio) && i < |path| && (prio[path[i]] != NOTSET || i + 1 == |path|)
    ensures Nearest(path[i..], prio) == prio[path[i]]
  {}

  // log4c_category_set_priority.
  method SetPriority(c: Category, priority: int, ghost cats: Categories) returns (previous: int)
    requires Closed(cats) && c.name in cats && cats[c.name] == c
    modifies c`priority
    ensures previous == old(c.priority) && Priorities(cats) == old(Priorities(cats))[c.name := priority]
  {
    hide Path, DotDirname;
    previous := c.priority;
    c.priority := priority;
  }

  // The check at the start of __log4c_category_vlog for an appender anywhere on the path.
  method CountAppenders(c: Category, ghost cats: Categories) returns (yes: nat)
    requires Closed(cats) && c.name in cats && cats[c.name] == c
    ensures forall n | n in Path(c.name) :: n in Sinks(cats)
    ensures yes == 0 <==> forall j | 0 <= j < |Path(c.name)| :: Sinks(cats)[Path(c.name)[j]].appender == None
  {
    hide *;
    ghost var path, sinks := Path(c.name), Sinks(cats);
    Snapshots(cats);
    ParentWalks(cats, c.name, 0);
    var cat: Category? := c;
    ghost var i: nat := 0;
    yes := 0;
    while cat != null
      invariant i <= |path| && cat == Ancestor(cats, c.name, i) && (cat == null <==> i == |path|)
      invariant yes == 0 <==> forall j | 0 <= j < i :: sinks[path[j]].appender == None
      decreases |path| - i
    {
      ParentWalks(cats, c.name, i);
      if cat.appender != None { yes := yes + 1; }
      cat, i := cat.parent, i + 1;
    }
  }

  // The delivery of __log4c_category_vlog: the appenders given the event.
  method Vlog(c: Category?, ghost cats: Categories) returns (delivered: seq<string>)
    requires Closed(cats) && (c != null ==> c.name in cats && cats[c.name] == c)
    ensures c == null ==> delivered == []
    ensures c != null ==>
      && (forall n | n in Path(c.name) :: n in Sinks(cats))
      && delivered == Delivered(Path(c.name), Sinks(cats))
  {
    hide *;
    delivered := [];
    if c == null { return; }
    ghost var path, sinks := Path(c.name), Sinks(cats);
    Snapshots(cats);
    ParentWalks(cats, c.name, 0);
    var yes := CountAppenders(c, cats);
    if yes == 0 {
      NothingDelivered(path, sinks);
      return;
    }
    var cat: Category? := c;
    ghost var i: nat := 0;
    Drop0(path);
    while cat != null
      invariant i <= |path| && cat == Ancestor(cats, c.name, i) && (cat == null <==> i == |path|)
      invariant delivered + Delivered(path[i..], sinks) == Delivered(path, sinks)
      decreases |path| - i
    {
      ParentWalks(cats, c.name, i);
      DeliveredNext(path, sinks, i, delivered);
      if cat.appender.Some? { delivered := delivered + [cat.appender.value]; }
      if !cat.additive { return; }
      cat, i := cat.parent, i + 1;
    }
    DeliveredEnd(path, sinks, delivered);
  }

  lemma DeliveredNext(path: seq<string>, sinks: map<string, Sink>, i: nat, before: seq<string>)
    requires (forall n | n in path :: n in sinks) && i < |path|
    ensures var s := sinks[path[i]];
      var own := match s.appender case None => before case Some(a) => before + [a];
      before + Delivered(path[i..], sinks) == if s.additive then own + Delivered(path[i + 1..], sinks) else own
  {
    assert path[i..][1..] == path[i + 1..];
    assert before + (Own(sinks[path[i]]) + Delivered(path[i + 1..], sinks))
        == (before + Own(sinks[path[i]])) + Delivered(path[i + 1..], sinks);
  }

  lemma DeliveredEnd(path: seq<string>, sinks: map<string, Sink>, before: seq<string>)
    requires forall n | n in path :: n in sinks
    ensures before + Delivered(path[|path|..], sinks) == before
  {
    assert path[|path|..] == [];
  }
}
