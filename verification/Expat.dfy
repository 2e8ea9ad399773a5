// The handlers of domnode-expat.c: the same trees, built by prepending.
module Expat {
  import opened Option
  import opened Dom
  import opened Grammar
  import opened Build
  import opened Sequences

  // A tree with attributes and children in reverse order at every level.
  function Mirror(t: Tree): Tree { Tree(t.name, t.value, Reverse(t.attrs), Reverse(Mirrors(t.children))) }

  function Mirrors(ts: seq<Tree>): (ms: seq<Tree>)
    ensures |ms| == |ts| && forall i | 0 <= i < |ts| :: ms[i] == Mirror(ts[i])
  {
    if ts == [] then [] else [Mirror(ts[0])] + Mirrors(ts[1..])
  }

  lemma {:induction false} MirrorTwice(t: Tree)
    ensures Mirror(Mirror(t)) == t
    decreases t
  {
    var ms := Mirrors(t.children);
    ReverseTwice(t.attrs);
    ReverseIs(ms);
    ReverseIs(Mirrors(Reverse(ms)));
    hide Reverse, Mirrors;
    forall i | 0 <= i < |t.children| ensures Reverse(Mirrors(Reverse(ms)))[i] == t.children[i] {
      MirrorTwice(t.children[i]);
    }
    assert Reverse(Mirrors(Reverse(ms))) == t.children;
  }

  // What expat reports of an element, text and comments apart.
  datatype Event = StartElement(name: string, atts: seq<(string, string)>) | EndElement(name: string)

  function Events(e: Element): seq<Event> {
    [StartElement(e.name, AttributePairs(e.attrs))]
    + (match e.body case Short => [] case Long(items, _) => ItemsEvents(items))
    + [EndElement(e.name)]
  }

  function ItemsEvents(items: seq<Item>): seq<Event> {
    if items == [] then [] else ItemEvents(items[0]) + ItemsEvents(items[1..])
  }

  function ItemEvents(i: Item): seq<Event> {
    match i
    case ElementItem(e) => Events(e)
    case _ => []
  }

  // sd_list_add on the children of the element on top of the stack.
  function Prepend(m: Maker, node: Node): (m': Maker)
    requires m.Valid() && m.elements != []
    ensures m'.Valid()
  {
    var t := m.Top();
    m.(nodes := m.nodes[t := m.nodes[t].(children := [|m.nodes|] + m.nodes[t].children)] + [node])
  }

  function Start(m: Maker, name: string, atts: seq<(string, string)>): (m': Maker)
    requires m.Valid()
    ensures m'.Valid()
  {
    var node := Node(name, None, Reverse(atts), []);
    var m1 := if m.elements == [] then m.(nodes := m.nodes + [node], root := Some(|m.nodes|)) else Prepend(m, node);
    m1.(elements := m1.elements + [|m.nodes|])
  }

  // sd_stack_pop does nothing to an empty stack.
  function End(m: Maker): (m': Maker)
    requires m.Valid()
    ensures m'.Valid()
  {
    if m.elements == [] then m else m.OnEnd()
  }

  function Handle(m: Maker, e: Event): (m': Maker)
    requires m.Valid()
    ensures m'.Valid()
  {
    match e
    case StartElement(name, atts) => Start(m, name, atts)
    case EndElement(_) => End(m)
  }

  function HandleAll(m: Maker, es: seq<Event>): (m': Maker)
    requires m.Valid()
    ensures m'.Valid()
    decreases |es|
  {
    if es == [] then m else HandleAll(Handle(m, es[0]), es[1..])
  }

  lemma {:induction false} HandleJoins(m: Maker, a: seq<Event>, b: seq<Event>)
    requires m.Valid()
    ensures HandleAll(m, a + b) == HandleAll(HandleAll(m, a), b)
    decreases |a|
  {
    if a == [] {
      assert a + b == b;
    } else {
      HandleJoins(Handle(m, a[0]), a[1..], b);
      assert (a + b)[1..] == a[1..] + b;
    }
  }

  // m' is m after some content of its open element: of the old nodes only that
  // one changed, and the new ones hang from it through `added`, put in front.
  ghost predicate Fronted(m: Maker, m': Maker, added: seq<nat>)
    requires m.Valid() && m.elements != []
  {
    var (n, n', t) := (|m.nodes|, |m'.nodes|, m.Top());
    && Extends(m, m') && m'.root == m.root
    && (forall j | 0 <= j < n && j != t :: m'.nodes[j] == m.nodes[j])
    && m'.nodes[t] == m.nodes[t].(children := added + m.nodes[t].children)
    && (forall k | 0 <= k < |added| :: n <= added[k] < n')
    && Closed(m'.nodes, n, n')
  }

  // An element without text and comments, at any depth.
  predicate Plain(e: Element) { match e.body case Short => true case Long(items, _) => AllPlain(items) }

  predicate AllPlain(items: seq<Item>) {
    items == [] || (PlainItem(items[0]) && AllPlain(items[1..]))
  }

  predicate PlainItem(i: Item) { match i case ElementItem(e) => Plain(e) case _ => false }

  lemma {:induction false} MirrorsJoin(a: seq<Tree>, b: seq<Tree>)
    ensures Mirrors(a + b) == Mirrors(a) + Mirrors(b)
  {
    assert forall i | 0 <= i < |a + b| :: Mirrors(a + b)[i] == Mirror((a + b)[i]);
  }

  // The handlers run over an element hang the mirror of its tree below the open element.
  lemma {:induction false} ElementMirrored(m: Maker, e: Element)
    requires m.Valid() && Plain(e)
    ensures var (m', b) := (HandleAll(m, Events(e)), |m.nodes|);
      && b < |m'.nodes| && Closed(m'.nodes, b, |m'.nodes|) && m'.elements == m.elements
      && TreeAt(m'.nodes, b, |m'.nodes|) == Mirror(ElementTree(e))
      && if m.elements == [] then m'.root == Some(b) && m'.nodes[..b] == m.nodes else Fronted(m, m', [b])
    decreases e
  {
    hide TreeAt, TreesAt, AttributePairs, ItemTrees, Mirror, Mirrors, Reverse, Events, HandleAll, Fronted, Start;
    var inner := match e.body case Short => [] case Long(items, _) => ItemsEvents(items);
    var atts := AttributePairs(e.attrs);
    Started(m, e.name, atts);
    EventsSplit(m, e, inner);
    var added := BodyMirrored(Start(m, e.name, atts), e.body);
    MirrorOfElement(e);
    ElementCloses(m, e.name, atts, HandleAll(Start(m, e.name, atts), inner), added);
  }

  lemma Started(m: Maker, name: string, atts: seq<(string, string)>)
    requires m.Valid()
    ensures var (m2, b) := (Start(m, name, atts), |m.nodes|);
      && m2.elements == m.elements + [b] && m2.Top() == b && |m2.nodes| == b + 1
      && m2.nodes[b] == Node(name, None, Reverse(atts), [])
      && if m.elements == [] then m2.root == Some(b) && m2.nodes[..b] == m.nodes else m2.root == m.root
  {
    hide Reverse;
  }

  // The end tag of an element whose content hangs from it through `added`.
  lemma ElementCloses(m: Maker, name: string, atts: seq<(string, string)>, m3: Maker, added: seq<nat>)
    requires m.Valid() && m3.Valid()
    requires Start(m, name, atts).elements != [] && Fronted(Start(m, name, atts), m3, added)
    ensures var (m', b) := (End(m3), |m.nodes|);
      && b < |m'.nodes| && Closed(m'.nodes, b, |m'.nodes|) && m'.elements == m.elements
      && TreeAt(m'.nodes, b, |m'.nodes|)
           == Tree(name, None, Reverse(atts), TreesAt(m'.nodes, added, b + 1, |m'.nodes|))
      && if m.elements == [] then m'.root == Some(b) && m'.nodes[..b] == m.nodes else Fronted(m, m', [b])
  {
    var m2 := Start(m, name, atts);
    Started(m, name, atts);
    hide TreeAt, TreesAt, Reverse, Start;
    assert m3.elements == m2.elements && m3.root == m2.root && |m2.nodes| <= |m3.nodes|;
    NodeMirrored(|m.nodes|, m2, m3, added);
    hide Fronted, Closed;
    if m.elements == [] {
      assert m3.nodes[..|m.nodes|] == m.nodes;
    } else {
      StartedElementFronted(m, name, atts, m3);
    }
  }

  lemma EventsSplit(m: Maker, e: Element, inner: seq<Event>)
    requires m.Valid() && inner == match e.body case Short => [] case Long(items, _) => ItemsEvents(items)
    ensures var m3 := HandleAll(Start(m, e.name, AttributePairs(e.attrs)), inner);
      HandleAll(m, Events(e)) == End(m3)
  {
    hide Start, End, AttributePairs, ItemsEvents;
    var s, x := StartElement(e.name, AttributePairs(e.attrs)), EndElement(e.name);
    assert Events(e) == [s] + (inner + [x]);
    assert ([s] + (inner + [x]))[1..] == inner + [x];
    HandleJoins(Handle(m, s), inner, [x]);
    var m3 := HandleAll(Handle(m, s), inner);
    assert [x][1..] == [];
    assert HandleAll(m3, [x]) == HandleAll(Handle(m3, x), []) == End(m3);
  }

  lemma MirrorOfElement(e: Element)
    requires Plain(e)
    ensures ElementTree(e).value == None
    ensures Mirror(ElementTree(e)) ==
      Tree(e.name, None, Reverse(AttributePairs(e.attrs)),
           match e.body case Short => [] case Long(items, _) => Reverse(Mirrors(ItemTrees(items))))
  {
    match e.body
    case Short => assert Reverse(Mirrors([])) == [];
    case Long(items, _) => NoData(items);
  }

  lemma {:induction false} NoData(items: seq<Item>)
    requires AllPlain(items)
    ensures LastData(items, None) == None
  {
    if items != [] { NoData(items[1..]); }
  }

  lemma NodeMirrored(b: nat, m2: Maker, m3: Maker, added: seq<nat>)
    requires m2.Valid() && m2.elements != [] && m2.Top() == b && |m2.nodes| == b + 1
    requires m2.nodes[b].children == [] && Fronted(m2, m3, added)
    ensures Closed(m3.nodes, b, |m3.nodes|)
    ensures TreeAt(m3.nodes, b, |m3.nodes|)
         == Tree(m2.nodes[b].name, m2.nodes[b].value, m2.nodes[b].attrs, TreesAt(m3.nodes, added, b + 1, |m3.nodes|))
    ensures forall j | 0 <= j < b :: m3.nodes[j] == m2.nodes[j]
  {
    assert m3.nodes[b].children == added;
  }

  lemma StartedElementFronted(m: Maker, name: string, atts: seq<(string, string)>, m3: Maker)
    requires m.Valid() && m.elements != [] && m3.Valid()
    requires m3.elements == Start(m, name, atts).elements && m3.root == m.root
    requires |m.nodes| < |m3.nodes| && Closed(m3.nodes, |m.nodes|, |m3.nodes|)
    requires forall j | 0 <= j < |m.nodes| :: m3.nodes[j] == Start(m, name, atts).nodes[j]
    ensures Fronted(m, m3.OnEnd(), [|m.nodes|])
  {
    assert m3.OnEnd().elements == m.elements;
  }

  lemma BodyMirrored(m: Maker, body: Body) returns (added: seq<nat>)
    requires m.Valid() && m.elements != [] && (body.Long? ==> AllPlain(body.items))
    ensures var m' := HandleAll(m, match body case Short => [] case Long(items, _) => ItemsEvents(items));
      && Fronted(m, m', added)
      && TreesAt(m'.nodes, added, |m.nodes|, |m'.nodes|)
           == match body case Short => [] case Long(items, _) => Reverse(Mirrors(ItemTrees(items)))
    decreases body
  {
    match body
    case Short =>
      added := [];
      assert [] + m.nodes[m.Top()].children == m.nodes[m.Top()].children;
    case Long(items, _) => added := ItemsMirrored(m, items);
  }

  lemma {:induction false} ItemsMirrored(m: Maker, items: seq<Item>) returns (added: seq<nat>)
    requires m.Valid() && m.elements != [] && AllPlain(items)
    ensures var m' := HandleAll(m, ItemsEvents(items));
      && Fronted(m, m', added)
      && TreesAt(m'.nodes, added, |m.nodes|, |m'.nodes|) == Reverse(Mirrors(ItemTrees(items)))
    decreases items
  {
    if items == [] {
      added := [];
      assert [] + m.nodes[m.Top()].children == m.nodes[m.Top()].children;
      assert Reverse(Mirrors([])) == [];
    } else {
      ItemMirrored(m, items[0]);
      ItemsSplit(m, items);
      hide HandleAll, ItemsEvents, ItemEvents, TreeAt, TreesAt, ItemTrees, Mirror, Mirrors, Reverse;
      var m1 := HandleAll(m, ItemEvents(items[0]));
      assert Extends(m, m1);
      var others := ItemsMirrored(m1, items[1..]);
      added := others + [|m.nodes|];
      FrontsJoin(m, m1, HandleAll(m, ItemsEvents(items)), others, ElementTree(items[0].e), ItemTrees(items[1..]));
    }
  }

  lemma ItemsSplit(m: Maker, items: seq<Item>)
    requires m.Valid() && items != [] && items[0].ElementItem?
    ensures HandleAll(m, ItemsEvents(items)) == HandleAll(HandleAll(m, ItemEvents(items[0])), ItemsEvents(items[1..]))
    ensures ItemTrees(items) == [ElementTree(items[0].e)] + ItemTrees(items[1..])
  {
    hide HandleAll;
    HandleJoins(m, ItemEvents(items[0]), ItemsEvents(items[1..]));
  }

  lemma ItemMirrored(m: Maker, i: Item)
    requires m.Valid() && m.elements != [] && PlainItem(i)
    ensures var m' := HandleAll(m, ItemEvents(i));
      && Fronted(m, m', [|m.nodes|]) && |m.nodes| < |m'.nodes|
      && TreeAt(m'.nodes, |m.nodes|, |m'.nodes|) == Mirror(ElementTree(i.e))
    decreases i
  {
    ElementMirrored(m, i.e);
  }

  lemma FrontsJoin(m: Maker, m1: Maker, m2: Maker, others: seq<nat>, first: Tree, rest: seq<Tree>)
    requires m.Valid() && m.elements != [] && m1.Valid() && m1.elements == m.elements
    requires Fronted(m, m1, [|m.nodes|]) && |m.nodes| < |m1.nodes| && Fronted(m1, m2, others)
    requires TreeAt(m1.nodes, |m.nodes|, |m1.nodes|) == Mirror(first)
    requires TreesAt(m2.nodes, others, |m1.nodes|, |m2.nodes|) == Reverse(Mirrors(rest))
    ensures Fronted(m, m2, others + [|m.nodes|])
    ensures TreesAt(m2.nodes, others + [|m.nodes|], |m.nodes|, |m2.nodes|) == Reverse(Mirrors([first] + rest))
  {
    hide TreeAt, TreesAt, Mirror, Mirrors;
    var n, n1, n2, t := |m.nodes|, |m1.nodes|, |m2.nodes|, m.Top();
    assert (others + [n]) + m.nodes[t].children == others + ([n] + m.nodes[t].children);
    assert m1.nodes[n..n1] == m2.nodes[n..n1];
    TreesAtConcat(m2.nodes, others, [n], n, n2);
    TreeAtDependsOn(m1.nodes, m2.nodes, n, n1, n2);
    TreesAtOne(m2.nodes, n, n, n2);
    TreesAtFrom(m2.nodes, others, n, n1, n2);
    MirrorsJoin([first], rest);
    OneMirror(first);
    ReverseJoins([Mirror(first)], Mirrors(rest));
    assert Reverse([Mirror(first)]) == [Mirror(first)];
  }

  lemma OneMirror(t: Tree)
    ensures Mirrors([t]) == [Mirror(t)]
  {}

  // For every plain document the handlers build the mirror of what the grammar
  // actions build, and both leave the element stack empty.
  lemma HandlersMirrorActions(e: Element)
    requires Plain(e)
    ensures var (x, y) := (HandleAll(NO_NODES, Events(e)), WithElement(NO_NODES, e));
      && x.root == y.root == Some(0) && x.elements == y.elements == []
      && |x.nodes| > 0 && |y.nodes| > 0 && Closed(x.nodes, 0, |x.nodes|) && Closed(y.nodes, 0, |y.nodes|)
      && TreeAt(x.nodes, 0, |x.nodes|) == Mirror(TreeAt(y.nodes, 0, |y.nodes|))
  {
    hide HandleAll, WithElement, TreeAt, Mirror, Events;
    ElementMirrored(NO_NODES, e);
    ElementBuilds(NO_NODES, e);
  }
}
