// The semantic actions run over a whole element, and the tree they leave behind.
module Build {
  import opened Option
  import opened Dom
  import opened Grammar

  // m' extends m, and differs from it on the old nodes only below the open element.
  ghost predicate Extends(m: Maker, m': Maker) {
    && m'.Valid() && m'.elements == m.elements && |m.nodes| <= |m'.nodes|
    && forall j | 0 <= j < |m.nodes| :: m'.nodes[j].name == m.nodes[j].name
  }

  function WithAttributes(m: Maker, attrs: seq<Attribute>): (m': Maker)
    requires m.Valid() && m.elements != []
    ensures Extends(m, m')
    decreases attrs
  {
    if attrs == [] then m
    else
      var value := match attrs[0].value case None => "" case Some(v) => v;
      WithAttributes(m.OnAttribute(attrs[0].name, value), attrs[1..])
  }

  function WithElement(m: Maker, e: Element): (m': Maker)
    requires m.Valid()
    ensures Extends(m, m')
    decreases e
  {
    WithBody(WithAttributes(m.OnStart(e.name), e.attrs), e.body).OnEnd()
  }

  function WithBody(m: Maker, b: Body): (m': Maker)
    requires m.Valid() && m.elements != []
    ensures Extends(m, m')
    decreases b
  {
    match b
    case Short => m
    case Long(items, _) => WithItems(m, items)
  }

  function WithItems(m: Maker, items: seq<Item>): (m': Maker)
    requires m.Valid() && m.elements != []
    ensures Extends(m, m')
    decreases items
  {
    if items == [] then m else WithItems(WithItem(m, items[0]), items[1..])
  }

  function WithItem(m: Maker, i: Item): (m': Maker)
    requires m.Valid() && m.elements != []
    ensures Extends(m, m')
    decreases i
  {
    match i
    case DataItem(s) => m.OnData(s)
    case CommentItem(s) => m.OnComment(s)
    case ElementItem(e) => WithElement(m, e)
  }

  // Children come after their parent in the table, up to hi.
  ghost predicate Closed(nodes: seq<Node>, lo: nat, hi: nat) {
    hi <= |nodes| && forall i, c | lo <= i < hi && 0 <= c < |nodes[i].children| :: i < nodes[i].children[c] < hi
  }

  // The tree that hangs from node i.
  ghost function TreeAt(nodes: seq<Node>, i: nat, hi: nat): Tree
    requires i < hi && Closed(nodes, i, hi)
    decreases hi - i, 0
  {
    Tree(nodes[i].name, nodes[i].value, nodes[i].attrs, TreesAt(nodes, nodes[i].children, i + 1, hi))
  }

  ghost function TreesAt(nodes: seq<Node>, cs: seq<nat>, lo: nat, hi: nat): seq<Tree>
    requires lo <= hi && Closed(nodes, lo, hi) && forall k | 0 <= k < |cs| :: lo <= cs[k] < hi
    decreases hi - lo, 1, |cs|
  {
    if cs == [] then [] else [TreeAt(nodes, cs[0], hi)] + TreesAt(nodes, cs[1..], lo, hi)
  }

  // Nodes below i, and beyond hi, do not matter.
  lemma {:induction false} TreeAtDependsOn(nodes: seq<Node>, nodes': seq<Node>, i: nat, hi: nat, hi': nat)
    requires i < hi <= hi' && Closed(nodes, i, hi) && Closed(nodes', i, hi')
    requires nodes[i..hi] == nodes'[i..hi]
    ensures TreeAt(nodes, i, hi) == TreeAt(nodes', i, hi')
    decreases hi - i, 0
  {
    assert nodes[i] == nodes[i..hi][0] == nodes'[i];
    assert nodes[i + 1..hi] == nodes[i..hi][1..];
    TreesAtDependsOn(nodes, nodes', nodes[i].children, i + 1, hi, hi');
  }

  lemma {:induction false} TreesAtDependsOn(nodes: seq<Node>, nodes': seq<Node>, cs: seq<nat>, lo: nat, hi: nat,
      hi': nat)
    requires lo <= hi <= hi' && Closed(nodes, lo, hi) && Closed(nodes', lo, hi')
    requires nodes[lo..hi] == nodes'[lo..hi] && forall k | 0 <= k < |cs| :: lo <= cs[k] < hi
    ensures TreesAt(nodes, cs, lo, hi) == TreesAt(nodes', cs, lo, hi')
    decreases hi - lo, 1, |cs|
  {
    if cs != [] {
      assert nodes[cs[0]..hi] == nodes[lo..hi][cs[0] - lo..];
      TreeAtDependsOn(nodes, nodes', cs[0], hi, hi');
      TreesAtDependsOn(nodes, nodes', cs[1..], lo, hi, hi');
    }
  }

  lemma {:induction false} TreesAtConcat(nodes: seq<Node>, a: seq<nat>, b: seq<nat>, lo: nat, hi: nat)
    requires lo <= hi && Closed(nodes, lo, hi)
    requires forall k | 0 <= k < |a| :: lo <= a[k] < hi
    requires forall k | 0 <= k < |b| :: lo <= b[k] < hi
    ensures TreesAt(nodes, a + b, lo, hi) == TreesAt(nodes, a, lo, hi) + TreesAt(nodes, b, lo, hi)
  {
    if a == [] {
      assert a + b == b;
    } else {
      TreesAtConcat(nodes, a[1..], b, lo, hi);
      assert (a + b)[1..] == a[1..] + b;
    }
  }

  lemma {:induction false} TreesAtFrom(nodes: seq<Node>, cs: seq<nat>, lo: nat, lo': nat, hi: nat)
    requires lo <= lo' <= hi && Closed(nodes, lo, hi) && forall k | 0 <= k < |cs| :: lo' <= cs[k] < hi
    ensures TreesAt(nodes, cs, lo, hi) == TreesAt(nodes, cs, lo', hi)
  {
    if cs != [] { TreesAtFrom(nodes, cs[1..], lo, lo', hi); }
  }

  // m' is m after some content of its open element: of the old nodes only that
  // one changed, and the new ones hang from it through `added`.
  ghost predicate Grown(m: Maker, m': Maker, added: seq<nat>)
    requires m.Valid() && m.elements != []
  {
    var (n, n', t) := (|m.nodes|, |m'.nodes|, m.Top());
    && Extends(m, m') && m'.root == m.root
    && (forall j | 0 <= j < n && j != t :: m'.nodes[j] == m.nodes[j])
    && m'.nodes[t] == m.nodes[t].(value := m'.nodes[t].value, children := m.nodes[t].children + added)
    && (forall k | 0 <= k < |added| :: n <= added[k] < n')
    && Closed(m'.nodes, n, n')
  }

  lemma {:induction false} AttributesBuild(m: Maker, attrs: seq<Attribute>)
    requires m.Valid() && m.elements != []
    ensures var t := m.Top();
      WithAttributes(m, attrs)
        == m.(nodes := m.nodes[t := m.nodes[t].(attrs := m.nodes[t].attrs + AttributePairs(attrs))])
    decreases attrs
  {
    var t := m.Top();
    if attrs == [] {
      assert m.nodes[t].attrs + AttributePairs(attrs) == m.nodes[t].attrs;
    } else {
      var a := attrs[0];
      var v := match a.value case None => "" case Some(v) => v;
      AttributesBuild(m.OnAttribute(a.name, v), attrs[1..]);
      assert m.nodes[t].attrs + [(a.name, v)] + AttributePairs(attrs[1..]) == m.nodes[t].attrs + AttributePairs(attrs);
    }
  }

  lemma TreesAtOne(nodes: seq<Node>, b: nat, lo: nat, hi: nat)
    requires lo <= b < hi && Closed(nodes, lo, hi)
    ensures TreesAt(nodes, [b], lo, hi) == [TreeAt(nodes, b, hi)]
  {
    assert TreesAt(nodes, [b][1..], lo, hi) == [];
  }

  // The start tag and the attributes put a new childless node on top of the stack.
  lemma StartBuilds(m: Maker, e: Element)
    requires m.Valid()
    ensures var m2 := WithAttributes(m.OnStart(e.name), e.attrs);
      && m2.nodes == m.OnStart(e.name).nodes[..|m.nodes|] + [Node(e.name, None, AttributePairs(e.attrs), [])]
      && m2.elements == m.elements + [|m.nodes|]
      && m2.root == m.OnStart(e.name).root
  {
    var m1 := m.OnStart(e.name);
    AttributesBuild(m1, e.attrs);
    assert [] + AttributePairs(e.attrs) == AttributePairs(e.attrs);
  }

  // The actions run over an element build its tree, below the element open before.
  lemma {:induction false} ElementBuilds(m: Maker, e: Element)
    requires m.Valid()
    ensures var (m', b) := (WithElement(m, e), |m.nodes|);
      && b < |m'.nodes| && Closed(m'.nodes, b, |m'.nodes|)
      && TreeAt(m'.nodes, b, |m'.nodes|) == ElementTree(e)
      && if m.elements == [] then m'.root == Some(b) && m'.nodes[..b] == m.nodes
         else Grown(m, m', [b]) && m'.nodes[m.Top()].value == m.nodes[m.Top()].value
    decreases e
  {
    hide WithAttributes, WithBody, TreeAt, TreesAt, AttributePairs, LastData, ItemTrees;
    StartBuilds(m, e);
    var m1 := m.OnStart(e.name);
    var m2 := WithAttributes(m1, e.attrs);
    var added := BodyBuilds(m2, e.body);
    var m3 := WithBody(m2, e.body);
    NodeBuilt(|m.nodes|, m2, m3, added);
    if m.elements == [] {
      assert m3.nodes[..|m.nodes|] == m1.nodes[..|m.nodes|] == m.nodes;
    } else {
      StartedElementGrows(m, e.name, m3);
    }
  }

  lemma NodeBuilt(b: nat, m2: Maker, m3: Maker, added: seq<nat>)
    requires m2.Valid() && m2.elements != [] && m2.Top() == b && |m2.nodes| == b + 1
    requires m2.nodes[b].children == [] && Grown(m2, m3, added)
    ensures Closed(m3.nodes, b, |m3.nodes|)
    ensures TreeAt(m3.nodes, b, |m3.nodes|)
         == Tree(m2.nodes[b].name, m3.nodes[b].value, m2.nodes[b].attrs, TreesAt(m3.nodes, added, b + 1, |m3.nodes|))
    ensures forall j | 0 <= j < b :: m3.nodes[j] == m2.nodes[j]
  {
    assert m3.nodes[b].children == added;
  }

  lemma StartedElementGrows(m: Maker, name: string, m3: Maker)
    requires m.Valid() && m.elements != [] && m3.Valid()
    requires m3.elements == m.OnStart(name).elements && m3.root == m.root
    requires |m.nodes| < |m3.nodes| && Closed(m3.nodes, |m.nodes|, |m3.nodes|)
    requires forall j | 0 <= j < |m.nodes| :: m3.nodes[j] == m.OnStart(name).nodes[j]
    ensures Grown(m, m3.OnEnd(), [|m.nodes|])
    ensures m3.OnEnd().nodes[m.Top()].value == m.nodes[m.Top()].value
  {
    assert m3.OnEnd().elements == m.elements;
  }

  lemma BodyBuilds(m: Maker, body: Body) returns (added: seq<nat>)
    requires m.Valid() && m.elements != [] && m.Top() == |m.nodes| - 1 && m.nodes[m.Top()].value == None
    ensures var m' := WithBody(m, body);
      && Grown(m, m', added)
      && m'.nodes[m.Top()].value == (match body case Short => None case Long(items, _) => LastData(items, None))
      && TreesAt(m'.nodes, added, |m.nodes|, |m'.nodes|)
           == match body case Short => [] case Long(items, _) => ItemTrees(items)
    decreases body
  {
    match body
    case Short =>
      added := [];
      assert m.nodes[m.Top()].children + [] == m.nodes[m.Top()].children;
    case Long(items, _) => added := ItemsBuild(m, items);
  }

  lemma {:induction false} ItemsBuild(m: Maker, items: seq<Item>) returns (added: seq<nat>)
    requires m.Valid() && m.elements != []
    ensures var m' := WithItems(m, items);
      && Grown(m, m', added)
      && m'.nodes[m.Top()].value == LastData(items, m.nodes[m.Top()].value)
      && TreesAt(m'.nodes, added, |m.nodes|, |m'.nodes|) == ItemTrees(items)
    decreases items
  {
    added := [];
    if items == [] {
      assert m.nodes[m.Top()].children + [] == m.nodes[m.Top()].children;
    } else {
      var first := ItemBuilds(m, items[0]);
      var m1 := WithItem(m, items[0]);
      var others := ItemsBuild(m1, items[1..]);
      added := first + others;
      ContentsJoin(m, m1, WithItems(m, items), first, others);
    }
  }

  lemma ItemBuilds(m: Maker, i: Item) returns (added: seq<nat>)
    requires m.Valid() && m.elements != []
    ensures var m' := WithItem(m, i);
      && Grown(m, m', added)
      && m'.nodes[m.Top()].value == LastData([i], m.nodes[m.Top()].value)
      && TreesAt(m'.nodes, added, |m.nodes|, |m'.nodes|) == ItemTree(i)
    decreases i
  {
    match i
    case DataItem(_) =>
      added := [];
      assert m.nodes[m.Top()].children + [] == m.nodes[m.Top()].children;
    case CommentItem(_) =>
      added := [|m.nodes|];
      TreesAtOne(WithItem(m, i).nodes, |m.nodes|, |m.nodes|, |m.nodes| + 1);
    case ElementItem(e) =>
      added := [|m.nodes|];
      ElementBuilds(m, e);
      TreesAtOne(WithItem(m, i).nodes, |m.nodes|, |m.nodes|, |WithItem(m, i).nodes|);
  }

  lemma ContentsJoin(m: Maker, m1: Maker, m2: Maker, a: seq<nat>, b: seq<nat>)
    requires m.Valid() && m.elements != [] && m1.Valid() && m1.elements == m.elements
    requires Grown(m, m1, a) && Grown(m1, m2, b)
    ensures Grown(m, m2, a + b)
    ensures TreesAt(m2.nodes, a + b, |m.nodes|, |m2.nodes|)
         == TreesAt(m1.nodes, a, |m.nodes|, |m1.nodes|) + TreesAt(m2.nodes, b, |m1.nodes|, |m2.nodes|)
  {
    hide TreeAt, TreesAt;
    var n, n1, n2, t := |m.nodes|, |m1.nodes|, |m2.nodes|, m.Top();
    assert m.nodes[t].children + (a + b) == (m.nodes[t].children + a) + b;
    assert m1.nodes[n..n1] == m2.nodes[n..n1];
    TreesAtConcat(m2.nodes, a, b, n, n2);
    TreesAtDependsOn(m1.nodes, m2.nodes, a, n, n1, n2);
    TreesAtFrom(m2.nodes, b, n, n1, n2);
  }
}
