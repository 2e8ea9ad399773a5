// The handlers of domnode-expat.c on the objects.  struct udata has the fields
// of the parser's maker, and a buffer for text that is not part of this model.
module ExpatReader {
  import opened Option
  import opened Dom
  import opened Expat
  import opened Sequences
  import opened XmlParser

  // sd_list_add(parent->children, child).
  method AddChild(udata: XmlMaker, child: DomNode, ghost m: Maker, ghost n: Node)
    requires udata.Mirrors(m) && m.elements != [] && child !in udata.nodes && n.children == [] && child.Is(n, udata.all)
    modifies udata`all, udata`nodes, udata.nodes
    ensures udata.nodes == old(udata.nodes) + {child} && udata.all == old(udata.all) + [child]
    ensures udata.Mirrors(Prepend(m, n))
  {
    var parent := udata.elements[|udata.elements| - 1];
    ghost var t, m' := m.Top(), Prepend(m, n);
    assert parent == udata.all[t];
    parent.children := [child] + parent.children;
    udata.all, udata.nodes := udata.all + [child], udata.nodes + {child};
    assert parent.Is(m'.nodes[t], udata.all);
    assert child.Is(n, udata.all);
    assert forall i | 0 <= i < |m.nodes| && i != t :: udata.all[i].Is(m.nodes[i], udata.all);
  }

  // start_handler.
  method StartHandler(udata: XmlMaker, name: string, atts: seq<(string, string)>, ghost m: Maker)
    requires udata.Mirrors(m)
    modifies udata, udata.nodes
    ensures fresh(udata.nodes - old(udata.nodes)) && udata.Mirrors(Start(m, name, atts))
  {
    var child := NewChild(name, atts);
    ghost var node := Node(name, None, Reverse(atts), []);
    if udata.elements == [] {
      udata.root := child;
      udata.all, udata.nodes := udata.all + [child], udata.nodes + {child};
    } else {
      AddChild(udata, child, m, node);
    }
    udata.elements := udata.elements + [child];
  }

  // The new element with its attributes, each added in front.
  method NewChild(name: string, atts: seq<(string, string)>) returns (child: DomNode)
    ensures fresh(child) && child.name == name && child.value == None && child.attrs == Reverse(atts)
        && child.children == []
  {
    child := new DomNode(name, None);
    for i := 0 to |atts|
      invariant child.name == name && child.value == None && child.children == [] && child.attrs == Reverse(atts[..i])
    {
      child.attrs := [atts[i]] + child.attrs;
    }
    assert atts[..|atts|] == atts;
  }

  // end_handler.
  method EndHandler(udata: XmlMaker, ghost m: Maker)
    requires udata.Mirrors(m)
    modifies udata`elements
    ensures udata.Mirrors(End(m))
  {
    if udata.elements != [] { udata.elements := udata.elements[..|udata.elements| - 1]; }
  }

  // The events of a whole document.
  method ReadEvents(udata: XmlMaker, events: seq<Event>)
    requires udata.Mirrors(NO_NODES) && udata.nodes == {}
    modifies udata
    ensures udata.Mirrors(HandleAll(NO_NODES, events))
  {
    hide *;
    ghost var m := NO_NODES;
    NothingIsValid();
    HandledBefore(events, 0, m);
    for i := 0 to |events|
      invariant udata.Mirrors(m) && m.Valid() && fresh(udata.nodes)
      invariant HandleAll(m, events[i..]) == HandleAll(NO_NODES, events)
    {
      HandledBefore(events, i, m);
      if events[i].StartElement? {
        StartHandler(udata, events[i].name, events[i].atts, m);
      } else {
        EndHandler(udata, m);
      }
      m := Handle(m, events[i]);
    }
    HandledBefore(events, |events|, m);
  }

  lemma NothingIsValid()
    ensures NO_NODES.Valid()
  {}

  lemma HandledBefore(events: seq<Event>, i: nat, m: Maker)
    requires i <= |events| && m.Valid()
    ensures events[0..] == events && NO_NODES.Valid()
    ensures i == |events| ==> HandleAll(m, events[i..]) == m
    ensures i < |events| ==> HandleAll(m, events[i..]) == HandleAll(Handle(m, events[i]), events[i + 1..])
    ensures i < |events| && events[i].StartElement? ==> Handle(m, events[i]) == Start(m, events[i].name, events[i].atts)
    ensures i < |events| && events[i].EndElement? ==> Handle(m, events[i]) == End(m)
  {
    if i < |events| { assert events[i..][1..] == events[i + 1..]; }
  }
}
