// Reading back what was written: printing, scanning and parsing return the tree.
module RoundTrip {
  import opened Option
  import opened Dom
  import opened Grammar
  import opened Scanner
  import opened Patterns

  predicate CleanValue(v: Option<string>) {
    match v case None => true case Some(s) => s != "" && All(Not({'<', '\n', '&'}), s) && !IsWs(s[0])
  }

  predicate CleanAttributes(attrs: seq<(string, string)>) {
    forall i | 0 <= i < |attrs| :: IsName(attrs[i].0) && All(Not({'"', '&'}), attrs[i].1)
  }

  // A tree the XML syntax of the library can carry.
  predicate Clean(t: Tree) {
    IsName(t.name) && CleanAttributes(t.attrs) && CleanValue(t.value) && AllClean(t.children)
  }

  predicate AllClean(ts: seq<Tree>) { ts == [] || (Clean(ts[0]) && AllClean(ts[1..])) }

  // The derivation its printed form has.
  function Syntax(t: Tree): Element {
    Element(t.name, AttributesOf(t.attrs),
            if t.value == None && t.children == [] then Short
            else Long(ValueItem(t.value) + ChildItems(t.children), t.name))
  }

  function AttributesOf(attrs: seq<(string, string)>): seq<Attribute> {
    if attrs == [] then [] else [Attribute(attrs[0].0, Some(attrs[0].1))] + AttributesOf(attrs[1..])
  }

  function ValueItem(v: Option<string>): seq<Item> { match v case None => [] case Some(s) => [DataItem(s)] }

  function ChildItems(ts: seq<Tree>): seq<Item> {
    if ts == [] then [] else [ElementItem(Syntax(ts[0]))] + ChildItems(ts[1..])
  }

  // That derivation denotes the tree, and its tags match.
  lemma {:induction false} SyntaxDenotes(t: Tree)
    ensures ElementTree(Syntax(t)) == t && Matched(Syntax(t))
    decreases t
  {
    AttributesDenote(t.attrs);
    if !(t.value == None && t.children == []) {
      ChildrenDenote(t.children, t.value);
      ValueFirst(t.value, ChildItems(t.children));
    }
  }

  lemma ValueFirst(v: Option<string>, items: seq<Item>)
    ensures ItemTrees(ValueItem(v) + items) == ItemTrees(items)
    ensures LastData(ValueItem(v) + items, None) == LastData(items, v)
    ensures AllMatched(ValueItem(v) + items) <==> AllMatched(items)
    ensures ItemsNeed(ValueItem(v) + items) == Max(if v == None then 0 else 1, ItemsNeed(items))
  {
    match v
    case None => assert ValueItem(v) + items == items;
    case Some(s) =>
      assert (ValueItem(v) + items)[1..] == items && (ValueItem(v) + items)[0] == DataItem(s);
  }

  lemma {:induction false} ChildrenDenote(ts: seq<Tree>, v: Option<string>)
    ensures ItemTrees(ChildItems(ts)) == ts && AllMatched(ChildItems(ts)) && LastData(ChildItems(ts), v) == v
    decreases ts
  {
    if ts != [] {
      SyntaxDenotes(ts[0]);
      ChildrenDenote(ts[1..], v);
      assert ChildItems(ts)[1..] == ChildItems(ts[1..]);
    }
  }

  lemma {:induction false} AttributesDenote(attrs: seq<(string, string)>)
    ensures AttributePairs(AttributesOf(attrs)) == attrs
  {
    if attrs != [] {
      AttributesDenote(attrs[1..]);
      assert AttributesOf(attrs)[1..] == AttributesOf(attrs[1..]);
    }
  }

  // How many states the parser needs for a tree.
  function StackNeed(t: Tree): nat {
    Max(if t.attrs == [] then 0 else 6,
        if t.value == None && t.children == [] then 5 else Max(8, 5 + StackNeeds(t.children)))
  }

  function StackNeeds(ts: seq<Tree>): nat { if ts == [] then 0 else Max(StackNeed(ts[0]), StackNeeds(ts[1..])) }

  lemma {:induction false} SyntaxNeeds(t: Tree)
    ensures Need(Syntax(t)) == StackNeed(t)
    decreases t
  {
    AttributesNeedSix(t.attrs);
    if !(t.value == None && t.children == []) {
      ChildrenNeed(t.children);
      ValueFirst(t.value, ChildItems(t.children));
    }
  }

  lemma {:induction false} ChildrenNeed(ts: seq<Tree>)
    ensures ItemsNeed(ChildItems(ts)) == StackNeeds(ts)
    decreases ts
  {
    if ts != [] {
      SyntaxNeeds(ts[0]);
      ChildrenNeed(ts[1..]);
      assert ChildItems(ts)[1..] == ChildItems(ts[1..]);
    }
  }

  lemma {:induction false} AttributesNeedSix(attrs: seq<(string, string)>)
    ensures AttributesNeed(AttributesOf(attrs)) == if attrs == [] then 0 else 6
  {
    if attrs != [] {
      AttributesNeedSix(attrs[1..]);
      assert AttributesOf(attrs)[1..] == AttributesOf(attrs[1..]);
    }
  }
}
