// The element tree and the maker that builds it (domnode.c, and the actions of
// domnode-xml-parser.y).  Nodes live in a table and refer to each other by
// index, as the nodes of the source refer to each other by pointer.
module Dom {
  import opened Option

  datatype Tree = Tree(name: string, value: Option<string>, attrs: seq<(string, string)>, children: seq<Tree>)

  datatype Node = Node(name: string, value: Option<string>, attrs: seq<(string, string)>, children: seq<nat>)

  datatype Maker = Maker(nodes: seq<Node>, elements: seq<nat>, root: Option<nat>) {
    predicate Valid() { forall i | 0 <= i < |elements| :: elements[i] < |nodes| }

    function Top(): nat
      requires elements != []
    {
      elements[|elements| - 1]
    }

    // sd_list_append on the children of the element on top of the stack.
    function Adopt(node: Node): (m: Maker)
      requires Valid() && elements != []
      ensures m.Valid()
    {
      var t := Top();
      this.(nodes := nodes[t := nodes[t].(children := nodes[t].children + [|nodes|])] + [node])
    }

    function OnStart(name: string): (m: Maker)
      requires Valid()
      ensures m.Valid()
    {
      var node := Node(name, None, [], []);
      var m := if elements == [] then this.(nodes := nodes + [node], root := Some(|nodes|)) else Adopt(node);
      m.(elements := elements + [|nodes|])
    }

    function OnAttribute(name: string, value: string): (m: Maker)
      requires Valid() && elements != []
      ensures m.Valid()
    {
      var t := Top();
      this.(nodes := nodes[t := nodes[t].(attrs := nodes[t].attrs + [(name, value)])])
    }

    function OnData(value: string): (m: Maker)
      requires Valid() && elements != []
      ensures m.Valid()
    {
      this.(nodes := nodes[Top() := nodes[Top()].(value := Some(value))])
    }

    function OnComment(text: string): (m: Maker)
      requires Valid()
      ensures m.Valid()
    {
      if elements == [] then this else Adopt(Node("#comment", Some(text), [], []))
    }

    function OnEnd(): (m: Maker)
      requires Valid() && elements != []
      ensures m.Valid()
    {
      this.(elements := elements[..|elements| - 1])
    }
  }

  const NO_NODES := Maker([], [], None)
}
