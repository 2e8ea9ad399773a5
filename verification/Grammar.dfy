// The grammar of domnode-xml-parser.y: its derivations as syntax trees, the
// token sequence each derives, and the tree each denotes.
module Grammar {
  import opened Option
  import opened Dom
  import opened Lalr

  datatype Attribute = Attribute(name: string, value: Option<string>)

  datatype Item = DataItem(s: string) | CommentItem(s: string) | ElementItem(e: Element)

  datatype Element = Element(name: string, attrs: seq<Attribute>, body: Body)

  // SLASH CLOSE, or CLOSE content END name CLOSE.
  datatype Body = Short | Long(items: seq<Item>, end: string)

  datatype Document = Document(before: seq<string>, root: Element, after: seq<string>)

  function AttributeTokens(a: Attribute): seq<Token> {
    [Name(a.name)] + if a.value.None? then [] else [Eq, Value(a.value.value)]
  }

  function AttributesTokens(attrs: seq<Attribute>): seq<Token> {
    if attrs == [] then [] else AttributeTokens(attrs[0]) + AttributesTokens(attrs[1..])
  }

  function ElementTokens(e: Element): seq<Token> {
    [Start(e.name)] + AttributesTokens(e.attrs) + BodyTokens(e.body)
  }

  function BodyTokens(b: Body): seq<Token> {
    match b
    case Short => [Slash, Close]
    case Long(items, end) => [Close] + ItemsTokens(items) + [End, Name(end), Close]
  }

  function ItemTokens(i: Item): seq<Token> {
    match i
    case DataItem(s) => [Data(s)]
    case CommentItem(s) => [Comment(s)]
    case ElementItem(e) => ElementTokens(e)
  }

  function ItemsTokens(items: seq<Item>): seq<Token> {
    if items == [] then [] else ItemTokens(items[0]) + ItemsTokens(items[1..])
  }

  function CommentsTokens(cs: seq<string>): seq<Token> {
    if cs == [] then [] else [Comment(cs[0])] + CommentsTokens(cs[1..])
  }

  function DocumentTokens(d: Document): seq<Token> {
    CommentsTokens(d.before) + ElementTokens(d.root) + CommentsTokens(d.after)
  }

  lemma {:induction false} AttributesSnoc(attrs: seq<Attribute>, a: Attribute)
    ensures AttributesTokens(attrs + [a]) == AttributesTokens(attrs) + AttributeTokens(a)
  {
    if attrs == [] {
      assert [a][1..] == [];
    } else {
      AttributesSnoc(attrs[1..], a);
      assert (attrs + [a])[1..] == attrs[1..] + [a];
    }
  }

  lemma {:induction false} ItemsSnoc(items: seq<Item>, i: Item)
    ensures ItemsTokens(items + [i]) == ItemsTokens(items) + ItemTokens(i)
  {
    if items == [] {
      assert [i][1..] == [];
    } else {
      ItemsSnoc(items[1..], i);
      assert (items + [i])[1..] == items[1..] + [i];
    }
  }

  lemma {:induction false} CommentsSnoc(cs: seq<string>, c: string)
    ensures CommentsTokens(cs + [c]) == CommentsTokens(cs) + [Comment(c)]
  {
    if cs == [] {
      assert [c][1..] == [];
    } else {
      CommentsSnoc(cs[1..], c);
      assert (cs + [c])[1..] == cs[1..] + [c];
    }
  }

  // Element Type Match (XML 1.0, section 3): end tags repeat the start tag's name.
  predicate Matched(e: Element) {
    match e.body
    case Short => true
    case Long(items, end) => end == e.name && AllMatched(items)
  }

  predicate AllMatched(items: seq<Item>) {
    items == [] || (ItemMatched(items[0]) && AllMatched(items[1..]))
  }

  predicate ItemMatched(i: Item) {
    match i case ElementItem(e) => Matched(e) case _ => true
  }

  function Max(a: nat, b: nat): nat { if a < b then b else a }

  // How many states an element needs on the parser's stack.
  function Need(e: Element): nat {
    Max(AttributesNeed(e.attrs), match e.body case Short => 5 case Long(items, _) => Max(8, 5 + ItemsNeed(items)))
  }

  function AttributesNeed(attrs: seq<Attribute>): nat {
    if attrs == [] then 0 else Max(if attrs[0].value.None? then 4 else 6, AttributesNeed(attrs[1..]))
  }

  function ItemsNeed(items: seq<Item>): nat {
    if items == [] then 0 else Max(ItemNeed(items[0]), ItemsNeed(items[1..]))
  }

  function ItemNeed(i: Item): nat {
    match i case ElementItem(e) => Need(e) case _ => 1
  }

  predicate FitsStack(d: Document) { 2 + Need(d.root) < MAX_DEPTH }

  // The tree an element denotes: the last DATA is its value, comments are children.
  function ElementTree(e: Element): Tree {
    match e.body
    case Short => Tree(e.name, None, AttributePairs(e.attrs), [])
    case Long(items, _) => Tree(e.name, LastData(items, None), AttributePairs(e.attrs), ItemTrees(items))
  }

  function AttributePairs(attrs: seq<Attribute>): seq<(string, string)> {
    seq(|attrs|, i requires 0 <= i < |attrs| =>
      (attrs[i].name, match attrs[i].value case None => "" case Some(v) => v))
  }

  function LastData(items: seq<Item>, before: Option<string>): Option<string> {
    if items == [] then before
    else LastData(items[1..], if items[0].DataItem? then Some(items[0].s) else before)
  }

  function ItemTrees(items: seq<Item>): seq<Tree> {
    if items == [] then [] else ItemTree(items[0]) + ItemTrees(items[1..])
  }

  function ItemTree(i: Item): seq<Tree> {
    match i
    case DataItem(_) => []
    case CommentItem(s) => [Tree("#comment", Some(s), [], [])]
    case ElementItem(e) => [ElementTree(e)]
  }
}
