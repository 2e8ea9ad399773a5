// yyparse decides the language of the grammar with matching tags, up to the
// depth of its stacks, and builds the tree of the derivation.
module Parsing {
  import opened Option
  import opened Dom
  import opened Lalr
  import opened Grammar
  import opened Build
  import opened LalrSound
  import opened LalrComplete

  ghost predicate Derives(d: Document, tokens: seq<Token>) {
    DocumentTokens(d) == tokens && Matched(d.root) && FitsStack(d)
  }

  // The document a parse returns: maker.root, with everything that hangs from it.
  ghost predicate Denotes(m: Maker, t: Tree) {
    m.root == Some(0) && |m.nodes| > 0 && Closed(m.nodes, 0, |m.nodes|) && TreeAt(m.nodes, 0, |m.nodes|) == t
  }

  // Every run ends with 0, 1 or 2; no assertion fails and no stack underflows.
  // It ends with 0 exactly on what derives from `document`.
  lemma ParseDecides(tokens: seq<Token>)
    ensures Parse(tokens).status in {Returned(0), Returned(1), Returned(2)}
    ensures Parse(tokens).status == Returned(0) <==> exists d :: Derives(d, tokens)
  {
    var p := Lalr.Begin(tokens);
    assert Traced(p, [], tokens);
    var d := RunStaysTraced(p, [], tokens);
    if Parse(tokens).status == Returned(0) {
      DocumentRuns(d);
      assert Derives(d, tokens);
    }
    if d' :| Derives(d', tokens) {
      DocumentRuns(d');
    }
  }

  // The tree built is the one the derivation denotes.
  lemma ParseBuilds(d: Document)
    requires Matched(d.root) && FitsStack(d)
    ensures Parse(DocumentTokens(d)).status == Returned(0)
    ensures Denotes(Parse(DocumentTokens(d)).maker, ElementTree(d.root))
    ensures Parse(DocumentTokens(d)).maker.elements == []
  {
    DocumentRuns(d);
    ElementBuilds(NO_NODES, d.root);
  }
}
