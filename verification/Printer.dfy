// domnode-xml.c: the XML writer.
module Printer {
  import opened Option
  import opened Dom

  function Indent(n: nat): string { if n == 0 then "" else "    " + Indent(n - 1) }

  function PrintAttributes(attrs: seq<(string, string)>): string {
    if attrs == [] then ""
    else " " + attrs[0].0 + "=\"" + attrs[0].1 + "\"" + PrintAttributes(attrs[1..])
  }

  function OrNothing(v: Option<string>): string { match v case None => "" case Some(s) => s }

  // xml_fwrite.
  function Print(t: Tree, n: nat): string { Indent(n) + Markup(t, n) }

  function Markup(t: Tree, n: nat): string
    decreases t, 1
  {
    if t.name == "#comment" then "<!-- " + OrNothing(t.value) + " -->\n"
    else "<" + t.name + PrintAttributes(t.attrs) + Rest(t, n)
  }

  // What follows the attributes.
  function Rest(t: Tree, n: nat): string
    decreases t, 0
  {
    if t.value == None && t.children == [] then "/>\n"
    else ">\n" + Line(t.value, n + 1) + PrintAll(t.children, n + 1) + Indent(n) + "</" + t.name + ">\n"
  }

  function Line(value: Option<string>, n: nat): string {
    match value case None => "" case Some(v) => Indent(n) + v + "\n"
  }

  function PrintAll(ts: seq<Tree>, n: nat): string
    decreases ts, 0
  {
    if ts == [] then "" else Indent(n) + Markup(ts[0], n) + PrintAll(ts[1..], n)
  }

  // __sd_domnode_xml_fwrite, where the locale has a name for its character set or not.
  function Declaration(codeset: Option<string>): string { "<?" + Version(codeset) + ">" + "\n\n" }

  function Version(codeset: Option<string>): string {
    "xml version=\"1.0\"" + match codeset case None => "?" case Some(c) => " encoding=\"" + c + "\"?"
  }

  function Write(codeset: Option<string>, t: Tree): string { Declaration(codeset) + Print(t, 0) }

  // The FILE* written to.
  class Output {
    var text: string

    constructor ()
      ensures text == ""
    {
      text := "";
    }

    method Put(s: string)
      modifies this
      ensures text == old(text) + s
    {
      text := text + s;
    }
  }

  method PutIndent(out: Output, n: nat)
    modifies out
    ensures out.text == old(out.text) + Indent(n)
  {
    var i := 0;
    while i < n
      invariant 0 <= i <= n && out.text + Indent(n - i) == old(out.text) + Indent(n)
    {
      out.Put("    ");
      i := i + 1;
    }
  }

  method XmlFwrite(t: Tree, out: Output, n: nat)
    modifies out
    ensures out.text == old(out.text) + Print(t, n)
    decreases t, 1
  {
    hide Indent, Rest, PrintAttributes;
    PutIndent(out, n);
    if t.name == "#comment" {
      out.Put("<!-- " + OrNothing(t.value) + " -->\n");
      return;
    }
    out.Put("<" + t.name);
    PutAttributes(t.attrs, out);
    PutRest(t, out, n);
  }

  method PutRest(t: Tree, out: Output, n: nat)
    modifies out
    ensures out.text == old(out.text) + Rest(t, n)
    decreases t, 0
  {
    hide Indent, PrintAll, Markup;
    if t.value != None || t.children != [] {
      out.Put(">\n");
      if t.value != None {
        PutIndent(out, n + 1);
        out.Put(t.value.value + "\n");
      }
      assert out.text == old(out.text) + (">\n" + Line(t.value, n + 1));
      PutChildren(t.children, out, n + 1);
      PutIndent(out, n);
      out.Put("</" + t.name + ">\n");
    } else {
      out.Put("/>\n");
    }
  }

  method PutChildren(ts: seq<Tree>, out: Output, n: nat)
    modifies out
    ensures out.text == old(out.text) + PrintAll(ts, n)
    decreases ts
  {
    var i := 0;
    while i < |ts|
      invariant 0 <= i <= |ts|
      invariant out.text + PrintAll(ts[i..], n) == old(out.text) + PrintAll(ts, n)
    {
      XmlFwrite(ts[i], out, n);
      i := i + 1;
    }
  }

  method PutAttributes(attrs: seq<(string, string)>, out: Output)
    modifies out
    ensures out.text == old(out.text) + PrintAttributes(attrs)
  {
    var i := 0;
    while i < |attrs|
      invariant 0 <= i <= |attrs|
      invariant out.text + PrintAttributes(attrs[i..]) == old(out.text) + PrintAttributes(attrs)
    {
      out.Put(" " + attrs[i].0 + "=\"" + attrs[i].1 + "\"");
      i := i + 1;
    }
  }

  method Fwrite(codeset: Option<string>, t: Tree, out: Output)
    modifies out
    ensures out.text == old(out.text) + Write(codeset, t)
  {
    out.Put(Declaration(codeset));
    XmlFwrite(t, out, 0);
  }
}
