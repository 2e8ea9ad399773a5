// The parser as it is in memory: nodes on the heap, the maker that links them,
// and yyparse with its lookahead variable and growing stacks.
module XmlParser {
  import opened Option
  import opened Dom
  import opened Lalr
  import opened LalrSound

  // sd_domnode_t.
  class DomNode {
    var name: string
    var value: Option<string>
    var attrs: seq<(string, string)>
    var children: seq<DomNode>

    constructor (name: string, value: Option<string>)
      ensures this.name == name && this.value == value && attrs == [] && children == []
    {
      this.name, this.value, attrs, children := name, value, [], [];
    }

    // The node is the i-th of the table, its children the nodes the table says.
    ghost predicate Is(node: Node, all: seq<DomNode>)
      reads this
    {
      && name == node.name && value == node.value && attrs == node.attrs
      && |children| == |node.children|
      && forall c | 0 <= c < |children| :: node.children[c] < |all| && children[c] == all[node.children[c]]
    }
  }

  // struct __sd_domnode_xml_maker, without the scanner.
  class XmlMaker {
    var elements: seq<DomNode>
    var root: DomNode?
    ghost var all: seq<DomNode>
    ghost var nodes: set<DomNode>

    constructor ()
      ensures Mirrors(NO_NODES) && nodes == {}
    {
      elements, root, all, nodes := [], null, [], {};
    }

    // The objects are the nodes of the table m.
    ghost predicate Mirrors(m: Maker)
      reads this, nodes
    {
      && m.Valid() && |all| == |m.nodes|
      && (forall i | 0 <= i < |all| :: all[i] in nodes)
      && (forall i, j | 0 <= i < j < |all| :: all[i] != all[j])
      && (forall i | 0 <= i < |all| :: all[i].Is(m.nodes[i], all))
      && |elements| == |m.elements|
      && (forall i | 0 <= i < |elements| :: elements[i] == all[m.elements[i]])
      && match m.root case None => root == null case Some(r) => r < |all| && root == all[r]
    }

    // sd_list_append(parent->children, node).
    method Append(node: DomNode, ghost m: Maker, ghost n: Node)
      requires Mirrors(m) && m.elements != [] && node !in nodes && n.children == [] && node.Is(n, all)
      modifies this`all, this`nodes, nodes
      ensures nodes == old(nodes) + {node} && all == old(all) + [node] && Mirrors(m.Adopt(n))
    {
      var parent := elements[|elements| - 1];
      parent.children := parent.children + [node];
      all, nodes := all + [node], nodes + {node};
    }

    method OnStart(name: string, ghost m: Maker)
      requires Mirrors(m)
      modifies this, nodes
      ensures fresh(nodes - old(nodes)) && Mirrors(m.OnStart(name))
    {
      var node := new DomNode(name, None);
      if elements == [] {
        root := node;
        all, nodes := all + [node], nodes + {node};
      } else {
        Append(node, m, Node(name, None, [], []));
      }
      elements := elements + [node];
    }

    method OnAttribute(name: string, value: string, ghost m: Maker)
      requires Mirrors(m) && m.elements != []
      modifies nodes
      ensures Mirrors(m.OnAttribute(name, value))
    {
      var node := elements[|elements| - 1];
      node.attrs := node.attrs + [(name, value)];
    }

    method OnData(value: string, ghost m: Maker)
      requires Mirrors(m) && m.elements != []
      modifies nodes
      ensures Mirrors(m.OnData(value))
    {
      var node := elements[|elements| - 1];
      node.value := Some(value);
    }

    method OnComment(text: string, ghost m: Maker)
      requires Mirrors(m)
      modifies this`all, this`nodes, nodes
      ensures fresh(nodes - old(nodes)) && Mirrors(m.OnComment(text))
    {
      if elements != [] {
        var node := new DomNode("#comment", Some(text));
        Append(node, m, Node("#comment", Some(text), [], []));
      }
    }

    method OnEnd(ghost m: Maker)
      requires Mirrors(m) && m.elements != []
      modifies this`elements
      ensures Mirrors(m.OnEnd())
    {
      elements := elements[..|elements| - 1];
    }
  }

  const EMPTY := -2
  const TERROR := 1
  const INIT_DEPTH := 200

  // The tokens the loop has not shifted yet, a lookahead read but not shifted included.
  ghost predicate Pending(p: Parser, input: seq<Token>, pos: nat, yychar: int) {
    && pos <= |input|
    && match yychar
       case -2 => p.rest == input[pos..]
       case 0 => p.rest == [] && pos == |input|
       case _ => 1 <= pos && p.rest == input[pos - 1..] && yychar == Code(input[pos - 1])
  }

  // The error token is in no row of the tables: popping states until the stack
  // is empty is all that recovery does.
  method Recover(yyss: seq<int>) returns (yyresult: int)
    requires yyss != [] && forall i | 0 <= i < |yyss| :: IsState(yyss[i])
    ensures yyresult == 1
  {
    var ss := yyss;
    while true
      invariant ss != [] && ss <= yyss
      decreases |ss|
    {
      var yyn := PACT[ss[|ss| - 1]];
      if yyn != FLAG {
        yyn := yyn + TERROR;
        if 0 <= yyn <= LAST {
          Cell(yyn);
          assert CHECK[yyn] != TERROR;
        }
      }
      if |ss| == 1 { return 1; }
      ss := ss[..|ss| - 1];
    }
  }

  // The action of a rule, on the objects.  False stands for YYERROR.
  method Act(maker: XmlMaker, rule: int, yyvs: seq<string>, ghost p: Parser) returns (yyval: string, ok: bool)
    requires p.Wf() && p.vs == yyvs && 1 <= rule <= 17 && R2[rule] < |yyvs|
    requires Action(p, rule) != AssertionFailed && maker.Mirrors(p.maker)
    modifies maker, maker.nodes
    ensures fresh(maker.nodes - old(maker.nodes))
    ensures match Action(p, rule)
      case Mismatch => !ok && maker.Mirrors(p.maker)
      case Built(m, v) => ok && yyval == v && maker.Mirrors(m)
      case AssertionFailed => false
  {
    Rule(rule);
    hide Maker.OnStart, Maker.OnComment, Maker.OnData, Maker.OnEnd, Maker.OnAttribute;
    var len := R2[rule];
    var top := |yyvs| - 1;
    yyval := if len == 0 then "" else yyvs[top + 1 - len];
    ok := true;
    match rule
    case 4 => maker.OnComment(yyvs[top], p.maker);
    case 5 => maker.OnStart(yyvs[top], p.maker);
    case 7 => maker.OnEnd(p.maker);
    case 8 =>
      if maker.elements[|maker.elements| - 1].name != yyvs[top - 1] {
        ok := false;
      } else {
        maker.OnEnd(p.maker);
      }
    case 9 => maker.OnData(yyvs[top], p.maker);
    case 16 => maker.OnAttribute(yyvs[top], "", p.maker);
    case 17 => maker.OnAttribute(yyvs[top - 2], yyvs[top], p.maker);
    case _ =>
  }

  // The next token is read unless there is one already.
  method Yylex(input: seq<Token>, pos0: nat, yychar0: int, ghost p: Parser) returns (pos: nat, yychar: int)
    requires Pending(p, input, pos0, yychar0)
    ensures Pending(p, input, pos, yychar) && yychar == p.Lookahead() != EMPTY
  {
    pos, yychar := pos0, yychar0;
    if yychar == EMPTY {
      if pos < |input| {
        yychar := Code(input[pos]);
        pos := pos + 1;
      } else {
        yychar := 0;
      }
    }
  }

  // What the loop decides, as the code reads it off the tables.
  method Consult(yystate: int, input: seq<Token>, pos0: nat, yychar0: int, ghost p: Parser)
    returns (d: Decision, pos: nat, yychar: int)
    requires p.Wf() && p.Top() == yystate && Pending(p, input, pos0, yychar0)
    ensures Pending(p, input, pos, yychar) && d == Decide(yystate, p.Lookahead())
    ensures d.Shift? ==> yychar != EMPTY
  {
    pos, yychar := pos0, yychar0;
    var yyn := PACT[yystate];
    if yyn == FLAG {
      d := Default(yystate);
      return;
    }
    pos, yychar := Yylex(input, pos, yychar, p);
    hide Pending;
    yyn := yyn + yychar;
    if yyn < 0 || yyn > LAST || CHECK[yyn] != yychar {
      d := Default(yystate);
      return;
    }
    Cell(yyn);
    yyn := TABLE[yyn];
    if yyn == 0 {
      d := Error;
    } else if yyn == FINAL {
      d := Accept;
    } else {
      d := Shift(yyn);
    }
  }

  // The next state of the loop, on the stacks the code holds.
  ghost predicate Leads(p: Parser, ss: seq<int>, vs: seq<string>) {
    p.ss == ss && p.vs == vs && p.status == if |ss| >= MAX_DEPTH then Returned(2) else Running
  }

  lemma ShiftRound(p: Parser, q: int)
    requires p.Wf() && p.status == Running && Decide(p.Top(), p.Lookahead()) == Shift(q)
    ensures var v := if p.rest == [] then "" else Text(p.rest[0]);
      && Leads(Step(p), p.ss + [q], p.vs + [v])
      && Step(p).rest == (if p.rest == [] then [] else p.rest[1..]) && Step(p).maker == p.maker
  {
    hide Decide;
  }

  lemma ReduceRound(p: Parser, rule: int)
    requires p.Wf() && p.status == Running && Decide(p.Top(), p.Lookahead()) == Reduce(rule)
    requires Step(p).status != Crashed
    ensures 1 <= rule <= 17 && R2[rule] < |p.ss| && Action(p, rule) != AssertionFailed
    ensures match Action(p, rule)
      case Built(m, v) =>
        var n := |p.ss| - R2[rule];
        && IsState(p.ss[n - 1])
        && Leads(Step(p), p.ss[..n] + [Goto(p.ss[n - 1], R1[rule])], p.vs[..n] + [v])
        && Step(p).rest == p.rest && Step(p).maker == m
      case _ => Step(p).status == Returned(1) && Step(p).maker == p.maker
  {
    hide Action, Goto, Decide;
    Rule(rule);
    StepReduces(p, rule);
  }

  lemma StepReduces(p: Parser, rule: int)
    requires p.Wf() && p.status == Running && Decide(p.Top(), p.Lookahead()) == Reduce(rule)
    ensures 1 <= rule <= 17 && Step(p) == ReduceBy(p, rule)
  {
    hide ReduceBy;
  }

  // yyreduce: the action, the pops and the goto.  False stands for YYERROR.
  method Reduction(maker: XmlMaker, rule: int, yyss: seq<int>, yyvs: seq<string>, ghost p: Parser)
    returns (ss: seq<int>, vs: seq<string>, ok: bool)
    requires p.Wf() && p.status == Running && Decide(p.Top(), p.Lookahead()) == Reduce(rule)
    requires Step(p).status != Crashed && yyss == p.ss && yyvs == p.vs && maker.Mirrors(p.maker)
    modifies maker, maker.nodes
    ensures fresh(maker.nodes - old(maker.nodes))
    ensures
      if ok then
        Leads(Step(p), ss, vs) && Step(p).rest == p.rest && |ss| <= |yyss| + 1
      else Step(p).status == Returned(1)
    ensures maker.Mirrors(Step(p).maker)
  {
    hide Decide, Action, Step, XmlMaker.Mirrors, Goto;
    ReduceRound(p, rule);
    var len := R2[rule];
    var yyval;
    yyval, ok := Act(maker, rule, yyvs, p);
    ss, vs := yyss[..|yyss| - len], yyvs[..|yyvs| - len] + [yyval];
    ss := ss + [Goto(ss[|ss| - 1], R1[rule])];
  }

  // One round of the loop: accept, recover, shift or reduce.  -1 stands for
  // going on with the state pushed last.
  method Round(input: seq<Token>, maker: XmlMaker, yyss0: seq<int>, yyvs0: seq<string>, pos0: nat, yychar0: int,
      ghost p: Parser)
    returns (yyss: seq<int>, yyvs: seq<string>, pos: nat, yychar: int, yyresult: int)
    requires p.Wf() && p.status == Running && Step(p).status != Crashed
    requires yyss0 == p.ss && yyvs0 == p.vs && Pending(p, input, pos0, yychar0) && maker.Mirrors(p.maker)
    modifies maker, maker.nodes
    ensures fresh(maker.nodes - old(maker.nodes))
    ensures yyresult != -1 ==> Step(p).status == Returned(yyresult)
    ensures yyresult == -1 ==> Leads(Step(p), yyss, yyvs)
    ensures yyresult == -1 ==> Pending(Step(p), input, pos, yychar) && |yyss| <= |yyss0| + 1
    ensures maker.Mirrors(Step(p).maker)
  {
    hide *;
    Stacks(p);
    yyss, yyvs, yyresult := yyss0, yyvs0, -1;
    var d;
    d, pos, yychar := Consult(yyss[|yyss| - 1], input, pos0, yychar0, p);
    match d
    case Accept =>
      EndRound(p);
      yyresult := 0;
    case Error =>
      EndRound(p);
      yyresult := Recover(yyss);
    case Shift(q) =>
      ShiftRound(p, q);
      PendingAfterShift(p, Step(p), input, pos, yychar);
      var yylval := if yychar == 0 then "" else Text(input[pos - 1]);
      if yychar != 0 { yychar := EMPTY; }
      yyss, yyvs := yyss + [q], yyvs + [yylval];
    case Reduce(rule) =>
      var ok;
      yyss, yyvs, ok := Reduction(maker, rule, yyss, yyvs, p);
      if ok {
        PendingAfterReduction(p, Step(p), input, pos, yychar);
      } else {
        yyresult := Recover(yyss0);
      }
  }

  // A run of the loop on input that has got as far as p.
  ghost predicate Reached(p: Parser, fs: seq<Fragment>, input: seq<Token>) {
    p.status == Running && p.Wf() && Run(p) == Parse(input) && Traced(p, fs, input)
  }

  lemma ReachesNext(p: Parser, fs: seq<Fragment>, input: seq<Token>) returns (fs': seq<Fragment>)
    requires Reached(p, fs, input)
    ensures p.Wf() && p.status == Running && Step(p).status != Crashed
    ensures if Step(p).status == Running then
        && Reached(Step(p), fs', input)
        && (|Step(p).rest| < |p.rest| || (|Step(p).rest| == |p.rest| && Measure(Step(p)) < Measure(p)))
      else Parse(input) == Step(p)
  {
    Rounds(p);
    hide Run, Parse, Step, Traced, Measure;
    fs' := StepStaysTraced(p, fs, input);
  }

  lemma ReachedAtFirst(input: seq<Token>)
    ensures var p := Lalr.Begin(input);
      && Reached(p, [], input) && p.Wf()
      && p.ss == [0] && p.vs == [""] && p.maker == NO_NODES && Pending(p, input, 0, EMPTY)
    ensures 1 < INIT_DEPTH <= MAX_DEPTH
  {
    hide Run;
    InitiallyTraced(input);
  }

  // yyparse.  The lookahead is read only when the tables need it, the stacks
  // grow by doubling up to MAX_DEPTH, and the actions run on the maker's objects.
  method YyParse(input: seq<Token>, maker: XmlMaker) returns (yyresult: int)
    requires maker.Mirrors(NO_NODES) && maker.nodes == {}
    modifies maker
    ensures Parse(input).status == Returned(yyresult)
    ensures maker.Mirrors(Parse(input).maker)
  {
    hide *;
    ghost var p := Lalr.Begin(input);
    ReachedAtFirst(input);
    var yyss, yyvs, yystacksize, pos, yychar := [0], [""], INIT_DEPTH, 0, EMPTY;
    ghost var fs: seq<Fragment> := [];
    while true
      invariant Reached(p, fs, input) && p.Wf()
      invariant yyss == p.ss && yyvs == p.vs && |yyss| < yystacksize && INIT_DEPTH <= yystacksize <= MAX_DEPTH
      invariant Pending(p, input, pos, yychar)
      invariant maker.Mirrors(p.maker) && fresh(maker.nodes)
      decreases |p.rest|, Measure(p)
    {
      fs := ReachesNext(p, fs, input);
      yyss, yyvs, pos, yychar, yyresult := Round(input, maker, yyss, yyvs, pos, yychar, p);
      p := Step(p);
      if yyresult != -1 { return; }
      LeadsOn(p, yyss, yyvs);
      if |yyss| >= yystacksize {
        if yystacksize >= MAX_DEPTH { return 2; }
        yystacksize := yystacksize * 2;
        if yystacksize > MAX_DEPTH { yystacksize := MAX_DEPTH; }
      }
    }
  }

  lemma LeadsOn(p: Parser, ss: seq<int>, vs: seq<string>)
    requires Leads(p, ss, vs)
    ensures p.ss == ss && p.vs == vs
    ensures p.status == if |ss| >= MAX_DEPTH then Returned(2) else Running
  {}

  lemma PendingAfterShift(p: Parser, p': Parser, input: seq<Token>, pos: nat, yychar: int)
    requires Pending(p, input, pos, yychar) && yychar != EMPTY
    requires p'.rest == if p.rest == [] then [] else p.rest[1..]
    ensures if p.rest == [] then yychar == 0 else yychar != 0 && 1 <= pos <= |input| && p.rest[0] == input[pos - 1]
    ensures Pending(p', input, pos, if yychar != 0 then EMPTY else yychar)
  {}

  lemma PendingAfterReduction(p: Parser, p': Parser, input: seq<Token>, pos: nat, yychar: int)
    requires Pending(p, input, pos, yychar) && p'.rest == p.rest
    ensures Pending(p', input, pos, yychar)
  {}

  lemma EndRound(p: Parser)
    requires p.Wf() && p.status == Running
    ensures Decide(p.Top(), p.Lookahead()) == Accept ==> Step(p) == p.(status := Returned(0))
    ensures Decide(p.Top(), p.Lookahead()) == Error ==> Step(p) == p.(status := Returned(1))
  {}

  lemma Stacks(p: Parser)
    requires p.Wf()
    ensures |p.ss| == |p.vs| >= 1 && p.Top() == p.ss[|p.ss| - 1] && forall i | 0 <= i < |p.ss| :: IsState(p.ss[i])
  {}

  lemma InitiallyTraced(input: seq<Token>)
    ensures Traced(Lalr.Begin(input), [], input)
  {}

  // One round and the rest of the run.
  lemma Rounds(p: Parser)
    requires p.Wf() && p.status == Running
    ensures Run(p) == if Step(p).status == Running then Run(Step(p)) else Step(p)
    ensures Step(p).status == Running ==>
      |Step(p).rest| < |p.rest| || (|Step(p).rest| == |p.rest| && Measure(Step(p)) < Measure(p))
  {
    if Step(p).status == Running { StepDescends(p); }
  }
}
