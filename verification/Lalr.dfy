// The table-driven parser of domnode-xml-parser.c: bison's tables, the shift
// and reduce loop over them, and the semantic actions of domnode-xml-parser.y.
module Lalr {
  import opened Dom

  datatype Token =
    | EndDef | Eq | Slash | Close | End
    | Name(s: string) | Value(s: string) | Data(s: string) | Comment(s: string) | Start(s: string)

  // The token numbers the tables are indexed with; 0 is the end of input.
  function Code(t: Token): (n: int)
    ensures 3 <= n <= 12
  {
    match t
    case EndDef => 3
    case Eq => 4
    case Slash => 5
    case Close => 6
    case End => 7
    case Name(_) => 8
    case Value(_) => 9
    case Data(_) => 10
    case Comment(_) => 11
    case Start(_) => 12
  }

  function Text(t: Token): string {
    match t
    case Name(s) => s
    case Value(s) => s
    case Data(s) => s
    case Comment(s) => s
    case Start(s) => s
    case _ => ""
  }

  const FLAG := -32768
  const FINAL := 27
  const LAST := 24
  const MAX_DEPTH := 10000

  const R1 := [0, 13, 14, 14, 15, 17, 16, 18, 18, 19, 19, 19, 19, 20, 21, 21, 22, 22]
  const R2 := [0, 3, 2, 0, 1, 0, 4, 2, 5, 2, 2, 2, 0, 1, 2, 0, 1, 3]
  const DEFACT := [3, 0, 4, 5, 2, 3, 15, 1, 0, 0, 12, 16, 6, 14, 7, 0, 0, 0, 9, 11, 10, 17, 13, 0, 8, 0, 0, 0]
  const DEFGOTO := [25, 1, 4, 5, 6, 12, 15, 23, 8, 13]
  const PACT := [
    FLAG, -10, FLAG, FLAG, FLAG, FLAG, FLAG, -3, 1, 4,
    FLAG, 7, FLAG, FLAG, FLAG, -7, 3, 5, FLAG, FLAG,
    FLAG, FLAG, FLAG, 8, FLAG, 15, 16, FLAG]
  const PGOTO := [FLAG, 12, 6, 9, FLAG, FLAG, FLAG, FLAG, FLAG, FLAG]
  const TABLE := [17, 2, 3, 18, 2, 3, 9, 10, 2, 11, 14, 16, 21, 22, 24, 26, 27, 7, 0, 0, 0, 19, 0, 0, 20]
  const CHECK := [7, 11, 12, 10, 11, 12, 5, 6, 11, 8, 6, 4, 9, 8, 6, 0, 0, 5, -1, -1, -1, 15, -1, -1, 15]

  datatype Decision = Shift(to: int) | Reduce(rule: int) | Accept | Error

  predicate IsState(q: int) { 0 <= q < 28 }

  function Default(q: int): Decision
    requires IsState(q)
  {
    if DEFACT[q] == 0 then Error else Reduce(DEFACT[q])
  }

  lemma Cell(n: int)
    requires 0 <= n <= LAST
    ensures (CHECK[n], TABLE[n]) == match n
      case 0 => (7, 17)
      case 1 => (11, 2)
      case 2 => (12, 3)
      case 3 => (10, 18)
      case 4 => (11, 2)
      case 5 => (12, 3)
      case 6 => (5, 9)
      case 7 => (6, 10)
      case 8 => (11, 2)
      case 9 => (8, 11)
      case 10 => (6, 14)
      case 11 => (4, 16)
      case 12 => (9, 21)
      case 13 => (8, 22)
      case 14 => (6, 24)
      case 15 => (0, 26)
      case 16 => (0, 27)
      case 17 => (5, 7)
      case 18 => (-1, 0)
      case 19 => (-1, 0)
      case 20 => (-1, 0)
      case 21 => (15, 19)
      case 22 => (-1, 0)
      case 23 => (-1, 0)
      case _ => (15, 20)
  {}

  // What the loop does in state q with lookahead token number t.
  function Decide(q: int, t: int): (d: Decision)
    requires IsState(q) && 0 <= t <= 12
    ensures d.Shift? ==> IsState(d.to)
    ensures d.Reduce? ==> 1 <= d.rule <= 17
  {
    if PACT[q] == FLAG then Default(q)
    else
      var n := PACT[q] + t;
      if n < 0 || n > LAST || CHECK[n] != t then Default(q)
      else
        var a := TABLE[n];
        Cell(n);
        if a < 0 then (if a == FLAG then Error else Reduce(-a))
        else if a == 0 then Error
        else if a == FINAL then Accept
        else Shift(a)
  }

  // The state entered after reducing to symbol `lhs` on top of state q.
  function Goto(q: int, lhs: int): int
    requires IsState(q) && 13 <= lhs <= 22
  {
    var n := PGOTO[lhs - 13] + q;
    if 0 <= n <= LAST && CHECK[n] == q then TABLE[n] else DEFGOTO[lhs - 13]
  }

  // The automaton the tables encode, state by state.
  function Automaton(q: int, t: int): Decision {
    match q
    case 0 => Reduce(3)
    case 1 => if t == 11 then Shift(2) else if t == 12 then Shift(3) else Error
    case 2 => Reduce(4)
    case 3 => Reduce(5)
    case 4 => Reduce(2)
    case 5 => Reduce(3)
    case 6 => Reduce(15)
    case 7 => if t == 11 then Shift(2) else Reduce(1)
    case 8 => if t == 5 then Shift(9) else if t == 6 then Shift(10) else if t == 8 then Shift(11) else Error
    case 9 => if t == 6 then Shift(14) else Error
    case 10 => Reduce(12)
    case 11 => if t == 4 then Shift(16) else Reduce(16)
    case 12 => Reduce(6)
    case 13 => Reduce(14)
    case 14 => Reduce(7)
    case 15 =>
      if t == 7 then Shift(17) else if t == 10 then Shift(18) else if t == 11 then Shift(2)
      else if t == 12 then Shift(3) else Error
    case 16 => if t == 9 then Shift(21) else Error
    case 17 => if t == 8 then Shift(22) else Error
    case 18 => Reduce(9)
    case 19 => Reduce(11)
    case 20 => Reduce(10)
    case 21 => Reduce(17)
    case 22 => Reduce(13)
    case 23 => if t == 6 then Shift(24) else Error
    case 24 => Reduce(8)
    case 25 => if t == 0 then Shift(26) else Error
    case 26 => if t == 0 then Accept else Error
    case _ => Error
  }

  function Transition(q: int, lhs: int): int {
    match lhs
    case 13 => 25
    case 14 => if q == 5 then 7 else 1
    case 15 => if q == 15 then 19 else 4
    case 16 => if q == 15 then 20 else 5
    case 17 => 6
    case 18 => 12
    case 19 => 15
    case 20 => 23
    case 21 => 8
    case _ => 13
  }

  lemma TablesAreTheAutomaton(q: int, t: int)
    requires IsState(q) && 0 <= t <= 12
    ensures Decide(q, t) == Automaton(q, t)
  {
    if q < 14 { LowerTables(q, t); } else { UpperTables(q, t); }
  }

  lemma LowerTables(q: int, t: int)
    requires 0 <= q < 14 && 0 <= t <= 12
    ensures Decide(q, t) == Automaton(q, t)
  {
    if PACT[q] != FLAG && 0 <= PACT[q] + t <= LAST { Cell(PACT[q] + t); }
  }

  lemma UpperTables(q: int, t: int)
    requires 14 <= q < 28 && 0 <= t <= 12
    ensures Decide(q, t) == Automaton(q, t)
  {
    if PACT[q] != FLAG && 0 <= PACT[q] + t <= LAST { Cell(PACT[q] + t); }
  }

  lemma GotosAreTheAutomaton(q: int, lhs: int)
    requires IsState(q) && 13 <= lhs <= 22
    ensures Goto(q, lhs) == Transition(q, lhs)
  {}

  datatype Status = Running | Returned(rc: int) | Crashed

  // State stack, value stack, the tokens from the lookahead on, what the
  // actions have built.  Crashed stands for an assertion of an action that
  // does not hold, or a pop below the bottom of the stacks.
  datatype Parser = Parser(ss: seq<int>, vs: seq<string>, rest: seq<Token>, maker: Maker, status: Status) {
    predicate Wf() {
      && 1 <= |ss| == |vs|
      && (forall i | 0 <= i < |ss| :: IsState(ss[i]))
      && maker.Valid()
    }

    function Top(): int
      requires ss != []
    {
      ss[|ss| - 1]
    }

    function Lookahead(): int { if rest == [] then 0 else Code(rest[0]) }

    // Entering a state fails when the stacks have reached their largest size.
    function Push(q: int, v: string): (p: Parser)
      requires Wf() && IsState(q)
      ensures p.Wf()
    {
      this.(ss := ss + [q], vs := vs + [v], status := if |ss| + 1 >= MAX_DEPTH then Returned(2) else status)
    }

    // $n of a rule whose right-hand side has len symbols.
    function Arg(len: nat, n: nat): string
      requires 1 <= n <= len < |vs|
    {
      vs[|vs| - len + n - 1]
    }
  }

  datatype Effect = Built(maker: Maker, value: string) | Mismatch | AssertionFailed

  function Action(p: Parser, rule: int): (e: Effect)
    requires p.Wf() && 1 <= rule <= 17 && R2[rule] < |p.vs|
    ensures e.Built? ==> e.maker.Valid()
  {
    var m := p.maker;
    var len := R2[rule];
    match rule
    case 4 => Built(m.OnComment(p.Arg(1, 1)), p.Arg(1, 1))
    case 5 => Built(m.OnStart(p.vs[|p.vs| - 1]), "")
    case 7 => if m.elements == [] then AssertionFailed else Built(m.OnEnd(), p.Arg(2, 1))
    case 8 =>
      if m.elements == [] then AssertionFailed
      else if m.nodes[m.Top()].name != p.Arg(5, 4) then Mismatch
      else Built(m.OnEnd(), p.Arg(5, 1))
    case 9 => if m.elements == [] then AssertionFailed else Built(m.OnData(p.Arg(2, 2)), p.Arg(2, 1))
    case 16 => if m.elements == [] then AssertionFailed else Built(m.OnAttribute(p.Arg(1, 1), ""), p.Arg(1, 1))
    case 17 => if m.elements == [] then AssertionFailed else Built(m.OnAttribute(p.Arg(3, 1), p.Arg(3, 3)), p.Arg(3, 1))
    case _ => Built(m, if len == 0 then "" else p.Arg(len, 1))
  }

  function ReduceBy(p: Parser, rule: int): (p': Parser)
    requires p.Wf() && p.status == Running && 1 <= rule <= 17
    ensures p'.Wf()
    ensures p'.status == Running ==>
      && p'.rest == p.rest && R2[rule] < |p.ss|
      && var below := p.ss[..|p.ss| - R2[rule]];
         p'.ss == below + [Transition(below[|below| - 1], R1[rule])]
  {
    var len := R2[rule];
    if |p.ss| <= len then p.(status := Crashed)
    else
      match Action(p, rule)
      case AssertionFailed => p.(status := Crashed)
      case Mismatch => p.(status := Returned(1))
      case Built(m, v) =>
        var below := p.(ss := p.ss[..|p.ss| - len], vs := p.vs[..|p.vs| - len], maker := m);
        GotosAreTheAutomaton(below.Top(), R1[rule]);
        below.Push(Goto(below.Top(), R1[rule]), v)
  }

  // One round of the loop: a shift, a reduction, or the end.
  function Step(p: Parser): (p': Parser)
    requires p.Wf() && p.status == Running
    ensures p'.Wf()
  {
    match Decide(p.Top(), p.Lookahead())
    case Shift(q) =>
      if p.rest == [] then p.Push(q, "") else p.(rest := p.rest[1..]).Push(q, Text(p.rest[0]))
    case Reduce(rule) => ReduceBy(p, rule)
    case Accept => p.(status := Returned(0))
    case Error => p.(status := Returned(1))
  }

  // Between two shifts the loop cannot reduce for ever.
  function Weight(q: int): nat {
    match q
    case 3 => 6
    case 0 => 3
    case 5 => 3
    case 6 => 3
    case 10 => 3
    case 25 => 3
    case 2 => 1
    case 11 => 1
    case 22 => 1
    case _ => 0
  }

  function Measure(p: Parser): nat
    requires p.Wf()
  {
    2 * |p.ss| + Weight(p.Top())
  }

  // Left-hand side and length of each rule.
  lemma Rule(rule: int)
    requires 1 <= rule <= 17
    ensures (R1[rule], R2[rule]) == match rule
      case 1 => (13, 3)
      case 2 => (14, 2)
      case 3 => (14, 0)
      case 4 => (15, 1)
      case 5 => (17, 0)
      case 6 => (16, 4)
      case 7 => (18, 2)
      case 8 => (18, 5)
      case 9 => (19, 2)
      case 10 => (19, 2)
      case 11 => (19, 2)
      case 12 => (19, 0)
      case 13 => (20, 1)
      case 14 => (21, 2)
      case 15 => (21, 0)
      case 16 => (22, 1)
      case _ => (22, 3)
  {}

  lemma ReductionDescends(q: int, t: int, rule: int, under: int)
    requires IsState(q) && Automaton(q, t) == Reduce(rule)
    ensures 1 <= rule <= 17 && 2 + Weight(Transition(under, R1[rule])) < 2 * R2[rule] + Weight(q)
  {
    Rule(rule);
  }

  lemma StepDescends(p: Parser)
    requires p.Wf() && p.status == Running && Step(p).status == Running
    ensures |Step(p).rest| < |p.rest| || (|Step(p).rest| == |p.rest| && Measure(Step(p)) < Measure(p))
  {
    hide Action, Decide, Goto;
    var q, t, p' := p.Top(), p.Lookahead(), Step(p);
    TablesAreTheAutomaton(q, t);
    match Decide(q, t)
    case Reduce(rule) =>
      var below := p.ss[..|p.ss| - R2[rule]];
      ReductionDescends(q, t, rule, below[|below| - 1]);
    case _ =>
  }

  function Run(p: Parser): (p': Parser)
    requires p.Wf()
    ensures p'.Wf() && p'.status != Running
    decreases |p.rest|, Measure(p), if p.status == Running then 1 else 0
  {
    if p.status != Running then p
    else
      var p1 := Step(p);
      if p1.status != Running then p1
      else
        StepDescends(p);
        Run(p1)
  }

  function Begin(tokens: seq<Token>): (p: Parser)
    ensures p.Wf()
  {
    Parser([0], [""], tokens, NO_NODES, Running)
  }

  // What yyparse does with a token sequence.
  function Parse(tokens: seq<Token>): (p: Parser)
    ensures p.status != Running
  {
    Run(Begin(tokens))
  }
}
