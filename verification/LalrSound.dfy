// What the table-driven loop accepts derives from the grammar, and on the way
// it never pops below the bottom of its stacks nor trips an assertion.
module LalrSound {
  import opened Option
  import opened Lalr
  import opened Grammar

  // What one entry of the state stack stands for.
  datatype Fragment =
    | Tok(t: Token) | EndOfInput | Mark | Note(c: string) | Misc(cs: seq<string>) | Elem(e: Element)
    | Attr(a: Attribute) | Attrs(attrs: seq<Attribute>) | Items(items: seq<Item>) | ClosingName(s: string)
    | Tail(b: Body) | Whole(d: Document)

  function Yield(f: Fragment): seq<Token> {
    match f
    case Tok(t) => [t]
    case EndOfInput => []
    case Mark => []
    case Note(c) => [Comment(c)]
    case Misc(cs) => CommentsTokens(cs)
    case Elem(e) => ElementTokens(e)
    case Attr(a) => AttributeTokens(a)
    case Attrs(attrs) => AttributesTokens(attrs)
    case Items(items) => ItemsTokens(items)
    case ClosingName(s) => [Name(s)]
    case Tail(b) => BodyTokens(b)
    case Whole(d) => DocumentTokens(d)
  }

  function Yields(fs: seq<Fragment>): seq<Token> {
    if fs == [] then [] else Yields(fs[..|fs| - 1]) + Yield(fs[|fs| - 1])
  }

  // The kind of fragment a state is entered on.
  predicate EnteredOn(q: int, f: Fragment) {
    match q
    case 1 => f.Misc?
    case 2 => f.Tok? && f.t.Comment?
    case 3 => f.Tok? && f.t.Start?
    case 4 => f.Note?
    case 5 => f.Elem?
    case 6 => f.Mark?
    case 7 => f.Misc?
    case 8 => f.Attrs?
    case 9 => f == Tok(Slash)
    case 10 => f == Tok(Close)
    case 11 => f.Tok? && f.t.Name?
    case 12 => f.Tail?
    case 13 => f.Attr?
    case 14 => f == Tok(Close)
    case 15 => f.Items?
    case 16 => f == Tok(Eq)
    case 17 => f == Tok(End)
    case 18 => f.Tok? && f.t.Data?
    case 19 => f.Note?
    case 20 => f.Elem?
    case 21 => f.Tok? && f.t.Value?
    case 22 => f.Tok? && f.t.Name?
    case 23 => f.ClosingName?
    case 24 => f == Tok(Close)
    case 25 => f.Whole?
    case 26 => f.EndOfInput?
    case _ => false
  }

  // Which states can lie directly under state q.
  predicate Under(a: int, q: int) {
    match q
    case 1 => a == 0
    case 2 => a == 1 || a == 7 || a == 15
    case 3 => a == 1 || a == 15
    case 4 => a == 1 || a == 7
    case 5 => a == 1
    case 6 => a == 3
    case 7 => a == 5
    case 8 => a == 6
    case 9 => a == 8
    case 10 => a == 8
    case 11 => a == 8
    case 12 => a == 8
    case 13 => a == 8
    case 14 => a == 9
    case 15 => a == 10
    case 16 => a == 11
    case 17 => a == 15
    case 18 => a == 15
    case 19 => a == 15
    case 20 => a == 15
    case 21 => a == 16
    case 22 => a == 17
    case 23 => a == 17
    case 24 => a == 23
    case 25 => a == 0
    case 26 => a == 25
    case _ => false
  }

  // State 6 is on the stack from the start tag of an element to its end.
  function Sixes(ss: seq<int>): nat {
    if ss == [] then 0 else Sixes(ss[..|ss| - 1]) + if ss[|ss| - 1] == 6 then 1 else 0
  }

  ghost predicate Linked(ss: seq<int>, fs: seq<Fragment>) {
    && |ss| == |fs| + 1 && ss[0] == 0
    && forall i | 1 <= i < |ss| :: Under(ss[i - 1], ss[i]) && EnteredOn(ss[i], fs[i - 1])
  }

  // The fragments on the stack yield the tokens consumed so far.
  ghost predicate Traced(p: Parser, fs: seq<Fragment>, tokens: seq<Token>) {
    && p.Wf() && Linked(p.ss, fs)
    && Yields(fs) + p.rest == tokens
    && |p.maker.elements| == Sixes(p.ss) - if p.Top() == 12 then 1 else 0
  }

  lemma {:induction false} YieldsConcat(a: seq<Fragment>, b: seq<Fragment>)
    ensures Yields(a + b) == Yields(a) + Yields(b)
  {
    hide Yield;
    if b == [] {
      assert a + b == a;
    } else {
      YieldsConcat(a, b[..|b| - 1]);
      assert (a + b)[..|a + b| - 1] == a + b[..|b| - 1];
    }
  }

  // What a reduction puts in place of the fragments it pops.
  ghost function Reduced(rule: int, fs: seq<Fragment>): Fragment
    requires HasShape(rule, fs)
  {
    match rule
    case 1 => Whole(Document(fs[0].cs, fs[1].e, fs[2].cs))
    case 2 => Misc(fs[0].cs + [fs[1].c])
    case 3 => Misc([])
    case 4 => Note(fs[0].t.s)
    case 5 => Mark
    case 6 => Elem(Element(fs[0].t.s, fs[2].attrs, fs[3].b))
    case 7 => Tail(Short)
    case 8 => Tail(Long(fs[1].items, fs[3].s))
    case 9 => Items(fs[0].items + [DataItem(fs[1].t.s)])
    case 10 => Items(fs[0].items + [ElementItem(fs[1].e)])
    case 11 => Items(fs[0].items + [CommentItem(fs[1].c)])
    case 12 => Items([])
    case 13 => ClosingName(fs[0].t.s)
    case 14 => Attrs(fs[0].attrs + [fs[1].a])
    case 15 => Attrs([])
    case 16 => Attr(Attribute(fs[0].t.s, None))
    case _ => Attr(Attribute(fs[0].t.s, Some(fs[2].t.s)))
  }

  // The right-hand side of a rule.
  ghost predicate HasShape(rule: int, fs: seq<Fragment>) {
    match rule
    case 1 => |fs| == 3 && fs[0].Misc? && fs[1].Elem? && fs[2].Misc?
    case 2 => |fs| == 2 && fs[0].Misc? && fs[1].Note?
    case 4 => |fs| == 1 && fs[0].Tok? && fs[0].t.Comment?
    case 6 => |fs| == 4 && fs[0].Tok? && fs[0].t.Start? && fs[1].Mark? && fs[2].Attrs? && fs[3].Tail?
    case 7 => fs == [Tok(Slash), Tok(Close)]
    case 8 => |fs| == 5 && fs[0] == Tok(Close) && fs[1].Items? && fs[2] == Tok(End) && fs[3].ClosingName?
        && fs[4] == Tok(Close)
    case 9 => |fs| == 2 && fs[0].Items? && fs[1].Tok? && fs[1].t.Data?
    case 10 => |fs| == 2 && fs[0].Items? && fs[1].Elem?
    case 11 => |fs| == 2 && fs[0].Items? && fs[1].Note?
    case 13 => |fs| == 1 && fs[0].Tok? && fs[0].t.Name?
    case 14 => |fs| == 2 && fs[0].Attrs? && fs[1].Attr?
    case 16 => |fs| == 1 && fs[0].Tok? && fs[0].t.Name?
    case 17 => |fs| == 3 && fs[0].Tok? && fs[0].t.Name? && fs[1] == Tok(Eq) && fs[2].Tok? && fs[2].t.Value?
    case _ => rule in {3, 5, 12, 15} && fs == []
  }

  lemma YieldsOfTwo(a: Fragment, b: Fragment)
    ensures Yields([a, b]) == Yield(a) + Yield(b)
  {
    hide Yield;
    assert [a, b][..1] == [a];
    YieldsOfOne([a]);
  }

  lemma YieldsOfThree(a: Fragment, b: Fragment, c: Fragment)
    ensures Yields([a, b, c]) == Yield(a) + Yield(b) + Yield(c)
  {
    hide Yield;
    assert [a, b, c][..2] == [a, b];
    YieldsOfTwo(a, b);
  }

  lemma YieldsOfFour(a: Fragment, b: Fragment, c: Fragment, d: Fragment)
    ensures Yields([a, b, c, d]) == Yield(a) + Yield(b) + Yield(c) + Yield(d)
  {
    hide Yield;
    assert [a, b, c, d][..3] == [a, b, c];
    YieldsOfThree(a, b, c);
  }

  lemma YieldsOfFive(a: Fragment, b: Fragment, c: Fragment, d: Fragment, e: Fragment)
    ensures Yields([a, b, c, d, e]) == Yield(a) + Yield(b) + Yield(c) + Yield(d) + Yield(e)
  {
    hide Yield;
    assert [a, b, c, d, e][..4] == [a, b, c, d];
    YieldsOfFour(a, b, c, d);
  }

  lemma ReducedYieldOfTwo(rule: int, fs: seq<Fragment>)
    requires HasShape(rule, fs) && |fs| == 2
    ensures Yield(Reduced(rule, fs)) == Yields(fs)
  {
    hide Yields, CommentsTokens, ItemsTokens, AttributesTokens, AttributeTokens;
    assert fs == [fs[0], fs[1]];
    YieldsOfTwo(fs[0], fs[1]);
    match rule
    case 2 => CommentsSnoc(fs[0].cs, fs[1].c);
    case 9 => ItemsSnoc(fs[0].items, DataItem(fs[1].t.s));
    case 10 => ItemsSnoc(fs[0].items, ElementItem(fs[1].e));
    case 11 => ItemsSnoc(fs[0].items, CommentItem(fs[1].c));
    case 14 => AttributesSnoc(fs[0].attrs, fs[1].a);
    case _ =>
  }

  lemma ReducedYieldOfThree(rule: int, fs: seq<Fragment>)
    requires HasShape(rule, fs) && |fs| == 3
    ensures Yield(Reduced(rule, fs)) == Yields(fs)
  {
    hide Yields;
    assert fs == [fs[0], fs[1], fs[2]];
    YieldsOfThree(fs[0], fs[1], fs[2]);
  }

  lemma ReducedYieldOfFour(fs: seq<Fragment>)
    requires HasShape(6, fs)
    ensures Yield(Reduced(6, fs)) == Yields(fs)
  {
    hide Yields, AttributesTokens, BodyTokens;
    assert fs == [fs[0], fs[1], fs[2], fs[3]];
    YieldsOfFour(fs[0], fs[1], fs[2], fs[3]);
  }

  lemma ReducedYieldOfFive(fs: seq<Fragment>)
    requires HasShape(8, fs)
    ensures Yield(Reduced(8, fs)) == Yields(fs)
  {
    hide Yields, ItemsTokens;
    assert fs == [Tok(Close), Items(fs[1].items), Tok(End), ClosingName(fs[3].s), Tok(Close)];
    YieldsOfFive(Tok(Close), Items(fs[1].items), Tok(End), ClosingName(fs[3].s), Tok(Close));
  }

  lemma ReducedYield(rule: int, fs: seq<Fragment>)
    requires HasShape(rule, fs)
    ensures Yield(Reduced(rule, fs)) == Yields(fs)
  {
    hide Yields;
    if |fs| <= 1 {
      YieldsOfOne(fs);
    } else if |fs| == 2 {
      ReducedYieldOfTwo(rule, fs);
    } else if |fs| == 3 {
      ReducedYieldOfThree(rule, fs);
    } else if |fs| == 4 {
      ReducedYieldOfFour(fs);
    } else {
      ReducedYieldOfFive(fs);
    }
  }

  lemma YieldsOfOne(fs: seq<Fragment>)
    requires |fs| <= 1
    ensures Yields(fs) == if fs == [] then [] else Yield(fs[0])
  {
    hide Yield;
  }

  lemma {:induction false} SixesConcat(a: seq<int>, b: seq<int>)
    ensures Sixes(a + b) == Sixes(a) + Sixes(b)
  {
    if b == [] {
      assert a + b == a;
    } else {
      SixesConcat(a, b[..|b| - 1]);
      assert (a + b)[..|a + b| - 1] == a + b[..|b| - 1];
    }
  }

  lemma {:induction false} NoSixes(ss: seq<int>)
    requires forall i | 0 <= i < |ss| :: ss[i] != 6
    ensures Sixes(ss) == 0
  {
    if ss != [] { NoSixes(ss[..|ss| - 1]); }
  }

  ghost predicate Reducing(ss: seq<int>, fs: seq<Fragment>, t: int, rule: int) {
    Linked(ss, fs) && IsState(ss[|ss| - 1]) && Automaton(ss[|ss| - 1], t) == Reduce(rule)
  }

  lemma Link(ss: seq<int>, fs: seq<Fragment>, i: int)
    requires Linked(ss, fs) && 1 <= i < |ss|
    ensures Under(ss[i - 1], ss[i]) && EnteredOn(ss[i], fs[i - 1])
  {}

  lemma Bottom(ss: seq<int>, fs: seq<Fragment>)
    requires Linked(ss, fs)
    ensures |ss| == |fs| + 1 && ss[0] == 0
  {}

  // The states that reading the right-hand side of a rule leads through.
  predicate Spells(rule: int, states: seq<int>) {
    match rule
    case 1 => states == [1, 5, 7]
    case 2 => states == [7, 4] || states == [1, 4]
    case 4 => states == [2]
    case 6 => states == [3, 6, 8, 12]
    case 7 => states == [9, 14]
    case 8 => states == [10, 15, 17, 23, 24]
    case 9 => states == [15, 18]
    case 10 => states == [15, 20]
    case 11 => states == [15, 19]
    case 13 => states == [22]
    case 14 => states == [8, 13]
    case 16 => states == [11]
    case 17 => states == [11, 16, 21]
    case _ => rule in {3, 5, 12, 15} && states == []
  }

  lemma RightHandSideStates(ss: seq<int>, fs: seq<Fragment>, t: int, rule: int)
    requires Reducing(ss, fs, t, rule)
    ensures 1 <= rule <= 17 && R2[rule] < |ss| && Spells(rule, ss[|ss| - R2[rule]..])
  {
    hide Reduced, Yield, Yields, Sixes, Transition, Linked, HasShape, EnteredOn;
    Rule(rule);
    Bottom(ss, fs);
    var n := |ss|;
    if R2[rule] >= 1 { Link(ss, fs, n - 1); }
    if R2[rule] >= 2 { Link(ss, fs, n - 2); }
    if R2[rule] >= 3 { Link(ss, fs, n - 3); }
    if R2[rule] >= 4 { Link(ss, fs, n - 4); }
    if R2[rule] >= 5 { Link(ss, fs, n - 5); }
  }

  lemma ShapeOf(rule: int, states: seq<int>, fs: seq<Fragment>)
    requires Spells(rule, states) && |fs| == |states|
    requires forall i | 0 <= i < |fs| :: EnteredOn(states[i], fs[i])
    ensures HasShape(rule, fs)
  {}

  // In a state that reduces, the right-hand side of the rule is on top of the stack.
  lemma RightHandSideOnTop(ss: seq<int>, fs: seq<Fragment>, t: int, rule: int)
    requires Reducing(ss, fs, t, rule)
    ensures 1 <= rule <= 17 && R2[rule] < |ss|
    ensures HasShape(rule, fs[|fs| - R2[rule]..])
  {
    hide Spells, HasShape, EnteredOn, Under, Automaton;
    RightHandSideStates(ss, fs, t, rule);
    Rule(rule);
    ShapeOf(rule, ss[|ss| - R2[rule]..], fs[|fs| - R2[rule]..]);
  }

  lemma LinkedAfterReduction(ss: seq<int>, fs: seq<Fragment>, t: int, rule: int)
    requires Reducing(ss, fs, t, rule)
    requires 1 <= rule <= 17 && R2[rule] < |ss| && HasShape(rule, fs[|fs| - R2[rule]..])
    ensures var n := |ss| - R2[rule];
      Linked(ss[..n] + [Transition(ss[n - 1], R1[rule])], fs[..n - 1] + [Reduced(rule, fs[n - 1..])])
  {
    hide EnteredOn, Under, Reduced, HasShape, Automaton, Transition;
    Bottom(ss, fs);
    var n := |ss| - R2[rule];
    GotoFits(ss, fs, t, rule);
  }

  lemma GotoFits(ss: seq<int>, fs: seq<Fragment>, t: int, rule: int)
    requires Reducing(ss, fs, t, rule)
    requires 1 <= rule <= 17 && R2[rule] < |ss| && HasShape(rule, fs[|fs| - R2[rule]..])
    ensures var n := |ss| - R2[rule];
      var q := Transition(ss[n - 1], R1[rule]);
      Under(ss[n - 1], q) && EnteredOn(q, Reduced(rule, fs[n - 1..]))
  {
    hide Linked, Yield, Yields, Sixes;
    RightHandSideStates(ss, fs, t, rule);
    Bottom(ss, fs);
    Rule(rule);
    var n := |ss| - R2[rule];
    if n < |ss| { Link(ss, fs, n); }
    if n > 1 { Link(ss, fs, n - 1); }
  }

  // How the semantic action of a rule changes the number of open elements.
  function Opening(rule: int): int {
    match rule
    case 5 => 1
    case 7 => -1
    case 8 => -1
    case _ => 0
  }

  lemma PoppedSixes(ss: seq<int>, fs: seq<Fragment>, t: int, rule: int)
    requires Reducing(ss, fs, t, rule)
    requires 1 <= rule <= 17 && R2[rule] < |ss|
    ensures Sixes(ss[|ss| - R2[rule]..]) == if rule == 6 then 1 else 0
  {
    hide Reduced, HasShape, Yield, Yields, EnteredOn, Sixes;
    Rule(rule);
    var n := |ss| - R2[rule];
    var popped := ss[n..];
    if n < |ss| { assert Under(ss[n - 1], ss[n]); }
    if n + 1 < |ss| { assert Under(ss[n], ss[n + 1]); }
    if n + 2 < |ss| { assert Under(ss[n + 1], ss[n + 2]); }
    if n + 3 < |ss| { assert Under(ss[n + 2], ss[n + 3]); }
    if n + 4 < |ss| { assert Under(ss[n + 3], ss[n + 4]); }
    if rule == 6 {
      assert popped == [3] + [6] + [8, 12];
      SixesConcat([3] + [6], [8, 12]);
      SixesConcat([3], [6]);
      NoSixes([3]);
      NoSixes([8, 12]);
      OneSix();
    } else {
      NoSixes(popped);
    }
  }

  lemma OneSix()
    ensures Sixes([6]) == 1
  {}

  lemma SomeElementOpen(ss: seq<int>, fs: seq<Fragment>, t: int, rule: int)
    requires Reducing(ss, fs, t, rule) && rule in {7, 8, 9, 16, 17}
    ensures Sixes(ss) >= 1 && ss[|ss| - 1] != 12
  {
    hide Reduced, HasShape, Yield, Yields, EnteredOn, Sixes, Linked;
    Bottom(ss, fs);
    var n := |ss|;
    Link(ss, fs, n - 1);
    if rule == 16 { SixUnderEight(ss, fs, n - 2); }
    else {
      Link(ss, fs, n - 2);
      if rule == 7 { SixUnderEight(ss, fs, n - 3); }
      else {
        Link(ss, fs, n - 3);
        if rule == 8 {
          Link(ss, fs, n - 4);
          Link(ss, fs, n - 5);
          SixUnderEight(ss, fs, n - 6);
        } else {
          SixUnderEight(ss, fs, n - 4);
        }
      }
    }
  }

  lemma SixUnderEight(ss: seq<int>, fs: seq<Fragment>, i: int)
    requires Linked(ss, fs) && 0 <= i < |ss| && ss[i] == 8
    ensures Sixes(ss) >= 1
  {
    hide Yield, Yields, EnteredOn, Sixes;
    Link(ss, fs, i);
    assert ss == ss[..i - 1] + [6] + ss[i..];
    SixesConcat(ss[..i - 1] + [6], ss[i..]);
    SixesConcat(ss[..i - 1], [6]);
    OneSix();
  }

  lemma SixesAfterReduction(ss: seq<int>, fs: seq<Fragment>, t: int, rule: int)
    requires Reducing(ss, fs, t, rule)
    requires 1 <= rule <= 17 && R2[rule] < |ss|
    ensures var n := |ss| - R2[rule];
      var ss' := ss[..n] + [Transition(ss[n - 1], R1[rule])];
      Sixes(ss') - (if ss'[n] == 12 then 1 else 0)
        == Sixes(ss) - (if ss[|ss| - 1] == 12 then 1 else 0) + Opening(rule)
  {
    hide Reduced, HasShape, Yield, Yields, EnteredOn, Sixes, Under;
    Rule(rule);
    PoppedSixes(ss, fs, t, rule);
    var n := |ss| - R2[rule];
    var q := Transition(ss[n - 1], R1[rule]);
    assert ss[..n] + ss[n..] == ss;
    SixesConcat(ss[..n], ss[n..]);
    SixesConcat(ss[..n], [q]);
    if q == 6 { OneSix(); } else { NoSixes([q]); }
  }

  lemma YieldsAfterReduction(fs: seq<Fragment>, n: nat, rule: int)
    requires n <= |fs| && HasShape(rule, fs[n..])
    ensures Yields(fs[..n] + [Reduced(rule, fs[n..])]) == Yields(fs)
  {
    hide Reduced, HasShape, Yield, Yields;
    ReducedYield(rule, fs[n..]);
    assert fs[..n] + fs[n..] == fs;
    YieldsConcat(fs[..n], fs[n..]);
    YieldsConcat(fs[..n], [Reduced(rule, fs[n..])]);
    YieldsOfOne([Reduced(rule, fs[n..])]);
  }

  lemma ReductionDoesNotCrash(p: Parser, fs: seq<Fragment>, tokens: seq<Token>, rule: int)
    requires Traced(p, fs, tokens) && p.status == Running
    requires Reducing(p.ss, fs, p.Lookahead(), rule)
    ensures 1 <= rule <= 17 && ReduceBy(p, rule).status != Crashed
    ensures ReduceBy(p, rule).status == Running ==>
      |ReduceBy(p, rule).maker.elements| == |p.maker.elements| + Opening(rule)
  {
    hide Reduced, HasShape, Yield, Yields, EnteredOn, Sixes, Under, Automaton;
    RightHandSideOnTop(p.ss, fs, p.Lookahead(), rule);
    if rule in {7, 8, 9, 16, 17} { SomeElementOpen(p.ss, fs, p.Lookahead(), rule); }
  }

  // One round keeps the trace, and does not crash.
  lemma ReductionStaysTraced(p: Parser, fs: seq<Fragment>, tokens: seq<Token>, rule: int) returns (fs': seq<Fragment>)
    requires Traced(p, fs, tokens) && p.status == Running
    requires Reducing(p.ss, fs, p.Lookahead(), rule) && 1 <= rule <= 17
    ensures ReduceBy(p, rule).status != Crashed
    ensures ReduceBy(p, rule).status == Running ==> Traced(ReduceBy(p, rule), fs', tokens)
  {
    hide Reduced, HasShape, Yield, Yields, EnteredOn, Sixes, Under, Automaton, Action, Opening, Transition;
    ReductionDoesNotCrash(p, fs, tokens, rule);
    RightHandSideOnTop(p.ss, fs, p.Lookahead(), rule);
    LinkedAfterReduction(p.ss, fs, p.Lookahead(), rule);
    SixesAfterReduction(p.ss, fs, p.Lookahead(), rule);
    var n := |fs| - R2[rule];
    fs' := fs[..n] + [Reduced(rule, fs[n..])];
    YieldsAfterReduction(fs, n, rule);
  }

  function Shifted(rest: seq<Token>): Fragment { if rest == [] then EndOfInput else Tok(rest[0]) }

  lemma ShiftLinks(a: int, rest: seq<Token>, q: int)
    requires Automaton(a, if rest == [] then 0 else Code(rest[0])) == Shift(q)
    ensures Under(a, q) && EnteredOn(q, Shifted(rest)) && a != 12 && q != 6 && q != 12
    ensures Yield(Shifted(rest)) + (if rest == [] then [] else rest[1..]) == rest
  {}

  lemma ShiftStaysTraced(p: Parser, fs: seq<Fragment>, tokens: seq<Token>, q: int) returns (fs': seq<Fragment>)
    requires Traced(p, fs, tokens) && p.status == Running
    requires Automaton(p.Top(), p.Lookahead()) == Shift(q) && Decide(p.Top(), p.Lookahead()) == Shift(q)
    ensures Step(p).status != Crashed
    ensures Step(p).status == Running ==> Traced(Step(p), fs', tokens)
  {
    hide Yield, Yields, Sixes, Decide, Automaton, Under, EnteredOn;
    var f := Shifted(p.rest);
    fs' := fs + [f];
    ShiftLinks(p.Top(), p.rest, q);
    YieldsConcat(fs, [f]);
    YieldsOfOne([f]);
    SixesConcat(p.ss, [q]);
    NoSixes([q]);
  }

  lemma StepStaysTraced(p: Parser, fs: seq<Fragment>, tokens: seq<Token>) returns (fs': seq<Fragment>)
    requires Traced(p, fs, tokens) && p.status == Running
    ensures Step(p).status != Crashed
    ensures Step(p).status == Running ==> Traced(Step(p), fs', tokens)
  {
    hide Linked, Sixes, Decide, Automaton, Yield, Yields;
    TablesAreTheAutomaton(p.Top(), p.Lookahead());
    fs' := fs;
    match Decide(p.Top(), p.Lookahead())
    case Shift(q) => fs' := ShiftStaysTraced(p, fs, tokens, q);
    case Reduce(rule) => fs' := ReductionStaysTraced(p, fs, tokens, rule);
    case _ =>
  }

  lemma {:induction false} RunStaysTraced(p: Parser, fs: seq<Fragment>, tokens: seq<Token>) returns (d: Document)
    requires Traced(p, fs, tokens) && p.status == Running
    ensures Run(p).status in {Returned(0), Returned(1), Returned(2)}
    ensures Run(p).status == Returned(0) ==> DocumentTokens(d) == tokens
    decreases |p.rest|, Measure(p)
  {
    assert p.Wf();
    hide Traced, Decide, Automaton;
    var fs' := StepStaysTraced(p, fs, tokens);
    if Step(p).status == Running {
      StepDescends(p);
      d := RunStaysTraced(Step(p), fs', tokens);
    } else if Step(p).status == Returned(0) {
      d := AcceptedDocument(p, fs, tokens);
    } else {
      d := *;
    }
  }

  lemma AcceptedDocument(p: Parser, fs: seq<Fragment>, tokens: seq<Token>) returns (d: Document)
    requires Traced(p, fs, tokens) && p.status == Running && Step(p).status == Returned(0)
    ensures DocumentTokens(d) == tokens
  {
    hide Yields, Sixes, Decide, Linked, Action, Automaton, Under, EnteredOn;
    AcceptsOnlyAtEnd(p);
    Bottom(p.ss, fs);
    WholeOnTop(p.ss, fs);
    assert fs == [fs[0], fs[1]];
    YieldsOfTwo(fs[0], fs[1]);
    d := fs[0].d;
  }

  lemma AcceptsOnlyAtEnd(p: Parser)
    requires p.Wf() && p.status == Running && Step(p).status == Returned(0)
    ensures p.Top() == 26 && p.rest == []
  {
    hide Decide, Action;
    TablesAreTheAutomaton(p.Top(), p.Lookahead());
  }

  lemma WholeOnTop(ss: seq<int>, fs: seq<Fragment>)
    requires Linked(ss, fs) && ss[|ss| - 1] == 26
    ensures |fs| == 2 && fs[0].Whole? && fs[1] == EndOfInput
  {
    hide Linked;
    Bottom(ss, fs);
    Link(ss, fs, |fs|);
    Link(ss, fs, |fs| - 1);
    if |fs| > 2 { Link(ss, fs, |fs| - 2); }
  }
}
