// What derives from the grammar, with matching tags and within the depth of the
// stacks, the table-driven loop accepts, and it builds the tree it denotes.
module LalrComplete {
  import opened Dom
  import opened Lalr
  import opened Grammar
  import opened Build

  ghost predicate Ready(p: Parser) { p.Wf() && p.status == Running && |p.ss| < MAX_DEPTH }

  // p with more entries on its stacks, other tokens to read, another maker.
  ghost function Over(p: Parser, qs: seq<int>, vs: seq<string>, rest: seq<Token>, m: Maker): Parser {
    p.(ss := p.ss + qs, vs := p.vs + vs, rest := rest, maker := m)
  }

  lemma Shifts(p: Parser, q: int)
    requires Ready(p) && p.rest != [] && Automaton(p.Top(), Code(p.rest[0])) == Shift(q) && IsState(q)
    ensures
      if |p.ss| + 1 < MAX_DEPTH then
        var p' := Over(p, [q], [Text(p.rest[0])], p.rest[1..], p.maker); Ready(p') && Run(p) == Run(p')
      else Run(p).status == Returned(2)
  {
    hide Decide, Automaton;
    TablesAreTheAutomaton(p.Top(), p.Lookahead());
  }

  lemma Reduces(p: Parser, rule: int, m: Maker, v: string)
    requires Ready(p) && 1 <= rule <= 17 && Automaton(p.Top(), p.Lookahead()) == Reduce(rule)
    requires R2[rule] < |p.ss| && Action(p, rule) == Built(m, v)
    ensures
      var n := |p.ss| - R2[rule];
      if n + 1 < MAX_DEPTH then
        var p' := p.(ss := p.ss[..n] + [Transition(p.ss[n - 1], R1[rule])], vs := p.vs[..n] + [v], maker := m);
        Ready(p') && Run(p) == Run(p')
      else Run(p).status == Returned(2)
  {
    hide Decide, Automaton, Action, Transition;
    TablesAreTheAutomaton(p.Top(), p.Lookahead());
    StepDescendsIfRunning(p);
  }

  lemma StepDescendsIfRunning(p: Parser)
    requires p.Wf() && p.status == Running
    ensures Run(p) == if Step(p).status == Running then Run(Step(p)) else Step(p)
  {}

  // The rows of the automaton that reduce whatever comes next, and those that shift.
  lemma Reductions(t: int)
    ensures Automaton(0, t) == Automaton(5, t) == Reduce(3)
    ensures Automaton(2, t) == Reduce(4) && Automaton(3, t) == Reduce(5) && Automaton(4, t) == Reduce(2)
    ensures Automaton(6, t) == Reduce(15) && Automaton(10, t) == Reduce(12) && Automaton(12, t) == Reduce(6)
    ensures Automaton(13, t) == Reduce(14) && Automaton(14, t) == Reduce(7) && Automaton(18, t) == Reduce(9)
    ensures Automaton(19, t) == Reduce(11) && Automaton(20, t) == Reduce(10) && Automaton(21, t) == Reduce(17)
    ensures Automaton(22, t) == Reduce(13) && Automaton(24, t) == Reduce(8)
    ensures t != 4 ==> Automaton(11, t) == Reduce(16)
  {}

  lemma Shifting()
    ensures Automaton(1, 11) == Automaton(7, 11) == Automaton(15, 11) == Shift(2)
    ensures Automaton(1, 12) == Automaton(15, 12) == Shift(3)
    ensures Automaton(8, 5) == Shift(9) && Automaton(8, 6) == Shift(10) && Automaton(8, 8) == Shift(11)
    ensures Automaton(9, 6) == Shift(14) && Automaton(11, 4) == Shift(16) && Automaton(16, 9) == Shift(21)
    ensures Automaton(15, 7) == Shift(17) && Automaton(15, 10) == Shift(18)
    ensures Automaton(17, 8) == Shift(22) && Automaton(23, 6) == Shift(24)
  {}

  // A reduction by an empty rule pushes the state it leads to.
  lemma EmptyReduces(p: Parser, rule: int, q: int, m: Maker)
    requires Ready(p) && rule in {3, 5, 12, 15} && Automaton(p.Top(), p.Lookahead()) == Reduce(rule)
    requires Action(p, rule) == Built(m, "") && Transition(p.Top(), R1[rule]) == q
    ensures
      if |p.ss| + 1 < MAX_DEPTH then
        var p' := Over(p, [q], [""], p.rest, m); Ready(p') && Run(p) == Run(p')
      else Run(p).status == Returned(2)
  {
    hide Run, Decide, Automaton, Action, Transition;
    Rule(rule);
    Reduces(p, rule, m, "");
    assert p.ss[..|p.ss|] == p.ss && p.vs[..|p.vs|] == p.vs;
  }

  lemma EmptyTransitions(q: int)
    ensures Transition(q, R1[3]) == (if q == 5 then 7 else 1) && Transition(q, R1[5]) == 6
    ensures Transition(q, R1[12]) == 15 && Transition(q, R1[15]) == 8
  {}

  // An attribute on top of the attributes read so far joins them.
  lemma AttributeJoins(p: Parser, v: string, m: Maker, tail: seq<Token>)
    requires Ready(p) && p.Top() == 8 && 2 <= |p.ss| && |p.ss| + 1 < MAX_DEPTH && m.Valid()
    ensures Ready(Over(p, [13], [v], tail, m)) && Ready(p.(rest := tail, maker := m))
    ensures Run(Over(p, [13], [v], tail, m)) == Run(p.(rest := tail, maker := m))
  {
    hide Run, Automaton, Decide;
    var p' := Over(p, [13], [v], tail, m);
    Reductions(p'.Lookahead());
    Reduces(p', 14, m, p.vs[|p.vs| - 1]);
    assert p'.ss[..|p'.ss| - 2] + [8] == p.ss;
    assert p'.vs[..|p'.vs| - 2] + [p.vs[|p.vs| - 1]] == p.vs;
  }

  lemma NameReduces(p: Parser, name: string, tail: seq<Token>)
    requires Ready(p) && p.Top() == 8 && |p.ss| >= 2 && |p.ss| + 1 < MAX_DEPTH && p.maker.elements != []
    requires tail != [] ==> tail[0] != Eq
    ensures Ready(Over(p, [11], [name], tail, p.maker))
    ensures Run(Over(p, [11], [name], tail, p.maker)) == Run(p.(rest := tail, maker := p.maker.OnAttribute(name, "")))
  {
    hide Run, Decide;
    var p1 := Over(p, [11], [name], tail, p.maker);
    var m := p.maker.OnAttribute(name, "");
    Reduces(p1, 16, m, name);
    assert p1.ss[..|p.ss|] == p.ss && p1.vs[..|p.ss|] == p.vs;
    AttributeJoins(p, name, m, tail);
  }

  lemma NameValueReduces(p: Parser, name: string, value: string, tail: seq<Token>)
    requires Ready(p) && p.Top() == 8 && |p.ss| >= 2 && |p.ss| + 3 < MAX_DEPTH && p.maker.elements != []
    ensures Ready(Over(p, [11, 16, 21], [name, "", value], tail, p.maker))
    ensures Run(Over(p, [11, 16, 21], [name, "", value], tail, p.maker))
         == Run(p.(rest := tail, maker := p.maker.OnAttribute(name, value)))
  {
    hide Run, Decide;
    var p3 := Over(p, [11, 16, 21], [name, "", value], tail, p.maker);
    var m := p.maker.OnAttribute(name, value);
    Reduces(p3, 17, m, name);
    assert p3.ss[..|p.ss|] == p.ss && p3.vs[..|p.ss|] == p.vs;
    AttributeJoins(p, name, m, tail);
  }

  // NAME or NAME EQ VALUE.
  lemma AttributeRuns(p: Parser, a: Attribute, tail: seq<Token>)
    requires Ready(p) && p.Top() == 8 && |p.ss| >= 2 && p.maker.elements != []
    requires p.rest == AttributeTokens(a) + tail && (tail != [] ==> tail[0] != Eq)
    ensures
      if |p.ss| + (if a.value.None? then 1 else 3) < MAX_DEPTH then
        var value := match a.value case None => "" case Some(v) => v;
        var p' := p.(rest := tail, maker := p.maker.OnAttribute(a.name, value));
        Ready(p') && Run(p) == Run(p')
      else Run(p).status == Returned(2)
  {
    hide Run, Decide, Action, R1, R2;
    Shifts(p, 11);
    if |p.ss| + 1 < MAX_DEPTH {
      var p1 := Over(p, [11], [a.name], p.rest[1..], p.maker);
      if a.value.None? {
        assert p1.rest == tail;
        NameReduces(p, a.name, tail);
      } else {
        ValueShifts(p, p1, a.name, a.value.value, tail);
      }
    }
  }

  lemma ValueShifts(p: Parser, p1: Parser, name: string, value: string, tail: seq<Token>)
    requires Ready(p) && p.Top() == 8 && |p.ss| >= 2 && p.maker.elements != []
    requires Ready(p1) && p1 == Over(p, [11], [name], [Eq, Value(value)] + tail, p.maker)
    ensures
      if |p.ss| + 3 < MAX_DEPTH then
        var p' := p.(rest := tail, maker := p.maker.OnAttribute(name, value)); Ready(p') && Run(p1) == Run(p')
      else Run(p1).status == Returned(2)
  {
    hide Run, Decide, Action, R1, R2;
    Shifts(p1, 16);
    if |p.ss| + 2 < MAX_DEPTH {
      var p2 := Over(p1, [16], [""], [Value(value)] + tail, p.maker);
      assert p1.rest[1..] == p2.rest;
      Shifts(p2, 21);
      assert p2.rest[1..] == tail;
      if |p.ss| + 3 < MAX_DEPTH {
        NameValueReduces(p, name, value, tail);
        assert p.ss + [11, 16, 21] == p2.ss + [21];
        assert p.vs + [name, "", value] == p2.vs + [value];
      }
    }
  }

  lemma {:induction false} AttributesRun(p: Parser, attrs: seq<Attribute>, tail: seq<Token>)
    requires Ready(p) && p.Top() == 8 && |p.ss| >= 2 && p.maker.elements != []
    requires p.rest == AttributesTokens(attrs) + tail && tail != [] && tail[0] in {Slash, Close}
    ensures
      if |p.ss| - 3 + AttributesNeed(attrs) < MAX_DEPTH then
        var p' := p.(rest := tail, maker := WithAttributes(p.maker, attrs)); Ready(p') && Run(p) == Run(p')
      else Run(p).status == Returned(2)
    decreases |attrs|
  {
    hide Run, Automaton, Decide;
    if attrs == [] {
      assert p.rest == tail;
    } else {
      var a, others := attrs[0], AttributesTokens(attrs[1..]) + tail;
      assert p.rest == AttributeTokens(a) + others;
      assert others[0] != Eq by { if attrs[1..] != [] { assert others[0] == Name(attrs[1].name); } }
      AttributeRuns(p, a, others);
      if |p.ss| + (if a.value.None? then 1 else 3) < MAX_DEPTH {
        var m := p.maker.OnAttribute(a.name, match a.value case None => "" case Some(v) => v);
        AttributesRun(p.(rest := others, maker := m), attrs[1..], tail);
      }
    }
  }

  // A DATA, comment or element on top of the content read so far joins it.
  lemma ItemJoins(p: Parser, q: int, rule: int, v: string, tail: seq<Token>, m: Maker)
    requires Ready(p) && p.Top() == 15 && 2 <= |p.ss| && |p.ss| + 1 < MAX_DEPTH && m.Valid()
    requires (q == 19 && rule == 11) || (q == 20 && rule == 10)
    ensures Ready(Over(p, [q], [v], tail, m)) && Ready(p.(rest := tail, maker := m))
    ensures Run(Over(p, [q], [v], tail, m)) == Run(p.(rest := tail, maker := m))
  {
    hide Run, Decide;
    var p' := Over(p, [q], [v], tail, m);
    Reduces(p', rule, m, p.vs[|p.vs| - 1]);
    assert p'.ss[..|p'.ss| - 2] + [15] == p.ss;
    assert p'.vs[..|p'.vs| - 2] + [p.vs[|p.vs| - 1]] == p.vs;
  }

  lemma DataReduces(p: Parser, s: string, tail: seq<Token>)
    requires Ready(p) && p.Top() == 15 && 2 <= |p.ss| && |p.ss| + 1 < MAX_DEPTH && p.maker.elements != []
    ensures var p1 := Over(p, [18], [s], tail, p.maker);
      var p' := p.(rest := tail, maker := p.maker.OnData(s)); Ready(p1) && Ready(p') && Run(p1) == Run(p')
  {
    hide Run, Decide, Automaton;
    var p1 := Over(p, [18], [s], tail, p.maker);
    Reductions(p1.Lookahead());
    Reduces(p1, 9, p.maker.OnData(s), p.vs[|p.vs| - 1]);
    assert p1.ss[..|p1.ss| - 2] + [15] == p.ss;
    assert p1.vs[..|p1.vs| - 2] + [p.vs[|p.vs| - 1]] == p.vs;
  }

  lemma DataRuns(p: Parser, s: string, tail: seq<Token>)
    requires Ready(p) && p.Top() == 15 && 2 <= |p.ss| && p.maker.elements != []
    requires p.rest == [Data(s)] + tail
    ensures
      if |p.ss| + 1 < MAX_DEPTH then
        var p' := p.(rest := tail, maker := p.maker.OnData(s)); Ready(p') && Run(p) == Run(p')
      else Run(p).status == Returned(2)
  {
    hide Run, Decide, Automaton, Action;
    Shifting();
    Shifts(p, 18);
    assert p.rest[1..] == tail;
    if |p.ss| + 1 < MAX_DEPTH { DataReduces(p, s, tail); }
  }

  // A comment, in the content of an element or around the root.
  lemma CommentReduces(p: Parser, s: string, tail: seq<Token>)
    requires Ready(p) && p.Top() in {1, 7, 15} && |p.ss| + 1 < MAX_DEPTH
    ensures var p1 := Over(p, [2], [s], tail, p.maker);
      var p' := Over(p, [Transition(p.Top(), 15)], [s], tail, p.maker.OnComment(s));
      Ready(p1) && Ready(p') && Run(p1) == Run(p')
  {
    hide Run, Decide, Automaton;
    var p1 := Over(p, [2], [s], tail, p.maker);
    Reductions(p1.Lookahead());
    Reduces(p1, 4, p.maker.OnComment(s), s);
    assert p1.ss[..|p.ss|] == p.ss && p1.vs[..|p.ss|] == p.vs;
  }

  lemma CommentRuns(p: Parser, s: string, tail: seq<Token>)
    requires Ready(p) && p.Top() in {1, 7, 15} && p.rest == [Comment(s)] + tail
    ensures
      if |p.ss| + 1 < MAX_DEPTH then
        var p' := Over(p, [Transition(p.Top(), 15)], [s], tail, p.maker.OnComment(s)); Ready(p') && Run(p) == Run(p')
      else Run(p).status == Returned(2)
  {
    hide Run, Decide, Automaton, Action;
    Shifting();
    Shifts(p, 2);
    assert p.rest[1..] == tail;
    if |p.ss| + 1 < MAX_DEPTH { CommentReduces(p, s, tail); }
  }

  ghost predicate Good(e: Element, depth: int) { Matched(e) && depth + Need(e) < MAX_DEPTH }

  ghost predicate GoodItems(items: seq<Item>, depth: int) {
    AllMatched(items) && depth + ItemsNeed(items) < MAX_DEPTH
  }

  ghost predicate GoodItem(i: Item, depth: int) {
    match i case ElementItem(e) => Good(e, depth) case _ => depth + 1 < MAX_DEPTH
  }

  lemma GoodItemsSplit(items: seq<Item>, depth: int)
    requires items != []
    ensures GoodItems(items, depth) <==> GoodItem(items[0], depth) && GoodItems(items[1..], depth)
  {
    assert ItemMatched(items[0]) <==> (items[0].ElementItem? ==> Matched(items[0].e));
    assert ItemNeed(items[0]) == if items[0].ElementItem? then Need(items[0].e) else 1;
  }

  lemma ItemRuns(p: Parser, i: Item, tail: seq<Token>)
    requires Ready(p) && p.Top() == 15 && 2 <= |p.ss| && p.maker.elements != []
    requires p.rest == ItemTokens(i) + tail
    ensures
      if GoodItem(i, |p.ss|) then
        var p' := p.(rest := tail, maker := WithItem(p.maker, i)); Ready(p') && Run(p) == Run(p')
      else Run(p).status != Returned(0)
    decreases i
  {
    hide Run, Automaton, Decide;
    match i
    case DataItem(s) => DataRuns(p, s, tail);
    case CommentItem(s) =>
      CommentRuns(p, s, tail);
      if |p.ss| + 1 < MAX_DEPTH { ItemJoins(p, 19, 11, s, tail, p.maker.OnComment(s)); }
    case ElementItem(e) =>
      ElementRuns(p, e, tail);
      if Good(e, |p.ss|) { ItemJoins(p, 20, 10, e.name, tail, WithElement(p.maker, e)); }
  }

  lemma {:induction false} ItemsRun(p: Parser, items: seq<Item>, tail: seq<Token>)
    requires Ready(p) && p.Top() == 15 && 2 <= |p.ss| && p.maker.elements != []
    requires p.rest == ItemsTokens(items) + tail
    ensures
      if GoodItems(items, |p.ss|) then
        var p' := p.(rest := tail, maker := WithItems(p.maker, items)); Ready(p') && Run(p) == Run(p')
      else Run(p).status != Returned(0)
    decreases items
  {
    hide Run, Automaton, Decide;
    if items == [] {
      assert p.rest == tail;
    } else {
      var others := ItemsTokens(items[1..]) + tail;
      assert p.rest == ItemTokens(items[0]) + others;
      ItemRuns(p, items[0], others);
      GoodItemsSplit(items, |p.ss|);
      if GoodItem(items[0], |p.ss|) {
        var p1 := p.(rest := others, maker := WithItem(p.maker, items[0]));
        assert Run(p) == Run(p1);
        ItemsRun(p1, items[1..], tail);
        assert WithItems(p1.maker, items[1..]) == WithItems(p.maker, items);
      }
    }
  }

  ghost predicate GoodBody(b: Body, name: string, depth: int) {
    match b
    case Short => depth + 2 < MAX_DEPTH
    case Long(items, end) => end == name && depth + 5 < MAX_DEPTH && GoodItems(items, depth + 2)
  }

  lemma ShortReduces(p: Parser, tail: seq<Token>)
    requires Ready(p) && p.Top() == 8 && 2 <= |p.ss| && |p.ss| + 2 < MAX_DEPTH && p.maker.elements != []
    ensures var p2 := Over(p, [9, 14], ["", ""], tail, p.maker);
      var p' := Over(p, [12], [""], tail, p.maker.OnEnd()); Ready(p2) && Ready(p') && Run(p2) == Run(p')
  {
    hide Run, Decide, Automaton;
    var p2 := Over(p, [9, 14], ["", ""], tail, p.maker);
    Reductions(p2.Lookahead());
    Reduces(p2, 7, p.maker.OnEnd(), "");
    assert p2.ss[..|p.ss|] == p.ss && p2.vs[..|p.ss|] == p.vs;
  }

  // SLASH CLOSE.
  lemma ShortRuns(p: Parser, tail: seq<Token>)
    requires Ready(p) && p.Top() == 8 && 2 <= |p.ss| && p.maker.elements != []
    requires p.rest == [Slash, Close] + tail
    ensures
      if |p.ss| + 2 < MAX_DEPTH then
        var p' := Over(p, [12], [""], tail, p.maker.OnEnd()); Ready(p') && Run(p) == Run(p')
      else Run(p).status == Returned(2)
  {
    hide Run, Decide, Automaton, Action;
    Shifting();
    Shifts(p, 9);
    if |p.ss| + 1 < MAX_DEPTH {
      var p1 := Over(p, [9], [""], [Close] + tail, p.maker);
      assert p.rest[1..] == p1.rest;
      Shifts(p1, 14);
      assert p1.rest[1..] == tail;
      if |p.ss| + 2 < MAX_DEPTH {
        ShortReduces(p, tail);
        assert Over(p1, [14], [""], tail, p.maker) == Over(p, [9, 14], ["", ""], tail, p.maker);
      }
    }
  }

  // A loop that stops in its next round.
  lemma Stops(p: Parser, rule: int)
    requires Ready(p) && 1 <= rule <= 17 && Automaton(p.Top(), p.Lookahead()) == Reduce(rule)
    requires R2[rule] < |p.ss| && Action(p, rule) == Mismatch
    ensures Run(p).status == Returned(1)
  {
    hide Decide, Automaton, Action;
    TablesAreTheAutomaton(p.Top(), p.Lookahead());
    StepDescendsIfRunning(p);
  }

  // END NAME CLOSE on top of the content of an element opened as `name`.
  lemma EndTagReduces(p: Parser, name: string, end: string, tail: seq<Token>, m: Maker)
    requires Ready(p) && p.Top() == 8 && 2 <= |p.ss| && |p.ss| + 5 < MAX_DEPTH
    requires m.Valid() && m.elements != [] && m.nodes[m.Top()].name == name
    ensures
      var p' := Over(p, [10, 15, 17, 23, 24], ["", "", "", end, ""], tail, m);
      && Ready(p')
      && if end == name then
           Ready(Over(p, [12], [""], tail, m.OnEnd())) && Run(p') == Run(Over(p, [12], [""], tail, m.OnEnd()))
         else Run(p').status == Returned(1)
  {
    hide Run, Decide;
    var p' := Over(p, [10, 15, 17, 23, 24], ["", "", "", end, ""], tail, m);
    if end == name {
      Reduces(p', 8, m.OnEnd(), "");
      assert p'.ss[..|p.ss|] == p.ss && p'.vs[..|p.ss|] == p.vs;
    } else {
      Stops(p', 8);
    }
  }

  // The NAME of an end tag.
  lemma EndNameReduces(p: Parser, end: string, tail: seq<Token>, m: Maker)
    requires Ready(p) && p.Top() == 17 && 2 <= |p.ss| && |p.ss| + 1 < MAX_DEPTH && m.Valid()
    ensures var p1 := Over(p, [22], [end], tail, m);
      var p' := Over(p, [23], [end], tail, m); Ready(p1) && Ready(p') && Run(p1) == Run(p')
  {
    hide Run, Decide, Automaton;
    var p1 := Over(p, [22], [end], tail, m);
    Reductions(p1.Lookahead());
    Reduces(p1, 13, m, end);
    assert p1.ss[..|p.ss|] == p.ss && p1.vs[..|p.ss|] == p.vs;
  }

  // END NAME CLOSE, read.
  lemma EndTagShifts(p: Parser, end: string, tail: seq<Token>, m: Maker)
    requires Ready(p) && p.Top() == 15 && 2 <= |p.ss| && m.Valid() && m == p.maker
    requires p.rest == [End, Name(end), Close] + tail
    ensures
      if |p.ss| + 3 < MAX_DEPTH then
        var p' := Over(p, [17, 23, 24], ["", end, ""], tail, m); Ready(p') && Run(p) == Run(p')
      else Run(p).status == Returned(2)
  {
    hide Run, Decide, Automaton, Action;
    Shifting();
    Shifts(p, 17);
    if |p.ss| + 1 < MAX_DEPTH {
      var p1 := Over(p, [17], [""], [Name(end), Close] + tail, m);
      assert p.rest[1..] == p1.rest;
      Shifts(p1, 22);
      assert p1.rest[1..] == [Close] + tail;
      if |p.ss| + 2 < MAX_DEPTH {
        EndNameReduces(p1, end, [Close] + tail, m);
        var p2 := Over(p1, [23], [end], [Close] + tail, m);
        Shifts(p2, 24);
        assert p2.rest[1..] == tail;
        if |p.ss| + 3 < MAX_DEPTH {
          assert Over(p2, [24], [""], tail, m) == Over(p, [17, 23, 24], ["", end, ""], tail, m);
        }
      }
    }
  }

  lemma EndTagRuns(p: Parser, name: string, end: string, tail: seq<Token>, m: Maker)
    requires Ready(p) && p.Top() == 8 && 2 <= |p.ss| && |p.ss| + 2 < MAX_DEPTH
    requires m.Valid() && m.elements != [] && m.nodes[m.Top()].name == name
    ensures
      var p' := Over(p, [10, 15], ["", ""], [End, Name(end), Close] + tail, m);
      && Ready(p')
      && if end == name && |p.ss| + 5 < MAX_DEPTH then
           Ready(Over(p, [12], [""], tail, m.OnEnd())) && Run(p') == Run(Over(p, [12], [""], tail, m.OnEnd()))
         else Run(p').status != Returned(0)
  {
    hide Run, Decide, Automaton, Action;
    var p3 := Over(p, [10, 15], ["", ""], [End, Name(end), Close] + tail, m);
    EndTagShifts(p3, end, tail, m);
    if |p.ss| + 5 < MAX_DEPTH {
      EndTagReduces(p, name, end, tail, m);
      assert Over(p3, [17, 23, 24], ["", end, ""], tail, m)
          == Over(p, [10, 15, 17, 23, 24], ["", "", "", end, ""], tail, m);
    }
  }

  // The empty content after CLOSE.
  lemma ContentOpens(p: Parser, tail: seq<Token>)
    requires Ready(p) && p.Top() == 8 && 2 <= |p.ss| && |p.ss| + 1 < MAX_DEPTH
    ensures var p1 := Over(p, [10], [""], tail, p.maker);
      && Ready(p1)
      && if |p.ss| + 2 < MAX_DEPTH then
           var p' := Over(p, [10, 15], ["", ""], tail, p.maker); Ready(p') && Run(p1) == Run(p')
         else Run(p1).status == Returned(2)
  {
    hide Run, Automaton, Transition;
    var p1 := Over(p, [10], [""], tail, p.maker);
    Reductions(p1.Lookahead());
    EmptyTransitions(10);
    EmptyReduces(p1, 12, 15, p.maker);
    assert p1.ss + [15] == p.ss + [10, 15] && p1.vs + [""] == p.vs + ["", ""];
  }

  lemma BodyRuns(p: Parser, b: Body, name: string, tail: seq<Token>)
    requires Ready(p) && p.Top() == 8 && 2 <= |p.ss| && p.maker.elements != []
    requires p.maker.nodes[p.maker.Top()].name == name && p.rest == BodyTokens(b) + tail
    ensures
      if GoodBody(b, name, |p.ss|) then
        var p' := Over(p, [12], [""], tail, WithBody(p.maker, b).OnEnd()); Ready(p') && Run(p) == Run(p')
      else Run(p).status != Returned(0)
    decreases b
  {
    hide Run, Decide, Automaton, Action;
    match b
    case Short => ShortRuns(p, tail);
    case Long(items, end) =>
      Shifting();
      Shifts(p, 10);
      if |p.ss| + 1 < MAX_DEPTH {
        var t1 := [End, Name(end), Close] + tail;
        var t2 := ItemsTokens(items) + t1;
        assert p.rest[1..] == t2;
        ContentOpens(p, t2);
        if |p.ss| + 2 < MAX_DEPTH {
          ItemsRun(Over(p, [10, 15], ["", ""], t2, p.maker), items, t1);
          if GoodItems(items, |p.ss| + 2) { EndTagRuns(p, name, end, tail, WithItems(p.maker, items)); }
        }
      }
  }

  lemma StartReduces(p: Parser, name: string, tail: seq<Token>)
    requires Ready(p) && p.Top() in {1, 15} && |p.ss| + 1 < MAX_DEPTH
    ensures var (p1, m) := (Over(p, [3], [name], tail, p.maker), p.maker.OnStart(name));
      && Ready(p1)
      && if |p.ss| + 2 < MAX_DEPTH then
           var p' := Over(p, [3, 6], [name, ""], tail, m); Ready(p') && Run(p1) == Run(p')
         else Run(p1).status == Returned(2)
  {
    hide Run, Automaton, Transition;
    var p1, m := Over(p, [3], [name], tail, p.maker), p.maker.OnStart(name);
    Reductions(p1.Lookahead());
    EmptyTransitions(3);
    EmptyReduces(p1, 5, 6, m);
    assert p1.ss + [6] == p.ss + [3, 6] && p1.vs + [""] == p.vs + [name, ""];
  }

  // The empty list of attributes.
  lemma AttributesOpen(p: Parser)
    requires Ready(p) && p.Top() == 6
    ensures
      if |p.ss| + 1 < MAX_DEPTH then
        var p' := Over(p, [8], [""], p.rest, p.maker); Ready(p') && Run(p) == Run(p')
      else Run(p).status == Returned(2)
  {
    hide Run, Automaton, Transition;
    Reductions(p.Lookahead());
    EmptyTransitions(6);
    EmptyReduces(p, 15, 8, p.maker);
  }

  // START, which opens the element and its empty list of attributes.
  lemma StartRuns(p: Parser, name: string, tail: seq<Token>)
    requires Ready(p) && p.Top() in {1, 15} && p.rest == [Start(name)] + tail
    ensures
      if |p.ss| + 3 < MAX_DEPTH then
        var p' := Over(p, [3, 6, 8], [name, "", ""], tail, p.maker.OnStart(name)); Ready(p') && Run(p) == Run(p')
      else Run(p).status == Returned(2)
  {
    hide Run, Decide, Automaton, Action;
    Shifting();
    Shifts(p, 3);
    assert p.rest[1..] == tail;
    if |p.ss| + 1 < MAX_DEPTH {
      StartReduces(p, name, tail);
      if |p.ss| + 2 < MAX_DEPTH {
        var p2 := Over(p, [3, 6], [name, ""], tail, p.maker.OnStart(name));
        AttributesOpen(p2);
        assert p.ss + [3, 6, 8] == p2.ss + [8] && p.vs + [name, "", ""] == p2.vs + [""];
      }
    }
  }

  // START, attributes and body on top of the stack make an element.
  lemma ElementReduces(p: Parser, name: string, tail: seq<Token>, m: Maker)
    requires Ready(p) && p.Top() in {1, 15} && |p.ss| + 4 < MAX_DEPTH && m.Valid()
    ensures
      var p3 := Over(p, [3, 6, 8, 12], [name, "", "", ""], tail, m);
      var p' := Over(p, [Transition(p.Top(), 16)], [name], tail, m);
      Ready(p3) && Ready(p') && Run(p3) == Run(p')
  {
    hide Run, Decide, Automaton;
    var p3 := Over(p, [3, 6, 8, 12], [name, "", "", ""], tail, m);
    Reductions(p3.Lookahead());
    Reduces(p3, 6, m, name);
    assert p3.ss[..|p.ss|] == p.ss && p3.vs[..|p.ss|] == p.vs;
  }

  // START and the attributes after it.
  lemma TagRuns(p: Parser, name: string, attrs: seq<Attribute>, tail: seq<Token>)
    requires Ready(p) && p.Top() in {1, 15} && tail != [] && tail[0] in {Slash, Close}
    requires p.rest == [Start(name)] + (AttributesTokens(attrs) + tail)
    ensures
      if |p.ss| + 3 < MAX_DEPTH && |p.ss| + AttributesNeed(attrs) < MAX_DEPTH then
        var p' := Over(p, [3, 6, 8], [name, "", ""], tail, WithAttributes(p.maker.OnStart(name), attrs));
        Ready(p') && Run(p) == Run(p')
      else Run(p).status != Returned(0)
  {
    hide Run, Decide, Automaton, Action, AttributesNeed, AttributesTokens;
    var t1 := AttributesTokens(attrs) + tail;
    StartRuns(p, name, t1);
    if |p.ss| + 3 < MAX_DEPTH {
      AttributesRun(Over(p, [3, 6, 8], [name, "", ""], t1, p.maker.OnStart(name)), attrs, tail);
    }
  }

  lemma GoodElementSplits(e: Element, depth: int)
    ensures Good(e, depth) <==>
      depth + 3 < MAX_DEPTH && depth + AttributesNeed(e.attrs) < MAX_DEPTH && GoodBody(e.body, e.name, depth + 3)
  {
    hide AttributesNeed, ItemsNeed, AllMatched;
  }

  // The element just started is open, under its own name.
  lemma OpenElement(m: Maker, name: string, attrs: seq<Attribute>)
    requires m.Valid()
    ensures var m' := WithAttributes(m.OnStart(name), attrs);
      m'.elements != [] && m'.nodes[m'.Top()].name == name
  {
    hide WithAttributes;
    var m1 := m.OnStart(name);
    assert Extends(m1, WithAttributes(m1, attrs));
  }

  // A whole element, in the content of another or as the root.
  lemma {:induction false} ElementRuns(p: Parser, e: Element, tail: seq<Token>)
    requires Ready(p) && p.Top() in {1, 15} && p.rest == ElementTokens(e) + tail
    ensures
      if Good(e, |p.ss|) then
        var p' := Over(p, [Transition(p.Top(), 16)], [e.name], tail, WithElement(p.maker, e));
        Ready(p') && Run(p) == Run(p')
      else Run(p).status != Returned(0)
    decreases e
  {
    ElementSplits(p, e, tail);
    GoodElementSplits(e, |p.ss|);
    OpenElement(p.maker, e.name, e.attrs);
    BodyStarts(e.body, tail);
    hide Run, Transition, Good, GoodBody, AttributesNeed, BodyTokens, AttributesTokens, ElementTokens, WithAttributes,
      WithBody, Maker.OnStart;
    var t2 := BodyTokens(e.body) + tail;
    TagRuns(p, e.name, e.attrs, t2);
    if |p.ss| + 3 < MAX_DEPTH && |p.ss| + AttributesNeed(e.attrs) < MAX_DEPTH {
      var m2 := WithAttributes(p.maker.OnStart(e.name), e.attrs);
      var p2 := Over(p, [3, 6, 8], [e.name, "", ""], t2, m2);
      BodyRuns(p2, e.body, e.name, tail);
      if GoodBody(e.body, e.name, |p.ss| + 3) {
        var m := WithBody(m2, e.body).OnEnd();
        BodyOver(p, e.name, t2, m2, tail, m);
        ElementReduces(p, e.name, tail, m);
      }
    }
  }

  lemma ElementSplits(p: Parser, e: Element, tail: seq<Token>)
    requires p.rest == ElementTokens(e) + tail
    ensures p.rest == [Start(e.name)] + (AttributesTokens(e.attrs) + (BodyTokens(e.body) + tail))
  {}

  lemma BodyOver(p: Parser, name: string, t2: seq<Token>, m2: Maker, tail: seq<Token>, m: Maker)
    ensures Over(Over(p, [3, 6, 8], [name, "", ""], t2, m2), [12], [""], tail, m)
         == Over(p, [3, 6, 8, 12], [name, "", "", ""], tail, m)
  {
    assert p.ss + [3, 6, 8] + [12] == p.ss + [3, 6, 8, 12];
    assert p.vs + [name, "", ""] + [""] == p.vs + [name, "", "", ""];
  }

  lemma BodyStarts(b: Body, tail: seq<Token>)
    ensures BodyTokens(b) + tail != [] && (BodyTokens(b) + tail)[0] in {Slash, Close}
  {}

  // A comment around the root joins the comments before it, and is dropped.
  lemma MiscJoins(p: Parser, s: string, tail: seq<Token>)
    requires Ready(p) && p.Top() in {1, 7} && 2 <= |p.ss| && |p.ss| + 1 < MAX_DEPTH && p.maker.elements == []
    requires p.Top() == 7 <==> p.ss[|p.ss| - 2] == 5
    requires p.rest == [Comment(s)] + tail
    ensures Ready(p.(rest := tail)) && Run(p) == Run(p.(rest := tail))
  {
    hide Run, Decide, Automaton;
    CommentRuns(p, s, tail);
    var p1 := Over(p, [4], [s], tail, p.maker);
    assert Over(p, [Transition(p.Top(), 15)], [s], tail, p.maker) == p1;
    Reductions(p1.Lookahead());
    Reduces(p1, 2, p.maker, p.vs[|p.vs| - 1]);
    assert p1.ss[..|p1.ss| - 2] + [p.Top()] == p.ss;
    assert p1.vs[..|p1.vs| - 2] + [p.vs[|p.vs| - 1]] == p.vs;
  }

  lemma {:induction false} MiscRuns(p: Parser, cs: seq<string>, tail: seq<Token>)
    requires Ready(p) && p.Top() in {1, 7} && 2 <= |p.ss| && |p.ss| + 1 < MAX_DEPTH && p.maker.elements == []
    requires p.Top() == 7 <==> p.ss[|p.ss| - 2] == 5
    requires p.rest == CommentsTokens(cs) + tail
    ensures Ready(p.(rest := tail)) && Run(p) == Run(p.(rest := tail))
    decreases |cs|
  {
    hide Run, Decide, Automaton;
    if cs == [] {
      assert p.rest == tail;
    } else {
      var others := CommentsTokens(cs[1..]) + tail;
      assert p.rest == [Comment(cs[0])] + others;
      MiscJoins(p, cs[0], others);
      MiscRuns(p.(rest := others), cs[1..], tail);
    }
  }

  // The empty misc before the root, and the one after it.
  lemma MiscOpens(p: Parser)
    requires Ready(p) && p.Top() in {0, 5} && |p.ss| + 1 < MAX_DEPTH
    ensures var p' := Over(p, [if p.Top() == 0 then 1 else 7], [""], p.rest, p.maker);
      Ready(p') && Run(p) == Run(p')
  {
    hide Run, Automaton, Transition;
    Reductions(p.Lookahead());
    EmptyTransitions(p.Top());
    EmptyReduces(p, 3, if p.Top() == 0 then 1 else 7, p.maker);
  }

  lemma DocumentAccepted(p: Parser)
    requires Ready(p) && p.ss == [0, 1, 5, 7] && p.rest == []
    ensures Run(p).status == Returned(0) && Run(p).maker == p.maker
  {
    hide Run, Decide;
    Reduces(p, 1, p.maker, p.vs[1]);
    var p1 := p.(ss := [0, 25], vs := p.vs[..1] + [p.vs[1]]);
    assert p.ss[..1] + [25] == [0, 25];
    EndOfInputAccepted(p1);
  }

  lemma EndOfInputAccepted(p: Parser)
    requires Ready(p) && p.ss == [0, 25] && p.rest == []
    ensures Run(p).status == Returned(0) && Run(p).maker == p.maker
  {
    hide Run, Decide, Automaton, Action;
    assert Automaton(25, 0) == Shift(26) && Automaton(26, 0) == Accept by { FinalStates(); }
    TablesAreTheAutomaton(25, 0);
    StepDescendsIfRunning(p);
    var p1 := p.Push(26, "");
    TablesAreTheAutomaton(26, 0);
    StepDescendsIfRunning(p1);
  }

  lemma FinalStates()
    ensures Automaton(25, 0) == Shift(26) && Automaton(26, 0) == Accept
  {}

  lemma PrologRuns(before: seq<string>, tail: seq<Token>)
    ensures var p := Parser([0, 1], ["", ""], tail, NO_NODES, Running);
      Ready(p) && Parse(CommentsTokens(before) + tail) == Run(p)
  {
    hide Run, Decide, Automaton, Action, CommentsTokens;
    var p0 := Lalr.Begin(CommentsTokens(before) + tail);
    MiscOpens(p0);
    var p1 := Parser([0, 1], ["", ""], p0.rest, NO_NODES, Running);
    assert Over(p0, [1], [""], p0.rest, NO_NODES) == p1;
    MiscRuns(p1, before, tail);
  }

  lemma EpilogRuns(p: Parser, after: seq<string>)
    requires Ready(p) && p.ss == [0, 1, 5] && p.rest == CommentsTokens(after) && p.maker.elements == []
    ensures Run(p).status == Returned(0) && Run(p).maker == p.maker
  {
    hide Run, Decide, Automaton, Action, CommentsTokens;
    MiscOpens(p);
    var p1 := Over(p, [7], [""], p.rest, p.maker);
    assert p.rest == p.rest + [];
    MiscRuns(p1, after, []);
    DocumentAccepted(p1.(rest := []));
  }

  // Completeness: which derivations of `document` are accepted, and what is built.
  lemma DocumentRuns(d: Document)
    ensures Parse(DocumentTokens(d)).status == Returned(0) <==> Matched(d.root) && FitsStack(d)
    ensures Matched(d.root) && FitsStack(d) ==> Parse(DocumentTokens(d)).maker == WithElement(NO_NODES, d.root)
  {
    hide Run, Decide, Automaton, Action, ElementTokens, CommentsTokens, Need, Parse;
    var t2 := CommentsTokens(d.after);
    var t1 := ElementTokens(d.root) + t2;
    assert DocumentTokens(d) == CommentsTokens(d.before) + t1;
    PrologRuns(d.before, t1);
    var p := Parser([0, 1], ["", ""], t1, NO_NODES, Running);
    ElementRuns(p, d.root, t2);
    if Good(d.root, 2) { EpilogRuns(Over(p, [5], [d.root.name], t2, WithElement(NO_NODES, d.root)), d.after); }
  }
}
