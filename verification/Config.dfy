// Loading a configuration (rc.c) as a sequence of keyed assignments.
module Config {
  import opened Option
  import Category

  // What the factories hold, and the fields of log4c_rc.
  datatype CategoryRec = CategoryRec(priority: int, additive: bool, appender: Option<string>)
  datatype AppenderRec = AppenderRec(kind: Option<string>, layout: string)
  datatype LayoutRec = LayoutRec(kind: Option<string>)

  datatype State = State(nocleanup: int, bufsize: int, debug: int, reread: int,
                         categories: map<string, CategoryRec>,
                         appenders: map<string, AppenderRec>,
                         layouts: map<string, LayoutRec>)

  // The library version, the tables of known types, and the conversions of strings.
  datatype Env = Env(version: string, appenderTypes: set<string>, layoutTypes: set<string>,
                     atoi: string -> int, strtol: string -> int, priority: string -> int)

  datatype Op =
    | SetNocleanup(v: int) | SetBufsize(v: int) | SetDebug(v: int) | SetReread(v: int)
    | TouchCategory(name: string) | SetPriority(name: string, v: int) | SetAdditive(name: string, b: bool)
    | SetAppender(name: string, target: string)
    | TouchAppender(name: string) | SetAppenderType(name: string, kind: Option<string>)
    | SetLayout(name: string, target: string)
    | TouchLayout(name: string) | SetLayoutType(name: string, kind: Option<string>)

  // log4c_category_new, log4c_appender_new, log4c_layout_new and the default layouts.
  const NEW_CATEGORY := CategoryRec(Category.NOTSET, true, None)
  const NEW_APPENDER := AppenderRec(Some("stream"), "basic")

  function NewLayout(name: string): LayoutRec { LayoutRec(Some(if name == "dated" then "dated" else "basic")) }

  function CategoryOf(s: State, n: string): CategoryRec { if n in s.categories then s.categories[n] else NEW_CATEGORY }
  function AppenderOf(s: State, n: string): AppenderRec { if n in s.appenders then s.appenders[n] else NEW_APPENDER }
  function LayoutOf(s: State, n: string): LayoutRec { if n in s.layouts then s.layouts[n] else NewLayout(n) }

  // One assignment; setting a field of an object makes the object when it is not there.
  function Do(s: State, op: Op): State {
    match op
    case SetNocleanup(v) => s.(nocleanup := v)
    case SetBufsize(v) => s.(bufsize := v)
    case SetDebug(v) => s.(debug := v)
    case SetReread(v) => s.(reread := v)
    case TouchCategory(n) => s.(categories := s.categories[n := CategoryOf(s, n)])
    case SetPriority(n, v) => s.(categories := s.categories[n := CategoryOf(s, n).(priority := v)])
    case SetAdditive(n, b) => s.(categories := s.categories[n := CategoryOf(s, n).(additive := b)])
    case SetAppender(n, a) => s.(categories := s.categories[n := CategoryOf(s, n).(appender := Some(a))])
    case TouchAppender(n) => s.(appenders := s.appenders[n := AppenderOf(s, n)])
    case SetAppenderType(n, k) => s.(appenders := s.appenders[n := AppenderOf(s, n).(kind := k)])
    case SetLayout(n, l) => s.(appenders := s.appenders[n := AppenderOf(s, n).(layout := l)])
    case TouchLayout(n) => s.(layouts := s.layouts[n := LayoutOf(s, n)])
    case SetLayoutType(n, k) => s.(layouts := s.layouts[n := LayoutRec(k)])
  }

  function Run(s: State, ops: seq<Op>): State { if ops == [] then s else Do(Run(s, ops[..|ops| - 1]), ops[|ops| - 1]) }

  lemma {:induction false} RunJoins(s: State, a: seq<Op>, b: seq<Op>)
    ensures Run(s, a + b) == Run(Run(s, a), b)
  {
    if b == [] {
      assert a + b == a;
    } else {
      RunJoins(s, a, b[..|b| - 1]);
      assert (a + b)[..|a + b| - 1] == a + b[..|b| - 1];
    }
  }

  // The places an assignment can go to, and what is in them.
  datatype Key =
    | Nocleanup | Bufsize | Debug | Reread
    | Priority(name: string) | Additive(name: string) | Appender(name: string)
    | AppenderType(name: string) | Layout(name: string)
    | LayoutType(name: string)

  datatype Value = Int(i: int) | Bool(b: bool) | Name(n: Option<string>)

  function Read(s: State, k: Key): Option<Value> {
    match k
    case Nocleanup => Some(Int(s.nocleanup))
    case Bufsize => Some(Int(s.bufsize))
    case Debug => Some(Int(s.debug))
    case Reread => Some(Int(s.reread))
    case Priority(n) => if n in s.categories then Some(Int(s.categories[n].priority)) else None
    case Additive(n) => if n in s.categories then Some(Bool(s.categories[n].additive)) else None
    case Appender(n) => if n in s.categories then Some(Name(s.categories[n].appender)) else None
    case AppenderType(n) => if n in s.appenders then Some(Name(s.appenders[n].kind)) else None
    case Layout(n) => if n in s.appenders then Some(Name(Some(s.appenders[n].layout))) else None
    case LayoutType(n) => if n in s.layouts then Some(Name(s.layouts[n].kind)) else None
  }

  // What a place holds when its object is new.
  function Default(k: Key): Value {
    match k
    case Priority(_) => Int(Category.NOTSET)
    case Additive(_) => Bool(true)
    case Appender(_) => Name(None)
    case AppenderType(_) => Name(Some("stream"))
    case Layout(_) => Name(Some("basic"))
    case LayoutType(n) => Name(NewLayout(n).kind)
    case _ => Int(0)
  }

  // The value an assignment gives to a place.
  function Sets(op: Op, k: Key): Option<Value> {
    match (op, k)
    case (SetNocleanup(v), Nocleanup) => Some(Int(v))
    case (SetBufsize(v), Bufsize) => Some(Int(v))
    case (SetDebug(v), Debug) => Some(Int(v))
    case (SetReread(v), Reread) => Some(Int(v))
    case (SetPriority(n, v), Priority(m)) => if n == m then Some(Int(v)) else None
    case (SetAdditive(n, b), Additive(m)) => if n == m then Some(Bool(b)) else None
    case (SetAppender(n, a), Appender(m)) => if n == m then Some(Name(Some(a))) else None
    case (SetAppenderType(n, t), AppenderType(m)) => if n == m then Some(Name(t)) else None
    case (SetLayout(n, l), Layout(m)) => if n == m then Some(Name(Some(l))) else None
    case (SetLayoutType(n, t), LayoutType(m)) => if n == m then Some(Name(t)) else None
    case _ => None
  }

  // Whether an assignment makes sure the object of a place exists.
  predicate Touches(op: Op, k: Key) {
    match op
    case TouchCategory(n) => (k.Priority? || k.Additive? || k.Appender?) && k.name == n
    case SetPriority(n, _) => (k.Priority? || k.Additive? || k.Appender?) && k.name == n
    case SetAdditive(n, _) => (k.Priority? || k.Additive? || k.Appender?) && k.name == n
    case SetAppender(n, _) => (k.Priority? || k.Additive? || k.Appender?) && k.name == n
    case TouchAppender(n) => (k.AppenderType? || k.Layout?) && k.name == n
    case SetAppenderType(n, _) => (k.AppenderType? || k.Layout?) && k.name == n
    case SetLayout(n, _) => (k.AppenderType? || k.Layout?) && k.name == n
    case TouchLayout(n) => k.LayoutType? && k.name == n
    case SetLayoutType(n, _) => k.LayoutType? && k.name == n
    case _ => false
  }

  lemma ReadDo(s: State, op: Op, k: Key)
    ensures Read(Do(s, op), k) ==
      if Sets(op, k).Some? then Sets(op, k)
      else if Touches(op, k) && Read(s, k) == None then Some(Default(k))
      else Read(s, k)
  {}

  function LastSet(ops: seq<Op>, k: Key): Option<Value> {
    if ops == [] then None
    else if Sets(ops[|ops| - 1], k).Some? then Sets(ops[|ops| - 1], k)
    else LastSet(ops[..|ops| - 1], k)
  }

  predicate Touched(ops: seq<Op>, k: Key) { exists op :: op in ops && Touches(op, k) }

  // After any assignments a place holds the last value given to it, else what
  // it held, else the default if its object had to be made.
  lemma {:induction false} ReadRun(s: State, ops: seq<Op>, k: Key)
    ensures Read(Run(s, ops), k) ==
      if LastSet(ops, k).Some? then LastSet(ops, k)
      else if Touched(ops, k) && Read(s, k) == None then Some(Default(k))
      else Read(s, k)
  {
    if ops != [] {
      var before, op := ops[..|ops| - 1], ops[|ops| - 1];
      ReadRun(s, before, k);
      ReadDo(Run(s, before), op, k);
      hide Read, Do, Sets, Touches, Default;
      assert ops == before + [op];
      assert Touched(ops, k) <==> Touched(before, k) || Touches(op, k);
    }
  }

  // States with the same values in all places are the same.
  lemma SameReads(s: State, t: State)
    requires forall k :: Read(s, k) == Read(t, k)
    ensures s == t
  {
    assert Read(s, Nocleanup) == Read(t, Nocleanup) && Read(s, Bufsize) == Read(t, Bufsize);
    assert Read(s, Debug) == Read(t, Debug) && Read(s, Reread) == Read(t, Reread);
    forall n ensures n in s.categories <==> n in t.categories
      ensures n in s.categories ==> s.categories[n] == t.categories[n] {
      assert Read(s, Priority(n)) == Read(t, Priority(n)) && Read(s, Additive(n)) == Read(t, Additive(n));
      assert Read(s, Appender(n)) == Read(t, Appender(n));
    }
    forall n ensures n in s.appenders <==> n in t.appenders
      ensures n in s.appenders ==> s.appenders[n] == t.appenders[n] {
      assert Read(s, AppenderType(n)) == Read(t, AppenderType(n)) && Read(s, Layout(n)) == Read(t, Layout(n));
    }
    forall n ensures n in s.layouts <==> n in t.layouts
      ensures n in s.layouts ==> s.layouts[n] == t.layouts[n] {
      assert Read(s, LayoutType(n)) == Read(t, LayoutType(n));
    }
    assert s.categories == t.categories && s.appenders == t.appenders && s.layouts == t.layouts;
  }

  // Making the same assignments again changes nothing.
  lemma RunTwice(s: State, ops: seq<Op>)
    ensures Run(Run(s, ops), ops) == Run(s, ops)
  {
    forall k ensures Read(Run(Run(s, ops), ops), k) == Read(Run(s, ops), k) {
      ReadRun(s, ops, k);
      ReadRun(Run(s, ops), ops, k);
    }
    SameReads(Run(Run(s, ops), ops), Run(s, ops));
  }

  // No two assignments disagree on a place.
  ghost predicate Agree(ops: seq<Op>) {
    forall a, b, k | a in ops && b in ops && Sets(a, k).Some? && Sets(b, k).Some? :: Sets(a, k) == Sets(b, k)
  }

  lemma {:induction false} LastSetIs(ops: seq<Op>, k: Key)
    ensures LastSet(ops, k) == None ==> forall a | a in ops :: Sets(a, k) == None
    ensures LastSet(ops, k).Some? ==> exists a :: a in ops && Sets(a, k) == LastSet(ops, k)
  {
    if ops != [] {
      LastSetIs(ops[..|ops| - 1], k);
      hide Sets;
      var before, op := ops[..|ops| - 1], ops[|ops| - 1];
      assert ops == before + [op] && op in ops;
      if Sets(op, k) == None && LastSet(before, k).Some? {
        var a :| a in before && Sets(a, k) == LastSet(before, k);
        assert a in ops;
      }
    }
  }

  // When they agree, their order does not matter.
  lemma OrderDoesNotMatter(s: State, ops: seq<Op>, ops': seq<Op>)
    requires Agree(ops) && forall a :: a in ops <==> a in ops'
    ensures Run(s, ops) == Run(s, ops')
  {
    forall k ensures Read(Run(s, ops), k) == Read(Run(s, ops'), k) {
      ReadRun(s, ops, k);
      ReadRun(s, ops', k);
      LastSetIs(ops, k);
      LastSetIs(ops', k);
    }
    SameReads(Run(s, ops), Run(s, ops'));
  }

  // Two sequences give every place the same last value, and make the same objects.
  ghost predicate SameLast(ops: seq<Op>, ops': seq<Op>) {
    forall k ::
      LastSet(ops, k) == LastSet(ops', k) && (LastSet(ops, k) == None ==> (Touched(ops, k) <==> Touched(ops', k)))
  }

  const BLANK := State(0, 0, 0, 0, map[], map[], map[])

  // The kind of value a place holds.
  predicate Fits(k: Key, v: Value) {
    match k
    case Priority(_) => v.Int?
    case Additive(_) => v.Bool?
    case Appender(_) => v.Name? && v.n.Some?
    case AppenderType(_) => v.Name?
    case Layout(_) => v.Name? && v.n.Some?
    case LayoutType(_) => v.Name?
    case _ => v.Int?
  }

  function Assign(k: Key, v: Value): (op: Op)
    requires Fits(k, v)
    ensures Sets(op, k) == Some(v)
  {
    match k
    case Nocleanup => SetNocleanup(v.i)
    case Bufsize => SetBufsize(v.i)
    case Debug => SetDebug(v.i)
    case Reread => SetReread(v.i)
    case Priority(n) => SetPriority(n, v.i)
    case Additive(n) => SetAdditive(n, v.b)
    case Appender(n) => SetAppender(n, v.n.value)
    case AppenderType(n) => SetAppenderType(n, v.n)
    case Layout(n) => SetLayout(n, v.n.value)
    case LayoutType(n) => SetLayoutType(n, v.n)
  }

  function Other(k: Key, v: Value): (w: Value)
    requires Fits(k, v)
    ensures Fits(k, w) && w != v
  {
    match v
    case Int(i) => Int(i + 1)
    case Bool(b) => Bool(!b)
    case Name(n) => if n == None then Name(Some("")) else Name(Some(n.value + "x"))
  }

  lemma LastSetFits(ops: seq<Op>, k: Key)
    requires LastSet(ops, k).Some?
    ensures Fits(k, LastSet(ops, k).value)
  {
    LastSetIs(ops, k);
    hide LastSet;
    var a :| a in ops && Sets(a, k) == LastSet(ops, k);
  }

  // A state that tells sequences apart that end with different values for k.
  lemma {:induction false} TellsApart(ops: seq<Op>, ops': seq<Op>, k: Key) returns (s: State)
    requires LastSet(ops, k).Some? && LastSet(ops, k) != LastSet(ops', k)
    ensures Run(s, ops) != Run(s, ops')
  {
    LastSetFits(ops, k);
    hide LastSet, Run, Touched, Fits, Sets, Touches;
    var op := Assign(k, Other(k, LastSet(ops, k).value));
    s := Do(BLANK, op);
    ReadDo(BLANK, op, k);
    ReadRun(s, ops, k);
    ReadRun(s, ops', k);
  }

  lemma {:induction false} MakesMore(ops: seq<Op>, ops': seq<Op>, k: Key)
    requires LastSet(ops, k) == LastSet(ops', k) == None && Touched(ops, k) && !Touched(ops', k)
    ensures Run(BLANK, ops) != Run(BLANK, ops')
  {
    ReadRun(BLANK, ops, k);
    ReadRun(BLANK, ops', k);
    hide LastSet, Run;
    var op :| op in ops && Touches(op, k);
    assert Read(BLANK, k) == None;
  }

  // From every state two sequences of assignments have the same effect, if and
  // only if they end with the same values and make the same objects.
  lemma {:induction false} SameEffectExactlyWhen(ops: seq<Op>, ops': seq<Op>)
    ensures (forall s :: Run(s, ops) == Run(s, ops')) <==> SameLast(ops, ops')
  {
    if SameLast(ops, ops') {
      forall s ensures Run(s, ops) == Run(s, ops') {
        forall k ensures Read(Run(s, ops), k) == Read(Run(s, ops'), k) {
          ReadRun(s, ops, k);
          ReadRun(s, ops', k);
        }
        SameReads(Run(s, ops), Run(s, ops'));
      }
    } else {
      hide LastSet, Run, Touched;
      var k :|
        !(LastSet(ops, k) == LastSet(ops', k) && (LastSet(ops, k) == None ==> (Touched(ops, k) <==> Touched(ops', k))));
      if LastSet(ops, k) != LastSet(ops', k) {
        if LastSet(ops, k).Some? { var s := TellsApart(ops, ops', k); } else { var s := TellsApart(ops', ops, k); }
      } else if Touched(ops, k) {
        MakesMore(ops, ops', k);
      } else {
        MakesMore(ops', ops, k);
      }
    }
  }
}
