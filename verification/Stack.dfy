// The growing and shrinking array stack of stack.c.
module Stack {
  import opened Option

  const INIT_SIZE := 32
  const INT_MAX := 0x7fff_ffff

  // What decides when the array is reallocated, and the slots copied so far by
  // doing so.  With a maximum below INIT_SIZE the array starts larger than that,
  // and reallocating it trips the assertion of sd_stack_push: the process is gone.
  datatype Shape = Shape(sp: nat, size: nat, max: nat, copied: nat, aborted: bool) {
    predicate Valid() { sp <= size && INIT_SIZE <= size && (size <= max || size == INIT_SIZE) }

    predicate Overflows() { sp == size > max }

    // sd_stack_push: when the array is full it doubles, as far as max allows.
    function Push(): (s: Shape)
      requires Valid()
      ensures s.Valid()
    {
      if aborted then this
      else if sp < size then this.(sp := sp + 1)
      else if size == max then this
      else if Overflows() then this.(aborted := true)
      else Shape(sp + 1, if size * 2 > max then max else size * 2, max, copied + size, false)
    }

    // sd_stack_pop: when less than a quarter of a large array is in use it halves.
    function Pop(): (s: Shape)
      requires Valid()
      ensures s.Valid()
    {
      if sp == 0 || aborted then this
      else if size >= INIT_SIZE * 4 && sp < size / 4 then Shape(sp - 1, size / 2, max, copied + size / 2, false)
      else this.(sp := sp - 1)
    }

    // Credit saved up for the next reallocation.
    function Credit(): nat {
      if size < max && 2 * sp > size then 2 * sp - size
      else if size >= INIT_SIZE * 4 && sp < size / 2 then 2 * (size / 2 - sp)
      else 0
    }

    // A large array is never less than a quarter full, but for one slot.
    predicate Occupied() { size >= INIT_SIZE * 4 ==> sp >= size / 4 - 1 }
  }

  datatype Op<T> = Push(x: T) | Pop

  function New(max: nat): Shape { Shape(0, INIT_SIZE, if max == 0 then INT_MAX else max, 0, false) }

  function Run<T>(max: nat, ops: seq<Op<T>>): (s: Shape)
    ensures s.Valid() && s.max == New(max).max
  {
    if ops == [] then New(max)
    else
      var s := Run(max, ops[..|ops| - 1]);
      if ops[|ops| - 1].Push? then s.Push() else s.Pop()
  }

  // Each operation pays for its share of the copying with two slots.
  lemma PushPays(s: Shape)
    requires s.Valid() && s.Occupied()
    ensures s.Push().Occupied()
    ensures s.Push().copied + s.Push().Credit() <= s.copied + s.Credit() + 2
  {}

  lemma PopPays(s: Shape)
    requires s.Valid() && s.Occupied()
    ensures s.Pop().Occupied()
    ensures s.Pop().copied + s.Pop().Credit() <= s.copied + s.Credit() + 2
  {}

  // Over any n pushes and pops the reallocations copy at most 2n slots.
  lemma {:induction false} AmortisedCost<T>(max: nat, ops: seq<Op<T>>)
    ensures Run(max, ops).Occupied()
    ensures Run(max, ops).copied + Run(max, ops).Credit() <= 2 * |ops|
  {
    if ops != [] {
      var before := ops[..|ops| - 1];
      AmortisedCost(max, before);
      PushPays(Run(max, before));
      PopPays(Run(max, before));
    }
  }

  // The stack the operations stand for, and what a pop from it returns.
  function Contents<T>(max: nat, ops: seq<Op<T>>): (s: seq<T>)
    ensures |s| == Run(max, ops).sp
  {
    if ops == [] then []
    else
      var (s, shape) := (Contents(max, ops[..|ops| - 1]), Run(max, ops[..|ops| - 1]));
      match ops[|ops| - 1]
      case Push(x) => if Full(shape, |s|) then s else s + [x]
      case Pop => if s == [] || shape.aborted then s else s[..|s| - 1]
  }

  // A push on n elements does not go through: the stack holds its maximum, or
  // an array that started larger is full.
  predicate Full(shape: Shape, n: nat) {
    shape.aborted || n == if shape.max < INIT_SIZE then INIT_SIZE else shape.max
  }

  // The last operation made the difference.
  lemma OneMore<T>(max: nat, ops: seq<Op<T>>, op: Op<T>)
    ensures Run(max, ops + [op]) == if op.Push? then Run(max, ops).Push() else Run(max, ops).Pop()
    ensures Contents(max, ops + [op]) ==
      var (s, shape) := (Contents(max, ops), Run(max, ops));
      match op
      case Push(x) => if Full(shape, |s|) then s else s + [x]
      case Pop => if s == [] || shape.aborted then s else s[..|s| - 1]
  {
    assert (ops + [op])[..|ops|] == ops;
  }

  class Stack<T(0)> {
    var max: nat
    var sp: nat
    var size: nat
    var slots: array<T>
    ghost var copied: nat
    ghost var history: seq<Op<T>>

    // The stack is what the operations since sd_stack_new make it.
    ghost predicate Valid()
      reads this, slots
    {
      && max > 0 && slots.Length == size
      && Shape(sp, size, max, copied, false) == Run(max, history)
      && slots[..sp] == Contents(max, history)
    }

    // sd_stack_new.
    constructor (max: nat)
      ensures Valid() && fresh(slots) && history == [] && this.max == if max == 0 then 0x7fff_ffff else max
    {
      this.max := if max == 0 then INT_MAX else max;
      size, sp, copied, history := INIT_SIZE, 0, 0, [];
      slots := new T[INIT_SIZE];
    }

    // realloc: the slots both arrays have are copied.
    method Realloc(newSize: nat)
      requires sp <= newSize && sp <= slots.Length
      modifies this`size, this`slots, this`copied
      ensures fresh(slots) && slots.Length == size == newSize && slots[..sp] == old(slots[..sp])
      ensures copied == old(copied) + if newSize < old(slots.Length) then newSize else old(slots.Length)
    {
      var a := new T[newSize];
      var n := if newSize < slots.Length then newSize else slots.Length;
      for i := 0 to n
        invariant a[..i] == slots[..i]
        modifies a
      {
        a[i] := slots[i];
      }
      assert a[..sp] == a[..n][..sp];
      size, slots, copied := newSize, a, copied + n;
    }

    // sd_stack_push, with its assertion.
    method Push(data: T) returns (rc: int)
      requires Valid() && !Shape(sp, size, max, copied, false).Overflows()
      modifies this, slots
      ensures Valid() && max == old(max) && history == old(history) + [Op.Push(data)]
      ensures rc == if old(sp) == max >= INIT_SIZE then -1 else 0
      ensures slots == old(slots) || fresh(slots)
    {
      OneMore(max, history, Op.Push(data));
      history := history + [Op.Push(data)];
      if sp == size {
        if size == max { return -1; }
        Realloc(if size * 2 > max then max else size * 2);
      }
      slots[sp] := data;
      sp := sp + 1;
      return 0;
    }

    // sd_stack_pop.
    method Pop() returns (data: Option<T>)
      requires Valid()
      modifies this
      ensures Valid() && max == old(max) && history == old(history) + [Op.Pop]
      ensures data == Top(Contents(max, old(history)))
      ensures slots == old(slots) || fresh(slots)
    {
      OneMore(max, history, Op.Pop);
      history := history + [Op.Pop];
      if sp == 0 { return None; }
      if size >= INIT_SIZE * 4 && sp < size / 4 {
        Realloc(size / 2);
      }
      sp := sp - 1;
      return Some(slots[sp]);
    }

    // sd_stack_peek.
    method Peek() returns (data: Option<T>)
      requires Valid()
      ensures data == Top(Contents(max, history))
    {
      if sp == 0 { return None; }
      return Some(slots[sp - 1]);
    }
  }

  function Top<T>(s: seq<T>): Option<T> { if s == [] then None else Some(s[|s| - 1]) }

  // The bound on the copying and on the waste, for the stack in memory.
  lemma CopiesAtMostTwice<T(0)>(s: Stack<T>)
    requires s.Valid()
    ensures s.copied <= 2 * |s.history|
    ensures s.size >= INIT_SIZE * 4 ==> s.sp >= s.size / 4 - 1
    ensures s.sp <= s.size && (s.max >= INIT_SIZE ==> s.size <= s.max) && (s.max < INIT_SIZE ==> s.size == INIT_SIZE)
  {
    AmortisedCost(s.max, s.history);
  }

  // Last in, first out: what comes back after matching pushes and pops is what was there.
  lemma PopUndoesPush<T>(max: nat, ops: seq<Op<T>>, x: T)
    requires !Full(Run(max, ops), Run(max, ops).sp)
    ensures Top(Contents(max, ops + [Push(x)])) == Some(x)
    ensures Contents(max, ops + [Push(x), Pop]) == Contents(max, ops)
  {
    OneMore(max, ops, Push(x));
    OneMore(max, ops + [Push(x)], Pop);
    assert ops + [Push(x), Pop] == (ops + [Push(x)]) + [Pop];
  }

  function Pushes<T>(x: T, n: nat): (ops: seq<Op<T>>)
    ensures |ops| == n
  {
    seq(n, _ => Op.Push(x))
  }

  lemma {:induction false} PushesFill<T>(max: nat, x: T, n: nat)
    requires n <= INIT_SIZE
    ensures Run(max, Pushes(x, n)) == New(max).(sp := n)
  {
    if n > 0 {
      PushesFill(max, x, n - 1);
      assert Pushes(x, n) == Pushes(x, n - 1) + [Op.Push(x)];
      OneMore(max, Pushes(x, n - 1), Op.Push(x));
    }
  }

  // A maximum is kept, and no push trips the assertion, exactly when it is none
  // or at least 32; a smaller one is passed by the pushes that fill the
  // first array, and one push more is the end.
  lemma {:induction false} MaximumKeptExactlyWhen<T>(max: nat, x: T)
    ensures (forall ops: seq<Op<T>> :: Run(max, ops).sp <= New(max).max) <==> max == 0 || max >= 32
    ensures (forall ops: seq<Op<T>> :: !Run(max, ops).aborted) <==> max == 0 || max >= 32
    ensures 0 < max < 32 ==>
      Run(max, Pushes(x, 32)).sp > max && Run(max, Pushes(x, 33)).aborted
  {
    if 0 < max < INIT_SIZE {
      var full := Pushes(x, INIT_SIZE);
      PushesFill(max, x, INIT_SIZE);
      assert Pushes(x, INIT_SIZE + 1) == full + [Op.Push(x)];
      OneMore(max, full, Op.Push(x));
      assert Run(max, full).sp > New(max).max && Run(max, full + [Op.Push(x)]).aborted;
    } else {
      forall ops: seq<Op<T>> ensures !Run(max, ops).aborted && Run(max, ops).sp <= New(max).max {
        NeverAborts(max, ops);
      }
    }
  }

  lemma {:induction false} NeverAborts<T>(max: nat, ops: seq<Op<T>>)
    requires max == 0 || max >= INIT_SIZE
    ensures !Run(max, ops).aborted && Run(max, ops).sp <= Run(max, ops).size <= Run(max, ops).max
  {
    if ops != [] { NeverAborts(max, ops[..|ops| - 1]); }
  }
}
