// Threads that append through one rollingfile appender, one file operation or
// one assignment at a time.
module Threads {
  import opened Rollover
  import opened Conservation

  // Where a thread is inside rollingfile_append.
  datatype Pc = Outside | Testing | Rolling(k: int, rc: int, phase: Phase) | Writing | Counting | Unlocking

  // s is shared.  done[t] counts the appends thread t has finished; order
  // records who took the lock, for which message.
  datatype System = System(s: State, owner: int, pcs: seq<Pc>, done: seq<nat>, order: seq<(nat, Message)>)

  type Programs = seq<seq<Message>>

  predicate Fits(progs: Programs, y: System) {
    && |y.pcs| == |progs| == |y.done|
    && forall t | 0 <= t < |progs| :: y.done[t] <= |progs[t]| && (y.pcs[t] != Outside ==> y.done[t] < |progs[t]|)
  }

  // One step of the thread that holds the lock, for message m.
  function Inside(c: Config, faults: Faults, s: State, pc: Pc, m: Message): (r: (State, Pc))
    requires pc != Outside && pc != Unlocking
  {
    match pc
    case Testing =>
      if Triggers(c, s.size, m) then var r := Begin(c, s); (s, Rolling(r.k, r.rc, r.phase)) else (s, Writing)
    case Rolling(k, rc, phase) =>
      if phase == Done then (s.(size := 0), Writing)
      else var r := Step(c, faults, Roll(s, k, rc, phase)); (r.s, Rolling(r.k, r.rc, r.phase))
    case Writing => (s.(disk := Fprintf(s.disk, s.stream, m)), Counting)
    case Counting => (s.(size := s.size + |m|), Unlocking)
  }

  // One step of thread t.  A thread that waits for the lock stays where it is.
  function Move(c: Config, faults: Faults, progs: Programs, y: System, t: nat): (y': System)
    requires t < |progs| && Fits(progs, y)
  {
    match y.pcs[t]
    case Outside =>
      if y.done[t] < |progs[t]| && y.owner == -1
      then y.(owner := t, pcs := y.pcs[t := Testing], order := y.order + [(t, progs[t][y.done[t]])])
      else y
    case Unlocking =>
      y.(owner := -1, pcs := y.pcs[t := Outside], done := y.done[t := y.done[t] + 1])
    case _ =>
      var (s, pc) := Inside(c, faults, y.s, y.pcs[t], progs[t][y.done[t]]);
      y.(s := s, pcs := y.pcs[t := pc])
  }

  function Initial(progs: Programs, s: State): (y: System) {
    System(s, -1, seq(|progs|, _ => Outside), seq(|progs|, _ => 0), [])
  }

  function Messages(order: seq<(nat, Message)>): (ms: seq<Message>) {
    if order == [] then [] else Messages(order[..|order| - 1]) + [order[|order| - 1].1]
  }

  // The messages of thread t, in the order it got the lock for them.
  function Of(order: seq<(nat, Message)>, t: nat): (ms: seq<Message>) {
    if order == [] then []
    else Of(order[..|order| - 1], t) + if order[|order| - 1].0 == t then [order[|order| - 1].1] else []
  }

  // The state in which a message is written, once the size has been tested.
  ghost function Ready(c: Config, faults: Faults, s: State, m: Message): State {
    if Triggers(c, s.size, m) then Roller(c, faults, s).s.(size := 0) else s
  }

  ghost predicate Halfway(c: Config, faults: Faults, before: State, m: Message, s: State, pc: Pc) {
    match pc
    case Outside => false
    case Testing => s == before
    case Rolling(k, rc, phase) =>
      && Triggers(c, before.size, m) && Sound(c, Roll(s, k, rc, phase))
      && Finish(c, faults, Roll(s, k, rc, phase)) == Roller(c, faults, before)
    case Writing => s == Ready(c, faults, before, m)
    case Counting => var r := Ready(c, faults, before, m); s == r.(disk := Fprintf(r.disk, r.stream, m))
    case Unlocking => s == Append(c, faults, before, m)
  }

  lemma InsideStaysHalfway(c: Config, faults: Faults, before: State, m: Message, s: State, pc: Pc)
    requires pc != Outside && pc != Unlocking && Halfway(c, faults, before, m, s, pc)
    ensures var (s', pc') := Inside(c, faults, s, pc, m); Halfway(c, faults, before, m, s', pc')
  {
    match pc
    case Rolling(k, rc, phase) =>
      if phase != Done { StepDescends(c, faults, Roll(s, k, rc, phase)); }
    case _ =>
  }

  // Each thread got the lock for its messages in order; the owner is one ahead.
  ghost predicate Counted(progs: Programs, y: System) {
    && Fits(progs, y)
    && -1 <= y.owner < |progs|
    && (forall t | 0 <= t < |progs| :: y.pcs[t] == Outside <==> t != y.owner)
    && forall t: nat | t < |progs| ::
         Of(y.order, t) == progs[t][..y.done[t] + if t == y.owner then 1 else 0]
  }

  // The appends done are a serial run, and the owner is in the middle of one more.
  ghost predicate Serial(c: Config, faults: Faults, progs: Programs, s0: State, y: System) {
    && Counted(progs, y)
    && if y.owner == -1 then y.s == AppendAll(c, faults, s0, Messages(y.order))
       else
         && y.order != []
         && var (before, last) := (y.order[..|y.order| - 1], y.order[|y.order| - 1]);
         && last == (y.owner, progs[y.owner][y.done[y.owner]])
         && Halfway(c, faults, AppendAll(c, faults, s0, Messages(before)), last.1, y.s, y.pcs[y.owner])
  }

  lemma MoveStaysCounted(c: Config, faults: Faults, progs: Programs, y: System, t: nat)
    requires t < |progs| && Counted(progs, y)
    requires y.pcs[t] != Outside && y.pcs[t] != Unlocking ==>
      Inside(c, faults, y.s, y.pcs[t], progs[t][y.done[t]]).1 != Outside
    ensures Counted(progs, Move(c, faults, progs, y, t))
  {
    hide Inside;
    var y' := Move(c, faults, progs, y, t);
    forall u: nat | u < |progs|
      ensures Of(y'.order, u) == progs[u][..y'.done[u] + if u == y'.owner then 1 else 0]
    {
      if y'.order != y.order {
        assert y'.order[..|y.order|] == y.order;
        if u == t { assert progs[u][..y.done[u] + 1] == progs[u][..y.done[u]] + [progs[u][y.done[u]]]; }
      }
    }
  }

  lemma MoveStaysSerial(c: Config, faults: Faults, progs: Programs, s0: State, y: System, t: nat)
    requires t < |progs| && Serial(c, faults, progs, s0, y)
    ensures Serial(c, faults, progs, s0, Move(c, faults, progs, y, t))
  {
    var y' := Move(c, faults, progs, y, t);
    if y.pcs[t] == Outside {
      if y' != y { assert y'.order[..|y.order|] == y.order; }
    } else if y.pcs[t] == Unlocking {
      var before, last := y.order[..|y.order| - 1], y.order[|y.order| - 1];
      var ms := Messages(y.order);
      assert ms[..|ms| - 1] == Messages(before);
    } else {
      var before := y.order[..|y.order| - 1];
      InsideStaysHalfway(c, faults, AppendAll(c, faults, s0, Messages(before)), progs[t][y.done[t]], y.s, y.pcs[t]);
    }
    MoveStaysCounted(c, faults, progs, y, t);
  }

  // A run: the threads move in the order the scheduler picks.
  function Run(c: Config, faults: Faults, progs: Programs, y: System, schedule: seq<nat>): (y': System)
    requires Fits(progs, y) && forall i | 0 <= i < |schedule| :: schedule[i] < |progs|
    ensures Fits(progs, y')
  {
    if schedule == [] then y
    else Move(c, faults, progs, Run(c, faults, progs, y, schedule[..|schedule| - 1]), schedule[|schedule| - 1])
  }

  // Linearizability: whenever the lock is free, whatever failed, the state is
  // that of the appends done one at a time, in an order that keeps each thread's own.
  lemma {:induction false} RunIsSerial(c: Config, faults: Faults, progs: Programs, s0: State, schedule: seq<nat>)
    requires forall i | 0 <= i < |schedule| :: schedule[i] < |progs|
    ensures Serial(c, faults, progs, s0, Run(c, faults, progs, Initial(progs, s0), schedule))
  {
    if schedule == [] {
    } else {
      var before := schedule[..|schedule| - 1];
      RunIsSerial(c, faults, progs, s0, before);
      MoveStaysSerial(c, faults, progs, s0, Run(c, faults, progs, Initial(progs, s0), before),
          schedule[|schedule| - 1]);
    }
  }

  // When every thread is through, the files are those of a merge of the programs.
  lemma FinishedRunIsMerge(c: Config, faults: Faults, progs: Programs, s0: State, schedule: seq<nat>)
    requires forall i | 0 <= i < |schedule| :: schedule[i] < |progs|
    requires var y := Run(c, faults, progs, Initial(progs, s0), schedule);
      forall t | 0 <= t < |progs| :: y.done[t] == |progs[t]|
    ensures var y := Run(c, faults, progs, Initial(progs, s0), schedule);
      && y.s == AppendAll(c, faults, s0, Messages(y.order))
      && forall t: nat | t < |progs| :: Of(y.order, t) == progs[t]
  {
    RunIsSerial(c, faults, progs, s0, schedule);
  }

  // How many appends the first t threads still have to do.
  ghost function Left(progs: Programs, y: System, t: nat): nat
    requires t <= |progs| && Fits(progs, y)
  {
    if t == 0 then 0 else Left(progs, y, t - 1) + |progs[t - 1]| - y.done[t - 1]
  }

  lemma {:induction false} LeftAfter(progs: Programs, y: System, y': System, u: nat, t: nat)
    requires t <= |progs| && u < |progs| && Fits(progs, y) && Fits(progs, y')
    requires y'.done == y.done || y'.done == y.done[u := y.done[u] + 1]
    ensures Left(progs, y', t) == Left(progs, y, t) - if y'.done != y.done && u < t then 1 else 0
  {
    if t > 0 { LeftAfter(progs, y, y', u, t - 1); }
  }

  // Where the append under way stands.
  ghost function Stage(y: System): (nat, nat)
    requires -1 <= y.owner < |y.pcs|
  {
    if y.owner == -1 then (5, 0)
    else
      match y.pcs[y.owner]
      case Outside => (6, 0)
      case Testing => (4, 0)
      case Rolling(k, _, phase) => (3, Rank(phase, k))
      case Writing => (2, 0)
      case Counting => (1, 0)
      case Unlocking => (0, 0)
  }

  lemma {:induction false} RunFirst(c: Config, faults: Faults, progs: Programs, y: System, t: nat, schedule: seq<nat>)
    requires Fits(progs, y) && t < |progs| && forall i | 0 <= i < |schedule| :: schedule[i] < |progs|
    ensures Fits(progs, Move(c, faults, progs, y, t))
    ensures Run(c, faults, progs, y, [t] + schedule)
         == Run(c, faults, progs, Move(c, faults, progs, y, t), schedule)
  {
    hide Move;
    var all := [t] + schedule;
    if schedule == [] {
      assert all[..0] == [];
      assert Run(c, faults, progs, y, all) == Move(c, faults, progs, Run(c, faults, progs, y, all[..0]), all[0]);
    } else {
      var n := |schedule| - 1;
      assert all[..n + 1] == [t] + schedule[..n];
      RunFirst(c, faults, progs, y, t, schedule[..n]);
    }
  }

  // A move of the right thread: the one that holds the lock, or one with something to do.
  lemma MoveDescends(c: Config, faults: Faults, progs: Programs, s0: State, y: System, t: nat)
    requires t < |progs| && Serial(c, faults, progs, s0, y)
    requires if y.owner == -1 then y.done[t] < |progs[t]| else y.owner == t
    ensures var y' := Move(c, faults, progs, y, t);
      && Serial(c, faults, progs, s0, y') && Fits(progs, y')
      && (if y.owner == t && y.pcs[t] == Unlocking then Left(progs, y', |progs|) < Left(progs, y, |progs|)
          else
            && Left(progs, y', |progs|) == Left(progs, y, |progs|)
            && (Stage(y').0 < Stage(y).0 || (Stage(y').0 == Stage(y).0 && Stage(y').1 < Stage(y).1)))
  {
    var y' := Move(c, faults, progs, y, t);
    MoveStaysSerial(c, faults, progs, s0, y, t);
    LeftAfter(progs, y, y', t, |progs|);
    if y.owner == t {
      var pc := y.pcs[t];
      if pc.Rolling? && pc.phase != Done { StepDescends(c, faults, Roll(y.s, pc.k, pc.rc, pc.phase)); }
    }
  }

  ghost predicate AllDone(progs: Programs, y: System) {
    |y.done| == |progs| && y.owner == -1 && forall t | 0 <= t < |progs| :: y.done[t] == |progs[t]|
  }

  // No thread can be stuck: from every reachable state some schedule takes all
  // of them through their programs.
  lemma {:induction false} SomeScheduleFinishes(c: Config, faults: Faults, progs: Programs, s0: State, y: System)
    returns (schedule: seq<nat>)
    requires Serial(c, faults, progs, s0, y)
    ensures forall i | 0 <= i < |schedule| :: schedule[i] < |progs|
    ensures AllDone(progs, Run(c, faults, progs, y, schedule))
    decreases Left(progs, y, |progs|), Stage(y).0, Stage(y).1
  {
    hide *;
    SerialFits(c, faults, progs, s0, y);
    if AllDone(progs, y) {
      schedule := [];
      RunNothing(c, faults, progs, y);
    } else {
      var t: nat := Next(c, faults, progs, s0, y);
      MoveDescends(c, faults, progs, s0, y, t);
      SerialFits(c, faults, progs, s0, Move(c, faults, progs, y, t));
      var rest := SomeScheduleFinishes(c, faults, progs, s0, Move(c, faults, progs, y, t));
      RunFirst(c, faults, progs, y, t, rest);
      schedule := [t] + rest;
    }
  }

  lemma SerialFits(c: Config, faults: Faults, progs: Programs, s0: State, y: System)
    requires Serial(c, faults, progs, s0, y)
    ensures Fits(progs, y) && |y.done| == |progs| == |y.pcs| && -1 <= y.owner < |progs|
  {}

  lemma RunNothing(c: Config, faults: Faults, progs: Programs, y: System)
    requires Fits(progs, y)
    ensures Run(c, faults, progs, y, []) == y
  {}

  lemma Next(c: Config, faults: Faults, progs: Programs, s0: State, y: System) returns (t: nat)
    requires Serial(c, faults, progs, s0, y)
    requires !AllDone(progs, y)
    ensures t < |progs| && if y.owner == -1 then y.done[t] < |progs[t]| else y.owner == t
  {
    if y.owner == -1 {
      t :| 0 <= t < |progs| && y.done[t] != |progs[t]|;
    } else {
      t := y.owner;
    }
  }

  // So the programs of all threads do get done, and as some merge.
  lemma {:induction false} EveryProgramFinishes(c: Config, faults: Faults, progs: Programs, s0: State)
    returns (schedule: seq<nat>)
    ensures forall i | 0 <= i < |schedule| :: schedule[i] < |progs|
    ensures var y := Run(c, faults, progs, Initial(progs, s0), schedule);
      && (forall t | 0 <= t < |progs| :: y.done[t] == |progs[t]|)
      && y.s == AppendAll(c, faults, s0, Messages(y.order))
      && forall t: nat | t < |progs| :: Of(y.order, t) == progs[t]
  {
    RunIsSerial(c, faults, progs, s0, []);
    schedule := SomeScheduleFinishes(c, faults, progs, s0, Initial(progs, s0));
    FinishedRunIsMerge(c, faults, progs, s0, schedule);
  }

  // On a reliable disk, whenever the lock is free, the window is full of whole
  // segments of the merge.
  lemma {:induction false} FreeLockMeansWindow(c: Config, faults: Faults, progs: Programs, d: Disk, schedule: seq<nat>)
    requires c.Valid() && Reliable(faults)
    requires forall i | 0 <= i < |schedule| :: schedule[i] < |progs|
    ensures var y := Run(c, faults, progs, Initial(progs, Open(c, faults, d)), schedule);
      y.owner == -1 ==> Holds(c, y.s, Take(Segments(c, Messages(y.order)) + Front(c, d.files), c.maxFiles), d.files)
  {
    hide Run, Open, Holds, Segments, Front, AppendAll, Messages, Take;
    RunIsSerial(c, faults, progs, Open(c, faults, d), schedule);
    var y := Run(c, faults, progs, Initial(progs, Open(c, faults, d)), schedule);
    RunKeepsNewestFiles(c, faults, d, Messages(y.order));
  }
}
