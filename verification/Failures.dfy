// Runs on a disk on which any unlink, rename, fopen or fclose may fail.
module Failures {
  import opened Rollover
  import opened Conservation

  // The streams numbered a, a+1, ..., b-1.
  function Handles(a: nat, b: nat): seq<Stream>
    requires a <= b
  {
    seq(b - a, i requires 0 <= i < b - a => Handle(a + i))
  }

  ghost predicate SameOutside(n: int, a: map<int, File>, b: map<int, File>) {
    forall j | !(0 <= j < n) :: (j in a <==> j in b) && (j in a && j in b ==> a[j] == b[j])
  }

  // The streams opened since disk d that are not open any more, `current` apart.
  ghost predicate ClosedButOne(d: Disk, now: Disk, current: Stream) {
    && d.opens <= now.opens
    && match current
       case Handle(id) => d.opens < now.opens && id == now.opens - 1 && now.closed == d.closed + Handles(d.opens, id)
       case _ => now.closed == d.closed + Handles(d.opens, now.opens)
  }

  // The appender of a process that started on disk d, between two rollovers.
  ghost predicate Consistent(c: Config, d: Disk, s: State) {
    && -1 <= s.lastIndex < c.maxFiles
    && SameOutside(c.maxFiles, d.files, s.disk.files)
    && (s.openFailed <==> s.stream == Stderr)
    && (s.lastIndex == -1 ==> s.stream == NoStream)
    && ClosedButOne(d, s.disk, s.stream)
  }

  // ... and in the middle of one.
  ghost predicate ConsistentRoll(c: Config, d: Disk, r: Roll) {
    match r.phase
    case Creating => Consistent(c, d, r.s) && r.s.lastIndex == -1
    case Unlinking => Consistent(c, d, r.s) && 0 <= r.s.lastIndex == r.k == c.maxFiles - 1 && r.rc == 0
    case Closing =>
      Consistent(c, d, r.s) && 0 <= r.s.lastIndex && -1 <= r.k < c.maxFiles && (r.rc == 0 ==> r.k < c.maxFiles - 1)
    case Renaming(i) => BetweenStreams(c, d, r.s) && -1 <= i <= r.k < c.maxFiles - 1
    case Opening => BetweenStreams(c, d, r.s)
    case Done => Opened(c, d, r.s)
  }

  ghost predicate BetweenStreams(c: Config, d: Disk, s: State) {
    && 0 <= s.lastIndex < c.maxFiles
    && SameOutside(c.maxFiles, d.files, s.disk.files)
    && (s.openFailed <==> s.stream == Stderr)
    && ClosedButOne(d, s.disk, NoStream)
  }

  // After the first open: never a null stream, and the counter is the length
  // of file 0 unless the messages go to stderr.
  ghost predicate Opened(c: Config, d: Disk, s: State) {
    && Consistent(c, d, s) && 0 <= s.lastIndex && s.stream != NoStream
    && (s.stream.Handle? ==> 0 in s.disk.files)
  }

  lemma StepStaysConsistent(c: Config, faults: Faults, d: Disk, r: Roll)
    requires c.Valid() && ConsistentRoll(c, d, r) && r.phase != Done
    ensures ConsistentRoll(c, d, Step(c, faults, r))
    ensures Step(c, faults, r).phase == Done ==>
      var s := Step(c, faults, r).s; s.stream.Handle? ==> s.disk.files[0] == []
  {
    if r.phase == Closing && r.s.stream.Handle? {
      assert Handles(d.opens, r.s.disk.opens) == Handles(d.opens, r.s.stream.id) + [r.s.stream];
    }
  }

  lemma {:induction false} FinishStaysConsistent(c: Config, faults: Faults, d: Disk, r: Roll)
    requires c.Valid() && Sound(c, r) && ConsistentRoll(c, d, r) && r.phase != Done
    ensures Opened(c, d, Finish(c, faults, r).s)
    ensures var s := Finish(c, faults, r).s; s.stream.Handle? ==> s.disk.files[0] == []
    decreases Rank(r.phase, r.k)
  {
    StepStaysConsistent(c, faults, d, r);
    StepDescends(c, faults, r);
    if Step(c, faults, r).phase != Done { FinishStaysConsistent(c, faults, d, Step(c, faults, r)); }
  }

  ghost predicate Counting(s: State) {
    s.stream.Handle? ==> 0 in s.disk.files && s.size == Bytes(s.disk.files[0])
  }

  lemma RollerStaysConsistent(c: Config, faults: Faults, d: Disk, s: State)
    requires c.Valid() && Opened(c, d, s)
    ensures Opened(c, d, Roller(c, faults, s).s.(size := 0)) && Counting(Roller(c, faults, s).s.(size := 0))
  {
    hide Finish;
    FinishStaysConsistent(c, faults, d, Begin(c, s));
    assert Bytes([]) == 0;
  }

  lemma WriteStaysConsistent(c: Config, d: Disk, s: State, m: Message)
    requires Opened(c, d, s) && Counting(s)
    ensures Opened(c, d, Written(s, m)) && Counting(Written(s, m))
  {
    hide Bytes;
    if s.stream.Handle? { BytesOfOne(s.disk.files[0], m); }
  }

  lemma OpenIsConsistent(c: Config, faults: Faults, d: Disk)
    requires c.Valid()
    ensures Opened(c, d, Open(c, faults, d)) && Counting(Open(c, faults, d))
  {
    hide Finish;
    FinishStaysConsistent(c, faults, d, Begin(c, Fresh(c, d)));
    assert Bytes([]) == 0;
  }

  // Every reachable state, whatever fails.
  lemma {:induction false} RunStaysConsistent(c: Config, faults: Faults, d: Disk, ms: seq<Message>)
    requires c.Valid()
    ensures var s := AppendAll(c, faults, Open(c, faults, d), ms);
      Opened(c, d, s) && Counting(s)
  {
    hide Finish, Roller, Opened, Counting;
    if ms == [] {
      OpenIsConsistent(c, faults, d);
    } else {
      RunStaysConsistent(c, faults, d, ms[..|ms| - 1]);
      var s, m := AppendAll(c, faults, Open(c, faults, d), ms[..|ms| - 1]), ms[|ms| - 1];
      RollerStaysConsistent(c, faults, d, s);
      WriteStaysConsistent(c, d, if Triggers(c, s.size, m) then Roller(c, faults, s).s.(size := 0) else s, m);
    }
  }

  // The size test, in every reachable state whose stream is a file: a rollover
  // is triggered exactly when the message, written as things are, would take
  // file 0 over the limit.
  lemma {:induction false} TriggersExactlyWhenFull(c: Config, faults: Faults, d: Disk, ms: seq<Message>, m: Message)
    requires c.Valid()
    ensures var s := AppendAll(c, faults, Open(c, faults, d), ms);
      s.stream.Handle? ==>
        && 0 in Written(s, m).disk.files
        && (Triggers(c, s.size, m) <==> c.maxSize > 0 && Bytes(Written(s, m).disk.files[0]) > c.maxSize)
  {
    hide AppendAll, Open, Bytes;
    RunStaysConsistent(c, faults, d, ms);
    var s := AppendAll(c, faults, Open(c, faults, d), ms);
    if s.stream.Handle? { BytesOfOne(s.disk.files[0], m); }
  }

  // Where file 0 and the console are in a rollover that began with them as in `before`.
  ghost predicate Quiet(before: Disk, now: Disk) {
    now.console == before.console
    && (0 in now.files ==> 0 in before.files && now.files[0] == before.files[0])
  }

  // A rollover writes nothing; file 0 is empty after it, or as it was, or gone.
  lemma {:induction false} FinishWritesNothing(c: Config, faults: Faults, r: Roll, before: Disk)
    requires Sound(c, r) && r.phase != Done && Quiet(before, r.s.disk)
    ensures var s := Finish(c, faults, r).s;
      if s.openFailed then s.stream == Stderr && Quiet(before, s.disk)
      else s.stream.Handle? && s.disk.console == before.console && 0 in s.disk.files && s.disk.files[0] == []
    decreases Rank(r.phase, r.k)
  {
    var r1 := Step(c, faults, r);
    StepDescends(c, faults, r);
    assert Finish(c, faults, r) == Finish(c, faults, r1);
    if r1.phase != Done {
      hide Finish, Rank;
      assert Quiet(before, r1.s.disk);
      FinishWritesNothing(c, faults, r1, before);
    } else {
      assert Finish(c, faults, r1) == r1;
    }
  }

  // The messages appended while the stream was stderr.
  ghost function ToStderr(c: Config, faults: Faults, d: Disk, ms: seq<Message>): seq<Message>
    requires c.Valid()
  {
    if ms == [] then []
    else
      ToStderr(c, faults, d, ms[..|ms| - 1])
      + if AppendAll(c, faults, Open(c, faults, d), ms).stream == Stderr then [ms[|ms| - 1]] else []
  }

  // Where a message goes, whatever has failed: to the end of file 0, which a
  // rollover has emptied if its time had come, or to the end of the console.
  lemma {:induction false} MessageGoesSomewhere(c: Config, faults: Faults, d: Disk, ms: seq<Message>, m: Message)
    requires c.Valid()
    ensures
      var (s, s') := (AppendAll(c, faults, Open(c, faults, d), ms), AppendAll(c, faults, Open(c, faults, d), ms + [m]));
      var rolls := |Segments(c, ms + [m])| > |Segments(c, ms)|;
      if s'.stream == Stderr then
        && s'.disk.console == s.disk.console + [m]
        && (0 in s'.disk.files ==> 0 in s.disk.files && s'.disk.files[0] == s.disk.files[0])
      else
        && s'.stream.Handle? && 0 in s'.disk.files && s'.disk.console == s.disk.console
        && (if rolls then s'.disk.files[0] == [m] else 0 in s.disk.files && s'.disk.files[0] == s.disk.files[0] + [m])
  {
    var s := AppendAll(c, faults, Open(c, faults, d), ms);
    assert (ms + [m])[..|ms|] == ms;
    RunStaysConsistent(c, faults, d, ms);
    CounterIsSegment(c, faults, d, ms);
    hide Open, Finish, Bytes;
    if Triggers(c, s.size, m) { FinishWritesNothing(c, faults, Begin(c, s), s.disk); }
  }

  lemma {:induction false} OpenWritesNothing(c: Config, faults: Faults, d: Disk)
    requires c.Valid()
    ensures Open(c, faults, d).disk.console == d.console
  {
    FinishWritesNothing(c, faults, Begin(c, Fresh(c, d)), d);
  }

  // And over a whole run: the console gains those messages, in order, and no others.
  lemma {:induction false} ConsoleIsToStderr(c: Config, faults: Faults, d: Disk, ms: seq<Message>)
    requires c.Valid()
    ensures AppendAll(c, faults, Open(c, faults, d), ms).disk.console == d.console + ToStderr(c, faults, d, ms)
  {
    if ms == [] {
      OpenWritesNothing(c, faults, d);
    } else {
      var before, m := ms[..|ms| - 1], ms[|ms| - 1];
      assert before + [m] == ms;
      ConsoleIsToStderr(c, faults, d, before);
      MessageGoesSomewhere(c, faults, d, before, m);
      hide AppendAll, Open, Segments;
      assert (d.console + ToStderr(c, faults, d, before)) + [m] == d.console + (ToStderr(c, faults, d, before) + [m]);
    }
  }

  // The policy reports a failed open, except of the very first file.
  lemma {:induction false} ReturnCode(c: Config, faults: Faults, s: State)
    requires -1 <= s.lastIndex < c.maxFiles
    ensures var r := Roller(c, faults, s);
      r.rc == if r.s.openFailed && s.lastIndex >= 0 then 1 else 0
  {
    if s.lastIndex < 0 {
      var r := Begin(c, s);
      assert Finish(c, faults, r) == Finish(c, faults, Step(c, faults, r)) == Step(c, faults, r);
    } else {
      ReturnCodeOnceOpen(c, faults, Begin(c, s));
    }
  }

  lemma {:induction false} ReturnCodeOnceOpen(c: Config, faults: Faults, r: Roll)
    requires Sound(c, r) && r.phase != Done && r.phase != Creating
    ensures var e := Finish(c, faults, r); e.rc == if e.s.openFailed then 1 else 0
    decreases Rank(r.phase, r.k)
  {
    StepDescends(c, faults, r);
    if Step(c, faults, r).phase != Done { ReturnCodeOnceOpen(c, faults, Step(c, faults, r)); }
  }

  // A first open that fails, and is not reported.
  lemma {:induction false} FirstOpenFails(c: Config, faults: Faults, d: Disk)
    requires c.Valid() && d.files == map[] && faults(d.clock)
    ensures var r := Roller(c, faults, Fresh(c, d)); r.rc == 0 && r.s.stream == Stderr && r.s.openFailed
  {
    var r := Begin(c, Fresh(c, d));
    assert Finish(c, faults, r) == Finish(c, faults, Step(c, faults, r)) == Step(c, faults, r);
  }

  // A file missing at index j in 1..lastIndex: no rename gets past it.
  ghost predicate HoleAt(s: State, j: int) { 1 <= j <= s.lastIndex && j !in s.disk.files }

  ghost predicate Doomed(s: State) { exists j :: HoleAt(s, j) }

  // Every file with a positive index holds what such a file held before.
  ghost predicate NothingArchived(before: map<int, File>, after: map<int, File>) {
    forall x | x in after && x > 0 :: Among(before, after[x])
  }

  ghost predicate Among(files: map<int, File>, f: File) {
    exists y :: y in files && y > 0 && files[y] == f
  }

  ghost predicate DoomedRoll(c: Config, r: Roll, j: int) {
    && HoleAt(r.s, j) && r.s.lastIndex < c.maxFiles
    && match r.phase
       case Creating => false
       case Unlinking => r.k == r.s.lastIndex == c.maxFiles - 1
       case Closing => r.rc == 0 ==> j <= r.k
       case Renaming(i) => j <= i
       case _ => true
  }

  lemma {:induction false} FinishDoomed(c: Config, faults: Faults, r: Roll, j: int)
    requires Sound(c, r) && DoomedRoll(c, r, j)
    ensures var s := Finish(c, faults, r).s;
      HoleAt(s, j) && s.lastIndex == r.s.lastIndex && NothingArchived(r.s.disk.files, s.disk.files)
    decreases Rank(r.phase, r.k)
  {
    if r.phase != Done {
      var r1 := Step(c, faults, r);
      assert DoomedRoll(c, r1, j) && NothingArchived(r.s.disk.files, r1.s.disk.files);
      StepDescends(c, faults, r);
      FinishDoomed(c, faults, r1, j);
    }
  }

  // A doomed appender never archives a message again, whatever the disk does:
  // each rollover only empties file 0.
  lemma {:induction false} DoomedForever(c: Config, faults: Faults, s: State, j: int, ms: seq<Message>)
    requires c.Valid() && HoleAt(s, j) && s.lastIndex < c.maxFiles
    ensures var s' := AppendAll(c, faults, s, ms);
      HoleAt(s', j) && s'.lastIndex == s.lastIndex && NothingArchived(s.disk.files, s'.disk.files)
  {
    if ms != [] {
      var before, m := ms[..|ms| - 1], ms[|ms| - 1];
      DoomedForever(c, faults, s, j, before);
      var s1 := AppendAll(c, faults, s, before);
      FinishDoomed(c, faults, Begin(c, s1), j);
    }
  }

  // The files below the gap at stop+1 have not moved, those above it have.
  ghost predicate Gap(from: map<int, File>, k: int, stop: int, now: map<int, File>) {
    forall j | j >= 1 :: j in now <==> if j == stop + 1 <= k then false else stop + 2 <= j <= k + 1 || j in from
  }

  predicate NoFault(faults: Faults, a: nat, b: int) { forall q: nat | a <= q < b :: !faults(q) }

  // What decides the fate of an appender: the last index, whether file 0 is
  // there, whether a stream is open that a rollover would close, and the
  // number of the next file operation.
  datatype Watch = Watch(last: int, zero: bool, open: bool, clock: nat)

  function View(s: State): Watch {
    Watch(s.lastIndex, 0 in s.disk.files, !s.openFailed && s.stream != NoStream, s.disk.clock)
  }

  // s has just reopened file 0 with operation t; `zero` says whether it was there before.
  predicate Reopened(faults: Faults, s: State, last: int, t: int, zero: bool) {
    t >= 0 && View(s) == Watch(last, !faults(t) || zero, !faults(t), t + 1)
  }

  lemma {:induction false} LastStep(c: Config, faults: Faults, r: Roll)
    requires r.phase == Opening
    ensures var s := Finish(c, faults, r).s;
      && Reopened(faults, s, r.s.lastIndex, r.s.disk.clock, 0 in r.s.disk.files)
      && forall j | j != 0 :: j in s.disk.files <==> j in r.s.disk.files
  {
    assert Finish(c, faults, r) == Finish(c, faults, Step(c, faults, r)) == Step(c, faults, r);
  }

  lemma {:induction false} RenamesEnd(c: Config, faults: Faults, r: Roll, from: map<int, File>, i: int)
    requires -1 <= i <= r.k && r.phase == Renaming(i)
    requires i >= 0 ==> faults(r.s.disk.clock) || i !in r.s.disk.files
    requires Moved(from, r.k, i, r.s.disk.files)
    ensures var (s, t) := (Finish(c, faults, r).s, r.s.disk.clock);
      && (if i == -1 then Reopened(faults, s, r.k + 1, t, r.k == -1 && 0 in from)
          else Reopened(faults, s, r.s.lastIndex, t + 1, 0 in from))
      && Gap(from, r.k, i, s.disk.files)
  {
    var r1 := Step(c, faults, r);
    LastStep(c, faults, r1);
    assert Finish(c, faults, r) == Finish(c, faults, r1);
  }

  // The rename loop under failures: it stops at -1, or at the first rename
  // that fails because the disk does or because there is no such file.
  lemma {:induction false} RenamesStop(c: Config, faults: Faults, r: Roll, from: map<int, File>, i: int)
    returns (stop: int)
    requires -1 <= i <= r.k && r.phase == Renaming(i)
    requires Moved(from, r.k, i, r.s.disk.files)
    ensures -1 <= stop <= i
    ensures forall j | stop < j <= i :: j in from
    ensures NoFault(faults, r.s.disk.clock, r.s.disk.clock + i - stop)
    ensures stop >= 0 ==> faults(r.s.disk.clock + i - stop) || stop !in from
    ensures var (s, t) := (Finish(c, faults, r).s, r.s.disk.clock + i - stop);
      && (if stop == -1 then Reopened(faults, s, r.k + 1, t, r.k == -1 && 0 in from)
          else Reopened(faults, s, r.s.lastIndex, t + 1, 0 in from))
      && Gap(from, r.k, stop, s.disk.files)
    decreases i + 1
  {
    if i >= 0 && !faults(r.s.disk.clock) && i in r.s.disk.files {
      RenameMoves(from, r.k, i, r.s.disk.files);
      RenamedNext(c, faults, r, i);
      MovedBelow(from, r.k, i, r.s.disk.files);
      hide Finish, Moved, Gap, Reopened, Step;
      stop := RenamesStop(c, faults, Step(c, faults, r), from, i - 1);
    } else {
      MovedBelow(from, r.k, i, r.s.disk.files);
      hide Finish, Moved, Gap, Reopened;
      RenamesEnd(c, faults, r, from, i);
      stop := i;
    }
  }

  lemma MovedBelow(from: map<int, File>, k: int, i: int, now: map<int, File>)
    requires Moved(from, k, i, now) && i <= k
    ensures i in now <==> i in from
  {}

  lemma {:induction false} RenamedNext(c: Config, faults: Faults, r: Roll, i: int)
    requires 0 <= i <= r.k && r.phase == Renaming(i) && !faults(r.s.disk.clock)
    requires i in r.s.disk.files
    ensures Finish(c, faults, r) == Finish(c, faults, Step(c, faults, r))
    ensures var (r1, f) := (Step(c, faults, r), r.s.disk.files);
      && r1.s.disk.files == (f - {i})[i + 1 := f[i]]
      && r1.phase == Renaming(i - 1) && r1.k == r.k
      && r1.s.lastIndex == r.s.lastIndex && r1.s.disk.clock == r.s.disk.clock + 1
  {}

  // The operation of a rollover that is the first to change the directory, and
  // the one that reopens file 0, when all before it succeed.
  function Closes(w: Watch): nat { if w.open then 1 else 0 }

  function First(c: Config, w: Watch): nat { w.clock + if w.last == c.maxFiles - 1 then 0 else Closes(w) }

  function Last(w: Watch): (t: nat)
    requires w.last >= 0
  {
    w.clock + Closes(w) + w.last + 1
  }

  // The directory begins to change, and whether all of it changes.
  predicate Begins(c: Config, faults: Faults, w: Watch) {
    (w.last > 0 || w.zero) && NoFault(faults, w.clock, First(c, w) + 1)
  }

  predicate Completes(c: Config, faults: Faults, w: Watch)
    requires w.last >= 0
  {
    w.zero && NoFault(faults, First(c, w) + 1, Last(w))
  }

  // Which rollovers doom the appender.
  predicate Dooms(c: Config, faults: Faults, w: Watch) {
    w.last >= 1 && Begins(c, faults, w) && !Completes(c, faults, w)
  }

  // What any other rollover makes of it.
  function Next(c: Config, faults: Faults, w: Watch): (w': Watch)
    requires !Dooms(c, faults, w)
  {
    var begins := w.last >= 0 && Begins(c, faults, w);
    var full := w.last == c.maxFiles - 1;
    var t := if w.last < 0 then w.clock
             else if begins then Last(w)
             else w.clock + if !full && w.open && faults(w.clock) then 1 else Closes(w) + 1;
    Watch(if w.last < 0 then 0 else if begins && !full then w.last + 1 else w.last,
          !faults(t) || (w.zero && !begins), !faults(t), t + 1)
  }

  // s is where a rollover from `last` ends that comes to the renames k, ..., 0
  // with operation t, when file 0 is there or not.
  ghost predicate Renamed(faults: Faults, s: State, last: int, k: int, t: nat, zero: bool) {
    var started := k < last || ((last > 0 || zero) && !faults(t));
    var all := (zero || k < 0) && NoFault(faults, t, t + k + 1);
    && (Doomed(s) <==> started && !all)
    && (all ==> Reopened(faults, s, k + 1, t + k + 1, false))
    && (!started ==> Reopened(faults, s, last, t + 1, zero))
  }

  lemma {:induction false} RenamingView(c: Config, faults: Faults, r: Roll, last: int)
    requires r.phase == Renaming(r.k) && 0 <= last == r.s.lastIndex
    requires r.k == last || (r.k == last - 1 && last !in r.s.disk.files)
    requires forall j :: 1 <= j <= r.k ==> j in r.s.disk.files
    ensures Renamed(faults, Finish(c, faults, r).s, last, r.k, r.s.disk.clock, 0 in r.s.disk.files)
  {
    var from := r.s.disk.files;
    var stop := RenamesStop(c, faults, r, from, r.k);
    var t, s := r.s.disk.clock, Finish(c, faults, r).s;
    if stop >= 0 && stop in from { assert faults(t + r.k - stop); }
    if 0 <= stop && stop + 1 <= s.lastIndex { assert HoleAt(s, stop + 1); }
    if Doomed(s) {
      var j :| HoleAt(s, j);
      assert j == stop + 1;
    }
  }

  // The stream is closed, or there is none, and the directory may change.
  predicate Goes(faults: Faults, r: Roll) { r.rc == 0 && (View(r.s).open ==> !faults(r.s.disk.clock)) }

  // Where a rollover that has still to close the stream goes.
  lemma {:induction false} ClosingRenames(c: Config, faults: Faults, r: Roll, last: int)
    requires r.phase == Closing && 0 <= last == r.s.lastIndex && Goes(faults, r)
    requires r.k == last || (r.k == last - 1 && last !in r.s.disk.files)
    requires forall j :: 1 <= j <= r.k ==> j in r.s.disk.files
    ensures var w := View(r.s);
      Renamed(faults, Finish(c, faults, r).s, last, r.k, w.clock + Closes(w), w.zero)
  {
    var r1 := Step(c, faults, r);
    assert Finish(c, faults, r) == Finish(c, faults, r1);
    hide Finish, Renamed;
    RenamingView(c, faults, r1, last);
  }

  lemma {:induction false} ClosingFails(c: Config, faults: Faults, r: Roll, last: int)
    requires r.phase == Closing && 0 <= last == r.s.lastIndex && !Goes(faults, r)
    requires r.k == last || (r.k == last - 1 && last !in r.s.disk.files)
    requires forall j :: 1 <= j <= r.k ==> j in r.s.disk.files
    ensures var (s, w) := (Finish(c, faults, r).s, View(r.s));
      Reopened(faults, s, last, w.clock + Closes(w), w.zero) && (Doomed(s) <==> 1 <= last && r.k < last)
  {
    var r1 := Step(c, faults, r);
    assert Finish(c, faults, r) == Finish(c, faults, r1);
    LastStep(c, faults, r1);
    hide Finish;
    NotDoomed(Finish(c, faults, r1).s);
  }

  lemma NotDoomed(s: State)
    ensures Doomed(s) <==> exists j :: 1 <= j <= s.lastIndex && j !in s.disk.files
  {
    assert forall j :: HoleAt(s, j) <==> 1 <= j <= s.lastIndex && j !in s.disk.files;
  }

  // s is what Dooms and Next say a rollover makes of w.
  ghost predicate AsForetold(c: Config, faults: Faults, w: Watch, s: State) {
    && (Doomed(s) <==> Dooms(c, faults, w))
    && (!Doomed(s) ==> View(s) == Next(c, faults, w))
  }

  // The unlink of a full window.
  lemma {:induction false} UnlinkView(c: Config, faults: Faults, s: State)
    requires c.Valid() && 0 <= s.lastIndex == c.maxFiles - 1 && !Doomed(s)
    ensures
      var (r1, w) := (Step(c, faults, Begin(c, s)), View(s));
      && Roller(c, faults, s) == Finish(c, faults, r1)
      && r1.phase == Closing && r1.s.lastIndex == w.last
      && View(r1.s) == Watch(w.last, w.zero && (w.last > 0 || !Begins(c, faults, w)), w.open, w.clock + 1)
      && (forall j :: 1 <= j <= r1.k ==> j in r1.s.disk.files)
      && (if Begins(c, faults, w) then r1.k == w.last - 1 && w.last !in r1.s.disk.files && r1.rc == 0
          else r1.k == w.last && r1.rc == 1)
  {
    NotDoomed(s);
    assert NoFault(faults, s.disk.clock, s.disk.clock + 1) <==> !faults(s.disk.clock);
  }

  lemma {:induction false} FullRollover(c: Config, faults: Faults, s: State)
    requires c.Valid() && 0 <= s.lastIndex == c.maxFiles - 1 && !Doomed(s)
    ensures AsForetold(c, faults, View(s), Roller(c, faults, s).s)
  {
    UnlinkView(c, faults, s);
    hide Finish, Roller, Doomed, Step, View;
    var r1 := Step(c, faults, Begin(c, s));
    if Goes(faults, r1) {
      ClosingRenames(c, faults, r1, s.lastIndex);
    } else {
      ClosingFails(c, faults, r1, s.lastIndex);
    }
  }

  lemma {:induction false} RoomyRollover(c: Config, faults: Faults, s: State)
    requires c.Valid() && 0 <= s.lastIndex < c.maxFiles - 1 && !Doomed(s)
    ensures AsForetold(c, faults, View(s), Roller(c, faults, s).s)
  {
    NotDoomed(s);
    var r := Begin(c, s);
    assert Roller(c, faults, s) == Finish(c, faults, r);
    hide Finish, Roller, Doomed;
    if Goes(faults, r) {
      ClosingRenames(c, faults, r, s.lastIndex);
    } else {
      ClosingFails(c, faults, r, s.lastIndex);
    }
  }

  // One rollover, whatever fails: it dooms the appender if and only if the
  // first operation that changes the directory succeeds and a later one before
  // the reopening fails, a rename of a missing file 0 included.
  lemma {:induction false} DoomedExactlyWhen(c: Config, faults: Faults, s: State)
    requires c.Valid() && -1 <= s.lastIndex < c.maxFiles && !Doomed(s)
    ensures var s' := Roller(c, faults, s).s;
      && (Doomed(s') <==> Dooms(c, faults, View(s)))
      && (!Doomed(s') ==> View(s') == Next(c, faults, View(s)))
  {
    if s.lastIndex < 0 {
      var r := Begin(c, s);
      assert Finish(c, faults, r) == Finish(c, faults, Step(c, faults, r)) == Step(c, faults, r);
    } else if s.lastIndex == c.maxFiles - 1 {
      hide Roller, Dooms, Next;
      FullRollover(c, faults, s);
    } else {
      hide Roller, Dooms, Next;
      RoomyRollover(c, faults, s);
    }
  }

  // The fate of an appender after k rollovers, read off the failures alone.
  datatype Fate = Lost | Going(w: Watch)

  function FateAfter(c: Config, faults: Faults, w: Watch, k: nat): (fate: Fate) {
    if k == 0 then Going(w)
    else
      match FateAfter(c, faults, w, k - 1)
      case Lost => Lost
      case Going(w') => if Dooms(c, faults, w') then Lost else Going(Next(c, faults, w'))
  }

  ghost predicate Fares(s: State, fate: Fate) {
    (Doomed(s) <==> fate == Lost) && (fate.Going? ==> View(s) == fate.w)
  }

  lemma {:induction false} RollerFares(c: Config, faults: Faults, s: State, w: Watch, k: nat)
    requires c.Valid() && -1 <= s.lastIndex < c.maxFiles && Fares(s, FateAfter(c, faults, w, k))
    ensures Fares(Roller(c, faults, s).s.(size := 0), FateAfter(c, faults, w, k + 1))
  {
    hide Roller, Dooms, Next, HoleAt;
    var s' := Roller(c, faults, s).s;
    SizeDoesNotMatter(s', 0);
    if Doomed(s) {
      var j :| HoleAt(s, j);
      RollerDoomed(c, faults, s, j);
    } else {
      DoomedExactlyWhen(c, faults, s);
    }
  }

  lemma SizeDoesNotMatter(s: State, n: int)
    ensures Doomed(s.(size := n)) <==> Doomed(s)
    ensures View(s.(size := n)) == View(s)
  {
    NotDoomed(s);
    NotDoomed(s.(size := n));
  }

  lemma {:induction false} RollerDoomed(c: Config, faults: Faults, s: State, j: int)
    requires c.Valid() && s.lastIndex < c.maxFiles && HoleAt(s, j)
    ensures HoleAt(Roller(c, faults, s).s, j)
  {
    FinishDoomed(c, faults, Begin(c, s), j);
  }

  lemma {:induction false} WriteFares(s: State, m: Message, fate: Fate)
    requires Fares(s, fate)
    ensures Fares(Written(s, m), fate)
  {
    NotDoomed(s);
    NotDoomed(Written(s, m));
  }

  lemma {:induction false} RollerKeepsIndex(c: Config, faults: Faults, d: Disk, ms: seq<Message>)
    requires c.Valid()
    ensures -1 <= AppendAll(c, faults, Open(c, faults, d), ms).lastIndex < c.maxFiles
  {
    RunStaysConsistent(c, faults, d, ms);
  }

  lemma {:induction false} AppendFares(c: Config, faults: Faults, s: State, w: Watch, segs: seq<File>, m: Message)
    requires c.Valid() && -1 <= s.lastIndex < c.maxFiles && segs != []
    requires s.size == Bytes(segs[0]) && Fares(s, FateAfter(c, faults, w, |segs|))
    ensures var rolls := c.maxSize > 0 && |m| + Bytes(segs[0]) > c.maxSize;
      Fares(Append(c, faults, s, m), FateAfter(c, faults, w, |segs| + if rolls then 1 else 0))
  {
    hide Roller, Fares, FateAfter, Written, Bytes;
    if Triggers(c, s.size, m) {
      RollerFares(c, faults, s, w, |segs|);
      WriteFares(Roller(c, faults, s).s.(size := 0), m, FateAfter(c, faults, w, |segs| + 1));
    } else {
      WriteFares(s, m, FateAfter(c, faults, w, |segs|));
    }
  }

  // The counter counts the bytes of the segment, wherever they go.
  lemma {:induction false} CounterIsSegment(c: Config, faults: Faults, d: Disk, ms: seq<Message>)
    requires c.Valid()
    ensures AppendAll(c, faults, Open(c, faults, d), ms).size == Bytes(Segments(c, ms)[0])
  {
    hide Roller;
    if ms == [] {
      assert Bytes([]) == 0;
    } else {
      var before, m := ms[..|ms| - 1], ms[|ms| - 1];
      CounterIsSegment(c, faults, d, before);
      BytesOfOne([], m);
      assert [] + [m] == [m];
      BytesOfOne(Segments(c, before)[0], m);
    }
  }

  lemma {:induction false} RunFares(c: Config, faults: Faults, d: Disk, ms: seq<Message>)
    requires c.Valid()
    ensures Fares(AppendAll(c, faults, Open(c, faults, d), ms),
        FateAfter(c, faults, View(Fresh(c, d)), |Segments(c, ms)|))
  {
    hide Roller, Dooms, Next, FateAfter, Append, Fares, Open, Bytes, View;
    if ms == [] {
      OpenFares(c, faults, d);
    } else {
      var before, m := ms[..|ms| - 1], ms[|ms| - 1];
      RunFares(c, faults, d, before);
      RollerKeepsIndex(c, faults, d, before);
      CounterIsSegment(c, faults, d, before);
      var s := AppendAll(c, faults, Open(c, faults, d), before);
      AppendFares(c, faults, s, View(Fresh(c, d)), Segments(c, before), m);
    }
  }

  lemma {:induction false} OpenFares(c: Config, faults: Faults, d: Disk)
    requires c.Valid()
    ensures Fares(Open(c, faults, d), FateAfter(c, faults, View(Fresh(c, d)), 1))
  {
    hide Roller, Dooms, Next, FateAfter, Fares, View;
    FreshFares(c, faults, d);
    RollerFares(c, faults, Fresh(c, d), View(Fresh(c, d)), 0);
  }

  lemma {:induction false} FreshFares(c: Config, faults: Faults, d: Disk)
    requires c.Valid()
    ensures Fares(Fresh(c, d), FateAfter(c, faults, View(Fresh(c, d)), 0))
  {
    NotDoomed(Fresh(c, d));
  }

  // Whole runs, from any directory and whatever fails: rollovers come at the
  // same messages as on a reliable disk, one for each segment, and whether the
  // appender is doomed is what their operations decide.
  lemma {:induction false} RunDoomedExactlyWhen(c: Config, faults: Faults, d: Disk, ms: seq<Message>)
    requires c.Valid()
    ensures var (s, fate) := (AppendAll(c, faults, Open(c, faults, d), ms),
        FateAfter(c, faults, View(Fresh(c, d)), |Segments(c, ms)|));
      (Doomed(s) <==> fate == Lost) && (fate.Going? ==> View(s) == fate.w)
  {
    RunFares(c, faults, d, ms);
    hide AppendAll, Open, FateAfter, Doomed, Segments, View;
  }

  // With one file there is nothing to archive and nothing to doom.
  lemma {:induction false} OneFileIsNeverDoomed(c: Config, faults: Faults, d: Disk, ms: seq<Message>)
    requires c.maxFiles == 1
    ensures !Doomed(AppendAll(c, faults, Open(c, faults, d), ms))
  {
    RollerKeepsIndex(c, faults, d, ms);
  }

  // When a reopening has failed and left no file 0, the next rollover dooms the
  // appender exactly when its first operation, an unlink or a rename, succeeds.
  lemma {:induction false} MissingFileDooms(c: Config, faults: Faults, d: Disk, ms: seq<Message>)
    requires c.Valid()
    requires var s := AppendAll(c, faults, Open(c, faults, d), ms);
      0 !in s.disk.files && s.lastIndex >= 1 && !Doomed(s)
    ensures var s := AppendAll(c, faults, Open(c, faults, d), ms);
      Doomed(Roller(c, faults, s).s) <==> !faults(s.disk.clock)
  {
    RunStaysConsistent(c, faults, d, ms);
    hide Roller, AppendAll, Open;
    var s := AppendAll(c, faults, Open(c, faults, d), ms);
    DoomedExactlyWhen(c, faults, s);
    assert NoFault(faults, s.disk.clock, s.disk.clock + 1) <==> !faults(s.disk.clock);
  }

  // One failure is enough: when only the reopening of a rollover fails, there
  // is no hole yet, and the next rollover makes it.
  lemma {:induction false} FailedReopeningDooms(c: Config, faults: Faults, s: State, ws: seq<File>)
    requires c.maxFiles >= 2 && 1 <= |ws| <= c.maxFiles
    requires s.disk.files == Window(ws) && s.lastIndex == |ws| - 1
    requires forall t: nat :: faults(t) <==> t == Last(View(s))
    ensures var s1 := Roller(c, faults, s).s;
      !Doomed(s1) && 0 !in s1.disk.files && Doomed(Roller(c, faults, s1).s)
  {
    hide Roller;
    NotDoomed(s);
    DoomedExactlyWhen(c, faults, s);
    DoomedExactlyWhen(c, faults, Roller(c, faults, s).s);
  }

  // A refused unlink of the oldest file only costs the messages of file 0: the
  // other files stay where they are, and the next rollover is none the worse.
  lemma {:induction false} RefusedUnlinkEmptiesFileZero(c: Config, faults: Faults, s: State)
    requires c.Valid() && 0 <= s.lastIndex == c.maxFiles - 1 && !Doomed(s)
    requires forall t: nat :: faults(t) <==> t == s.disk.clock
    ensures var s1 := Roller(c, faults, s).s;
      && s1.disk.files == s.disk.files[0 := []] && s1.lastIndex == s.lastIndex && s1.stream.Handle?
      && !Doomed(s1) && !Doomed(Roller(c, faults, s1).s)
  {
    UnlinkRefused(c, faults, s);
    hide Roller;
    assert faults(s.disk.clock) && !NoFault(faults, s.disk.clock, s.disk.clock + 1);
    DoomedExactlyWhen(c, faults, s);
    DoomedExactlyWhen(c, faults, Roller(c, faults, s).s);
  }

  lemma {:induction false} UnlinkRefused(c: Config, faults: Faults, s: State)
    requires c.Valid() && 0 <= s.lastIndex == c.maxFiles - 1
    requires forall t: nat :: faults(t) <==> t == s.disk.clock
    ensures var s1 := Roller(c, faults, s).s;
      s1.disk.files == s.disk.files[0 := []] && s1.lastIndex == s.lastIndex && s1.stream.Handle?
  {
    var r0 := Begin(c, s);
    var r1 := Step(c, faults, r0);
    var r2 := Step(c, faults, r1);
    var r3 := Step(c, faults, r2);
    assert r1.phase == Closing && r2.phase == Opening && r3.phase == Done;
    assert Finish(c, faults, r0) == Finish(c, faults, r1) == Finish(c, faults, r2) == Finish(c, faults, r3) == r3;
  }

  // Restarting on a reliable disk heals any directory.
  lemma RestartHeals(c: Config, faults: Faults, d: Disk)
    requires c.Valid() && Reliable(faults)
    ensures !Doomed(Open(c, faults, d))
  {
    var r := Begin(c, Fresh(c, d));
    if r.phase == Creating {
      assert Finish(c, faults, r) == Finish(c, faults, Step(c, faults, r)) == Step(c, faults, r);
    } else {
      var r1 := if r.phase == Unlinking then Step(c, faults, r) else r;
      var r2 := Step(c, faults, r1);
      RenamesShift(c, faults, r2, r2.s.disk.files, r2.k);
      assert Roller(c, faults, Fresh(c, d)) == Finish(c, faults, r1) == Finish(c, faults, r2);
    }
  }
}
