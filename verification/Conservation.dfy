// Whole runs on a reliable disk: what the window holds, and how large its files are.
module Conservation {
  import opened Rollover

  // The directory that holds exactly the files ws[0], ws[1], ... newest first.
  // A window laid over a directory `rest` is rest + Window(ws).
  function Window(ws: seq<File>): map<int, File> { map j | 0 <= j < |ws| :: ws[j] }

  // The files a policy finds when it starts: the leading run of existing ones.
  function Front(c: Config, files: map<int, File>): (ws: seq<File>)
    requires c.Valid()
    ensures |ws| == LastIndex(c, files) + 1 <= c.maxFiles
    ensures files == files + Window(ws)
  {
    seq(LastIndex(c, files) + 1, j requires 0 <= j <= LastIndex(c, files) => files[j])
  }

  function Take<T>(s: seq<T>, n: int): seq<T> {
    if n < 0 then [] else if n < |s| then s[..n] else s
  }

  // `now` is `from` after the renames k -> k+1, ..., i+1 -> i+2.
  ghost predicate Moved(from: map<int, File>, k: int, i: int, now: map<int, File>) {
    && (forall j :: j in now <==> if j == i + 1 <= k then false else i + 2 <= j <= k + 1 || j in from)
    && (forall j | i + 2 <= j <= k + 1 && j in now :: j - 1 in from && now[j] == from[j - 1])
    && (forall j | !(i + 2 <= j <= k + 1) && j in now :: j in from && now[j] == from[j])
  }

  // `now` is `from` after all of them and the reopening of file 0.
  ghost predicate Rolled(from: map<int, File>, k: int, now: map<int, File>) {
    && 0 in now && now[0] == []
    && (forall j | j != 0 :: j in now <==> 1 <= j <= k + 1 || j in from)
    && (forall j | 1 <= j <= k + 1 && j in now :: j - 1 in from && now[j] == from[j - 1])
    && (forall j | !(0 <= j <= k + 1) && j in now :: j in from && now[j] == from[j])
  }

  lemma RenameMoves(from: map<int, File>, k: int, i: int, now: map<int, File>)
    requires Moved(from, k, i, now) && 0 <= i <= k && i in from
    ensures i in now && Moved(from, k, i - 1, (now - {i})[i + 1 := now[i]])
  {
    assert i in now && now[i] == from[i];
    var next := (now - {i})[i + 1 := now[i]];
    forall j ensures j in next <==> if j == i then false else i + 1 <= j <= k + 1 || j in from {
      assert j in next <==> j == i + 1 || (j in now && j != i);
    }
  }

  lemma {:induction false} RenamesShift(c: Config, faults: Faults, r: Roll, from: map<int, File>, i: int)
    requires Reliable(faults) && -1 <= i <= r.k && r.phase == Renaming(i)
    requires forall j :: 0 <= j <= r.k ==> j in from
    requires Moved(from, r.k, i, r.s.disk.files)
    ensures
      var e := Finish(c, faults, r);
      && Rolled(from, r.k, e.s.disk.files)
      && e.s.lastIndex == r.k + 1 && !e.s.openFailed
      && e.s.stream == Handle(r.s.disk.opens) && e.s.size == r.s.size
      && e.rc == 0
    decreases i + 1
  {
    var r1 := Step(c, faults, r);
    if i >= 0 {
      RenameMoves(from, r.k, i, r.s.disk.files);
      RenamesShift(c, faults, r1, from, i - 1);
    } else {
      var r2 := Step(c, faults, r1);
      assert Finish(c, faults, r1) == Finish(c, faults, r2) == r2;
    }
  }

  // The appender is open on a window whose files are ws, newest first; the
  // other files of the directory are those of `rest`.
  ghost predicate Holds(c: Config, s: State, ws: seq<File>, rest: map<int, File>) {
    && 1 <= |ws| <= c.maxFiles
    && s.disk.files == rest + Window(ws)
    && s.lastIndex == |ws| - 1
    && s.stream.Handle? && !s.openFailed
    && s.size == Bytes(ws[0])
  }

  lemma RolledWindow(ws: seq<File>, rest: map<int, File>, now: map<int, File>)
    requires Rolled(rest + Window(ws), |ws| - 1, now)
    ensures now == rest + Window([[]] + ws)
  {}

  lemma FirstFile(rest: map<int, File>)
    ensures (rest + Window([]))[0 := []] == rest + Window([[]])
  {}

  lemma OldestUnlinked(ws: seq<File>, rest: map<int, File>)
    requires ws != []
    ensures var k := |ws| - 1;
      && k in rest + Window(ws) && (rest + Window(ws)) - {k} == (rest - {k}) + Window(ws[..k])
      && (rest - {k}) + Window([[]] + ws[..k]) == rest + Window([[]] + ws[..k])
  {}

  lemma {:induction false} ClosingKeepsWindow(c: Config, faults: Faults, r: Roll, ws: seq<File>, rest: map<int, File>)
    requires Reliable(faults) && r.phase == Closing && r.rc == 0
    requires r.s.disk.files == rest + Window(ws) && r.k == |ws| - 1 && |ws| < c.maxFiles
    ensures var e := Finish(c, faults, r); e.rc == 0 && Holds(c, e.s.(size := 0), [[]] + ws, rest)
  {
    var r1 := Step(c, faults, r);
    RenamesShift(c, faults, r1, rest + Window(ws), r1.k);
    RolledWindow(ws, rest, Finish(c, faults, r1).s.disk.files);
  }

  // One rollover puts an empty file in front and drops a file only when there
  // are already maxFiles of them, and then the oldest.
  lemma {:induction false} RolloverKeepsWindow(c: Config, faults: Faults, s: State, ws: seq<File>, rest: map<int, File>)
    requires c.Valid() && Reliable(faults)
    requires |ws| <= c.maxFiles && s.disk.files == rest + Window(ws) && s.lastIndex == |ws| - 1
    ensures Roller(c, faults, s).rc == 0
    ensures Holds(c, Roller(c, faults, s).s.(size := 0), [[]] + Take(ws, c.maxFiles - 1), rest)
  {
    if ws == [] {
      var r := Begin(c, s);
      assert Finish(c, faults, r) == Finish(c, faults, Step(c, faults, r)) == Step(c, faults, r);
      FirstFile(rest);
    } else if |ws| == c.maxFiles {
      FullRollover(c, faults, s, ws, rest);
    } else {
      hide Window, Finish, Step;
      ClosingKeepsWindow(c, faults, Begin(c, s), ws, rest);
    }
  }

  lemma {:induction false} FullRollover(c: Config, faults: Faults, s: State, ws: seq<File>, rest: map<int, File>)
    requires Reliable(faults)
    requires 1 <= |ws| == c.maxFiles && s.disk.files == rest + Window(ws) && s.lastIndex == |ws| - 1
    ensures Roller(c, faults, s).rc == 0
    ensures Holds(c, Roller(c, faults, s).s.(size := 0), [[]] + ws[..|ws| - 1], rest)
  {
    var r, k := Begin(c, s), |ws| - 1;
    OldestUnlinked(ws, rest);
    hide Window;
    var r1 := Step(c, faults, r);
    assert Finish(c, faults, r) == Finish(c, faults, r1);
    hide Finish;
    ClosingKeepsWindow(c, faults, r1, ws[..k], rest - {k});
  }

  // A message starts a new file exactly when it does not fit in the current one.
  function Grown(c: Config, segs: seq<File>, m: Message): (segs': seq<File>)
    requires segs != []
    ensures segs' != []
  {
    if c.maxSize > 0 && |m| + Bytes(segs[0]) > c.maxSize then [[m]] + segs
    else [segs[0] + [m]] + segs[1..]
  }

  // How a run splits its messages into files, newest file first.
  function Segments(c: Config, ms: seq<Message>): (segs: seq<File>)
    ensures |segs| >= 1
  {
    if ms == [] then [[]] else Grown(c, Segments(c, ms[..|ms| - 1]), ms[|ms| - 1])
  }

  lemma {:induction false} BytesOfOne(f: File, m: Message)
    ensures Bytes(f + [m]) == Bytes(f) + |m|
  {
    assert (f + [m])[..|f|] == f;
  }

  lemma LastIndexOfWindow(c: Config, ws: seq<File>, i: nat)
    requires i <= |ws| <= c.maxFiles
    ensures LastIndex(c, Window(ws), i) == |ws| - 1
    decreases |ws| - i
  {
    if i < |ws| { LastIndexOfWindow(c, ws, i + 1); }
  }

  lemma TakeExtended(c: Config, segs: seq<File>, initial: seq<File>, f: File)
    requires |segs| >= 1 && c.Valid()
    ensures [f] + Take(segs + initial, c.maxFiles)[1..] == Take(([f] + segs[1..]) + initial, c.maxFiles)
  {
    assert ([f] + segs[1..]) + initial == [f] + (segs + initial)[1..];
  }

  lemma TakeStarted(c: Config, segs: seq<File>, initial: seq<File>, f: File)
    requires c.Valid()
    ensures [f] + Take(Take(segs + initial, c.maxFiles), c.maxFiles - 1) == Take(([f] + segs) + initial, c.maxFiles)
  {
    assert ([f] + segs) + initial == [f] + (segs + initial);
  }

  lemma SizeOfNewest(c: Config, s: State, segs: seq<File>, initial: seq<File>, rest: map<int, File>)
    requires |segs| >= 1 && Holds(c, s, Take(segs + initial, c.maxFiles), rest)
    ensures |Take(segs + initial, c.maxFiles)| >= 1 && Take(segs + initial, c.maxFiles)[0] == segs[0]
    ensures s.size == Bytes(segs[0])
  {}

  lemma {:induction false} AppendRolls(c: Config, faults: Faults, s: State, ws: seq<File>, rest: map<int, File>,
      m: Message)
    requires c.Valid() && Reliable(faults) && Holds(c, s, ws, rest) && Triggers(c, s.size, m)
    ensures Holds(c, Append(c, faults, s, m), [[m]] + Take(ws, c.maxFiles - 1), rest)
  {
    RolloverKeepsWindow(c, faults, s, ws, rest);
    hide Roller;
    var now := [[]] + Take(ws, c.maxFiles - 1);
    AppendToNewest(c, Roller(c, faults, s).s.(size := 0), now, rest, m);
    hide Holds, Written, Take;
    assert now[0] + [m] == [m] && now[1..] == Take(ws, c.maxFiles - 1);
  }

  lemma {:induction false} RollsToGrown(c: Config, faults: Faults, s: State, segs: seq<File>, initial: seq<File>,
                                        rest: map<int, File>, m: Message)
    requires c.Valid() && Reliable(faults) && |segs| >= 1 && Triggers(c, s.size, m)
    requires Holds(c, s, Take(segs + initial, c.maxFiles), rest)
    ensures Holds(c, Append(c, faults, s, m), Take(([[m]] + segs) + initial, c.maxFiles), rest)
  {
    hide *;
    TakeStarted(c, segs, initial, [m]);
    AppendRolls(c, faults, s, Take(segs + initial, c.maxFiles), rest, m);
  }

  lemma {:induction false} StaysToGrown(c: Config, faults: Faults, s: State, segs: seq<File>, initial: seq<File>,
                                        rest: map<int, File>, m: Message)
    requires c.Valid() && |segs| >= 1 && !Triggers(c, s.size, m)
    requires Holds(c, s, Take(segs + initial, c.maxFiles), rest)
    ensures Holds(c, Append(c, faults, s, m), Take(([segs[0] + [m]] + segs[1..]) + initial, c.maxFiles), rest)
  {
    hide Holds, Take, Written;
    SizeOfNewest(c, s, segs, initial, rest);
    TakeExtended(c, segs, initial, segs[0] + [m]);
    AppendToNewest(c, s, Take(segs + initial, c.maxFiles), rest, m);
  }

  lemma GrownIs(c: Config, segs: seq<File>, m: Message)
    requires segs != []
    ensures Grown(c, segs, m) ==
      if Triggers(c, Bytes(segs[0]), m) then [[m]] + segs else [segs[0] + [m]] + segs[1..]
  {}

  lemma {:induction false} AppendKeepsWindow(c: Config, faults: Faults, s: State, segs: seq<File>, initial: seq<File>,
                                             rest: map<int, File>, m: Message)
    requires c.Valid() && Reliable(faults) && |segs| >= 1
    requires Holds(c, s, Take(segs + initial, c.maxFiles), rest)
    ensures Holds(c, Append(c, faults, s, m), Take(Grown(c, segs, m) + initial, c.maxFiles), rest)
  {
    hide *;
    SizeOfNewest(c, s, segs, initial, rest);
    GrownIs(c, segs, m);
    if Triggers(c, s.size, m) {
      RollsToGrown(c, faults, s, segs, initial, rest, m);
    } else {
      StaysToGrown(c, faults, s, segs, initial, rest, m);
    }
  }

  lemma {:induction false} AppendsKeepWindow(c: Config, faults: Faults, s: State, initial: seq<File>,
                                             rest: map<int, File>, ms: seq<Message>)
    requires c.Valid() && Reliable(faults) && Holds(c, s, Take([[]] + initial, c.maxFiles), rest)
    ensures Holds(c, AppendAll(c, faults, s, ms), Take(Segments(c, ms) + initial, c.maxFiles), rest)
  {
    if ms != [] {
      hide Holds, Take;
      var before, m := ms[..|ms| - 1], ms[|ms| - 1];
      AppendsKeepWindow(c, faults, s, initial, rest, before);
      AppendKeepsWindow(c, faults, AppendAll(c, faults, s, before), Segments(c, before), initial, rest, m);
    }
  }

  // Whole-run conservation, from any directory: the window is the segments of
  // the run and then the leading files found at the start, and a file beyond
  // them stays as it is until the window reaches its index.
  lemma {:induction false} RunKeepsNewestFiles(c: Config, faults: Faults, d: Disk, ms: seq<Message>)
    requires c.Valid() && Reliable(faults)
    ensures Holds(c, AppendAll(c, faults, Open(c, faults, d), ms),
                  Take(Segments(c, ms) + Front(c, d.files), c.maxFiles), d.files)
  {
    var initial := Front(c, d.files);
    RolloverKeepsWindow(c, faults, Fresh(c, d), initial, d.files);
    assert [[]] + Take(initial, c.maxFiles - 1) == Take([[]] + initial, c.maxFiles);
    AppendsKeepWindow(c, faults, Open(c, faults, d), initial, d.files, ms);
  }

  // In a directory that holds a window and nothing else, bytes are lost only as whole oldest files.
  lemma {:induction false} RunFromWindow(c: Config, faults: Faults, d: Disk, initial: seq<File>, ms: seq<Message>)
    requires c.Valid() && Reliable(faults)
    requires |initial| <= c.maxFiles && d.files == Window(initial)
    ensures var (s, ws) := (AppendAll(c, faults, Open(c, faults, d), ms), Take(Segments(c, ms) + initial, c.maxFiles));
      Holds(c, s, ws, map[]) && s.lastIndex + 1 == |s.disk.files|
  {
    RunKeepsNewestFiles(c, faults, d, ms);
    FrontOfWindow(c, initial);
    var ws := Take(Segments(c, ms) + initial, c.maxFiles);
    assert |initial| <= |ws|;
    WindowOverWindow(initial, ws);
    WindowSize(ws);
    hide AppendAll, Open, Segments, Take, Window;
  }

  lemma {:induction false} FrontOfWindow(c: Config, initial: seq<File>)
    requires c.Valid() && |initial| <= c.maxFiles
    ensures Front(c, Window(initial)) == initial
  {
    LastIndexOfWindow(c, initial, 0);
  }

  lemma WindowOverWindow(initial: seq<File>, ws: seq<File>)
    requires |initial| <= |ws|
    ensures Window(initial) + Window(ws) == map[] + Window(ws) == Window(ws)
  {}

  lemma {:induction false} WindowSize(ws: seq<File>)
    ensures |Window(ws)| == |ws|
  {
    if ws == [] {
      assert Window(ws) == map[];
    } else {
      WindowSize(ws[..|ws| - 1]);
      assert Window(ws) == Window(ws[..|ws| - 1])[|ws| - 1 := ws[|ws| - 1]];
    }
  }

  lemma {:induction false} AppendToNewest(c: Config, s: State, ws: seq<File>, rest: map<int, File>, m: Message)
    requires Holds(c, s, ws, rest)
    ensures Holds(c, Written(s, m), [ws[0] + [m]] + ws[1..], rest)
  {
    BytesOfOne(ws[0], m);
    assert (rest + Window(ws))[0 := ws[0] + [m]] == rest + Window([ws[0] + [m]] + ws[1..]);
  }

  // The files of a run, oldest first, one after the other.
  ghost function InOrder(newestFirst: seq<File>): seq<Message> {
    if newestFirst == [] then [] else InOrder(newestFirst[1..]) + newestFirst[0]
  }

  // The segments are the messages in order, none lost and none moved.
  lemma {:induction false} SegmentsAreTheMessages(c: Config, ms: seq<Message>)
    ensures InOrder(Segments(c, ms)) == ms
  {
    if ms == [] {
      assert InOrder([[]]) == InOrder([[]][1..]) + [];
    } else {
      var before, m := ms[..|ms| - 1], ms[|ms| - 1];
      SegmentsAreTheMessages(c, before);
      var b, segs := Segments(c, before), Segments(c, ms);
      if segs == [[m]] + b {
        assert segs[1..] == b;
      } else {
        assert segs[1..] == b[1..];
        assert InOrder(segs) == InOrder(b[1..]) + (b[0] + [m]) == (InOrder(b[1..]) + b[0]) + [m];
      }
      assert before + [m] == ms;
    }
  }

  // A file of the run is within the limit, or holds one message that is not.
  ghost predicate WithinLimit(c: Config, f: File) {
    c.maxSize > 0 ==> Bytes(f) <= c.maxSize || (|f| == 1 && |f[0]| > c.maxSize)
  }

  lemma {:induction false} SegmentsWithinLimit(c: Config, ms: seq<Message>)
    ensures forall f | f in Segments(c, ms) :: WithinLimit(c, f)
  {
    if ms != [] {
      var before, m := ms[..|ms| - 1], ms[|ms| - 1];
      SegmentsWithinLimit(c, before);
      BytesOfOne([], m);
      assert [] + [m] == [m];
      BytesOfOne(Segments(c, before)[0], m);
    } else {
      assert Bytes([]) == 0;
    }
  }

  // `newer` was started because its first message did not fit in `older`.
  ghost predicate DidNotFit(c: Config, older: File, newer: File) {
    newer != [] && c.maxSize > 0 && Bytes(older) + |newer[0]| > c.maxSize
  }

  lemma {:induction false} SegmentsAreFull(c: Config, ms: seq<Message>)
    ensures var segs := Segments(c, ms);
      && (ms != [] ==> segs[0] != [])
      && forall i | 1 <= i < |segs| :: DidNotFit(c, segs[i], segs[i - 1])
  {
    if ms != [] {
      SegmentsAreFull(c, ms[..|ms| - 1]);
    }
  }

  // A segment without messages: only the oldest can be one, and it is exactly
  // when the first message alone is longer than the limit.
  lemma {:induction false} EmptySegment(c: Config, ms: seq<Message>)
    ensures var segs := Segments(c, ms);
      && (forall i | 1 <= i < |segs| - 1 :: segs[i] != [])
      && ((|segs| > 1 && segs[|segs| - 1] == []) <==> (ms != [] && c.maxSize > 0 && |ms[0]| > c.maxSize))
  {
    if ms == [] {
    } else {
      var before, m := ms[..|ms| - 1], ms[|ms| - 1];
      EmptySegment(c, before);
      SegmentsAreFull(c, before);
      if before == [] {
        assert Segments(c, before) == [[]] && Bytes([]) == 0;
      } else {
        assert before[0] == ms[0];
      }
    }
  }

  // On disk, from any directory: an archived file of the run has no message
  // exactly when it is the oldest and the first message was too long; those
  // behind it hold what the files found at the start held, an empty one nothing,
  // and the files beyond the window are as they were.
  lemma {:induction false} EmptyArchive(c: Config, faults: Faults, d: Disk, ms: seq<Message>, j: int)
    requires c.Valid() && Reliable(faults) && j >= 1
    ensures
      var (segs, front) := (Segments(c, ms), Front(c, d.files));
      var files := AppendAll(c, faults, Open(c, faults, d), ms).disk.files;
      if j < c.maxFiles && j < |segs| + |front| then
        j in files
        && (files[j] == [] <==>
            if j < |segs| then j == |segs| - 1 && ms != [] && c.maxSize > 0 && |ms[0]| > c.maxSize
            else front[j - |segs|] == [])
      else (j in files <==> j in d.files) && (j in files ==> files[j] == d.files[j])
  {
    hide *;
    MoreSegments(c, ms);
    RunKeepsNewestFiles(c, faults, d, ms);
    EmptySegment(c, ms);
    var s := AppendAll(c, faults, Open(c, faults, d), ms);
    FileOnDisk(c, s, Segments(c, ms) + Front(c, d.files), d.files, j);
  }

  lemma MoreSegments(c: Config, ms: seq<Message>)
    ensures |Segments(c, ms)| >= 2 ==> ms != []
  {}

  lemma FileOnDisk(c: Config, s: State, all: seq<File>, rest: map<int, File>, j: int)
    requires c.Valid() && Holds(c, s, Take(all, c.maxFiles), rest) && j >= 0
    ensures
      var files := s.disk.files;
      if j < c.maxFiles && j < |all| then j in files && files[j] == all[j]
      else (j in files <==> j in rest) && (j in files ==> files[j] == rest[j])
  {
    var ws := Take(all, c.maxFiles);
    assert j < |ws| <==> j < c.maxFiles && j < |all|;
    if j < |ws| { assert ws[j] == all[j]; }
  }

  // The counter is the length of file 0, and every file the run wrote is within the limit.
  lemma {:induction false} RunWithinLimit(c: Config, faults: Faults, d: Disk, ms: seq<Message>)
    requires c.Valid() && Reliable(faults)
    ensures
      var s := AppendAll(c, faults, Open(c, faults, d), ms);
      && 0 in s.disk.files && s.size == Bytes(s.disk.files[0])
      && forall j | 0 <= j < |Segments(c, ms)| && j < c.maxFiles :: j in s.disk.files && WithinLimit(c, s.disk.files[j])
  {
    hide AppendAll, Open, Segments, Front, Bytes, WithinLimit;
    RunKeepsNewestFiles(c, faults, d, ms);
    SegmentsWithinLimit(c, ms);
  }
}
