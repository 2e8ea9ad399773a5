// A process that dies in the middle of a rollover, and the next one that opens the window.
module Crash {
  import opened Rollover
  import opened Conservation

  // The files kept, newest first, around one free index: kept[..h] below it, the rest above.
  function WithHole(kept: seq<File>, h: nat): map<int, File>
    requires h <= |kept|
  {
    map j {:trigger kept[j]} | 0 <= j < |kept| + 1 && j != h :: if j < h then kept[j] else kept[j - 1]
  }

  // What survives a rollover of the window ws.
  function Kept(c: Config, ws: seq<File>): seq<File> { Take(ws, c.maxFiles - 1) }

  // A full window begins with an unlink.
  function Unlinks(c: Config, ws: seq<File>): nat { if |ws| == c.maxFiles then 1 else 0 }

  // How many of the first n operations of a rollover of ws are renames.
  function Renames(c: Config, ws: seq<File>, n: nat): (m: nat)
    ensures m <= |Kept(c, ws)|
  {
    if n <= Unlinks(c, ws) + 1 then 0 else Min(n - Unlinks(c, ws) - 1, |Kept(c, ws)|)
  }

  function Min(a: nat, b: nat): nat { if a < b then a else b }

  // Where a rollover of the window ws is after n operations, when file 0 has not been reopened.
  ghost predicate Underway(c: Config, ws: seq<File>, r: Roll, n: nat) {
    var (kept, u) := (Kept(c, ws), Unlinks(c, ws));
    match r.phase
    case Creating => n == 0 && ws == [] && r.s.disk.files == Window([])
    case Unlinking => n == 0 && u == 1 && r.s.disk.files == Window(ws) && r.k == c.maxFiles - 1 && r.rc == 0
    case Closing => n == u && r.s.disk.files == Window(kept) && r.k == |kept| - 1 && r.rc == 0
    case Renaming(i) =>
      n == u + 1 + r.k - i && -1 <= i <= r.k == |kept| - 1 && r.s.disk.files == WithHole(kept, i + 1) && r.rc == 0
    case Opening => n == u + 2 + |kept| && r.s.disk.files == WithHole(kept, 0)
    case Done => true
  }

  lemma WindowLosesOldest(ws: seq<File>)
    requires ws != []
    ensures Window(ws) - {|ws| - 1} == Window(ws[..|ws| - 1])
  {}

  lemma HoleAtTheEnd(kept: seq<File>)
    ensures Window(kept) == WithHole(kept, |kept|)
  {}

  lemma HoleMovesDown(kept: seq<File>, i: nat)
    requires i < |kept|
    ensures i in WithHole(kept, i + 1) && WithHole(kept, i + 1)[i] == kept[i]
    ensures (WithHole(kept, i + 1) - {i})[i + 1 := kept[i]] == WithHole(kept, i)
  {}

  lemma OldestIsThere(ws: seq<File>)
    requires ws != []
    ensures |ws| - 1 in Window(ws)
  {}

  lemma StepStaysUnderway(c: Config, faults: Faults, ws: seq<File>, r: Roll, n: nat)
    requires c.Valid() && Reliable(faults) && |ws| <= c.maxFiles
    requires Underway(c, ws, r, n) && r.phase != Done
    ensures Underway(c, ws, Step(c, faults, r), n + 1)
  {
    hide Window, WithHole;
    var kept := Kept(c, ws);
    match r.phase
    case Unlinking =>
      WindowLosesOldest(ws);
      OldestIsThere(ws);
    case Closing => HoleAtTheEnd(kept);
    case Renaming(i) => if i >= 0 { HoleMovesDown(kept, i); }
    case _ =>
  }

  lemma {:induction false} StepsStayUnderway(c: Config, faults: Faults, ws: seq<File>, r: Roll, done: nat, n: nat)
    requires c.Valid() && Reliable(faults) && |ws| <= c.maxFiles
    requires Sound(c, r) && Underway(c, ws, r, done)
    ensures Underway(c, ws, Steps(c, faults, r, n), done + n)
    decreases n
  {
    if n == 0 || r.phase == Done {
    } else {
      StepStaysUnderway(c, faults, ws, r, done);
      StepsStayUnderway(c, faults, ws, Step(c, faults, r), done + 1, n - 1);
    }
  }

  // A rollover of a window that died after n file operations.
  ghost function Died(c: Config, faults: Faults, s: State, n: nat): Roll { Steps(c, faults, Begin(c, s), n) }

  // It leaves every retained file present once and in order, around a single
  // free index that has moved down once for each rename; only when it died
  // before the first operation is a full window untouched.
  lemma {:induction false} CrashLeavesOneHole(c: Config, faults: Faults, s: State, ws: seq<File>, n: nat)
    requires c.Valid() && Reliable(faults)
    requires |ws| <= c.maxFiles && s.disk.files == Window(ws) && s.lastIndex == |ws| - 1
    requires Died(c, faults, s, n).phase != Done
    ensures Died(c, faults, s, n).s.disk.files ==
      if n == 0 && |ws| == c.maxFiles then Window(ws) else WithHole(Kept(c, ws), |Kept(c, ws)| - Renames(c, ws, n))
  {
    assert Window([]) == WithHole([], 0);
    StepsStayUnderway(c, faults, ws, Begin(c, s), 0, n);
    HoleAtTheEnd(Kept(c, ws));
  }

  lemma LastIndexBelowHole(c: Config, kept: seq<File>, h: nat, i: nat)
    requires i <= h <= |kept| <= c.maxFiles - 1
    ensures LastIndex(c, WithHole(kept, h), i) == h - 1
    decreases h - i
  {
    if i < h { LastIndexBelowHole(c, kept, h, i + 1); }
  }

  // The next process counts only the files below the hole.
  lemma {:induction false} FrontOfHole(c: Config, kept: seq<File>, h: nat)
    requires c.Valid() && h <= |kept| <= c.maxFiles - 1
    ensures Front(c, WithHole(kept, h)) == kept[..h]
  {
    LastIndexBelowHole(c, kept, h, 0);
  }

  // What r rollovers leave of the files kept, when m of them lie above the hole:
  // each takes the lowest of those for its own, until there are none.
  function Survivors(kept: seq<File>, m: nat, r: nat): seq<File>
    requires m <= |kept|
  {
    var h := |kept| - m;
    kept[..h] + kept[h + Min(r, m)..]
  }

  lemma {:induction false} WindowOverHole(kept: seq<File>, m: nat, segs: seq<File>, n: int)
    requires m <= |kept| <= n - 1 && segs != []
    ensures WithHole(kept, |kept| - m) + Window(Take(segs + kept[..|kept| - m], n))
         == Window(Take(segs + Survivors(kept, m, |segs| - 1), n))
  {
    var h, r, all := |kept| - m, |segs| - 1, segs + Survivors(kept, m, |segs| - 1);
    var low := segs + kept[..h];
    assert forall j | 0 <= j < |low| :: all[j] == low[j];
    if r < m {
      assert forall j | |low| <= j < |all| :: all[j] == kept[j - 1];
      assert Take(low, n) == low && Take(all, n) == all;
    } else {
      assert all == low;
    }
  }

  lemma {:induction false} RunFiles(c: Config, faults: Faults, d: Disk, ms: seq<Message>)
    requires c.Valid() && Reliable(faults)
    ensures AppendAll(c, faults, Open(c, faults, d), ms).disk.files
         == d.files + Window(Take(Segments(c, ms) + Front(c, d.files), c.maxFiles))
  {
    RunKeepsNewestFiles(c, faults, d, ms);
    hide AppendAll, Open, Segments, Front, Window, Take;
  }

  lemma {:induction false} RunFromHole(c: Config, faults: Faults, d: Disk, kept: seq<File>, m: nat, ms: seq<Message>)
    requires c.Valid() && Reliable(faults)
    requires m <= |kept| <= c.maxFiles - 1 && d.files == WithHole(kept, |kept| - m)
    ensures
      var segs := Segments(c, ms);
      AppendAll(c, faults, Open(c, faults, d), ms).disk.files
        == Window(Take(segs + Survivors(kept, m, |segs| - 1), c.maxFiles))
  {
    hide *;
    FrontOfHole(c, kept, |kept| - m);
    RunFiles(c, faults, d, ms);
    WindowOverHole(kept, m, Segments(c, ms), c.maxFiles);
  }

  // Opening a window with a hole moves the files below the hole into it, and counts only those.
  lemma {:induction false} OpenClosesHole(c: Config, faults: Faults, d: Disk, kept: seq<File>, h: nat)
    requires c.Valid() && Reliable(faults)
    requires h <= |kept| <= c.maxFiles - 1 && d.files == WithHole(kept, h)
    ensures Open(c, faults, d).disk.files == Window([[]] + kept)
    ensures Open(c, faults, d).lastIndex == h
    ensures Open(c, faults, d).stream == Handle(d.opens)
  {
    OpenCounts(c, faults, d, kept, h);
    hide *;
    RunFromHole(c, faults, d, kept, |kept| - h, []);
    var segs := Segments(c, []);
    NothingAppended(c, faults, Open(c, faults, d));
    SurvivorsOfNone(kept, |kept| - h, c.maxFiles);
    assert segs == [[]] && |segs| - 1 == 0;
  }

  lemma {:induction false} NothingAppended(c: Config, faults: Faults, s: State)
    ensures AppendAll(c, faults, s, []) == s && Segments(c, []) == [[]]
  {}

  lemma SurvivorsOfNone(kept: seq<File>, m: nat, n: int)
    requires m <= |kept| < n
    ensures Take([[]] + Survivors(kept, m, 0), n) == [[]] + kept
  {
    assert Survivors(kept, m, 0) == kept;
  }

  lemma {:induction false} OpenCounts(c: Config, faults: Faults, d: Disk, kept: seq<File>, h: nat)
    requires c.Valid() && Reliable(faults)
    requires h <= |kept| <= c.maxFiles - 1 && d.files == WithHole(kept, h)
    ensures Open(c, faults, d).lastIndex == h && Open(c, faults, d).stream == Handle(d.opens)
  {
    LastIndexBelowHole(c, kept, h, 0);
    var r := Begin(c, Fresh(c, d));
    var r1 := Step(c, faults, r);
    if h == 0 {
      assert Finish(c, faults, r) == Finish(c, faults, r1) == r1;
    } else {
      RenamesShift(c, faults, r1, d.files, h - 1);
    }
  }

  lemma {:induction false} RunFromFull(c: Config, faults: Faults, d: Disk, ws: seq<File>, ms: seq<Message>)
    requires c.Valid() && Reliable(faults)
    requires |ws| == c.maxFiles && d.files == Window(ws)
    ensures AppendAll(c, faults, Open(c, faults, d), ms).disk.files
         == Window(Take(Segments(c, ms) + Kept(c, ws), c.maxFiles))
  {
    hide AppendAll, Open, Segments, Window, Front;
    RunFiles(c, faults, d, ms);
    FrontOfWindow(c, ws);
    var segs := Segments(c, ms);
    WindowOverWindow(ws, Take(segs + ws, c.maxFiles));
    assert Take(segs + ws, c.maxFiles) == Take(segs + Kept(c, ws), c.maxFiles);
  }

  lemma ValidHasFiles(c: Config, ws: seq<File>)
    requires c.Valid()
    ensures |Kept(c, ws)| <= c.maxFiles - 1
  {}

  lemma NoRenameLosesNothing(c: Config, ws: seq<File>, r: nat)
    ensures Renames(c, ws, 0) == 0 && Survivors(Kept(c, ws), 0, r) == Kept(c, ws)
  {}

  // A whole run of the process that starts after the crash.
  lemma {:induction false} RunAfterRestart(c: Config, faults: Faults, faults': Faults, s: State, ws: seq<File>, n: nat,
      ms: seq<Message>)
    requires c.Valid() && Reliable(faults) && Reliable(faults')
    requires |ws| <= c.maxFiles && s.disk.files == Window(ws) && s.lastIndex == |ws| - 1
    requires Died(c, faults, s, n).phase != Done
    ensures
      var (d, segs, m) := (Died(c, faults, s, n).s.disk, Segments(c, ms), Renames(c, ws, n));
      AppendAll(c, faults', Open(c, faults', d), ms).disk.files
        == Window(Take(segs + Survivors(Kept(c, ws), m, |segs| - 1), c.maxFiles))
  {
    hide *;
    ValidHasFiles(c, ws);
    var d, kept, m := Died(c, faults, s, n).s.disk, Kept(c, ws), Renames(c, ws, n);
    CrashLeavesOneHole(c, faults, s, ws, n);
    if n == 0 && |ws| == c.maxFiles {
      RunFromFull(c, faults', d, ws, ms);
      NoRenameLosesNothing(c, ws, |Segments(c, ms)| - 1);
    } else {
      RunFromHole(c, faults', d, kept, m, ms);
    }
  }

  // The same run of the process that did not crash.
  lemma {:induction false} RunWithoutCrash(c: Config, faults: Faults, s: State, ws: seq<File>, ms: seq<Message>)
    requires c.Valid() && Reliable(faults)
    requires |ws| <= c.maxFiles && s.disk.files == Window(ws) && s.lastIndex == |ws| - 1
    ensures AppendAll(c, faults, Roller(c, faults, s).s.(size := 0), ms).disk.files
         == Window(Take(Segments(c, ms) + Kept(c, ws), c.maxFiles))
  {
    var kept := Kept(c, ws);
    assert map[] + Window(ws) == Window(ws);
    RolloverKeepsWindow(c, faults, s, ws, map[]);
    assert [[]] + kept == Take([[]] + kept, c.maxFiles);
    AppendsKeepWindow(c, faults, Roller(c, faults, s).s.(size := 0), kept, map[], ms);
    WindowOverWindow([], Take(Segments(c, ms) + kept, c.maxFiles));
  }

  // Crash and restart give the window of the uninterrupted rollover.
  lemma {:induction false} RestartFinishesRollover(c: Config, faults: Faults, faults': Faults, s: State, ws: seq<File>,
      n: nat)
    requires c.Valid() && Reliable(faults) && Reliable(faults')
    requires |ws| <= c.maxFiles && s.disk.files == Window(ws) && s.lastIndex == |ws| - 1
    requires Died(c, faults, s, n).phase != Done
    ensures Open(c, faults', Died(c, faults, s, n).s.disk).disk.files == Roller(c, faults, s).s.disk.files
  {
    RunAfterRestart(c, faults, faults', s, ws, n, []);
    RunWithoutCrash(c, faults, s, ws, []);
    var kept, m := Kept(c, ws), Renames(c, ws, n);
    assert Survivors(kept, m, 0) == kept;
  }

  // The files from h on repeat at a distance of r.
  predicate Repeats(kept: seq<File>, h: nat, r: nat) { forall j | h <= j < |kept| - r :: kept[j] == kept[j + r] }

  // When r rollovers lose nothing by having m files above the hole: there are
  // none, or no rollover came, or the window is so small that these files
  // would be gone anyway, or it was full and the lost files equal the kept ones.
  predicate Harmless(kept: seq<File>, m: nat, r: nat, n: int) {
    m == 0 || r == 0 || n - 1 - r <= |kept| - m || (m <= |kept| == n - 1 && Repeats(kept, |kept| - m, r))
  }

  // In a full window, when not all files above the hole have been overwritten yet.
  lemma FullSurvivors(segs: seq<File>, kept: seq<File>, m: nat)
    requires |segs| - 1 <= m <= |kept| && segs != []
    ensures var r := |segs| - 1;
      segs + Survivors(kept, m, r) == (segs + kept)[..|kept| + 1] <==> Repeats(kept, |kept| - m, r)
  {
    var h, r := |kept| - m, |segs| - 1;
    var a, b := segs + Survivors(kept, m, r), (segs + kept)[..|kept| + 1];
    assert forall j {:trigger kept[j]} | h <= j < |kept| - r ::
      a[|segs| + j] == kept[j + r] && b[|segs| + j] == kept[j];
    if Repeats(kept, h, r) {
      forall j | 0 <= j < |a| ensures a[j] == b[j] {
        if j >= |segs| + h { assert kept[j - |segs|] == kept[j - |segs| + r]; }
      }
    }
  }

  lemma SameSurvivors(segs: seq<File>, kept: seq<File>, m: nat, n: int)
    requires m <= |kept| <= n - 1 && segs != []
    ensures Take(segs + Survivors(kept, m, |segs| - 1), n) == Take(segs + kept, n) <==> Harmless(kept, m, |segs| - 1, n)
  {
    var h, r := |kept| - m, |segs| - 1;
    var a, b := segs + Survivors(kept, m, r), segs + kept;
    if r <= m && |kept| == n - 1 {
      FullSurvivors(segs, kept, m);
      assert Take(a, n) == a && Take(b, n) == b[..n];
    } else {
      assert forall j | 0 <= j < |segs| + h :: a[j] == b[j];
      assert r == 0 ==> a == b;
    }
  }

  lemma WindowsDiffer(a: seq<File>, b: seq<File>)
    ensures Window(a) == Window(b) <==> a == b
  {
    if Window(a) == Window(b) {
      assert |a| == |b| by { WindowSize(a); WindowSize(b); }
      forall j | 0 <= j < |a| ensures a[j] == b[j] { assert Window(a)[j] == Window(b)[j]; }
    }
  }

  // Whether the crash is made good: the run after the restart has the files of
  // the run without the crash, exactly when the files above the hole do not matter.
  lemma {:induction false} SameFilesExactlyWhen(c: Config, faults: Faults, faults': Faults, s: State, ws: seq<File>,
      n: nat, ms: seq<Message>)
    requires c.Valid() && Reliable(faults) && Reliable(faults')
    requires |ws| <= c.maxFiles && s.disk.files == Window(ws) && s.lastIndex == |ws| - 1
    requires Died(c, faults, s, n).phase != Done
    ensures
      var d := Died(c, faults, s, n).s.disk;
      AppendAll(c, faults', Open(c, faults', d), ms).disk.files
        == AppendAll(c, faults, Roller(c, faults, s).s.(size := 0), ms).disk.files
      <==> Harmless(Kept(c, ws), Renames(c, ws, n), |Segments(c, ms)| - 1, c.maxFiles)
  {
    hide *;
    ValidHasFiles(c, ws);
    RunAfterRestart(c, faults, faults', s, ws, n, ms);
    RunWithoutCrash(c, faults, s, ws, ms);
    var segs, kept, m := Segments(c, ms), Kept(c, ws), Renames(c, ws, n);
    SameSurvivors(segs, kept, m, c.maxFiles);
    WindowsDiffer(Take(segs + Survivors(kept, m, |segs| - 1), c.maxFiles), Take(segs + kept, c.maxFiles));
  }

  // The first rollover after a restart at hole h overwrites kept[h], even when
  // the window has room for one more file; all is well exactly when no rename
  // was done before the crash, or there is no room (|ws| is maxFiles or one
  // less) and the files from h on are the same.
  lemma {:induction false} RolloverAfterRestart(c: Config, faults: Faults, faults': Faults, s: State, ws: seq<File>,
      n: nat, ms: seq<Message>)
    requires c.Valid() && Reliable(faults) && Reliable(faults')
    requires |ws| <= c.maxFiles && s.disk.files == Window(ws) && s.lastIndex == |ws| - 1
    requires Died(c, faults, s, n).phase != Done && |Segments(c, ms)| == 2
    ensures
      var (d, kept, segs, m) := (Died(c, faults, s, n).s.disk, Kept(c, ws), Segments(c, ms), Renames(c, ws, n));
      var files := AppendAll(c, faults', Open(c, faults', d), ms).disk.files;
      && (m > 0 ==> files == Window(segs + kept[..|kept| - m] + kept[|kept| - m + 1..]))
      && (files == AppendAll(c, faults, Roller(c, faults, s).s.(size := 0), ms).disk.files
          <==> m == 0 || (|ws| >= c.maxFiles - 1 && forall j | |kept| - m <= j < |kept| - 1 :: kept[j] == kept[j + 1]))
  {
    hide AppendAll, Open, Roller, Segments, Died, Renames, Window, Survivors;
    RunAfterRestart(c, faults, faults', s, ws, n, ms);
    SameFilesExactlyWhen(c, faults, faults', s, ws, n, ms);
    OneSurvivorLess(Segments(c, ms), Kept(c, ws), Renames(c, ws, n), c.maxFiles);
  }

  lemma OneSurvivorLess(segs: seq<File>, kept: seq<File>, m: nat, n: int)
    requires |segs| == 2 && m <= |kept| <= n - 1
    ensures m > 0 ==> Take(segs + Survivors(kept, m, 1), n) == segs + kept[..|kept| - m] + kept[|kept| - m + 1..]
  {
    if m > 0 { assert segs + Survivors(kept, m, 1) == segs + kept[..|kept| - m] + kept[|kept| - m + 1..]; }
  }

  // A run in which it happens: two files and room for two more, a crash after
  // one rename, and the older file is lost.
  lemma {:induction false} CrashLosesFile(d: Disk)
    requires d.files == Window([["b"], ["a"]])
    ensures
      var (c, ok) := (Config(1, 4), (t: nat) => false);
      var s := State(d, 1, false, Handle(0), 1);
      var d' := Died(c, ok, s, 2).s.disk;
      && AppendAll(c, ok, Open(c, ok, d'), ["c", "d"]).disk.files == Window([["d"], ["c"], ["b"]])
      && AppendAll(c, ok, Roller(c, ok, s).s.(size := 0), ["c", "d"]).disk.files == Window([["d"], ["c"], ["b"], ["a"]])
  {
    var c, ok := Config(1, 4), (t: nat) => false;
    var s, ws := State(d, 1, false, Handle(0), 1), [["b"], ["a"]];
    TwoSegments(c);
    hide AppendAll, Open, Roller, Segments, Died, Window;
    CrashAfterOneRename(c, ok, s, ws, ["c", "d"]);
    assert ws[..1] == [["b"]];
    assert [["d"], ["c"]] + [["b"]] == [["d"], ["c"], ["b"]] && [["d"], ["c"]] + ws == [["d"], ["c"], ["b"], ["a"]];
  }

  lemma {:induction false} CrashAfterOneRename(c: Config, faults: Faults, s: State, ws: seq<File>, ms: seq<Message>)
    requires c.maxFiles == 4 && Reliable(faults)
    requires |ws| == 2 && s.disk.files == Window(ws) && s.lastIndex == 1 && |Segments(c, ms)| == 2
    ensures
      var (d, segs) := (Died(c, faults, s, 2).s.disk, Segments(c, ms));
      && AppendAll(c, faults, Open(c, faults, d), ms).disk.files == Window(segs + ws[..1])
      && AppendAll(c, faults, Roller(c, faults, s).s.(size := 0), ms).disk.files == Window(segs + ws)
  {
    DiesRenaming(c, faults, s);
    RenamesOfTwo(c, ws);
    hide AppendAll, Open, Roller, Segments, Died, Renames, Kept, Survivors, Window;
    RunAfterRestart(c, faults, faults, s, ws, 2, ms);
    RunWithoutCrash(c, faults, s, ws, ms);
  }

  lemma {:induction false} DiesRenaming(c: Config, faults: Faults, s: State)
    requires c.maxFiles == 4 && Reliable(faults) && s.lastIndex == 1 && 1 in s.disk.files
    ensures Died(c, faults, s, 2).phase == Renaming(0)
  {
    var r := Step(c, faults, Begin(c, s));
    assert r.phase == Renaming(1) && Step(c, faults, r).phase == Renaming(0);
    assert Steps(c, faults, Begin(c, s), 2) == Steps(c, faults, r, 1) == Steps(c, faults, Step(c, faults, r), 0);
  }

  lemma RenamesOfTwo(c: Config, ws: seq<File>)
    requires c.maxFiles == 4 && |ws| == 2
    ensures Renames(c, ws, 2) == 1 && Kept(c, ws) == ws && Survivors(ws, 1, 1) == ws[..1]
  {}

  lemma {:induction false} TwoSegments(c: Config)
    requires c.maxSize == 1
    ensures Segments(c, ["c", "d"]) == [["d"], ["c"]]
  {
    assert ["c"][..0] == [] && ["c", "d"][..1] == ["c"];
    var none: seq<Message> := [];
    assert Segments(c, none) == [none] && none + ["c"] == ["c"];
    assert Bytes(none) == 0 && Bytes(["c"]) == 1;
  }
}
