// The size-window rolling policy (rollingpolicy_type_sizewin.c) and the
// rollingfile appender that drives it (appender_type_rollingfile.c), as
// functions on values.  A rollover is cut into its file operations, so that a
// crash can fall between any two of them and threads can interleave with them.
module Rollover {

  type Message = string
  type File = seq<Message>

  // Bytes written to a file, one fprintf after the other.
  function Bytes(f: File): nat {
    if f == [] then 0 else Bytes(f[..|f| - 1]) + |f[|f| - 1]|
  }

  // The FILE* of the appender: null, stderr, or the id-th stream fopen returned.
  datatype Stream = NoStream | Stderr | Handle(id: nat)

  // The environment.  `files` is keyed by window index; `opens` counts the
  // streams handed out, `closed` lists those given to fclose, and `clock`
  // counts the operations attempted, so that a function nat -> bool can say
  // which of them fail.
  datatype Disk = Disk(files: map<int, File>, opens: nat, closed: seq<Stream>,
                       console: seq<Message>, clock: nat)

  type Faults = nat -> bool

  ghost predicate Reliable(faults: Faults) { forall t: nat :: !faults(t) }

  // unlink and rename fail on a missing file, and whenever the environment says so.
  function Unlink(faults: Faults, d: Disk, i: int): (r: (Disk, bool)) {
    var d' := d.(clock := d.clock + 1);
    if i in d.files && !faults(d.clock) then (d'.(files := d.files - {i}), true) else (d', false)
  }

  function Rename(faults: Faults, d: Disk, from: int, to: int): (r: (Disk, bool))
    requires from != to
  {
    var d' := d.(clock := d.clock + 1);
    if from in d.files && !faults(d.clock)
    then (d'.(files := (d.files - {from})[to := d.files[from]]), true)
    else (d', false)
  }

  // fclose releases the stream whether or not it reports an error.
  function Fclose(faults: Faults, d: Disk, s: Stream): (r: (Disk, bool)) {
    (d.(clock := d.clock + 1, closed := d.closed + [s]), !faults(d.clock))
  }

  // sizewin_open_zero_file: fopen(name 0, "w+"), or stderr when that fails.
  function OpenZero(faults: Faults, d: Disk): (r: (Disk, Stream)) {
    var d' := d.(clock := d.clock + 1);
    if faults(d.clock) then (d', Stderr)
    else (d'.(files := d.files[0 := []], opens := d.opens + 1), Handle(d.opens))
  }

  // A stream is open only between an fopen of file 0 and the fclose before the
  // renames, so writing to it is writing to the file with index 0.
  function Fprintf(d: Disk, s: Stream, m: Message): (r: Disk) {
    match s
    case NoStream => d
    case Stderr => d.(console := d.console + [m])
    case Handle(_) => if 0 in d.files then d.(files := d.files[0 := d.files[0] + [m]]) else d
  }

  datatype Config = Config(maxSize: int, maxFiles: int) {
    predicate Valid() { maxFiles >= 1 }
  }

  // What the appender and its policy remember, and the disk they act on.
  datatype State = State(disk: Disk, lastIndex: int, openFailed: bool, stream: Stream, size: int)

  // The points of sizewin_rollover at which control can rest.
  datatype Phase = Creating | Unlinking | Closing | Renaming(i: int) | Opening | Done

  datatype Roll = Roll(s: State, k: int, rc: int, phase: Phase)

  function Begin(c: Config, s: State): (r: Roll) {
    Roll(s, s.lastIndex, 0,
         if s.lastIndex < 0 then Creating
         else if s.lastIndex == c.maxFiles - 1 then Unlinking
         else Closing)
  }

  function Reopen(faults: Faults, s: State): (s': State) {
    var (d, fp) := OpenZero(faults, s.disk);
    s.(disk := d, stream := fp, openFailed := fp == Stderr)
  }

  // One file operation of a rollover under way.
  function Step(c: Config, faults: Faults, r: Roll): (r': Roll)
    requires r.phase != Done
  {
    match r.phase
    case Creating => r.(s := Reopen(faults, r.s).(lastIndex := 0), phase := Done)
    case Unlinking =>
      var (d, ok) := Unlink(faults, r.s.disk, r.k);
      if ok then Roll(r.s.(disk := d), c.maxFiles - 2, r.rc, Closing)
      else Roll(r.s.(disk := d), r.k, 1, Closing)
    case Closing =>
      if r.s.openFailed || r.s.stream == NoStream then
        r.(phase := if r.rc == 0 then Renaming(r.k) else Opening)
      else
        var (d, ok) := Fclose(faults, r.s.disk, r.s.stream);
        var rc := if ok then r.rc else 1;
        Roll(r.s.(disk := d), r.k, rc, if rc == 0 then Renaming(r.k) else Opening)
    case Renaming(i) =>
      if i < 0 then Roll(r.s.(lastIndex := r.k + 1), r.k, r.rc, Opening)
      else
        var (d, ok) := Rename(faults, r.s.disk, i, i + 1);
        if ok then Roll(r.s.(disk := d), r.k, r.rc, Renaming(i - 1))
        else Roll(r.s.(disk := d), r.k, 1, Opening)
    case Opening =>
      var s := Reopen(faults, r.s);
      Roll(s, r.k, if s.openFailed then 1 else 0, Done)
  }

  function Rank(p: Phase, k: int): nat {
    match p
    case Done => 0
    case Creating => 1
    case Opening => 1
    case Renaming(i) => if i < 0 then 2 else 3 + i
    case Closing => if k < 0 then 3 else 4 + k
    case Unlinking => if k < 0 then 5 else 6 + k
  }

  predicate Sound(c: Config, r: Roll) { r.phase == Unlinking ==> r.k == c.maxFiles - 1 }

  lemma StepDescends(c: Config, faults: Faults, r: Roll)
    requires r.phase != Done && Sound(c, r)
    ensures Rank(Step(c, faults, r).phase, Step(c, faults, r).k) < Rank(r.phase, r.k)
    ensures Sound(c, Step(c, faults, r))
  {}

  // Run a rollover to its end.
  function Finish(c: Config, faults: Faults, r: Roll): (r': Roll)
    requires Sound(c, r)
    ensures r'.phase == Done
    decreases Rank(r.phase, r.k)
  {
    if r.phase == Done then r
    else
      StepDescends(c, faults, r);
      Finish(c, faults, Step(c, faults, r))
  }

  // Run at most n file operations of a rollover.
  function Steps(c: Config, faults: Faults, r: Roll, n: nat): (r': Roll)
    requires Sound(c, r)
    ensures Sound(c, r')
    decreases n
  {
    if n == 0 || r.phase == Done then r else Steps(c, faults, Step(c, faults, r), n - 1)
  }

  lemma {:induction false} FinishAfterSteps(c: Config, faults: Faults, r: Roll, n: nat)
    requires Sound(c, r)
    ensures Finish(c, faults, Steps(c, faults, r, n)) == Finish(c, faults, r)
    decreases n
  {
    if n == 0 || r.phase == Done {
    } else {
      FinishAfterSteps(c, faults, Step(c, faults, r), n - 1);
    }
  }

  function Roller(c: Config, faults: Faults, s: State): (r: Roll) { Finish(c, faults, Begin(c, s)) }

  // sizewin_get_last_index: the last of the leading run of existing files.
  function LastIndex(c: Config, files: map<int, File>, i: nat := 0): (k: int)
    requires i <= c.maxFiles
    ensures i - 1 <= k < c.maxFiles
    ensures forall j :: i <= j <= k ==> j in files
    ensures k + 1 < c.maxFiles ==> k + 1 !in files
    decreases c.maxFiles - i
  {
    if i < c.maxFiles && i in files then LastIndex(c, files, i + 1) else i - 1
  }

  // rollingfile_open on a fresh appender and policy: init, then rollover.
  function Fresh(c: Config, d: Disk): (s: State)
    requires c.Valid()
  {
    State(d, LastIndex(c, d.files), false, NoStream, 0)
  }

  function Open(c: Config, faults: Faults, d: Disk): (s: State)
    requires c.Valid()
  {
    Roller(c, faults, Fresh(c, d)).s.(size := 0)
  }

  predicate Triggers(c: Config, size: int, m: Message) {
    c.maxSize > 0 && |m| + size > c.maxSize
  }

  // rollingfile_append.  The policy's return code is 0 or 1, below the
  // threshold that forbids logging, so the size is reset after every rollover.
  function Append(c: Config, faults: Faults, s: State, m: Message): (s': State) {
    var s1 := if Triggers(c, s.size, m) then Roller(c, faults, s).s.(size := 0) else s;
    Written(s1, m)
  }

  function Written(s: State, m: Message): (s': State) {
    s.(disk := Fprintf(s.disk, s.stream, m), size := s.size + |m|)
  }

  function AppendAll(c: Config, faults: Faults, s: State, ms: seq<Message>): (s': State) {
    if ms == [] then s
    else Append(c, faults, AppendAll(c, faults, s, ms[..|ms| - 1]), ms[|ms| - 1])
  }
}
