// The policy and the appender as they are in memory, proved against Rollover.
module RollingFile {
  import opened Rollover

  // The file system, as the policy sees it.
  class Device {
    const faults: Faults
    var disk: Disk

    constructor (faults: Faults, disk: Disk)
      ensures this.faults == faults && this.disk == disk
    {
      this.faults, this.disk := faults, disk;
    }

    method UnlinkFile(i: int) returns (ok: bool)
      modifies this
      ensures (disk, ok) == Unlink(faults, old(disk), i)
    {
      var (d, done) := Unlink(faults, disk, i);
      disk, ok := d, done;
    }

    method RenameFile(from: int, to: int) returns (ok: bool)
      requires from != to
      modifies this
      ensures (disk, ok) == Rename(faults, old(disk), from, to)
    {
      var (d, done) := Rename(faults, disk, from, to);
      disk, ok := d, done;
    }

    method CloseStream(fp: Stream) returns (ok: bool)
      modifies this
      ensures (disk, ok) == Fclose(faults, old(disk), fp)
    {
      var (d, done) := Fclose(faults, disk, fp);
      disk, ok := d, done;
    }

    method OpenZeroFile() returns (fp: Stream)
      modifies this
      ensures (disk, fp) == OpenZero(faults, old(disk))
    {
      var (d, s) := OpenZero(faults, disk);
      disk, fp := d, s;
    }

    // fprintf: the number of characters written.
    method Print(fp: Stream, m: Message) returns (rc: int)
      modifies this
      ensures disk == Fprintf(old(disk), fp, m) && rc == |m|
    {
      disk, rc := Fprintf(disk, fp, m), |m|;
    }
  }

  class SizeWin {
    const dev: Device
    var maxSize: int
    var maxFiles: int
    var lastIndex: int
    var openFailed: bool
    var initialized: bool

    function Conf(): Config
      reads this
    {
      Config(maxSize, maxFiles)
    }

    // The policy together with the stream and the size counter of its appender.
    function With(fp: Stream, size: int): State
      reads this, dev
    {
      State(dev.disk, lastIndex, openFailed, fp, size)
    }

    // sizewin_make_udata: 20 KB and five files unless set otherwise.
    constructor (dev: Device)
      ensures this.dev == dev && Conf() == Config(1024 * 20, 5) && !openFailed && !initialized
    {
      this.dev, maxSize, maxFiles := dev, 1024 * 20, 5;
      lastIndex, openFailed, initialized := 0, false, false;
    }

    method GetLastIndex() returns (k: int)
      requires Conf().Valid()
      ensures k == LastIndex(Conf(), dev.disk.files)
    {
      var i := 0;
      while i < maxFiles && i in dev.disk.files
        invariant 0 <= i <= maxFiles
        invariant LastIndex(Conf(), dev.disk.files) == LastIndex(Conf(), dev.disk.files, i)
      {
        i := i + 1;
      }
      if i == 0 {
        if i in dev.disk.files { k := 0; } else { k := -1; }
      } else {
        k := i - 1;
      }
    }

    method Init()
      requires Conf().Valid()
      modifies this
      ensures Conf() == old(Conf()) && openFailed == old(openFailed) && initialized
      ensures lastIndex == LastIndex(Conf(), dev.disk.files)
    {
      lastIndex := GetLastIndex();
      initialized := true;
    }

    method IsTriggeringEvent(m: Message, currentFileSize: int) returns (decision: bool)
      ensures decision == Triggers(Conf(), currentFileSize, m)
    {
      decision := maxSize > 0 && |m| + currentFileSize > maxSize;
    }

    // The rename loop: files k, k-1, ..., 0 move one index up until one fails.
    method RotateUp(k: int, ghost fp: Stream, ghost size: int) returns (rc: int)
      requires -1 <= k
      modifies this`lastIndex, dev
      ensures Finish(Conf(), dev.faults, Roll(With(fp, size), k, rc, Opening))
           == Finish(Conf(), dev.faults, Roll(old(With(fp, size)), k, 0, Renaming(k)))
    {
      ghost var e := Finish(Conf(), dev.faults, Roll(With(fp, size), k, 0, Renaming(k)));
      rc := 0;
      var i := k;
      while i >= 0
        invariant -1 <= i <= k && lastIndex == old(lastIndex)
        invariant rc == 0
        invariant Finish(Conf(), dev.faults, Roll(With(fp, size), k, 0, Renaming(i))) == e
      {
        var ok := dev.RenameFile(i, i + 1);
        if !ok {
          rc := 1;
          return;
        }
        i := i - 1;
      }
      lastIndex := k + 1;
    }

    // fp is the in-out FILE** of the source; size belongs to the appender.
    method Rollover(fp: Stream, ghost size: int) returns (current: Stream, rc: int)
      requires Conf().Valid()
      modifies this`lastIndex, this`openFailed, dev
      ensures var r := Roller(Conf(), dev.faults, old(With(fp, size)));
        With(current, size) == r.s && rc == r.rc
      ensures rc == 0 || rc == 1
    {
      rc, current := 0, fp;
      var k := lastIndex;
      ghost var c, f := Conf(), dev.faults;
      ghost var e := Finish(c, f, Begin(c, With(fp, size)));
      if k < 0 {
        ghost var r := Step(c, f, Begin(c, With(fp, size)));
        assert e == Finish(c, f, r) == r;
        current := dev.OpenZeroFile();
        openFailed := current == Stderr;
        lastIndex := 0;
      } else {
        if k == maxFiles - 1 {
          var ok := dev.UnlinkFile(k);
          if !ok { rc := 1; } else { k := maxFiles - 2; }
        }
        assert Finish(c, f, Roll(With(fp, size), k, rc, Closing)) == e;
        if !openFailed && fp != NoStream {
          var ok := dev.CloseStream(fp);
          if !ok { rc := 1; }
        }
        assert Finish(c, f, Roll(With(fp, size), k, rc, if rc == 0 then Renaming(k) else Opening)) == e;
        if rc == 0 {
          rc := RotateUp(k, fp, size);
        }
        ghost var r := Step(c, f, Roll(With(fp, size), k, rc, Opening));
        assert e == Finish(c, f, Roll(With(fp, size), k, rc, Opening)) == Finish(c, f, r) == r;
        current := dev.OpenZeroFile();
        if current == Stderr { openFailed, rc := true, 1; } else { openFailed, rc := false, 0; }
      }
    }
  }

  class RollingFile {
    const policy: SizeWin
    var fp: Stream
    var size: int

    function Abs(): State
      reads this, policy, policy.dev
    {
      policy.With(fp, size)
    }

    constructor (policy: SizeWin)
      ensures this.policy == policy && fp == NoStream && size == 0
    {
      this.policy, fp, size := policy, NoStream, 0;
    }

    // rollingfile_open: initialise the policy if nobody has, then roll over.
    method Open() returns (rc: int)
      requires policy.Conf().Valid()
      modifies this, policy, policy.dev
      ensures policy.Conf() == old(policy.Conf()) && policy.initialized
      ensures !old(policy.initialized) && old(fp) == NoStream && !old(policy.openFailed) ==>
        && Abs() == Rollover.Open(policy.Conf(), policy.dev.faults, old(policy.dev.disk))
        && rc == Roller(policy.Conf(), policy.dev.faults, Fresh(policy.Conf(), old(policy.dev.disk))).rc
      ensures old(policy.initialized) ==>
        var r := Roller(policy.Conf(), policy.dev.faults, old(Abs()).(size := 0));
        Abs() == r.s && rc == r.rc
    {
      size := 0;
      if !policy.initialized { policy.Init(); }
      rc := 0;
      var policyRc;
      fp, policyRc := policy.Rollover(fp, 0);
      if policyRc != 0 { rc := 1; } else { size := 0; }
    }

    // rollingfile_append, between taking and releasing the lock.
    method Append(m: Message) returns (rc: int)
      requires policy.Conf().Valid()
      modifies this, policy, policy.dev
      ensures policy.Conf() == old(policy.Conf())
      ensures Abs() == Rollover.Append(policy.Conf(), policy.dev.faults, old(Abs()), m)
      ensures rc == |m|
    {
      rc := 0;
      var rotate := policy.IsTriggeringEvent(m, size);
      if rotate {
        fp, rc := policy.Rollover(fp, size);
        if rc <= 5 { size := 0; }
      }
      if rc <= 5 {
        rc := policy.dev.Print(fp, m);
        size := size + |m|;
      }
    }
  }
}
