// The rotating file handler as the object it is: it holds its open stream and
// the time of its next rollover, and works on a directory it shares with the
// handlers of other processes.
module LogHandler {
  import opened Wrappers
  import opened LogClock
  import opened LogRotation

  // The directory with the log file and its archives.
  class LogDirectory {
    var dir: Dir

    constructor (dir: Dir)
      ensures this.dir == dir
    {
      this.dir := dir;
    }

    method Open() returns (inode: nat)
      modifies this
      ensures (dir, inode) == OpenBase(old(dir))
    {
      if Base in dir.names {
        inode := dir.names[Base];
      } else {
        inode := dir.next;
        dir := Dir(dir.names[Base := inode], dir.files[inode := []], inode + 1);
      }
    }

    // `rotate`: rename the base file, if there is one.
    method Rotate(archive: Stamp)
      modifies this
      ensures dir == if Base in old(dir.names) then RenameBase(old(dir), archive).value else old(dir)
    {
      if Base in dir.names {
        dir := dir.(names := (dir.names - {Base})[Archive(archive) := dir.names[Base]]);
      }
    }

    // The base file is only put away under a name that does not exist.
    method PutAway(archive: Stamp)
      modifies this
      ensures dir == Rotated(old(dir), archive)
    {
      if Archive(archive) !in dir.names {
        Rotate(archive);
      }
    }

    method Append(inode: nat, text: string)
      requires inode in dir.files
      modifies this
      ensures dir == AppendTo(old(dir), inode, text)
    {
      dir := dir.(files := dir.files[inode := dir.files[inode] + [text]]);
    }
  }

  // The directory after the base file is put away as `archive`, unless that
  // name is taken or there is nothing to put away.
  function Rotated(dir: Dir, archive: Stamp): Dir {
    if Archive(archive) in dir.names || Base !in dir.names then dir else RenameBase(dir, archive).value
  }

  // What one call of `emit` leaves behind when no other process interferes.
  datatype Emitted = Emitted(dir: Dir, inode: nat, rolloverAt: int)

  ghost function EmitAlone(
    zone: Zone, dir: Dir, inode: nat, rolloverAt: int, checked: int, now: int, text: string): Emitted
    requires DirInv(dir) && inode in dir.files
  {
    if checked < rolloverAt then Emitted(AppendTo(dir, inode, text), inode, rolloverAt)
    else
      var rotated := Rotated(dir, ArchiveStamp(zone, rolloverAt));
      RotatedKeeps(dir, ArchiveStamp(zone, rolloverAt));
      OpenBaseKeeps(rotated);
      var (reopened, base) := OpenBase(rotated);
      Emitted(AppendTo(reopened, base, text), base, ComputeRollover(zone, now))
  }

  // The loop that skips rollover times already passed.
  method CatchUp(first: int, now: int) returns (next: int)
    ensures next > now && next >= first && (next - first) % INTERVAL == 0
    ensures next == first || next - INTERVAL <= now
  {
    next := first;
    ghost var rounds := 0;
    while next <= now
      invariant next == first + rounds * INTERVAL && rounds >= 0
      invariant next == first || next - INTERVAL <= now
    {
      next := next + INTERVAL;
      rounds := rounds + 1;
    }
  }

  // The next rollover after `now`, which needs no catching up.
  method NextRollover(zone: Zone, now: int) returns (next: int)
    ensures next == ComputeRollover(zone, now)
    ensures now < next <= now + 3600 && (next - West(zone, now)) % 3600 == 0
  {
    RolloverIsNextHour(zone, now);
    hide ComputeRollover, West;
    next := CatchUp(ComputeRollover(zone, now), now);
  }

  class HourlyRotatingFileHandler {
    const directory: LogDirectory
    const zone: Zone
    var stream: Option<nat>
    var rolloverAt: int

    ghost predicate Valid()
      reads this, directory
    {
      DirInv(directory.dir) && stream.Some? && stream.value in directory.dir.files
    }

    // `mtime` is the base file's modification time after it was opened.
    constructor (directory: LogDirectory, zone: Zone, mtime: int)
      requires DirInv(directory.dir)
      modifies directory
      ensures this.directory == directory && this.zone == zone && Valid()
      ensures (directory.dir, stream.value) == OpenBase(old(directory.dir))
      ensures rolloverAt == ComputeRollover(zone, mtime)
    {
      this.directory := directory;
      this.zone := zone;
      rolloverAt := ComputeRollover(zone, mtime);
      stream := None;
      new;
      hide DirInv, DirGrows, OpenBase, ComputeRollover;
      OpenBaseKeeps(directory.dir);
      var inode := directory.Open();
      stream := Some(inode);
    }

    method DoRolloverLocked(now: int)
      requires Valid()
      modifies this, directory
      ensures Valid()
      ensures (directory.dir, stream.value)
              == OpenBase(Rotated(old(directory.dir), ArchiveStamp(zone, old(rolloverAt))))
      ensures rolloverAt == ComputeRollover(zone, now) && rolloverAt > now
      ensures NamesHour(zone, old(rolloverAt) - 3600, ArchiveStamp(zone, old(rolloverAt)))
      ensures (rolloverAt - West(zone, now)) % 3600 == 0 && rolloverAt <= now + 3600
    {
      hide DirInv, DirGrows, OpenBase, StampAt, Offset, ComputeRollover, NamesHour, West, OnHour, Rotated;
      ArchiveNamesHour(zone, rolloverAt, ArchiveStamp(zone, rolloverAt));
      stream := None;
      var rolloverTime := rolloverAt - INTERVAL;
      var destination := StampAt(rolloverTime, Offset(zone, rolloverTime));
      hide *;
      RotatedKeeps(directory.dir, destination);
      directory.PutAway(destination);
      OpenBaseKeeps(directory.dir);
      var inode := directory.Open();
      stream := Some(inode);
      var newRollover := NextRollover(zone, now);
      rolloverAt := newRollover;
    }

    // `checked` and `now` are the clock readings of the rollover check and of
    // the end of the rollover.
    method Emit(checked: int, now: int, text: string)
      requires Valid()
      modifies this, directory
      ensures Valid()
      ensures Emitted(directory.dir, stream.value, rolloverAt)
              == EmitAlone(zone, old(directory.dir), old(stream.value), old(rolloverAt), checked, now, text)
    {
      if checked >= rolloverAt {
        DoRolloverLocked(now);
      }
      AppendKeeps(directory.dir, stream.value, text);
      directory.Append(stream.value, text);
    }
  }

  lemma RotatedKeeps(dir: Dir, archive: Stamp)
    requires DirInv(dir)
    ensures DirInv(Rotated(dir, archive)) && DirGrows(dir, Rotated(dir, archive))
  {
    if Archive(archive) !in dir.names && Base in dir.names {
      RenameKeeps(dir, archive);
    }
  }

  /* ---------- The object runs the protocol ---------- */

  ghost predicate AllBy(steps: seq<Step>, pid: nat) {
    forall k :: 0 <= k < |steps| ==> steps[k].pid == pid
  }

  // Continue a run by one step of `pid`.
  lemma Extend(zone: Zone, s: Sys, steps: seq<Step>, t: Sys, pid: nat, step: Step)
    returns (steps': seq<Step>, t': Sys)
    requires Run(zone, true, s, steps) == Some(t) && AllBy(steps, pid)
    requires step.pid == pid && Apply(zone, true, t, step).Some?
    ensures Run(zone, true, s, steps') == Some(t') && AllBy(steps', pid)
    ensures Apply(zone, true, t, step) == Some(t')
  {
    RunAppend(zone, true, s, steps, t, step);
    steps', t' := steps + [step], Apply(zone, true, t, step).value;
  }

  // A process on its own takes the lock.
  lemma LockAlone(zone: Zone, s: Sys, pid: nat, checked: int) returns (steps: seq<Step>, t: Sys)
    requires s.lock.None? && pid in s.procs && s.procs[pid].pc == Idle
    requires checked >= s.procs[pid].rolloverAt
    ensures Run(zone, true, s, steps) == Some(t) && AllBy(steps, pid)
    ensures t == s.(lock := Some(pid),
                    procs := s.procs[pid := Proc(ProbingArchive, None, s.procs[pid].rolloverAt)])
  {
    assert Run(zone, true, s, []) == Some(s);
    hide Run;
    steps, t := Extend(zone, s, [], s, pid, Check(pid, checked));
    steps, t := Extend(zone, s, steps, t, pid, Acquire(pid));
    steps, t := Extend(zone, s, steps, t, pid, Close(pid));
  }

  // Up to the point where the archive is in place.
  lemma RotateAlone(zone: Zone, s: Sys, pid: nat, checked: int) returns (steps: seq<Step>, t: Sys)
    requires s.lock.None? && pid in s.procs && s.procs[pid].pc == Idle
    requires checked >= s.procs[pid].rolloverAt
    ensures Run(zone, true, s, steps) == Some(t) && AllBy(steps, pid)
    ensures var p := s.procs[pid];
            t == s.(dir := Rotated(s.dir, ArchiveStamp(zone, p.rolloverAt)), lock := Some(pid),
                    procs := s.procs[pid := Proc(Reopening, None, p.rolloverAt)])
  {
    hide Run, ArchiveStamp, AllBy;
    var archive := ArchiveStamp(zone, s.procs[pid].rolloverAt);
    steps, t := LockAlone(zone, s, pid, checked);
    steps, t := Extend(zone, s, steps, t, pid, ProbeArchive(pid));
    if Archive(archive) !in s.dir.names {
      steps, t := Extend(zone, s, steps, t, pid, ProbeBase(pid));
      if Base in s.dir.names {
        steps, t := Extend(zone, s, steps, t, pid, Rename(pid));
      }
    }
  }

  // From there to the written line.
  lemma FinishAlone(
    zone: Zone, s: Sys, begun: seq<Step>, r: Sys, pid: nat, rolloverAt: int, now: int, text: string)
    returns (steps: seq<Step>, t: Sys)
    requires Run(zone, true, s, begun) == Some(r) && AllBy(begun, pid)
    requires pid in r.procs && r.procs[pid] == Proc(Reopening, None, rolloverAt) && r.lock == Some(pid)
    requires OpenBase(r.dir).1 in OpenBase(r.dir).0.files
    ensures Run(zone, true, s, steps) == Some(t) && AllBy(steps, pid)
    ensures var (dir, inode) := OpenBase(r.dir);
            && t.dir == AppendTo(dir, inode, text) && t.lock.None?
            && t.procs == r.procs[pid := Proc(Idle, Some(inode), ComputeRollover(zone, now))]
            && |t.log| == |r.log| + 1
  {
    hide Run, OpenBase, ComputeRollover, AllBy;
    steps, t := ReopenAlone(zone, s, begun, r, pid, rolloverAt, now);
    steps, t := Extend(zone, s, steps, t, pid, Release(pid));
    steps, t := Extend(zone, s, steps, t, pid, Write(pid, text));
  }

  lemma ReopenAlone(zone: Zone, s: Sys, begun: seq<Step>, r: Sys, pid: nat, rolloverAt: int, now: int)
    returns (steps: seq<Step>, t: Sys)
    requires Run(zone, true, s, begun) == Some(r) && AllBy(begun, pid)
    requires pid in r.procs && r.procs[pid] == Proc(Reopening, None, rolloverAt)
    ensures Run(zone, true, s, steps) == Some(t) && AllBy(steps, pid)
    ensures var (dir, inode) := OpenBase(r.dir);
            t == r.(dir := dir, procs := r.procs[pid := Proc(Releasing, Some(inode), ComputeRollover(zone, now))])
  {
    hide Run, OpenBase, ComputeRollover, AllBy;
    steps, t := Extend(zone, s, begun, r, pid, Reopen(pid));
    steps, t := Extend(zone, s, steps, t, pid, Arm(pid, now));
  }

  lemma EmitWithoutRollover(zone: Zone, s: Sys, pid: nat, checked: int, text: string)
    returns (steps: seq<Step>, t: Sys)
    requires s.lock.None? && pid in s.procs && s.procs[pid].pc == Idle && checked < s.procs[pid].rolloverAt
    requires s.procs[pid].stream.Some? && s.procs[pid].stream.value in s.dir.files
    ensures Run(zone, true, s, steps) == Some(t) && AllBy(steps, pid)
    ensures t.dir == AppendTo(s.dir, s.procs[pid].stream.value, text) && t.lock.None?
    ensures t.procs == s.procs && |t.log| == |s.log| + 1
  {
    assert Run(zone, true, s, []) == Some(s);
    hide Run;
    steps, t := Extend(zone, s, [], s, pid, Check(pid, checked));
    steps, t := Extend(zone, s, steps, t, pid, Write(pid, text));
  }

  lemma EmitWithRollover(zone: Zone, s: Sys, pid: nat, checked: int, now: int, text: string)
    returns (steps: seq<Step>, t: Sys)
    requires DirInv(s.dir)
    requires s.lock.None? && pid in s.procs && s.procs[pid].pc == Idle && checked >= s.procs[pid].rolloverAt
    ensures Run(zone, true, s, steps) == Some(t) && AllBy(steps, pid)
    ensures var (dir, inode) := OpenBase(Rotated(s.dir, ArchiveStamp(zone, s.procs[pid].rolloverAt)));
            && inode in dir.files
            && t.dir == AppendTo(dir, inode, text) && t.lock.None?
            && t.procs == s.procs[pid := Proc(Idle, Some(inode), ComputeRollover(zone, now))]
            && |t.log| == |s.log| + 1
  {
    hide *;
    RotatedKeeps(s.dir, ArchiveStamp(zone, s.procs[pid].rolloverAt));
    var r: Sys;
    steps, r := RotateAlone(zone, s, pid, checked);
    OpenBaseKeeps(r.dir);
    var inode := OpenBase(r.dir).1;
    var done := Proc(Idle, Some(inode), ComputeRollover(zone, now));
    assert r.procs[pid := done] == s.procs[pid := done];
    steps, t := FinishAlone(zone, s, steps, r, pid, s.procs[pid].rolloverAt, now, text);
  }

  // One undisturbed call of `emit` is a run of the protocol in which only the
  // calling process moves, and it leaves directory, stream and next rollover as
  // the method does.
  lemma EmitAloneIsRun(zone: Zone, s: Sys, pid: nat, checked: int, now: int, text: string)
    returns (steps: seq<Step>, t: Sys)
    requires DirInv(s.dir) && s.lock.None? && pid in s.procs && s.procs[pid].pc == Idle
    requires s.procs[pid].stream.Some? && s.procs[pid].stream.value in s.dir.files
    ensures Run(zone, true, s, steps) == Some(t) && AllBy(steps, pid)
    ensures var p := s.procs[pid];
            var e := EmitAlone(zone, s.dir, p.stream.value, p.rolloverAt, checked, now, text);
            && t.dir == e.dir && t.lock.None?
            && t.procs == s.procs[pid := Proc(Idle, Some(e.inode), e.rolloverAt)]
            && |t.log| == |s.log| + 1
  {
    hide Run, Apply, OpenBase, DirInv, Rotated, ComputeRollover, ArchiveStamp, AppendTo;
    if checked < s.procs[pid].rolloverAt {
      steps, t := EmitWithoutRollover(zone, s, pid, checked, text);
    } else {
      steps, t := EmitWithRollover(zone, s, pid, checked, now, text);
    }
  }
}
