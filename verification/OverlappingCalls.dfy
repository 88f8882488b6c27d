// Calls that overlap: what keeps the files to their hours, and two calls that
// do not.
module OverlappingCalls {
  import opened Wrappers
  import opened LogClock
  import opened LogRotation
  import opened LocalHours
  import opened StepHours

  // The clock does not run backwards.
  predicate Clocked(w: Watch, step: Step) {
    step.Check? || step.Arm? ==> w.clock <= step.now
  }

  // A process that starts or arms finds its file opened for the very hour its
  // rollover time ends, if it was opened before.
  predicate Agrees(zone: Zone, w: Watch, step: Step) {
    match step
    case Start(_, mtime) =>
      var inode := OpenBase(w.sys.dir).1;
      inode in w.hours ==> w.hours[inode] == HourOf(zone, mtime)
    case Arm(pid, now) =>
      pid in w.sys.procs && w.sys.procs[pid].stream.Some? && w.sys.procs[pid].stream.value in w.hours ==>
        w.hours[w.sys.procs[pid].stream.value] == HourOf(zone, now)
    case _ => true
  }

  ghost predicate AllAgree(zone: Zone, w: Watch, steps: seq<Step>)
    decreases steps
  {
    steps == [] ||
    (Clocked(w, steps[0]) && Agrees(zone, w, steps[0]) &&
     (Observe(zone, w, steps[0]).Some? ==> AllAgree(zone, Observe(zone, w, steps[0]).value, steps[1..])))
  }

  /* ---------- The invariant ---------- */

  ghost predicate HasHour(hours: map<nat, int>, rolloverAt: int) {
    exists i :: i in hours && hours[i] + INTERVAL == rolloverAt
  }

  // The process writes to a file opened for the hour its rollover time ends.
  predicate OnFile(hours: map<nat, int>, p: Proc) {
    p.stream.Some? && p.stream.value in hours && hours[p.stream.value] + INTERVAL == p.rolloverAt
  }

  ghost predicate ProcTimed(zone: Zone, hours: map<nat, int>, seen: map<nat, int>, pid: nat, p: Proc) {
    match p.pc
    case Idle => OnFile(hours, p)
    case Waiting => HasHour(hours, p.rolloverAt)
    case Closing => HasHour(hours, p.rolloverAt)
    case ProbingArchive => HasHour(hours, p.rolloverAt)
    case ProbingBase(archive) => HasHour(hours, p.rolloverAt) && archive == ArchiveStamp(zone, p.rolloverAt)
    case Renaming(archive) => HasHour(hours, p.rolloverAt) && archive == ArchiveStamp(zone, p.rolloverAt)
    case Reopening => true
    case Arming => true
    case Releasing => OnFile(hours, p) && pid in seen && HourOf(zone, seen[pid]) == hours[p.stream.value]
    case Writing => OnFile(hours, p) && pid in seen && HourOf(zone, seen[pid]) == hours[p.stream.value]
  }

  ghost predicate FilesTimed(zone: Zone, w: Watch) {
    forall i <- w.hours :: i in w.sys.dir.files && LocalHourAt(zone, w.hours[i]) && w.hours[i] <= w.clock
  }

  ghost predicate LinesTimed(zone: Zone, hours: map<nat, int>, log: seq<Emission>, readings: seq<int>) {
    && |readings| == |log|
    && forall k :: 0 <= k < |log| ==> log[k].inode in hours && HourOf(zone, readings[k]) == hours[log[k].inode]
  }

  ghost predicate ArchivesTimed(zone: Zone, hours: map<nat, int>, names: map<Name, nat>) {
    forall stamp | Archive(stamp) in names ::
      names[Archive(stamp)] in hours && stamp == ArchiveStamp(zone, hours[names[Archive(stamp)]] + INTERVAL)
  }

  ghost predicate Orderly(zone: Zone, w: Watch) {
    && WatchInv(w)
    && FilesTimed(zone, w)
    && LinesTimed(zone, w.hours, w.sys.log, w.readings)
    && ArchivesTimed(zone, w.hours, w.sys.dir.names)
    && forall pid <- w.sys.procs :: ProcTimed(zone, w.hours, w.seen, pid, w.sys.procs[pid])
  }

  lemma StampOfHour(zone: Zone, t: int)
    ensures StampOf(zone, t) == ArchiveStamp(zone, HourOf(zone, t) + INTERVAL)
  {
  }

  // All lines of a file are of the hour it was opened for.
  lemma LinesOfFile(zone: Zone, w: Watch, inode: nat)
    requires LinesTimed(zone, w.hours, w.sys.log, w.readings) && inode in w.hours
    ensures AllOf(zone, inode, ArchiveStamp(zone, w.hours[inode] + INTERVAL), w.sys.log, w.readings)
  {
    forall k | 0 <= k < |w.sys.log| && w.sys.log[k].inode == inode
      ensures StampOf(zone, w.readings[k]) == ArchiveStamp(zone, w.hours[inode] + INTERVAL)
    {
      StampOfHour(zone, w.readings[k]);
    }
  }

  // The base file about to be renamed is the one whose hour the archive names.
  lemma RenamesOwnHour(zone: Zone, w: Watch, pid: nat)
    requires Orderly(zone, w) && pid in w.sys.procs && w.sys.procs[pid].pc.Renaming?
    ensures Base in w.sys.dir.names && w.sys.dir.names[Base] in w.hours
    ensures w.sys.procs[pid].pc.archive == ArchiveStamp(zone, w.hours[w.sys.dir.names[Base]] + INTERVAL)
  {
    hide ArchiveStamp, LocalHourAt, LogInv, ProcInv, LinesTimed;
    RenamingTarget(w.sys, pid);
    var p := w.sys.procs[pid];
    assert ProcTimed(zone, w.hours, w.seen, pid, p);
    var i :| i in w.hours && w.hours[i] + INTERVAL == p.rolloverAt;
    assert Named(w.sys.dir, i);
    var n :| n in w.sys.dir.names && w.sys.dir.names[n] == i;
  }

  lemma NotStray(zone: Zone, w: Watch, step: Step)
    requires Orderly(zone, w) && Apply(zone, true, w.sys, step).Some?
    ensures !Stray(zone, w, step)
  {
    hide ArchiveStamp, StampOf, HourOf, DirInv, LogInv, LinesTimed, FilesTimed, AllOf, ProcInv, Inv;
    if step.Write? {
      var p := w.sys.procs[step.pid];
      assert ProcTimed(zone, w.hours, w.seen, step.pid, p);
      StampOfHour(zone, LastSeen(w, step.pid));
      LinesOfFile(zone, w, p.stream.value);
    } else if step.Rename? {
      RenamesOwnHour(zone, w, step.pid);
      LinesOfFile(zone, w, w.sys.dir.names[Base]);
    }
  }

  /* ---------- Every step keeps it ---------- */

  // The hour a file is opened for stays.
  ghost predicate Extends(a: map<nat, int>, b: map<nat, int>) {
    forall i <- a :: i in b && b[i] == a[i]
  }

  lemma HasHourStays(a: map<nat, int>, b: map<nat, int>, rolloverAt: int)
    requires HasHour(a, rolloverAt) && Extends(a, b)
    ensures HasHour(b, rolloverAt)
  {
    var i :| i in a && a[i] + INTERVAL == rolloverAt;
    assert i in b && b[i] + INTERVAL == rolloverAt;
  }

  lemma ProcTimedStays(
    zone: Zone, a: map<nat, int>, b: map<nat, int>, seen: map<nat, int>, later: map<nat, int>, pid: nat, p: Proc)
    requires ProcTimed(zone, a, seen, pid, p) && Extends(a, b)
    requires pid in seen ==> pid in later && later[pid] == seen[pid]
    ensures ProcTimed(zone, b, later, pid, p)
  {
    hide ArchiveStamp, HourOf, HasHour;
    if HasHour(a, p.rolloverAt) {
      HasHourStays(a, b, p.rolloverAt);
    }
  }

  lemma OpenedForExtends(zone: Zone, w: Watch, step: Step)
    ensures Extends(w.hours, OpenedFor(zone, w, step))
  {
    hide OpenBase, HourOf;
  }

  // Where the moving process stands afterwards.
  lemma MoverTimed(zone: Zone, w: Watch, step: Step, t: Watch)
    requires RegularZone(zone) && Orderly(zone, w) && Observe(zone, w, step) == Some(t)
    requires Clocked(w, step) && Agrees(zone, w, step) && step.pid in t.sys.procs
    ensures ProcTimed(zone, t.hours, t.seen, step.pid, t.sys.procs[step.pid])
  {
    hide ArchiveStamp, HourOf, DirInv, LogInv, LinesTimed, ArchivesTimed, ProcInv, OpenBase, LocalHourAt, RegularZone,
      ComputeRollover, RenameBase, AppendTo, Inv;
    if step.Start? {
      RolloverOfHour(zone, step.mtime);
    } else {
      var p := w.sys.procs[step.pid];
      assert ProcTimed(zone, w.hours, w.seen, step.pid, p);
      if step.Check? {
        CheckTimed(zone, w, step, p);
      } else if step.Arm? {
        OpenedFile(zone, w.sys, step, t.sys);
        RolloverOfHour(zone, step.now);
      }
    }
  }

  lemma RolloverOfHour(zone: Zone, t: int)
    ensures ComputeRollover(zone, t) == HourOf(zone, t) + INTERVAL
  {
  }

  lemma CheckTimed(zone: Zone, w: Watch, step: Step, p: Proc)
    requires RegularZone(zone) && FilesTimed(zone, w) && step.Check? && Clocked(w, step) && OnFile(w.hours, p)
    ensures HasHour(w.hours, p.rolloverAt)
    ensures step.now < p.rolloverAt ==> HourOf(zone, step.now) == w.hours[p.stream.value]
  {
    hide HourOf, LocalHourAt, RegularZone;
    HourLater(zone, w.hours[p.stream.value], step.now);
  }

  lemma FilesStayTimed(zone: Zone, w: Watch, step: Step, t: Watch)
    requires RegularZone(zone) && Orderly(zone, w) && Observe(zone, w, step) == Some(t) && Clocked(w, step)
    ensures FilesTimed(zone, t)
  {
    hide HourOf, LocalHourAt, RegularZone, DirInv, LogInv, ProcInv, LinesTimed, ArchivesTimed, ProcTimed, Inv, OpenBase,
      Apply;
    assert DirGrows(w.sys.dir, t.sys.dir) by {
      StepKeeps(zone, w.sys, step, t.sys);
    }
    OpenedFile(zone, w.sys, step, t.sys);
    if step.Start? {
      HourLaw(zone, step.mtime);
    } else if step.Arm? {
      HourLaw(zone, step.now);
    }
  }

  lemma OpenedFile(zone: Zone, s: Sys, step: Step, t: Sys)
    requires Inv(s) && Apply(zone, true, s, step) == Some(t)
    ensures step.Start? ==> OpenBase(s.dir).1 in t.dir.files
    ensures step.Arm? ==> step.pid in s.procs && s.procs[step.pid].stream.Some?
                          && s.procs[step.pid].stream.value in t.dir.files
  {
    hide DirInv, LogInv, ComputeRollover, ArchiveStamp, OpenBase;
    if step.Start? {
      OpenBaseKeeps(s.dir);
    } else if step.Arm? {
      assert ProcInv(s, step.pid);
    }
  }

  lemma LinesStayTimed(zone: Zone, w: Watch, step: Step, t: Watch)
    requires Orderly(zone, w) && Observe(zone, w, step) == Some(t)
    ensures LinesTimed(zone, t.hours, t.sys.log, t.readings)
  {
    hide HourOf, Inv, FilesTimed, ArchivesTimed, OpenedFor, Apply, ArchiveStamp;
    OpenedForExtends(zone, w, step);
    LogGrowth(zone, w.sys, step, t.sys);
    if step.Write? {
      WritingOnFile(zone, w, step, t);
      var n := |w.sys.log|;
      assert forall k :: 0 <= k < n ==> t.sys.log[k] == w.sys.log[k] && t.readings[k] == w.readings[k];
    }
  }

  lemma WritingOnFile(zone: Zone, w: Watch, step: Step, t: Watch)
    requires Orderly(zone, w) && Observe(zone, w, step) == Some(t) && step.Write?
    ensures var p := w.sys.procs[step.pid];
            OnFile(w.hours, p) && HourOf(zone, LastSeen(w, step.pid)) == w.hours[p.stream.value]
  {
    hide HourOf, Inv, FilesTimed, ArchivesTimed, LinesTimed, ArchiveStamp, AppendTo;
    assert ProcTimed(zone, w.hours, w.seen, step.pid, w.sys.procs[step.pid]);
  }

  lemma ArchivesStayTimed(zone: Zone, w: Watch, step: Step, t: Watch)
    requires Orderly(zone, w) && Observe(zone, w, step) == Some(t)
    ensures ArchivesTimed(zone, t.hours, t.sys.dir.names)
  {
    hide HourOf, Inv, FilesTimed, LinesTimed, OpenedFor, Apply, ArchiveStamp, ProcTimed;
    OpenedForExtends(zone, w, step);
    LogGrowth(zone, w.sys, step, t.sys);
    if step.Rename? {
      RenamesOwnHour(zone, w, step.pid);
    }
  }

  lemma StepStaysOrderly(zone: Zone, w: Watch, step: Step, t: Watch)
    requires RegularZone(zone) && Orderly(zone, w) && Observe(zone, w, step) == Some(t)
    requires Clocked(w, step) && Agrees(zone, w, step)
    ensures Orderly(zone, t) && !Stray(zone, w, step)
  {
    hide RegularZone, Inv, FilesTimed, LinesTimed, ArchivesTimed, ProcTimed, OpenedFor, Agrees, Clocked;
    NotStray(zone, w, step);
    ObserveKeeps(zone, w, step);
    FilesStayTimed(zone, w, step, t);
    LinesStayTimed(zone, w, step, t);
    ArchivesStayTimed(zone, w, step, t);
    OpenedForExtends(zone, w, step);
    OneMoves(zone, w.sys, step, t.sys);
    hide Apply, Stray, Extends;
    forall pid | pid in t.sys.procs
      ensures ProcTimed(zone, t.hours, t.seen, pid, t.sys.procs[pid])
    {
      if pid == step.pid {
        MoverTimed(zone, w, step, t);
      } else {
        ProcTimedStays(zone, w.hours, t.hours, w.seen, t.seen, pid, w.sys.procs[pid]);
      }
    }
  }

  lemma OneMoves(zone: Zone, s: Sys, step: Step, t: Sys)
    requires Apply(zone, true, s, step) == Some(t)
    ensures forall q <- t.procs :: q != step.pid ==> q in s.procs && t.procs[q] == s.procs[q]
  {
    hide OpenBase, RenameBase, AppendTo, ComputeRollover, ArchiveStamp;
  }

  // In every run, however calls overlap, in which starting and arming processes
  // agree on the hours of their files, no step is stray and every file keeps to
  // its hour.
  lemma {:induction false} AgreeingRunKeepsHours(zone: Zone, w: Watch, steps: seq<Step>, t: Watch)
    requires RegularZone(zone) && Orderly(zone, w) && ObserveAll(zone, w, steps) == Some(t)
    requires AllAgree(zone, w, steps)
    ensures NoStray(zone, w, steps)
    ensures Orderly(zone, t) && HoursKept(zone, t)
    decreases steps
  {
    hide RegularZone, Orderly, Stray, Observe, Agrees, Clocked, HoursKept, WatchInv;
    OrderlyKeepsHours(zone, w);
    if steps != [] {
      var next := Observe(zone, w, steps[0]).value;
      StepStaysOrderly(zone, w, steps[0], next);
      AgreeingRunKeepsHours(zone, next, steps[1..], t);
    }
  }

  lemma OrderlyKeepsHours(zone: Zone, w: Watch)
    requires Orderly(zone, w)
    ensures WatchInv(w) && HoursKept(zone, w)
  {
    hide ArchiveStamp, StampOf, HourOf, Inv, FilesTimed;
    forall k | 0 <= k < |w.sys.log|
      ensures StampOf(zone, w.readings[k]) == ArchiveStamp(zone, w.hours[w.sys.log[k].inode] + INTERVAL)
    {
      StampOfHour(zone, w.readings[k]);
    }
  }

  function Beginning(clock: int): Watch {
    Watch(EMPTY, map[], [], map[], clock)
  }

  lemma BeginningOrderly(zone: Zone, clock: int)
    ensures Orderly(zone, Beginning(clock))
    ensures WatchInv(Beginning(clock))
  {
  }

  /* ---------- Two calls that do not ---------- */

  lemma ObserveNext(zone: Zone, w: Watch, steps: seq<Step>, t: Watch, step: Step)
    returns (later: seq<Step>, next: Watch)
    requires ObserveAll(zone, w, steps) == Some(t) && Observe(zone, t, step).Some?
    ensures later == steps + [step] && Observe(zone, t, step) == Some(next)
    ensures ObserveAll(zone, w, later) == Some(next)
  {
    ObserveAppend(zone, w, steps, t, step);
    later, next := steps + [step], Observe(zone, t, step).value;
  }

  lemma {:induction false} ObserveAppend(zone: Zone, w: Watch, steps: seq<Step>, t: Watch, step: Step)
    requires ObserveAll(zone, w, steps) == Some(t)
    ensures ObserveAll(zone, w, steps + [step]) == Observe(zone, t, step)
    decreases steps
  {
    hide Observe;
    if steps == [] {
      assert [step][1..] == [];
    } else {
      assert (steps + [step])[1..] == steps[1..] + [step];
      ObserveAppend(zone, Observe(zone, w, steps[0]).value, steps[1..], t, step);
    }
  }

  const EARLY := 2 * INTERVAL - 1

  const PAST := 2 * INTERVAL + 1

  lemma AroundTheHour()
    ensures ComputeRollover(UTC, 0) == INTERVAL && ArchiveStamp(UTC, INTERVAL) == StampOf(UTC, 0)
    ensures ComputeRollover(UTC, EARLY) == 2 * INTERVAL && ComputeRollover(UTC, PAST) == 3 * INTERVAL
    ensures HourOf(UTC, 0) == 0 && HourOf(UTC, EARLY) == INTERVAL && HourOf(UTC, PAST) == 2 * INTERVAL
    ensures StampOf(UTC, EARLY) != StampOf(UTC, PAST)
  {
  }

  // The first process is late by almost an hour.
  ghost function FirstDue(): Watch {
    Watch(
      Sys(Dir(map[Base := 0], map[0 := []], 1), map[1 := Proc(Waiting, Some(0), INTERVAL)], None, []),
      map[1 := EARLY], [], map[0 := 0], EARLY)
  }

  lemma ReachFirstDue() returns (steps: seq<Step>)
    ensures ObserveAll(UTC, Beginning(0), steps) == Some(FirstDue())
  {
    hide ObserveAll, HourOf, ComputeRollover;
    AroundTheHour();
    var w := Beginning(0);
    ObserveNothing(w);
    steps, w := ObserveNext(UTC, Beginning(0), [], w, Start(1, 0));
    steps, w := ObserveNext(UTC, Beginning(0), steps, w, Check(1, EARLY));
    assert w.sys.procs == FirstDue().sys.procs;
    assert w.sys.dir == FirstDue().sys.dir;
    assert w == FirstDue();
  }

  // It finds no archive yet.
  ghost function FirstProbed(): Watch {
    Watch(
      Sys(Dir(map[Base := 0], map[0 := []], 1),
          map[1 := Proc(ProbingBase(StampOf(UTC, 0)), None, INTERVAL)], Some(1), []),
      map[1 := EARLY], [], map[0 := 0], EARLY)
  }

  lemma ReachFirstProbed() returns (steps: seq<Step>)
    ensures ObserveAll(UTC, Beginning(0), steps) == Some(FirstProbed())
  {
    hide ObserveAll, ArchiveStamp, StampOf, HourOf, ComputeRollover;
    AroundTheHour();
    steps := ReachFirstDue();
    var w := FirstDue();
    steps, w := ObserveNext(UTC, Beginning(0), steps, w, Acquire(1));
    steps, w := ObserveNext(UTC, Beginning(0), steps, w, Close(1));
    steps, w := ObserveNext(UTC, Beginning(0), steps, w, ProbeArchive(1));
    assert w.sys.procs == FirstProbed().sys.procs;
    assert w.sys.dir == FirstProbed().sys.dir;
  }

  // It puts the old file away at the very end of the next hour and has opened
  // the new base file.
  ghost function FirstReopened(): Watch {
    Watch(
      Sys(Dir(map[Archive(StampOf(UTC, 0)) := 0, Base := 1], map[0 := [], 1 := []], 2),
          map[1 := Proc(Arming, Some(1), INTERVAL)], Some(1), []),
      map[1 := EARLY], [], map[0 := 0], EARLY)
  }

  lemma ReachFirstReopened() returns (steps: seq<Step>)
    ensures ObserveAll(UTC, Beginning(0), steps) == Some(FirstReopened())
  {
    hide ObserveAll, ArchiveStamp, StampOf, HourOf, ComputeRollover;
    steps := ReachFirstProbed();
    var w := FirstProbed();
    steps, w := ObserveNext(UTC, Beginning(0), steps, w, ProbeBase(1));
    steps, w := ObserveNext(UTC, Beginning(0), steps, w, Rename(1));
    assert w.sys.dir.names == map[Archive(StampOf(UTC, 0)) := 0];
    steps, w := ObserveNext(UTC, Beginning(0), steps, w, Reopen(1));
    assert w.sys.dir == FirstReopened().sys.dir;
    assert w.sys.procs == FirstReopened().sys.procs;
  }

  lemma ObserveNothing(w: Watch)
    ensures ObserveAll(UTC, w, []) == Some(w)
  {
  }

  // The second starts, finds the new file, and writes a line before the hour is over.
  ghost function SecondWrote(): Watch {
    Watch(
      Sys(Dir(map[Archive(StampOf(UTC, 0)) := 0, Base := 1], map[0 := [], 1 := ["hour one"]], 2),
          map[1 := Proc(Arming, Some(1), INTERVAL), 2 := Proc(Idle, Some(1), 2 * INTERVAL)], Some(1),
          [Emission(2, "hour one", 1, 0)]),
      map[1 := EARLY, 2 := EARLY], [EARLY], map[0 := 0, 1 := INTERVAL], EARLY)
  }

  lemma ReachSecondWrote() returns (steps: seq<Step>)
    ensures ObserveAll(UTC, Beginning(0), steps) == Some(SecondWrote())
  {
    hide ObserveAll, ArchiveStamp, StampOf, HourOf, ComputeRollover;
    AroundTheHour();
    steps := ReachFirstReopened();
    var w := FirstReopened();
    steps, w := ObserveNext(UTC, Beginning(0), steps, w, Start(2, EARLY));
    steps, w := ObserveNext(UTC, Beginning(0), steps, w, Check(2, EARLY));
    steps, w := ObserveNext(UTC, Beginning(0), steps, w, Write(2, "hour one"));
    assert w.sys.procs == SecondWrote().sys.procs;
    assert w.sys.dir.files[1] == ["hour one"];
    assert w.sys.dir == SecondWrote().sys.dir;
    assert w == SecondWrote();
  }

  // The first arms in the next hour.
  ghost function FirstReleased(): Watch {
    var w := SecondWrote();
    w.(sys := w.sys.(procs := w.sys.procs[1 := Proc(Writing, Some(1), 3 * INTERVAL)], lock := None),
       seen := w.seen[1 := PAST], clock := PAST)
  }

  lemma ReachFirstReleased() returns (steps: seq<Step>)
    ensures ObserveAll(UTC, Beginning(0), steps) == Some(FirstReleased())
  {
    hide ObserveAll, ArchiveStamp, StampOf, HourOf, ComputeRollover;
    AroundTheHour();
    steps := ReachSecondWrote();
    var w := SecondWrote();
    steps, w := ObserveNext(UTC, Beginning(0), steps, w, Arm(1, PAST));
    steps, w := ObserveNext(UTC, Beginning(0), steps, w, Release(1));
    assert w.sys.procs == FirstReleased().sys.procs;
    assert w == FirstReleased();
  }

  // Then it writes: the base file holds lines of
  // two hours, although the clock never ran backwards and no process found its
  // archive made.
  lemma StraddlingCallsMixHours() returns (steps: seq<Step>, t: Watch)
    ensures ObserveAll(UTC, Beginning(0), steps) == Some(t)
    ensures t.sys.dir.names == map[Archive(StampOf(UTC, 0)) := 0, Base := 1] && 1 in t.sys.dir.files
    ensures t.sys.dir.files[1] == ["hour one", "hour two"] && t.readings == [EARLY, PAST]
    ensures WatchInv(t) && !HoursKept(UTC, t)
  {
    hide ObserveAll, ArchiveStamp, StampOf, HourOf, ComputeRollover, WatchInv, HoursKept, Orderly;
    steps := ReachFirstReleased();
    t := FirstReleased();
    steps, t := ObserveNext(UTC, Beginning(0), steps, t, Write(1, "hour two"));
    BeginningOrderly(UTC, 0);
    hide *;
    RunHoursIff(UTC, Beginning(0), steps, t);
    TwoHours(t);
  }

  lemma TwoHours(w: Watch)
    requires WatchInv(w) && Base in w.sys.dir.names && |w.readings| == 2 && w.readings == [EARLY, PAST]
    requires w.sys.log[0].inode == w.sys.dir.names[Base] == w.sys.log[1].inode
    ensures !HoursKept(UTC, w)
  {
    hide StampOf, Inv;
    AroundTheHour();
    assert w.readings[0] == EARLY && w.readings[1] == PAST;
  }
}
