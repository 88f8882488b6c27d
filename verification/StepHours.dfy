// Which hour's lines a file holds when calls overlap: the protocol step by
// step, with the clock readings of its processes.
module StepHours {
  import opened Wrappers
  import opened LogClock
  import opened LogRotation
  import opened LocalHours

  // A system under observation: each process's last clock reading, for every
  // emission the reading before it was written, the hour each file was first
  // opened for, and the latest time seen.
  datatype Watch = Watch(sys: Sys, seen: map<nat, int>, readings: seq<int>, hours: map<nat, int>, clock: int)

  function LastSeen(w: Watch, pid: nat): int {
    if pid in w.seen then w.seen[pid] else w.clock
  }

  // The file a step opens for the hour of a time.
  function OpenedFor(zone: Zone, w: Watch, step: Step): map<nat, int> {
    match step
    case Start(_, mtime) =>
      var inode := OpenBase(w.sys.dir).1;
      if inode in w.hours then w.hours else w.hours[inode := HourOf(zone, mtime)]
    case Arm(pid, now) =>
      if pid in w.sys.procs && w.sys.procs[pid].stream.Some? && w.sys.procs[pid].stream.value !in w.hours
      then w.hours[w.sys.procs[pid].stream.value := HourOf(zone, now)] else w.hours
    case _ => w.hours
  }

  function Observe(zone: Zone, w: Watch, step: Step): Option<Watch> {
    match Apply(zone, true, w.sys, step)
    case None => None
    case Some(t) =>
      var time := match step
        case Check(_, now) => now
        case Arm(_, now) => now
        case Start(_, mtime) => mtime
        case _ => w.clock;
      Some(Watch(
        t,
        if step.Check? || step.Arm? then w.seen[step.pid := step.now] else w.seen,
        if step.Write? then w.readings + [LastSeen(w, step.pid)] else w.readings,
        OpenedFor(zone, w, step),
        if time > w.clock then time else w.clock))
  }

  function ObserveAll(zone: Zone, w: Watch, steps: seq<Step>): Option<Watch>
    decreases steps
  {
    if steps == [] then Some(w)
    else match Observe(zone, w, steps[0])
      case None => None
      case Some(t) => ObserveAll(zone, t, steps[1..])
  }

  ghost predicate WatchInv(w: Watch) {
    Inv(w.sys) && |w.readings| == |w.sys.log|
  }

  /* ---------- Files that keep to their hours ---------- */

  // Every archive holds lines of the hour in its name only, and the base file
  // lines of one hour only.
  ghost predicate Kept(zone: Zone, names: map<Name, nat>, log: seq<Emission>, readings: seq<int>)
    requires |readings| == |log|
  {
    ArchivesTrue(zone, names, log, readings) && (Base in names ==> OneHour(zone, names[Base], log, readings))
  }

  ghost predicate ArchivesTrue(zone: Zone, names: map<Name, nat>, log: seq<Emission>, readings: seq<int>)
    requires |readings| == |log|
  {
    forall k, stamp | 0 <= k < |log| && Archive(stamp) in names && names[Archive(stamp)] == log[k].inode ::
      StampOf(zone, readings[k]) == stamp
  }

  ghost predicate OneHour(zone: Zone, inode: nat, log: seq<Emission>, readings: seq<int>)
    requires |readings| == |log|
  {
    forall j, k | 0 <= j < |log| && 0 <= k < |log| && log[j].inode == inode && log[k].inode == inode ::
      StampOf(zone, readings[j]) == StampOf(zone, readings[k])
  }

  // All lines of the file are of the hour named `stamp`.
  ghost predicate AllOf(zone: Zone, inode: nat, stamp: Stamp, log: seq<Emission>, readings: seq<int>)
    requires |readings| == |log|
  {
    forall k | 0 <= k < |log| && log[k].inode == inode :: StampOf(zone, readings[k]) == stamp
  }

  ghost predicate HoursKept(zone: Zone, w: Watch)
    requires WatchInv(w)
  {
    Kept(zone, w.sys.dir.names, w.sys.log, w.readings)
  }

  // A line on its way into a file that is named for another hour or, if it is
  // the base file, holds a line of another hour; or the base file on its way to
  // a name of another hour than one of its lines.
  ghost predicate Stray(zone: Zone, w: Watch, step: Step)
    requires WatchInv(w)
  {
    step.pid in w.sys.procs &&
    var p, names := w.sys.procs[step.pid], w.sys.dir.names;
    match step
    case Write(pid, _) => p.stream.Some? && StrayLine(zone, w, p.stream.value, StampOf(zone, LastSeen(w, pid)))
    case Rename(_) =>
      p.pc.Renaming? && Base in names && !AllOf(zone, names[Base], p.pc.archive, w.sys.log, w.readings)
    case _ => false
  }

  ghost predicate StrayLine(zone: Zone, w: Watch, inode: nat, stamp: Stamp)
    requires WatchInv(w)
  {
    var names := w.sys.dir.names;
    || (exists other :: Archive(other) in names && names[Archive(other)] == inode && other != stamp)
    || (Base in names && names[Base] == inode && !AllOf(zone, inode, stamp, w.sys.log, w.readings))
  }

  ghost predicate NoStray(zone: Zone, w: Watch, steps: seq<Step>)
    requires WatchInv(w)
    decreases steps
  {
    steps == [] ||
    (!Stray(zone, w, steps[0]) &&
     (Observe(zone, w, steps[0]).Some? ==>
        (ObserveKeeps(zone, w, steps[0]); NoStray(zone, Observe(zone, w, steps[0]).value, steps[1..]))))
  }

  lemma ObserveKeeps(zone: Zone, w: Watch, step: Step)
    requires WatchInv(w) && Observe(zone, w, step).Some?
    ensures WatchInv(Observe(zone, w, step).value)
  {
    hide Inv, DirGrows;
    var t := Observe(zone, w, step).value;
    StepKeeps(zone, w.sys, step, t.sys);
    LogGrowth(zone, w.sys, step, t.sys);
  }

  // What a step does to names and log.
  lemma LogGrowth(zone: Zone, s: Sys, step: Step, t: Sys)
    requires Apply(zone, true, s, step) == Some(t)
    ensures if step.Write? then
              && step.pid in s.procs && s.procs[step.pid].stream.Some?
              && t.dir.names == s.dir.names
              && |t.log| == |s.log| + 1 && t.log[..|s.log|] == s.log
              && t.log[|s.log|].inode == s.procs[step.pid].stream.value
            else if step.Rename? then
              && step.pid in s.procs && s.procs[step.pid].pc.Renaming? && Base in s.dir.names
              && t.dir.names == RenamedBase(s.dir.names, s.procs[step.pid].pc.archive) && t.log == s.log
            else if step.Start? || step.Reopen? then
              t.dir == OpenBase(s.dir).0 && t.log == s.log
            else
              t.dir == s.dir && t.log == s.log
  {
    hide OpenBase, ComputeRollover, ArchiveStamp;
  }

  function RenamedBase(names: map<Name, nat>, archive: Stamp): map<Name, nat>
    requires Base in names
  {
    (names - {Base})[Archive(archive) := names[Base]]
  }

  lemma KeptWrite(
    zone: Zone, names: map<Name, nat>, log: seq<Emission>, readings: seq<int>, e: Emission, reading: int)
    requires |readings| == |log|
    ensures Kept(zone, names, log + [e], readings + [reading])
            <==>
            && Kept(zone, names, log, readings)
            && (forall stamp | Archive(stamp) in names && names[Archive(stamp)] == e.inode ::
                  StampOf(zone, reading) == stamp)
            && (Base in names && names[Base] == e.inode ==>
                  AllOf(zone, e.inode, StampOf(zone, reading), log, readings))
  {
    hide StampOf;
    ArchivesTrueWrite(zone, names, log, readings, e, reading);
    if Base in names {
      OneHourWrite(zone, names[Base], log, readings, e, reading);
    }
    hide ArchivesTrue, OneHour, AllOf;
  }

  lemma ArchivesTrueWrite(
    zone: Zone, names: map<Name, nat>, log: seq<Emission>, readings: seq<int>, e: Emission, reading: int)
    requires |readings| == |log|
    ensures ArchivesTrue(zone, names, log + [e], readings + [reading])
            <==>
            && ArchivesTrue(zone, names, log, readings)
            && (forall stamp | Archive(stamp) in names && names[Archive(stamp)] == e.inode ::
                  StampOf(zone, reading) == stamp)
  {
    hide StampOf;
    var log', readings' := log + [e], readings + [reading];
    assert forall k :: 0 <= k < |log| ==> log'[k] == log[k] && readings'[k] == readings[k];
    assert log'[|log|] == e && readings'[|log|] == reading;
  }

  lemma OneHourWrite(
    zone: Zone, inode: nat, log: seq<Emission>, readings: seq<int>, e: Emission, reading: int)
    requires |readings| == |log|
    ensures OneHour(zone, inode, log + [e], readings + [reading])
            <==>
            && OneHour(zone, inode, log, readings)
            && (inode == e.inode ==> AllOf(zone, inode, StampOf(zone, reading), log, readings))
  {
    hide StampOf;
    var log', readings' := log + [e], readings + [reading];
    assert forall k :: 0 <= k < |log| ==> log'[k] == log[k] && readings'[k] == readings[k];
    assert log'[|log|] == e && readings'[|log|] == reading;
  }

  lemma KeptRename(zone: Zone, names: map<Name, nat>, log: seq<Emission>, readings: seq<int>, archive: Stamp)
    requires |readings| == |log| && Base in names && Archive(archive) !in names
    ensures Kept(zone, RenamedBase(names, archive), log, readings)
            <==> Kept(zone, names, log, readings) && AllOf(zone, names[Base], archive, log, readings)
  {
    hide StampOf;
    var renamed := RenamedBase(names, archive);
    assert forall stamp :: Archive(stamp) in renamed <==> Archive(stamp) in names || stamp == archive;
    assert forall stamp | Archive(stamp) in names :: renamed[Archive(stamp)] == names[Archive(stamp)];
    assert renamed[Archive(archive)] == names[Base];
    assert Base !in renamed;
    hide RenamedBase;
    if AllOf(zone, names[Base], archive, log, readings) {
      assert OneHour(zone, names[Base], log, readings);
    }
  }

  lemma KeptOpen(zone: Zone, dir: Dir, log: seq<Emission>, readings: seq<int>)
    requires |readings| == |log| && DirInv(dir) && forall k :: 0 <= k < |log| ==> log[k].inode in dir.files
    ensures Kept(zone, OpenBase(dir).0.names, log, readings) <==> Kept(zone, dir.names, log, readings)
  {
    hide StampOf;
    if Base !in dir.names {
      var names := dir.names[Base := dir.next];
      assert forall k :: 0 <= k < |log| ==> log[k].inode != dir.next;
      assert forall stamp :: Archive(stamp) in names <==> Archive(stamp) in dir.names;
      assert forall stamp | Archive(stamp) in names :: names[Archive(stamp)] == dir.names[Archive(stamp)];
      assert OneHour(zone, dir.next, log, readings);
    }
  }

  // After a step the files keep to their hours if and only if they did before
  // and the step was not stray.
  lemma StepHoursIff(zone: Zone, w: Watch, step: Step, t: Watch)
    requires WatchInv(w) && Observe(zone, w, step) == Some(t)
    ensures WatchInv(t)
    ensures HoursKept(zone, t) <==> HoursKept(zone, w) && !Stray(zone, w, step)
  {
    hide DirInv, LogInv, ProcInv, Kept, AllOf, StampOf, OpenBase, Apply, OpenedFor, RenamedBase;
    ObserveKeeps(zone, w, step);
    LogGrowth(zone, w.sys, step, t.sys);
    var s := w.sys;
    if step.Write? {
      KeptWrite(zone, s.dir.names, s.log, w.readings, t.sys.log[|s.log|], LastSeen(w, step.pid));
      assert t.sys.log == s.log + [t.sys.log[|s.log|]];
    } else if step.Rename? {
      RenamingTarget(s, step.pid);
      KeptRename(zone, s.dir.names, s.log, w.readings, s.procs[step.pid].pc.archive);
    } else if step.Start? || step.Reopen? {
      LoggedFiles(s);
      KeptOpen(zone, s.dir, s.log, w.readings);
    }
  }

  lemma RenamingTarget(s: Sys, pid: nat)
    requires Inv(s) && pid in s.procs && s.procs[pid].pc.Renaming?
    ensures Archive(s.procs[pid].pc.archive) !in s.dir.names
  {
    hide DirInv, LogInv;
    assert ProcInv(s, pid);
  }

  lemma LoggedFiles(s: Sys)
    requires Inv(s)
    ensures forall k :: 0 <= k < |s.log| ==> s.log[k].inode in s.dir.files
  {
    hide DirInv, ProcsInv;
    assert forall k :: 0 <= k < |s.log| ==> Stored(s.dir.files, s.log[k]);
  }

  // Over every run, however calls overlap, whatever clocks and zone: in the end
  // every file keeps to its hour if and only if no step was stray.
  lemma {:induction false} RunHoursIff(zone: Zone, w: Watch, steps: seq<Step>, t: Watch)
    requires WatchInv(w) && ObserveAll(zone, w, steps) == Some(t)
    ensures WatchInv(t)
    ensures HoursKept(zone, t) <==> HoursKept(zone, w) && NoStray(zone, w, steps)
    decreases steps
  {
    hide WatchInv, HoursKept, Stray, Observe;
    if steps != [] {
      var next := Observe(zone, w, steps[0]).value;
      StepHoursIff(zone, w, steps[0], next);
      RunHoursIff(zone, next, steps[1..], t);
    }
  }
}
