// Several processes log to one file and rotate it every hour.  Each appends
// through its own open stream and decides by itself when to roll over; only the
// rollover itself runs under a file lock.  Every system call is one step, so
// the steps of different processes interleave freely.
module LogRotation {
  import opened Wrappers
  import opened LogClock

  datatype Name = Base | Archive(stamp: Stamp)

  // A directory: what each name is bound to, the files' contents by inode, and
  // the next unused inode.
  datatype Dir = Dir(names: map<Name, nat>, files: map<nat, seq<string>>, next: nat)

  // Where a process stands.  `Probing` and `Renaming` remember the archive name.
  datatype Pc =
    | Idle
    | Waiting
    | Closing
    | ProbingArchive
    | ProbingBase(archive: Stamp)
    | Renaming(archive: Stamp)
    | Reopening
    | Arming
    | Releasing
    | Writing

  datatype Proc = Proc(pc: Pc, stream: Option<nat>, rolloverAt: int)

  // One line written: by whom, its text, and where it went.
  datatype Emission = Emission(pid: nat, text: string, inode: nat, offset: nat)

  datatype Sys = Sys(dir: Dir, procs: map<nat, Proc>, lock: Option<nat>, log: seq<Emission>)

  datatype Step =
    | Start(pid: nat, mtime: int)
    | Check(pid: nat, now: int)
    | Acquire(pid: nat)
    | Close(pid: nat)
    | ProbeArchive(pid: nat)
    | ProbeBase(pid: nat)
    | Rename(pid: nat)
    | Reopen(pid: nat)
    | Arm(pid: nat, now: int)
    | Release(pid: nat)
    | Write(pid: nat, text: string)
    | Exit(pid: nat)

  /* ---------- Directory operations ---------- */

  // `open(base, "a")`: creates the file if the name is unbound.
  function OpenBase(dir: Dir): (Dir, nat) {
    if Base in dir.names then (dir, dir.names[Base])
    else (Dir(dir.names[Base := dir.next], dir.files[dir.next := []], dir.next + 1), dir.next)
  }

  // `os.rename(base, archive)`: fails if the base is gone and silently replaces
  // whatever the archive name was bound to.
  function RenameBase(dir: Dir, archive: Stamp): Option<Dir> {
    if Base !in dir.names then None
    else Some(dir.(names := (dir.names - {Base})[Archive(archive) := dir.names[Base]]))
  }

  function AppendTo(dir: Dir, inode: nat, text: string): Dir
    requires inode in dir.files
  {
    dir.(files := dir.files[inode := dir.files[inode] + [text]])
  }

  /* ---------- The steps ---------- */

  function ArchiveStamp(zone: Zone, rolloverAt: int): Stamp {
    StampAt(rolloverAt - INTERVAL, Offset(zone, rolloverAt - INTERVAL))
  }

  // An archive is named for the local hour that ended with its rollover time.
  lemma ArchiveNamesHour(zone: Zone, rolloverAt: int, stamp: Stamp)
    ensures stamp == ArchiveStamp(zone, rolloverAt) <==> NamesHour(zone, rolloverAt - 3600, stamp)
  {
    StampNamesHour(zone, rolloverAt - INTERVAL);
  }

  function Move(s: Sys, pid: nat, p: Proc): Sys {
    s.(procs := s.procs[pid := p])
  }

  // The state after a step, or None where the step is not enabled.  `locking`
  // tells whether the rollover lock is honoured.
  function Apply(zone: Zone, locking: bool, s: Sys, step: Step): Option<Sys> {
    var pid := step.pid;
    if step.Start? then
      if pid in s.procs then None
      else
        var (dir, inode) := OpenBase(s.dir);
        Some(Move(s.(dir := dir), pid, Proc(Idle, Some(inode), ComputeRollover(zone, step.mtime))))
    else if pid !in s.procs then None
    else Act(zone, locking, s, step, s.procs[pid])
  }

  function Act(zone: Zone, locking: bool, s: Sys, step: Step, p: Proc): Option<Sys>
    requires !step.Start? && step.pid in s.procs && s.procs[step.pid] == p
  {
    var pid := step.pid;
    match (step, p.pc)
    case (Check(_, now), Idle) =>
      Some(Move(s, pid, p.(pc := if now >= p.rolloverAt then Waiting else Writing)))
    case (Acquire(_), Waiting) =>
      if locking && s.lock.Some? then None
      else Some(Move(s.(lock := Some(pid)), pid, p.(pc := Closing)))
    case (Close(_), Closing) => Some(Move(s, pid, p.(pc := ProbingArchive, stream := None)))
    case (ProbeArchive(_), ProbingArchive) =>
      var archive := ArchiveStamp(zone, p.rolloverAt);
      Some(Move(s, pid, p.(pc := if Archive(archive) in s.dir.names then Reopening else ProbingBase(archive))))
    case (ProbeBase(_), ProbingBase(archive)) =>
      Some(Move(s, pid, p.(pc := if Base in s.dir.names then Renaming(archive) else Reopening)))
    case (Rename(_), Renaming(archive)) =>
      (match RenameBase(s.dir, archive)
       case None => None
       case Some(dir) => Some(Move(s.(dir := dir), pid, p.(pc := Reopening))))
    case (Reopen(_), Reopening) =>
      var (dir, inode) := OpenBase(s.dir);
      Some(Move(s.(dir := dir), pid, p.(pc := Arming, stream := Some(inode))))
    case (Arm(_, now), Arming) =>
      Some(Move(s, pid, p.(pc := Releasing, rolloverAt := ComputeRollover(zone, now))))
    case (Release(_), Releasing) => Some(Move(s.(lock := None), pid, p.(pc := Writing)))
    case (Write(_, text), Writing) =>
      if p.stream.None? || p.stream.value !in s.dir.files then None
      else
        var inode := p.stream.value;
        var emission := Emission(pid, text, inode, |s.dir.files[inode]|);
        Some(Move(s.(dir := AppendTo(s.dir, inode, text), log := s.log + [emission]), pid, p.(pc := Idle)))
    case (Exit(_), _) =>
      // The kernel closes the streams and drops the lock, wherever it stood.
      Some(s.(procs := s.procs - {pid}, lock := if s.lock == Some(pid) then None else s.lock))
    case _ => None
  }

  function Run(zone: Zone, locking: bool, s: Sys, steps: seq<Step>): Option<Sys>
    decreases steps
  {
    if steps == [] then Some(s)
    else match Apply(zone, locking, s, steps[0])
      case None => None
      case Some(t) => Run(zone, locking, t, steps[1..])
  }

  const EMPTY := Sys(Dir(map[], map[], 0), map[], None, [])

  /* ---------- The invariant ---------- */

  // Every file has exactly one name.
  ghost predicate DirInv(dir: Dir) {
    && (forall n <- dir.names :: dir.names[n] in dir.files)
    && (forall n <- dir.names, m <- dir.names :: dir.names[n] == dir.names[m] ==> n == m)
    && (forall i <- dir.files :: Named(dir, i))
    && (forall i <- dir.files :: i < dir.next)
  }

  ghost predicate Named(dir: Dir, inode: nat) {
    exists n :: n in dir.names && dir.names[n] == inode
  }

  predicate Holding(pc: Pc) {
    !pc.Idle? && !pc.Waiting? && !pc.Writing?
  }

  // What a process may rely on at its point of the rollover.
  ghost predicate ProcInv(s: Sys, pid: nat)
    requires pid in s.procs
  {
    var p := s.procs[pid];
    && (p.stream.Some? ==> p.stream.value in s.dir.files)
    && (p.pc.Idle? || p.pc.Waiting? || p.pc.Writing? ==> p.stream.Some?)
    && (Holding(p.pc) <==> s.lock == Some(pid))
    && (p.pc.Arming? || p.pc.Releasing? ==> p.stream.Some?)
    && (p.pc.ProbingBase? || p.pc.Renaming? ==> Archive(p.pc.archive) !in s.dir.names)
    && (p.pc.Renaming? ==> Base in s.dir.names)
  }

  ghost predicate ProcsInv(s: Sys) {
    && (forall pid <- s.procs :: ProcInv(s, pid))
    && (s.lock.Some? ==> s.lock.value in s.procs)
  }

  // The log and the files tell the same story: every emission is found where it
  // went, every line of every file is one emission, and the lines of a file
  // stand in the order of their emission.
  ghost predicate LogInv(files: map<nat, seq<string>>, log: seq<Emission>) {
    && (forall k :: 0 <= k < |log| ==> Stored(files, log[k]))
    && (forall i, o: nat | i in files && o < |files[i]| :: Emitted(log, i, o))
    && (forall j, k :: 0 <= j < k < |log| && log[j].inode == log[k].inode ==> log[j].offset < log[k].offset)
  }

  ghost predicate Stored(files: map<nat, seq<string>>, e: Emission) {
    e.inode in files && e.offset < |files[e.inode]| && files[e.inode][e.offset] == e.text
  }

  ghost predicate Emitted(log: seq<Emission>, inode: nat, offset: nat) {
    exists k :: 0 <= k < |log| && log[k].inode == inode && log[k].offset == offset
  }

  ghost predicate Inv(s: Sys) {
    DirInv(s.dir) && ProcsInv(s) && LogInv(s.dir.files, s.log)
  }

  lemma EmptyInv()
    ensures Inv(EMPTY)
  {
  }

  // What may happen to a directory: archives keep their file, and files keep
  // their lines and only grow.
  ghost predicate DirGrows(a: Dir, b: Dir) {
    && (forall n <- a.names :: n.Archive? ==> n in b.names && b.names[n] == a.names[n])
    && (forall i <- a.files :: i in b.files && a.files[i] <= b.files[i])
  }

  lemma OpenBaseKeeps(dir: Dir)
    requires DirInv(dir)
    ensures var (d, inode) := OpenBase(dir);
            && DirInv(d) && DirGrows(dir, d) && inode in d.files && d.names.Keys == dir.names.Keys + {Base}
            && (forall i <- d.files :: d.files[i] == if i in dir.files then dir.files[i] else [])
  {
    if Base !in dir.names {
      CreateBaseKeeps(dir);
    }
  }

  lemma CreateBaseKeeps(dir: Dir)
    requires DirInv(dir) && Base !in dir.names
    ensures var d := Dir(dir.names[Base := dir.next], dir.files[dir.next := []], dir.next + 1);
            DirInv(d) && DirGrows(dir, d)
  {
    var d := Dir(dir.names[Base := dir.next], dir.files[dir.next := []], dir.next + 1);
    assert forall n <- dir.names :: d.names[n] == dir.names[n] && d.names[n] != dir.next;
    forall i | i in d.files
      ensures Named(d, i)
    {
      if i in dir.files {
        assert Named(dir, i);
        var n :| n in dir.names && dir.names[n] == i;
        assert n in d.names && d.names[n] == i;
      } else {
        assert d.names[Base] == i;
      }
    }
  }

  lemma RenameKeeps(dir: Dir, archive: Stamp)
    requires DirInv(dir) && Base in dir.names && Archive(archive) !in dir.names
    ensures var d := RenameBase(dir, archive).value;
            DirInv(d) && DirGrows(dir, d) && d.files == dir.files
  {
    var d := RenameBase(dir, archive).value;
    forall i | i in d.files
      ensures Named(d, i)
    {
      var n :| n in dir.names && dir.names[n] == i;
      var m := if n == Base then Archive(archive) else n;
      assert m in d.names && d.names[m] == i;
    }
  }

  lemma AppendKeeps(dir: Dir, inode: nat, text: string)
    requires DirInv(dir) && inode in dir.files
    ensures DirInv(AppendTo(dir, inode, text)) && DirGrows(dir, AppendTo(dir, inode, text))
  {
    var d := AppendTo(dir, inode, text);
    forall i | i in d.files
      ensures Named(d, i)
    {
      assert Named(dir, i);
      var n :| n in dir.names && dir.names[n] == i;
      assert n in d.names && d.names[n] == i;
    }
  }

  lemma LogAppendKeeps(files: map<nat, seq<string>>, log: seq<Emission>, e: Emission)
    requires LogInv(files, log) && e.inode in files && e.offset == |files[e.inode]|
    ensures LogInv(files[e.inode := files[e.inode] + [e.text]], log + [e])
  {
    var files', log' := files[e.inode := files[e.inode] + [e.text]], log + [e];
    forall k | 0 <= k < |log'|
      ensures Stored(files', log'[k])
    {
      assert k < |log| ==> Stored(files, log[k]);
    }
    forall i, o: nat | i in files' && o < |files'[i]|
      ensures Emitted(log', i, o)
    {
      if i == e.inode && o == e.offset {
        assert log'[|log|] == e;
      } else {
        assert Emitted(log, i, o);
        var k :| 0 <= k < |log| && log[k].inode == i && log[k].offset == o;
        assert log'[k] == log[k];
      }
    }
    forall j, k | 0 <= j < k < |log'| && log'[j].inode == log'[k].inode
      ensures log'[j].offset < log'[k].offset
    {
      assert Stored(files, log[j]);
    }
  }

  lemma LogInvSameLines(files: map<nat, seq<string>>, files': map<nat, seq<string>>, log: seq<Emission>)
    requires LogInv(files, log)
    requires forall i <- files :: i in files'
    requires forall i <- files' :: files'[i] == if i in files then files[i] else []
    ensures LogInv(files', log)
  {
    forall k | 0 <= k < |log|
      ensures Stored(files', log[k])
    {
      assert Stored(files, log[k]);
    }
  }

  /* ---------- Every step keeps the invariant ---------- */

  predicate NamesStable(a: Dir, b: Dir) {
    && (forall n <- b.names :: n.Archive? ==> n in a.names)
    && (Base in a.names ==> Base in b.names)
  }

  // A step of one process leaves every other one as safe as it was, provided
  // that archive names appear and the base disappears only under the lock.
  lemma OthersKeep(s: Sys, t: Sys, pid: nat, q: nat)
    requires q != pid && q in s.procs && q in t.procs && s.procs[q] == t.procs[q]
    requires ProcInv(s, q)
    requires forall i <- s.dir.files :: i in t.dir.files
    requires t.lock == s.lock || (s.lock in {None, Some(pid)} && t.lock in {None, Some(pid)})
    requires s.lock == Some(pid) || NamesStable(s.dir, t.dir)
    ensures ProcInv(t, q)
  {
  }

  ghost predicate Safe(s: Sys, t: Sys) {
    && Inv(t)
    && DirGrows(s.dir, t.dir)
    && s.log <= t.log
  }

  // A step that touches neither names nor files nor log.
  lemma QuietStepKeeps(s: Sys, t: Sys, pid: nat)
    requires Inv(s) && t.dir == s.dir && t.log == s.log
    requires t.procs == s.procs - {pid} || (pid in t.procs && t.procs == s.procs[pid := t.procs[pid]])
    requires pid in t.procs ==> ProcInv(t, pid)
    requires t.lock == s.lock || (s.lock in {None, Some(pid)} && t.lock in {None, Some(pid)})
    requires t.lock.Some? ==> t.lock.value in t.procs
    ensures Safe(s, t)
  {
    hide DirInv, LogInv;
    forall q | q in t.procs
      ensures ProcInv(t, q)
    {
      if q != pid {
        OthersKeep(s, t, pid, q);
      }
    }
  }

  lemma OpenStepKeeps(s: Sys, t: Sys, pid: nat)
    requires Inv(s) && pid in t.procs && ProcInv(t, pid)
    requires t == Move(s.(dir := OpenBase(s.dir).0), pid, t.procs[pid])
    ensures Safe(s, t)
  {
    OpenBaseKeeps(s.dir);
    LogInvSameLines(s.dir.files, t.dir.files, s.log);
    hide DirInv, LogInv, OpenBase;
    assert NamesStable(s.dir, t.dir);
    forall q | q in t.procs
      ensures ProcInv(t, q)
    {
      if q != pid {
        OthersKeep(s, t, pid, q);
      }
    }
  }

  lemma RenameStepKeeps(s: Sys, t: Sys, pid: nat)
    requires Inv(s) && pid in s.procs && s.procs[pid].pc.Renaming?
    requires RenameBase(s.dir, s.procs[pid].pc.archive).Some?
    requires t == Move(s.(dir := RenameBase(s.dir, s.procs[pid].pc.archive).value), pid,
                       s.procs[pid].(pc := Reopening))
    ensures Safe(s, t)
  {
    assert ProcInv(s, pid);
    RenameKeeps(s.dir, s.procs[pid].pc.archive);
    hide DirInv, LogInv;
    forall q | q in t.procs
      ensures ProcInv(t, q)
    {
      if q != pid {
        OthersKeep(s, t, pid, q);
      }
    }
  }

  lemma WriteStepKeeps(s: Sys, t: Sys, pid: nat, text: string)
    requires Inv(s) && pid in s.procs && s.procs[pid].pc.Writing?
    requires s.procs[pid].stream.Some? && s.procs[pid].stream.value in s.dir.files
    requires var inode := s.procs[pid].stream.value;
             t == Move(s.(dir := AppendTo(s.dir, inode, text),
                          log := s.log + [Emission(pid, text, inode, |s.dir.files[inode]|)]),
                       pid, s.procs[pid].(pc := Idle))
    ensures Safe(s, t)
  {
    var inode := s.procs[pid].stream.value;
    AppendKeeps(s.dir, inode, text);
    hide DirInv, DirGrows;
    LogAppendKeeps(s.dir.files, s.log, Emission(pid, text, inode, |s.dir.files[inode]|));
    hide LogInv;
    WriteProcs(s, t, pid);
  }

  // Writing leaves every process as safe as it was.
  lemma WriteProcs(s: Sys, t: Sys, pid: nat)
    requires ProcsInv(s) && pid in s.procs && s.procs[pid].pc.Writing?
    requires t.procs == s.procs[pid := s.procs[pid].(pc := Idle)] && t.lock == s.lock
    requires t.dir.names == s.dir.names && forall i <- s.dir.files :: i in t.dir.files
    ensures ProcsInv(t)
  {
    forall q | q in t.procs
      ensures ProcInv(t, q)
    {
      assert ProcInv(s, q);
      if q != pid {
        OthersKeep(s, t, pid, q);
      }
    }
  }

  predicate Quiet(step: Step) {
    !step.Start? && !step.Reopen? && !step.Rename? && !step.Write?
  }

  lemma QuietActKeeps(zone: Zone, s: Sys, step: Step, t: Sys)
    requires Inv(s) && Quiet(step) && Apply(zone, true, s, step) == Some(t)
    ensures Safe(s, t)
  {
    hide DirInv, LogInv, ComputeRollover, ArchiveStamp, Safe, DirGrows, OpenBase, RenameBase, AppendTo;
    assert ProcInv(s, step.pid);
    QuietStepKeeps(s, t, step.pid);
  }

  lemma StepKeeps(zone: Zone, s: Sys, step: Step, t: Sys)
    requires Inv(s) && Apply(zone, true, s, step) == Some(t)
    ensures Safe(s, t)
  {
    hide DirInv, LogInv, ComputeRollover, ArchiveStamp, Safe, DirGrows, AppendTo;
    var pid := step.pid;
    if Quiet(step) {
      QuietActKeeps(zone, s, step, t);
    } else if step.Start? || step.Reopen? {
      assert step.Reopen? ==> ProcInv(s, pid);
      OpenBaseKeeps(s.dir);
      hide OpenBase;
      OpenStepKeeps(s, t, pid);
    } else if step.Rename? {
      RenameStepKeeps(s, t, pid);
    } else {
      WriteStepKeeps(s, t, pid, step.text);
    }
  }

  lemma {:induction false} DirGrowsTransitive(a: Dir, b: Dir, c: Dir)
    requires DirGrows(a, b) && DirGrows(b, c)
    ensures DirGrows(a, c)
  {
  }

  // Over every run, of any number of processes in any interleaving, with
  // processes starting and dying at any point: the invariant holds, an archive
  // name once bound keeps its file, and files keep their lines.
  lemma {:induction false} RunKeeps(zone: Zone, s: Sys, steps: seq<Step>, t: Sys)
    requires Inv(s) && Run(zone, true, s, steps) == Some(t)
    ensures Safe(s, t)
    decreases steps
  {
    if steps != [] {
      var next := Apply(zone, true, s, steps[0]).value;
      StepKeeps(zone, s, steps[0], next);
      RunKeeps(zone, next, steps[1..], t);
      hide Inv;
      DirGrowsTransitive(s.dir, next.dir, t.dir);
    }
  }

  // Renaming never finds its archive name taken nor its source gone, so it
  // neither overwrites an archive nor fails.
  lemma RenameNeverOverwrites(zone: Zone, steps: seq<Step>, s: Sys, pid: nat)
    requires Run(zone, true, EMPTY, steps) == Some(s)
    requires pid in s.procs && s.procs[pid].pc.Renaming?
    ensures Archive(s.procs[pid].pc.archive) !in s.dir.names
    ensures RenameBase(s.dir, s.procs[pid].pc.archive).Some?
  {
    EmptyInv();
    RunKeeps(zone, EMPTY, steps, s);
    assert ProcInv(s, pid);
  }

  // Line `k` of the log stands at `offset` of the file bound to `name`.
  ghost predicate FoundAt(s: Sys, k: nat, name: Name, offset: nat) {
    && k < |s.log|
    && name in s.dir.names
    && s.dir.names[name] == s.log[k].inode
    && s.log[k].inode in s.dir.files
    && offset == s.log[k].offset < |s.dir.files[s.log[k].inode]|
    && s.dir.files[s.log[k].inode][offset] == s.log[k].text
  }

  ghost predicate Found(s: Sys, k: nat) {
    exists name, offset :: FoundAt(s, k, name, offset)
  }

  ghost predicate IsLine(s: Sys, name: Name, offset: nat) {
    && name in s.dir.names
    && s.dir.names[name] in s.dir.files
    && offset < |s.dir.files[s.dir.names[name]]|
  }

  // The emitted lines and the lines under all names are in one-to-one
  // correspondence, and each file lists its lines in the order of emission.
  ghost predicate EachLineOnce(s: Sys) {
    && (forall k :: 0 <= k < |s.log| ==> Found(s, k))
    && (forall name, offset :: IsLine(s, name, offset) ==> exists k :: FoundAt(s, k, name, offset))
    && (forall k, name, offset, name', offset' ::
          FoundAt(s, k, name, offset) && FoundAt(s, k, name', offset') ==> name == name' && offset == offset')
    && (forall j, k, name, offset, offset' ::
          FoundAt(s, j, name, offset) && FoundAt(s, k, name, offset') ==> (j < k <==> offset < offset'))
  }

  // No line is lost, doubled or reordered within a file, after any run.
  lemma NoLineLost(zone: Zone, steps: seq<Step>, s: Sys)
    requires Run(zone, true, EMPTY, steps) == Some(s)
    ensures EachLineOnce(s)
  {
    EmptyInv();
    RunKeeps(zone, EMPTY, steps, s);
    InvLinesOnce(s);
  }

  lemma InvLinesOnce(s: Sys)
    requires Inv(s)
    ensures EachLineOnce(s)
  {
    forall k | 0 <= k < |s.log|
      ensures Found(s, k)
    {
      assert Stored(s.dir.files, s.log[k]);
      assert Named(s.dir, s.log[k].inode);
      var name :| name in s.dir.names && s.dir.names[name] == s.log[k].inode;
      assert FoundAt(s, k, name, s.log[k].offset);
    }
    forall name, offset | IsLine(s, name, offset)
      ensures exists k :: FoundAt(s, k, name, offset)
    {
      assert Emitted(s.log, s.dir.names[name], offset);
      var k: nat :| k < |s.log| && s.log[k].inode == s.dir.names[name] && s.log[k].offset == offset;
      assert Stored(s.dir.files, s.log[k]);
      assert FoundAt(s, k, name, offset);
    }
    forall j: nat, k: nat, name, offset: nat, offset': nat |
      FoundAt(s, j, name, offset) && FoundAt(s, k, name, offset')
      ensures j < k <==> offset < offset'
    {
      assert s.log[j].inode == s.log[k].inode;
    }
  }

  // An archive, once it exists, is the same growing file for ever.
  lemma ArchivesNeverRebound(zone: Zone, before: seq<Step>, s: Sys, after: seq<Step>, t: Sys, stamp: Stamp)
    requires Run(zone, true, EMPTY, before) == Some(s) && Run(zone, true, s, after) == Some(t)
    requires Archive(stamp) in s.dir.names
    ensures Archive(stamp) in t.dir.names
    ensures var inode := s.dir.names[Archive(stamp)];
            && t.dir.names[Archive(stamp)] == inode
            && inode in s.dir.files && inode in t.dir.files
            && s.dir.files[inode] <= t.dir.files[inode]
  {
    EmptyInv();
    RunKeeps(zone, EMPTY, before, s);
    RunKeeps(zone, s, after, t);
  }

  // A process that does not wait for a lock another one holds can always take
  // its next step, so nobody gets stuck inside the locked section.
  lemma OnlyTheLockBlocks(zone: Zone, steps: seq<Step>, s: Sys, pid: nat) returns (step: Step)
    requires Run(zone, true, EMPTY, steps) == Some(s)
    requires pid in s.procs && (s.procs[pid].pc.Waiting? ==> s.lock.None?)
    ensures step.pid == pid && !step.Start? && !step.Exit?
    ensures Apply(zone, true, s, step).Some?
  {
    EmptyInv();
    RunKeeps(zone, EMPTY, steps, s);
    assert ProcInv(s, pid);
    step := match s.procs[pid].pc
      case Idle => Check(pid, 0)
      case Waiting => Acquire(pid)
      case Closing => Close(pid)
      case ProbingArchive => ProbeArchive(pid)
      case ProbingBase(_) => ProbeBase(pid)
      case Renaming(_) => Rename(pid)
      case Reopening => Reopen(pid)
      case Arming => Arm(pid, 0)
      case Releasing => Release(pid)
      case Writing => Write(pid, "");
  }

  // How many steps of its own the holder of the lock has left.
  function Rank(pc: Pc): nat {
    match pc
    case Closing => 7
    case ProbingArchive => 6
    case ProbingBase(_) => 5
    case Renaming(_) => 4
    case Reopening => 3
    case Arming => 2
    case Releasing => 1
    case _ => 0
  }

  function OwnSteps(steps: seq<Step>, pid: nat): nat {
    if steps == [] then 0 else (if steps[0].pid == pid then 1 else 0) + OwnSteps(steps[1..], pid)
  }

  // At some point of the run the lock is free.
  ghost predicate Freed(zone: Zone, s: Sys, steps: seq<Step>)
    decreases steps
  {
    || s.lock.None?
    || (steps != [] && Apply(zone, true, s, steps[0]).Some?
        && Freed(zone, Apply(zone, true, s, steps[0]).value, steps[1..]))
  }

  ghost predicate Holds(s: Sys, pid: nat, left: int) {
    s.lock == Some(pid) && pid in s.procs && 1 <= Rank(s.procs[pid].pc) <= left
  }

  lemma HolderStep(zone: Zone, s: Sys, step: Step, t: Sys, pid: nat, left: int)
    requires Inv(s) && Holds(s, pid, left) && Apply(zone, true, s, step) == Some(t)
    ensures t.lock.None? || Holds(t, pid, if step.pid == pid then left - 1 else left)
  {
    hide DirInv, LogInv, ComputeRollover, ArchiveStamp, OpenBase, RenameBase, AppendTo;
    assert ProcInv(s, pid);
    if step.pid in s.procs {
      assert ProcInv(s, step.pid);
    }
  }

  lemma {:induction false} HolderRun(zone: Zone, s: Sys, steps: seq<Step>, t: Sys, pid: nat, left: int)
    requires Inv(s) && Holds(s, pid, left) && Run(zone, true, s, steps) == Some(t)
    ensures Freed(zone, s, steps) || Holds(t, pid, left - OwnSteps(steps, pid))
    decreases steps
  {
    hide Apply, Inv, DirGrows, Holds;
    if steps != [] {
      var next := Apply(zone, true, s, steps[0]).value;
      StepKeeps(zone, s, steps[0], next);
      HolderStep(zone, s, steps[0], next, pid, left);
      if next.lock.Some? {
        HolderRun(zone, next, steps[1..], t, pid, if steps[0].pid == pid then left - 1 else left);
      }
    }
  }

  // Whatever the others do in between, the holder of the lock gives it up
  // within seven steps of its own; then any waiting process may take it.
  lemma LockIsReleased(zone: Zone, before: seq<Step>, s: Sys, steps: seq<Step>, t: Sys, pid: nat)
    requires Run(zone, true, EMPTY, before) == Some(s) && Run(zone, true, s, steps) == Some(t)
    requires s.lock == Some(pid) && OwnSteps(steps, pid) >= 7
    ensures Freed(zone, s, steps)
  {
    hide Run, DirInv, LogInv, DirGrows, Freed, OwnSteps;
    EmptyInv();
    RunKeeps(zone, EMPTY, before, s);
    assert ProcInv(s, pid);
    HolderRun(zone, s, steps, t, pid, 7);
  }

  /* ---------- Why the lock is needed ---------- */

  lemma {:induction false} RunAppend(zone: Zone, locking: bool, s: Sys, steps: seq<Step>, t: Sys, step: Step)
    requires Run(zone, locking, s, steps) == Some(t)
    ensures Run(zone, locking, s, steps + [step]) == Apply(zone, locking, t, step)
    decreases steps
  {
    if steps == [] {
      assert [step][1..] == [];
    } else {
      assert (steps + [step])[1..] == steps[1..] + [step];
      RunAppend(zone, locking, Apply(zone, locking, s, steps[0]).value, steps[1..], t, step);
    }
  }

  lemma Push(zone: Zone, steps: seq<Step>, s: Sys, step: Step) returns (steps': seq<Step>, t: Sys)
    requires Run(zone, false, EMPTY, steps) == Some(s) && Apply(zone, false, s, step).Some?
    ensures steps' == steps + [step] && Apply(zone, false, s, step) == Some(t)
    ensures Run(zone, false, EMPTY, steps') == Some(t)
  {
    RunAppend(zone, false, EMPTY, steps, s, step);
    steps', t := steps + [step], Apply(zone, false, s, step).value;
  }

  // Without the lock any idle process gets to the brink of renaming when the
  // archive name is free, whatever the others are doing.
  lemma ReachRenaming(zone: Zone, steps: seq<Step>, s: Sys, pid: nat) returns (steps': seq<Step>, t: Sys)
    requires Run(zone, false, EMPTY, steps) == Some(s)
    requires pid in s.procs && s.procs[pid].pc == Idle
    requires Base in s.dir.names && Archive(ArchiveStamp(zone, s.procs[pid].rolloverAt)) !in s.dir.names
    ensures Run(zone, false, EMPTY, steps') == Some(t)
    ensures var p := s.procs[pid];
            t == s.(lock := Some(pid),
                    procs := s.procs[pid := Proc(Renaming(ArchiveStamp(zone, p.rolloverAt)), None, p.rolloverAt)])
  {
    hide ArchiveStamp, Run;
    steps', t := Push(zone, steps, s, Check(pid, s.procs[pid].rolloverAt));
    steps', t := Push(zone, steps', t, Acquire(pid));
    steps', t := Push(zone, steps', t, Close(pid));
    steps', t := Push(zone, steps', t, ProbeArchive(pid));
    steps', t := Push(zone, steps', t, ProbeBase(pid));
  }

  const UTC := Zone(true, 0, 0, false, (t: int) => false)

  // Two idle processes and one line in the base file.
  ghost function TwoProcesses(): Sys {
    var idle := Proc(Idle, Some(0), 3600);
    Sys(Dir(map[Base := 0], map[0 := ["a"]], 1), map[1 := idle, 2 := idle], None, [Emission(1, "a", 0, 0)])
  }

  lemma ReachTwoProcesses() returns (steps: seq<Step>)
    ensures Run(UTC, false, EMPTY, steps) == Some(TwoProcesses())
  {
    RunEmpty(UTC);
    hide Run;
    var s: Sys;
    steps, s := Push(UTC, [], EMPTY, Start(1, 0));
    steps, s := Push(UTC, steps, s, Start(2, 0));
    steps, s := Push(UTC, steps, s, Check(1, 0));
    steps, s := Push(UTC, steps, s, Write(1, "a"));
    assert s.procs == TwoProcesses().procs;
    assert s.dir.names == TwoProcesses().dir.names;
    assert s.dir.files[0] == ["a"];
    assert s.dir.files == TwoProcesses().dir.files;
    assert s.log == TwoProcesses().log;
  }

  // Two processes that both probed before either renamed: the second rename
  // replaces the archive the first one made, and the line in it is gone.
  lemma WithoutLockLinesAreLost() returns (steps: seq<Step>, s: Sys)
    ensures Run(UTC, false, EMPTY, steps) == Some(s)
    ensures |s.log| == 1 && !Found(s, 0)
  {
    steps := ReachTwoProcesses();
    hide Run, ArchiveStamp;
    s := TwoProcesses();
    steps, s := ReachRenaming(UTC, steps, s, 1);
    steps, s := ReachRenaming(UTC, steps, s, 2);
    ghost var archive := Archive(ArchiveStamp(UTC, 3600));
    steps, s := Push(UTC, steps, s, Rename(1));
    assert s.dir.names == map[archive := 0];
    steps, s := Push(UTC, steps, s, Reopen(1));
    assert s.dir.names == map[archive := 0, Base := 1];
    steps, s := Push(UTC, steps, s, Rename(2));
    assert s.dir.names == map[archive := 1];
    assert s.log == TwoProcesses().log;
  }

  lemma RunEmpty(zone: Zone)
    ensures Run(zone, false, EMPTY, []) == Some(EMPTY)
  {
  }
}
