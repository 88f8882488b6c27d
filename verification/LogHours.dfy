// Which hour's lines a file holds.  Any number of handlers share the directory,
// come and go, and pause for as long as they like; calls do not overlap.  The
// files keep to their hours exactly as long as no call is made that a guard on
// the directory and the clock can tell beforehand.
module LogHours {
  import opened LogClock
  import opened LocalHours
  import opened LogRotation
  import opened LogHandler

  datatype Handler = Handler(inode: nat, rolloverAt: int)

  // Opening and closing a handler, and one call of `emit` with the clock at its
  // rollover check and, if it rolls over, at the end of the rollover.
  datatype Call =
    | Open(pid: nat, now: int)
    | Emit(pid: nat, checked: int, now: int, text: string)
    | Close(pid: nat)

  // The handlers at work on a directory; for every file the last clock reading
  // before each line was written, and its modification time.
  datatype History = History(dir: Dir, handlers: map<nat, Handler>, times: map<nat, seq<int>>, mtime: map<nat, int>)

  ghost predicate Sound(h: History) {
    && DirInv(h.dir)
    && h.times.Keys == h.dir.files.Keys && h.mtime.Keys == h.dir.files.Keys
    && (forall i <- h.dir.files :: |h.times[i]| == |h.dir.files[i]|)
    && (forall pid <- h.handlers :: h.handlers[pid].inode in h.dir.files)
  }

  /* ---------- What a call does ---------- */

  ghost function AfterOpen(zone: Zone, h: History, pid: nat, now: int): History
    requires Sound(h)
  {
    if Base in h.dir.names then
      var inode := h.dir.names[Base];
      h.(handlers := h.handlers[pid := Handler(inode, ComputeRollover(zone, h.mtime[inode]))])
    else
      var (dir, inode) := OpenBase(h.dir);
      History(dir, h.handlers[pid := Handler(inode, ComputeRollover(zone, now))],
              h.times[inode := []], h.mtime[inode := now])
  }

  ghost function AfterEmit(zone: Zone, h: History, pid: nat, checked: int, now: int, text: string): History
    requires Sound(h) && pid in h.handlers
  {
    var p := h.handlers[pid];
    var e := EmitAlone(zone, h.dir, p.inode, p.rolloverAt, checked, now, text);
    Written(h, pid, e, if checked < p.rolloverAt then checked else now)
  }

  // A line written by `pid`, with its clock reading.
  ghost function Written(h: History, pid: nat, e: Emitted, reading: int): History {
    var earlier := if e.inode in h.times then h.times[e.inode] else [];
    History(e.dir, h.handlers[pid := Handler(e.inode, e.rolloverAt)],
            h.times[e.inode := earlier + [reading]], h.mtime[e.inode := reading])
  }

  // A handler that is not open does nothing.
  ghost function After(zone: Zone, h: History, call: Call): (t: History)
    requires Sound(h)
    ensures Sound(t)
  {
    match call
    case Open(pid, now) =>
      OpenSound(zone, h, pid, now);
      AfterOpen(zone, h, pid, now)
    case Emit(pid, checked, now, text) =>
      if pid !in h.handlers then h
      else
        EmitSound(zone, h, pid, checked, now, text);
        AfterEmit(zone, h, pid, checked, now, text)
    case Close(pid) => h.(handlers := h.handlers - {pid})
  }

  ghost function AfterAll(zone: Zone, h: History, calls: seq<Call>): (t: History)
    requires Sound(h)
    ensures Sound(t)
    decreases calls
  {
    if calls == [] then h else AfterAll(zone, After(zone, h, calls[0]), calls[1..])
  }

  lemma OpenSound(zone: Zone, h: History, pid: nat, now: int)
    requires Sound(h)
    ensures Sound(AfterOpen(zone, h, pid, now))
  {
    hide ComputeRollover, DirInv, DirGrows;
    if Base in h.dir.names {
      BaseHasFile(h.dir);
    } else {
      CreateSound(zone, h, pid, now);
    }
  }

  lemma CreateSound(zone: Zone, h: History, pid: nat, now: int)
    requires Sound(h) && Base !in h.dir.names
    ensures Sound(AfterOpen(zone, h, pid, now))
  {
    hide ComputeRollover, DirInv, DirGrows;
    CreateBaseKeeps(h.dir);
  }

  lemma BaseHasFile(dir: Dir)
    requires DirInv(dir) && Base in dir.names
    ensures dir.names[Base] in dir.files
  {
  }

  lemma EmitSound(zone: Zone, h: History, pid: nat, checked: int, now: int, text: string)
    requires Sound(h) && pid in h.handlers
    ensures Sound(AfterEmit(zone, h, pid, checked, now, text))
  {
    hide DirInv, EmitAlone;
    var p := h.handlers[pid];
    EmitFiles(zone, h.dir, p.inode, p.rolloverAt, checked, now, text);
  }

  // The line goes at the end of one file, which may be new.
  lemma EmitFiles(zone: Zone, dir: Dir, inode: nat, rolloverAt: int, checked: int, now: int, text: string)
    requires DirInv(dir) && inode in dir.files
    ensures var e := EmitAlone(zone, dir, inode, rolloverAt, checked, now, text);
            DirInv(e.dir) && e.dir.files == Extended(dir.files, e.inode, text)
  {
    if checked < rolloverAt {
      AppendKeeps(dir, inode, text);
    } else {
      hide *;
      EmitDue(zone, dir, inode, rolloverAt, checked, now, text);
      var rotated := Rotated(dir, ArchiveStamp(zone, rolloverAt));
      RotatedKeeps(dir, ArchiveStamp(zone, rolloverAt));
      RotatedFiles(dir, ArchiveStamp(zone, rolloverAt));
      OpenBaseKeeps(rotated);
      var (reopened, base) := OpenBase(rotated);
      AppendKeeps(reopened, base, text);
      OpenThenAppend(rotated, text);
    }
  }

  function Extended(files: map<nat, seq<string>>, inode: nat, text: string): map<nat, seq<string>> {
    files[inode := (if inode in files then files[inode] else []) + [text]]
  }

  // A call that rolls over, step by step.
  lemma EmitDue(zone: Zone, dir: Dir, inode: nat, rolloverAt: int, checked: int, now: int, text: string)
    requires DirInv(dir) && inode in dir.files && checked >= rolloverAt
    ensures var (d, base) := OpenBase(Rotated(dir, ArchiveStamp(zone, rolloverAt)));
            && base in d.files
            && EmitAlone(zone, dir, inode, rolloverAt, checked, now, text)
               == Emitted(AppendTo(d, base, text), base, ComputeRollover(zone, now))
  {
    hide DirInv, DirGrows, Rotated, OpenBase, ArchiveStamp, ComputeRollover, AppendTo;
    RotatedKeeps(dir, ArchiveStamp(zone, rolloverAt));
    OpenBaseKeeps(Rotated(dir, ArchiveStamp(zone, rolloverAt)));
  }

  lemma RotatedFiles(dir: Dir, archive: Stamp)
    ensures Rotated(dir, archive).files == dir.files
  {
  }

  lemma OpenThenAppend(dir: Dir, text: string)
    requires DirInv(dir) && OpenBase(dir).1 in OpenBase(dir).0.files
    ensures AppendTo(OpenBase(dir).0, OpenBase(dir).1, text).files == Extended(dir.files, OpenBase(dir).1, text)
  {
    hide Named;
  }

  /* ---------- Files that keep to their hours ---------- */

  ghost predicate Mixed(zone: Zone, times: seq<int>) {
    exists j, k :: 0 <= j < |times| && 0 <= k < |times| && HourOf(zone, times[j]) != HourOf(zone, times[k])
  }

  // Every archive holds lines of the hour in its name only, and the base file
  // lines of one hour only.
  ghost predicate HoursKept(zone: Zone, h: History)
    requires Sound(h)
  {
    && (forall stamp, r | Archive(stamp) in h.dir.names && r in h.times[h.dir.names[Archive(stamp)]] ::
          StampOf(zone, r) == stamp)
    && (Base in h.dir.names ==> !Mixed(zone, h.times[h.dir.names[Base]]))
  }

  // The call that breaks this: it rolls over, finds its archive made by another
  // handler, and goes on with a base file last written in an earlier hour.
  ghost predicate Misplaces(zone: Zone, h: History, call: Call)
    requires Sound(h)
  {
    && call.Emit? && call.pid in h.handlers
    && call.checked >= h.handlers[call.pid].rolloverAt
    && Archive(ArchiveStamp(zone, h.handlers[call.pid].rolloverAt)) in h.dir.names
    && Base in h.dir.names
    && HourOf(zone, h.mtime[h.dir.names[Base]]) < HourOf(zone, call.now)
  }

  ghost predicate NeverMisplaces(zone: Zone, h: History, calls: seq<Call>)
    requires Sound(h)
    decreases calls
  {
    calls == [] || (!Misplaces(zone, h, calls[0]) && NeverMisplaces(zone, After(zone, h, calls[0]), calls[1..]))
  }

  // Calls follow one another on a clock that does not run backwards.
  predicate Follows(clock: int, call: Call) {
    match call
    case Open(_, now) => clock <= now
    case Emit(_, checked, now, _) => clock <= checked <= now
    case Close(_) => true
  }

  function ClockAfter(clock: int, call: Call): int {
    if call.Close? then clock else call.now
  }

  predicate InOrder(clock: int, calls: seq<Call>)
    decreases calls
  {
    calls == [] || (Follows(clock, calls[0]) && InOrder(ClockAfter(clock, calls[0]), calls[1..]))
  }

  /* ---------- The invariant ---------- */

  // The archive is named for `hour` and holds lines of that hour only.
  ghost predicate ArchiveKept(zone: Zone, h: History, stamp: Stamp, hour: int)
    requires Archive(stamp) in h.dir.names
  {
    && LocalHourAt(zone, hour)
    && stamp == StampAt(hour, Offset(zone, hour))
    && h.dir.names[Archive(stamp)] in h.times
    && forall r <- h.times[h.dir.names[Archive(stamp)]] :: HourOf(zone, r) == hour
  }

  ghost predicate ArchivesKept(zone: Zone, h: History, bound: int) {
    forall stamp :: Archive(stamp) in h.dir.names ==>
      exists hour :: hour + INTERVAL <= bound && ArchiveKept(zone, h, stamp, hour)
  }

  ghost predicate BaseKept(zone: Zone, h: History, clock: int)
    requires Sound(h) && Base in h.dir.names
  {
    var inode := h.dir.names[Base];
    h.mtime[inode] <= clock && forall r <- h.times[inode] :: HourOf(zone, r) == HourOf(zone, h.mtime[inode])
  }

  // The hour of the base file; without one, the clock.
  ghost function Current(zone: Zone, h: History, clock: int): int
    requires Sound(h)
  {
    if Base in h.dir.names then HourOf(zone, h.mtime[h.dir.names[Base]]) else clock
  }

  // A handler writes to the base file and rolls over at the end of its hour, or
  // it has missed a rollover and its archive is there.
  ghost predicate HandlerKept(zone: Zone, h: History, p: Handler)
    requires Sound(h)
  {
    Base in h.dir.names && (OnBase(zone, h, p) || Missed(zone, h, p))
  }

  ghost predicate OnBase(zone: Zone, h: History, p: Handler)
    requires Sound(h) && Base in h.dir.names
  {
    p.inode == h.dir.names[Base] && p.rolloverAt == HourOf(zone, h.mtime[p.inode]) + INTERVAL
  }

  ghost predicate Missed(zone: Zone, h: History, p: Handler)
    requires Sound(h) && Base in h.dir.names
  {
    && Archive(ArchiveStamp(zone, p.rolloverAt)) in h.dir.names
    && p.rolloverAt <= HourOf(zone, h.mtime[h.dir.names[Base]])
    && h.times[h.dir.names[Base]] != []
  }

  ghost predicate Consistent(zone: Zone, h: History, clock: int) {
    && Sound(h)
    && (Base in h.dir.names ==> BaseKept(zone, h, clock))
    && ArchivesKept(zone, h, Current(zone, h, clock))
    && forall pid <- h.handlers :: HandlerKept(zone, h, h.handlers[pid])
  }

  lemma ConsistentKeepsHours(zone: Zone, h: History, clock: int)
    requires Consistent(zone, h, clock)
    ensures HoursKept(zone, h)
  {
    forall stamp, r | Archive(stamp) in h.dir.names && r in h.times[h.dir.names[Archive(stamp)]]
      ensures StampOf(zone, r) == stamp
    {
      hide DirInv, LocalHourAt, StampAt, Offset, ComputeRollover;
      var hour :| hour + INTERVAL <= Current(zone, h, clock) && ArchiveKept(zone, h, stamp, hour);
    }
    hide DirInv, ComputeRollover, ArchivesKept;
  }

  // The hour of the base file has no archive yet.
  lemma HourIsFree(zone: Zone, h: History, clock: int)
    requires RegularZone(zone) && Consistent(zone, h, clock) && Base in h.dir.names
    ensures Archive(StampOf(zone, h.mtime[h.dir.names[Base]])) !in h.dir.names
  {
    var t := h.mtime[h.dir.names[Base]];
    HourLaw(zone, t);
    hide DirInv, RegularZone, LocalHourAt, ComputeRollover, HandlerKept, BaseKept;
    assert Current(zone, h, clock) == HourOf(zone, t);
    HourUnused(zone, h, HourOf(zone, t));
  }

  lemma HourUnused(zone: Zone, h: History, bound: int)
    requires RegularZone(zone) && LocalHourAt(zone, bound) && ArchivesKept(zone, h, bound)
    ensures Archive(StampAt(bound, Offset(zone, bound))) !in h.dir.names
  {
    hide RegularZone, LocalHourAt, StampAt, Offset;
    var stamp := StampAt(bound, Offset(zone, bound));
    if Archive(stamp) in h.dir.names {
      var hour :| hour + INTERVAL <= bound && ArchiveKept(zone, h, stamp, hour);
      StampFixesHour(zone, hour, bound);
    }
  }

  /* ---------- What a call that writes looks like ---------- */

  // The line goes to the base file as it stands.
  lemma SameBaseShape(zone: Zone, h: History, pid: nat, checked: int, now: int, text: string)
    requires Sound(h) && Base in h.dir.names && pid in h.handlers
    requires var p := h.handlers[pid];
             if checked < p.rolloverAt then p.inode == h.dir.names[Base]
             else Archive(ArchiveStamp(zone, p.rolloverAt)) in h.dir.names
    ensures var p, base := h.handlers[pid], h.dir.names[Base];
            && base in h.dir.files
            && AfterEmit(zone, h, pid, checked, now, text)
               == if checked < p.rolloverAt
                  then Written(h, pid, Emitted(AppendTo(h.dir, base, text), base, p.rolloverAt), checked)
                  else Written(h, pid, Emitted(AppendTo(h.dir, base, text), base, ComputeRollover(zone, now)), now)
  {
    var p := h.handlers[pid];
    BaseHasFile(h.dir);
    hide DirInv, ArchiveStamp, ComputeRollover, AppendTo, Written;
    if checked >= p.rolloverAt {
      EmitDue(zone, h.dir, p.inode, p.rolloverAt, checked, now, text);
    }
  }

  // The base file is put away and a new one gets the line.
  lemma RolledShape(zone: Zone, h: History, pid: nat, checked: int, now: int, text: string)
    requires Sound(h) && Base in h.dir.names && pid in h.handlers
    requires checked >= h.handlers[pid].rolloverAt
    requires Archive(ArchiveStamp(zone, h.handlers[pid].rolloverAt)) !in h.dir.names
    ensures var t := AfterEmit(zone, h, pid, checked, now, text);
            && h.dir.next !in h.times
            && t.dir.names == RolledNames(h.dir, ArchiveStamp(zone, h.handlers[pid].rolloverAt))
            && t.dir.files == h.dir.files[h.dir.next := [text]]
            && t.dir.next == h.dir.next + 1
            && t.handlers == h.handlers[pid := Handler(h.dir.next, ComputeRollover(zone, now))]
            && t.times == h.times[h.dir.next := [now]]
            && t.mtime == h.mtime[h.dir.next := now]
  {
    var p := h.handlers[pid];
    var archive := ArchiveStamp(zone, p.rolloverAt);
    NextIsNew(h.dir);
    EmitDue(zone, h.dir, p.inode, p.rolloverAt, checked, now, text);
    RotateAndOpen(h.dir, archive);
    hide DirInv, ArchiveStamp, ComputeRollover, EmitAlone, OpenBase, Rotated;
    assert [] + [text] == [text] && [] + [now] == [now];
  }

  function RolledNames(dir: Dir, archive: Stamp): map<Name, nat>
    requires Base in dir.names
  {
    (dir.names - {Base})[Archive(archive) := dir.names[Base]][Base := dir.next]
  }

  lemma NextIsNew(dir: Dir)
    requires DirInv(dir)
    ensures dir.next !in dir.files
  {
  }

  lemma RotateAndOpen(dir: Dir, archive: Stamp)
    requires Base in dir.names && Archive(archive) !in dir.names
    ensures OpenBase(Rotated(dir, archive))
            == (Dir(RolledNames(dir, archive), dir.files[dir.next := []], dir.next + 1), dir.next)
  {
  }

  /* ---------- Calls that keep the hours ---------- */

  // Archives that keep their file and its lines keep their hour.
  lemma ArchivesCarry(zone: Zone, h: History, t: History, bound: int, later: int)
    requires ArchivesKept(zone, h, bound) && bound <= later
    requires forall stamp | Archive(stamp) in t.dir.names ::
               && Archive(stamp) in h.dir.names && t.dir.names[Archive(stamp)] == h.dir.names[Archive(stamp)]
               && (h.dir.names[Archive(stamp)] in h.times ==>
                     && h.dir.names[Archive(stamp)] in t.times
                     && t.times[h.dir.names[Archive(stamp)]] == h.times[h.dir.names[Archive(stamp)]])
    ensures ArchivesKept(zone, t, later)
  {
    hide LocalHourAt, HourOf, StampAt, Offset;
    forall stamp | Archive(stamp) in t.dir.names
      ensures exists hour :: hour + INTERVAL <= later && ArchiveKept(zone, t, stamp, hour)
    {
      var hour :| hour + INTERVAL <= bound && ArchiveKept(zone, h, stamp, hour);
      assert ArchiveKept(zone, t, stamp, hour);
    }
  }

  // Another line of the base file's hour went there.
  ghost predicate BaseGrew(zone: Zone, h: History, t: History, reading: int)
    requires Sound(h) && Base in h.dir.names
  {
    var base := h.dir.names[Base];
    && HourOf(zone, reading) == HourOf(zone, h.mtime[base])
    && t.dir.names == h.dir.names
    && t.times == h.times[base := h.times[base] + [reading]] && t.mtime == h.mtime[base := reading]
  }

  lemma SameHourKeeps(zone: Zone, h: History, clock: int, pid: nat, t: History, reading: int)
    requires Consistent(zone, h, clock) && Base in h.dir.names && Sound(t)
    requires BaseGrew(zone, h, t, reading)
    requires t.handlers == h.handlers[pid := Handler(h.dir.names[Base], HourOf(zone, reading) + INTERVAL)]
    ensures Consistent(zone, t, reading)
  {
    var base := h.dir.names[Base];
    SameHourArchives(zone, h, clock, t, reading);
    LongerBase(zone, h, clock, t, reading);
    hide DirInv, HourOf, ArchiveStamp, BaseKept, HandlerKept, ArchivesKept;
    forall q | q in t.handlers
      ensures HandlerKept(zone, t, t.handlers[q])
    {
      SameHourHandler(zone, h, pid, t, reading, q);
    }
  }

  lemma OneBase(dir: Dir)
    requires DirInv(dir) && Base in dir.names
    ensures forall n <- dir.names :: dir.names[n] == dir.names[Base] ==> n == Base
    ensures dir.names[Base] in dir.files
  {
  }

  lemma SameHourArchives(zone: Zone, h: History, clock: int, t: History, reading: int)
    requires Consistent(zone, h, clock) && Base in h.dir.names && Sound(t)
    requires BaseGrew(zone, h, t, reading)
    ensures ArchivesKept(zone, t, Current(zone, t, reading))
  {
    hide DirInv, HourOf, BaseKept, HandlerKept, ArchivesKept, Current;
    OneBase(h.dir);
    CurrentIs(zone, h, clock);
    CurrentIs(zone, t, reading);
    hide *;
    ArchivesCarry(zone, h, t, Current(zone, h, clock), Current(zone, t, reading));
  }

  lemma CurrentIs(zone: Zone, h: History, clock: int)
    requires Sound(h) && Base in h.dir.names
    ensures h.dir.names[Base] in h.times && h.dir.names[Base] in h.mtime
    ensures Current(zone, h, clock) == HourOf(zone, h.mtime[h.dir.names[Base]])
    ensures Consistent(zone, h, clock) ==> ArchivesKept(zone, h, Current(zone, h, clock))
  {
    BaseHasFile(h.dir);
    hide DirInv;
  }

  lemma LongerBase(zone: Zone, h: History, clock: int, t: History, reading: int)
    requires Sound(h) && Sound(t) && Base in h.dir.names && BaseKept(zone, h, clock)
    requires BaseGrew(zone, h, t, reading)
    ensures BaseKept(zone, t, reading)
  {
    hide DirInv, HourOf;
  }

  lemma SameHourHandler(zone: Zone, h: History, pid: nat, t: History, reading: int, q: nat)
    requires Sound(h) && Sound(t) && Base in h.dir.names && q in t.handlers
    requires q != pid ==> q in h.handlers && HandlerKept(zone, h, h.handlers[q])
    requires BaseGrew(zone, h, t, reading)
    requires t.handlers == h.handlers[pid := Handler(h.dir.names[Base], HourOf(zone, reading) + INTERVAL)]
    ensures HandlerKept(zone, t, t.handlers[q])
  {
    hide DirInv, HourOf, ArchiveStamp;
  }

  // A rollover in a later hour put the base file away and began a new one.
  ghost predicate Rolled(zone: Zone, h: History, t: History, now: int)
    requires Sound(h) && Base in h.dir.names
  {
    var base, next := h.dir.names[Base], h.dir.next;
    && HourOf(zone, h.mtime[base]) + INTERVAL <= HourOf(zone, now)
    && next !in h.times
    && t.dir.names == RolledNames(h.dir, StampOf(zone, h.mtime[base]))
    && t.times == h.times[next := [now]] && t.mtime == h.mtime[next := now]
  }

  lemma RollingKeeps(zone: Zone, h: History, clock: int, pid: nat, t: History, now: int)
    requires Consistent(zone, h, clock) && Base in h.dir.names && Sound(t)
    requires LocalHourAt(zone, HourOf(zone, h.mtime[h.dir.names[Base]]))
    requires Rolled(zone, h, t, now)
    requires t.handlers == h.handlers[pid := Handler(h.dir.next, HourOf(zone, now) + INTERVAL)]
    ensures Consistent(zone, t, now)
  {
    hide DirInv, HourOf, StampOf, ArchivesKept, LocalHourAt, HandlerKept, RolledNames, BaseKept;
    NextIsNew(h.dir);
    RollingArchives(zone, h, clock, t, now);
    RollingBase(zone, h, t, now);
    forall q | q in t.handlers
      ensures HandlerKept(zone, t, t.handlers[q])
    {
      RollingHandler(zone, h, pid, t, now, q);
    }
  }

  lemma RollingBase(zone: Zone, h: History, t: History, now: int)
    requires Sound(h) && Sound(t) && Base in h.dir.names && Rolled(zone, h, t, now)
    ensures Base in t.dir.names && BaseKept(zone, t, now) && Current(zone, t, now) == HourOf(zone, now)
  {
    hide DirInv, HourOf, StampOf;
  }

  // Whoever else wrote to the base file has missed this rollover.
  lemma RollingHandler(zone: Zone, h: History, pid: nat, t: History, now: int, q: nat)
    requires Sound(h) && Sound(t) && Base in h.dir.names && q in t.handlers
    requires q != pid ==> q in h.handlers && HandlerKept(zone, h, h.handlers[q])
    requires Rolled(zone, h, t, now)
    requires t.handlers == h.handlers[pid := Handler(h.dir.next, HourOf(zone, now) + INTERVAL)]
    ensures HandlerKept(zone, t, t.handlers[q])
  {
    hide DirInv, HourOf, StampOf, ArchiveStamp, RolledNames, OnBase, Missed;
    var base, next := h.dir.names[Base], h.dir.next;
    BaseHasFile(h.dir);
    ClosingStamp(zone, h.mtime[base]);
    RolledNamesKeep(h.dir, StampOf(zone, h.mtime[base]));
    hide Sound;
    if q == pid {
      BeginsOnBase(zone, t, now);
    } else {
      MissesRollover(zone, h, t, h.handlers[q]);
    }
  }

  lemma BeginsOnBase(zone: Zone, t: History, now: int)
    requires Sound(t) && Base in t.dir.names && t.mtime[t.dir.names[Base]] == now
    ensures OnBase(zone, t, Handler(t.dir.names[Base], HourOf(zone, now) + INTERVAL))
  {
    hide HourOf, Sound;
  }

  lemma RolledNamesKeep(dir: Dir, archive: Stamp)
    requires Base in dir.names
    ensures var names := RolledNames(dir, archive);
            && Base in names && names[Base] == dir.next && Archive(archive) in names
            && forall stamp :: Archive(stamp) in dir.names ==> Archive(stamp) in names
  {
  }

  lemma MissesRollover(zone: Zone, h: History, t: History, p: Handler)
    requires Sound(h) && Sound(t) && Base in h.dir.names && Base in t.dir.names
    requires OnBase(zone, h, p) || Missed(zone, h, p)
    requires var base := h.dir.names[Base];
             && Archive(ArchiveStamp(zone, HourOf(zone, h.mtime[base]) + INTERVAL)) in t.dir.names
             && HourOf(zone, h.mtime[base]) + INTERVAL <= HourOf(zone, t.mtime[t.dir.names[Base]])
    requires forall stamp :: Archive(stamp) in h.dir.names ==> Archive(stamp) in t.dir.names
    requires t.times[t.dir.names[Base]] != []
    ensures Missed(zone, t, p)
  {
    hide DirInv, Sound, HourOf, ArchiveStamp;
  }

  lemma RolloverEndsHour(zone: Zone, t: int)
    ensures ComputeRollover(zone, t) == HourOf(zone, t) + INTERVAL
  {
  }

  lemma ClosingStamp(zone: Zone, t: int)
    ensures StampOf(zone, t) == ArchiveStamp(zone, HourOf(zone, t) + INTERVAL)
  {
  }

  lemma RollingArchives(zone: Zone, h: History, clock: int, t: History, now: int)
    requires Consistent(zone, h, clock) && Base in h.dir.names
    requires LocalHourAt(zone, HourOf(zone, h.mtime[h.dir.names[Base]]))
    requires Rolled(zone, h, t, now)
    ensures ArchivesKept(zone, t, HourOf(zone, now))
  {
    hide DirInv, HandlerKept, LocalHourAt;
    BaseHasFile(h.dir);
    var later := HourOf(zone, now);
    var base := h.dir.names[Base];
    var hour, closing := HourOf(zone, h.mtime[base]), StampOf(zone, h.mtime[base]);
    assert closing == StampAt(hour, Offset(zone, hour));
    hide DirInv, HourOf, StampOf, StampAt, Offset, LocalHourAt;
    forall stamp | Archive(stamp) in t.dir.names
      ensures exists hour :: hour + INTERVAL <= later && ArchiveKept(zone, t, stamp, hour)
    {
      if stamp == closing {
        assert ArchiveKept(zone, t, stamp, hour);
      } else {
        var its :| its + INTERVAL <= hour && ArchiveKept(zone, h, stamp, its);
        assert ArchiveKept(zone, t, stamp, its);
      }
    }
  }

  lemma EmitKeepsHours(zone: Zone, h: History, clock: int, call: Call)
    requires RegularZone(zone) && Consistent(zone, h, clock) && Follows(clock, call)
    requires call.Emit? && call.pid in h.handlers && !Misplaces(zone, h, call)
    ensures Consistent(zone, After(zone, h, call), call.now)
  {
    hide DirInv, HourOf, ArchivesKept, AfterEmit, ArchiveStamp, RegularZone, LocalHourAt, ComputeRollover;
    var p := h.handlers[call.pid];
    assert HandlerKept(zone, h, p);
    BaseHasFile(h.dir);
    var base := h.dir.names[Base];
    var t, mtime := After(zone, h, call), h.mtime[base];
    var reading := if call.checked < p.rolloverAt then call.checked else call.now;
    HourLaw(zone, mtime);
    HourIsFree(zone, h, clock);
    HourLater(zone, HourOf(zone, mtime), reading);
    HourMonotone(zone, mtime, call.now);
    assert mtime <= clock;
    RolloverEndsHour(zone, reading);
    ClosingStamp(zone, mtime);
    if call.checked < p.rolloverAt || Archive(ArchiveStamp(zone, p.rolloverAt)) in h.dir.names {
      SameBaseShape(zone, h, call.pid, call.checked, call.now, call.text);
      SameHourKeeps(zone, h, clock, call.pid, t, reading);
      LaterConsistent(zone, t, reading, call.now);
    } else {
      RolledShape(zone, h, call.pid, call.checked, call.now, call.text);
      RollingKeeps(zone, h, clock, call.pid, t, call.now);
    }
  }

  lemma LaterConsistent(zone: Zone, h: History, clock: int, later: int)
    requires Consistent(zone, h, clock) && clock <= later
    ensures Consistent(zone, h, later)
  {
    hide DirInv, ArchiveKept, HandlerKept, HourOf;
    ArchivesCarry(zone, h, h, Current(zone, h, clock), Current(zone, h, later));
  }

  lemma OpenKeepsHours(zone: Zone, h: History, clock: int, call: Call)
    requires RegularZone(zone) && Consistent(zone, h, clock) && Follows(clock, call) && call.Open?
    ensures Consistent(zone, After(zone, h, call), call.now)
  {
    if Base in h.dir.names {
      LaterConsistent(zone, h, clock, call.now);
      OpenExisting(zone, h, call);
    } else {
      OpenNew(zone, h, clock, call);
    }
  }

  lemma OpenExisting(zone: Zone, h: History, call: Call)
    requires call.Open? && Consistent(zone, h, call.now) && Base in h.dir.names
    ensures Consistent(zone, After(zone, h, call), call.now)
  {
    hide DirInv, ArchiveStamp, ComputeRollover, BaseKept, HandlerKept;
    HandlersChange(zone, h, call.now, After(zone, h, call), call.pid);
    var base := h.dir.names[Base];
    OpenedKept(zone, h, Handler(base, ComputeRollover(zone, h.mtime[base])));
  }

  lemma OpenedKept(zone: Zone, h: History, p: Handler)
    requires Sound(h) && Base in h.dir.names
    requires p == Handler(h.dir.names[Base], ComputeRollover(zone, h.mtime[h.dir.names[Base]]))
    ensures HandlerKept(zone, h, p)
  {
    hide DirInv, ComputeRollover, ArchiveStamp;
  }

  // Only the handler of `pid` is new or gone.
  lemma HandlersChange(zone: Zone, h: History, clock: int, t: History, pid: nat)
    requires Consistent(zone, h, clock) && Sound(t)
    requires t == h.(handlers := t.handlers)
    requires forall q <- t.handlers :: q != pid ==> q in h.handlers && t.handlers[q] == h.handlers[q]
    ensures pid !in t.handlers || HandlerKept(zone, h, t.handlers[pid]) ==> Consistent(zone, t, clock)
  {
    hide DirInv, HourOf, ArchiveStamp, ArchiveKept;
    ArchivesCarry(zone, h, t, Current(zone, h, clock), Current(zone, t, clock));
    hide ArchivesKept;
    forall q | q in t.handlers
      ensures HandlerKept(zone, t, t.handlers[q]) <==> HandlerKept(zone, h, t.handlers[q])
    {
    }
    assert forall q <- h.handlers :: HandlerKept(zone, h, h.handlers[q]);
    hide HandlerKept;
  }

  lemma OpenNew(zone: Zone, h: History, clock: int, call: Call)
    requires RegularZone(zone) && Consistent(zone, h, clock) && call.Open? && Base !in h.dir.names
    requires clock <= call.now
    ensures Consistent(zone, After(zone, h, call), call.now)
  {
    hide DirInv, ArchiveStamp, ComputeRollover, LocalHourAt, RegularZone;
    var t := After(zone, h, call);
    NextIsNew(h.dir);
    forall stamp | Archive(stamp) in t.dir.names
      ensures exists hour :: hour + INTERVAL <= HourOf(zone, call.now) && ArchiveKept(zone, t, stamp, hour)
    {
      var hour :| hour + INTERVAL <= clock && ArchiveKept(zone, h, stamp, hour);
      HourLater(zone, hour, call.now);
      assert ArchiveKept(zone, t, stamp, hour);
    }
  }

  // A call that does not misplace its line keeps every file to its hour.
  lemma CallKeepsHours(zone: Zone, h: History, clock: int, call: Call)
    requires RegularZone(zone) && Consistent(zone, h, clock) && Follows(clock, call)
    requires !Misplaces(zone, h, call)
    ensures Consistent(zone, After(zone, h, call), ClockAfter(clock, call))
  {
    match call
    case Open(_, _) => OpenKeepsHours(zone, h, clock, call);
    case Emit(pid, _, now, _) =>
      if pid in h.handlers {
        EmitKeepsHours(zone, h, clock, call);
      } else {
        LaterConsistent(zone, h, clock, now);
      }
    case Close(_) => CloseKeepsHours(zone, h, clock, call);
  }

  lemma CloseKeepsHours(zone: Zone, h: History, clock: int, call: Call)
    requires Consistent(zone, h, clock) && call.Close?
    ensures Consistent(zone, After(zone, h, call), clock)
  {
    hide DirInv, ArchivesKept, BaseKept, HandlerKept;
    HandlersChange(zone, h, clock, After(zone, h, call), call.pid);
  }

  /* ---------- Calls that do not ---------- */

  ghost predicate AnyMixed(zone: Zone, h: History) {
    exists i :: i in h.times && Mixed(zone, h.times[i])
  }

  lemma MisplacedMixes(zone: Zone, h: History, clock: int, call: Call)
    requires RegularZone(zone) && Consistent(zone, h, clock) && Misplaces(zone, h, call)
    ensures AnyMixed(zone, After(zone, h, call))
  {
    var t, base := After(zone, h, call), h.dir.names[Base];
    MissedHasLines(zone, h, clock, call);
    SameBaseShape(zone, h, call.pid, call.checked, call.now, call.text);
    hide DirInv, AfterEmit, HourOf, Consistent, Sound, Mixed;
    assert t.times[base] == h.times[base] + [call.now];
    MixedByLast(zone, h.times[base], call.now);
  }

  // Whoever finds its archive made missed a rollover, and the base file has a
  // line of an earlier hour.
  lemma MissedHasLines(zone: Zone, h: History, clock: int, call: Call)
    requires RegularZone(zone) && Consistent(zone, h, clock) && Misplaces(zone, h, call)
    ensures var base := h.dir.names[Base];
            && h.times[base] != [] && HourOf(zone, h.times[base][0]) < HourOf(zone, call.now)
  {
    var p, base := h.handlers[call.pid], h.dir.names[Base];
    HourIsFree(zone, h, clock);
    assert HandlerKept(zone, h, p) && BaseKept(zone, h, clock);
    hide DirInv, RegularZone, ArchivesKept, ArchiveStamp, ComputeRollover;
    assert h.times[base] != [];
    assert h.times[base][0] in h.times[base];
  }

  lemma MixedByLast(zone: Zone, times: seq<int>, reading: int)
    requires times != [] && HourOf(zone, times[0]) < HourOf(zone, reading)
    ensures Mixed(zone, times + [reading])
  {
    hide HourOf;
    var longer := times + [reading];
    assert longer[0] == times[0] && longer[|times|] == reading;
  }

  lemma MixedGrows(zone: Zone, a: seq<int>, b: seq<int>)
    requires Mixed(zone, a) && a <= b
    ensures Mixed(zone, b)
  {
    hide HourOf;
    var j, k :| 0 <= j < |a| && 0 <= k < |a| && HourOf(zone, a[j]) != HourOf(zone, a[k]);
    assert b[j] == a[j] && b[k] == a[k];
  }

  lemma TimesGrow(zone: Zone, h: History, call: Call)
    requires Sound(h)
    ensures forall i <- h.times :: i in After(zone, h, call).times && h.times[i] <= After(zone, h, call).times[i]
  {
    hide DirInv, EmitAlone, ComputeRollover, Written;
    NextIsNew(h.dir);
    if call.Emit? && call.pid in h.handlers {
      var p := h.handlers[call.pid];
      var e := EmitAlone(zone, h.dir, p.inode, p.rolloverAt, call.checked, call.now, call.text);
      WrittenGrows(h, call.pid, e, if call.checked < p.rolloverAt then call.checked else call.now);
    }
  }

  lemma WrittenGrows(h: History, pid: nat, e: Emitted, reading: int)
    ensures forall i <- h.times :: i in Written(h, pid, e, reading).times
                                   && h.times[i] <= Written(h, pid, e, reading).times[i]
  {
  }

  // Mixed lines stay mixed for ever.
  lemma {:induction false} MixedStays(zone: Zone, h: History, calls: seq<Call>)
    requires Sound(h) && AnyMixed(zone, h)
    ensures AnyMixed(zone, AfterAll(zone, h, calls))
    decreases calls
  {
    if calls != [] {
      var next := After(zone, h, calls[0]);
      TimesGrow(zone, h, calls[0]);
      hide Sound, After, Mixed;
      var i :| i in h.times && Mixed(zone, h.times[i]);
      MixedGrows(zone, h.times[i], next.times[i]);
      MixedStays(zone, next, calls[1..]);
    }
  }

  lemma MixedBreaks(zone: Zone, h: History)
    requires RegularZone(zone) && Sound(h) && AnyMixed(zone, h)
    ensures !HoursKept(zone, h)
  {
    var i :| i in h.times && Mixed(zone, h.times[i]);
    assert Named(h.dir, i);
    var n :| n in h.dir.names && h.dir.names[n] == i;
    if n.Archive? {
      hide RegularZone, DirInv, StampOf;
      var r := StrayLine(zone, h.times[i], n.stamp);
      assert StampOf(zone, r) != n.stamp;
    }
  }

  lemma StrayLine(zone: Zone, times: seq<int>, stamp: Stamp) returns (r: int)
    requires RegularZone(zone) && Mixed(zone, times)
    ensures r in times && StampOf(zone, r) != stamp
  {
    var j, k :| 0 <= j < |times| && 0 <= k < |times| && HourOf(zone, times[j]) != HourOf(zone, times[k]);
    r := if StampOf(zone, times[j]) == stamp then times[k] else times[j];
    if StampOf(zone, times[j]) == StampOf(zone, times[k]) {
      HourLaw(zone, times[j]);
      HourLaw(zone, times[k]);
      hide RegularZone, LocalHourAt, StampAt, Offset, ComputeRollover;
      StampFixesHour(zone, HourOf(zone, times[j]), HourOf(zone, times[k]));
    }
  }

  /* ---------- Exactly when the hours are kept ---------- */

  // From any directory and handlers in order, such as a directory with archives
  // and an unfinished base file found at a restart, over any calls of any number
  // of handlers: in the end every file keeps to its hour if and only if no call
  // misplaced its line.
  lemma {:induction false} HoursKeptIff(zone: Zone, h: History, clock: int, calls: seq<Call>)
    requires RegularZone(zone) && Consistent(zone, h, clock) && InOrder(clock, calls)
    ensures HoursKept(zone, AfterAll(zone, h, calls)) <==> NeverMisplaces(zone, h, calls)
    decreases calls
  {
    if calls == [] {
      ConsistentKeepsHours(zone, h, clock);
    } else {
      var next := After(zone, h, calls[0]);
      if Misplaces(zone, h, calls[0]) {
        MisplacedMixes(zone, h, clock, calls[0]);
        MixedStays(zone, next, calls[1..]);
        MixedBreaks(zone, AfterAll(zone, next, calls[1..]));
      } else {
        CallKeepsHours(zone, h, clock, calls[0]);
        HoursKeptIff(zone, next, ClockAfter(clock, calls[0]), calls[1..]);
      }
    }
  }
}
