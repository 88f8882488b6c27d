// Which handlers keep the files to their hours, and two that do not.
module HandlersAtWork {
  import opened LogClock
  import opened LogRotation
  import opened LogHandler
  import opened LocalHours
  import opened LogHours

  /* ---------- Handlers that do ---------- */

  // A handler that writes before the hour after its rollover is over never
  // misplaces a line, however many others there are.
  ghost predicate Punctual(h: History, call: Call) {
    call.Emit? && call.pid in h.handlers && call.checked >= h.handlers[call.pid].rolloverAt ==>
      call.now < h.handlers[call.pid].rolloverAt + INTERVAL
  }

  ghost predicate AllPunctual(zone: Zone, h: History, calls: seq<Call>)
    requires Sound(h)
    decreases calls
  {
    calls == [] || (Punctual(h, calls[0]) && AllPunctual(zone, After(zone, h, calls[0]), calls[1..]))
  }

  lemma PunctualInPlace(zone: Zone, h: History, clock: int, call: Call)
    requires RegularZone(zone) && Consistent(zone, h, clock) && Punctual(h, call)
    ensures !Misplaces(zone, h, call)
  {
    hide DirInv, HourOf, ArchivesKept, ArchiveStamp, RegularZone, LocalHourAt, ComputeRollover;
    if Misplaces(zone, h, call) {
      var p := h.handlers[call.pid];
      assert HandlerKept(zone, h, p);
      BaseHasFile(h.dir);
      var mtime := h.mtime[h.dir.names[Base]];
      HourIsFree(zone, h, clock);
      ClosingStamp(zone, mtime);
      HourLaw(zone, mtime);
      HourLaw(zone, call.now);
      HourLater(zone, HourOf(zone, mtime), call.now);
    }
  }

  lemma {:induction false} PunctualKeepsHours(zone: Zone, h: History, clock: int, calls: seq<Call>)
    requires RegularZone(zone) && Consistent(zone, h, clock) && InOrder(clock, calls)
    requires AllPunctual(zone, h, calls)
    ensures NeverMisplaces(zone, h, calls) && HoursKept(zone, AfterAll(zone, h, calls))
    decreases calls
  {
    hide Consistent, Sound, After, Misplaces, Punctual, RegularZone;
    ConsistentIsSound(zone, h, clock);
    HoursKeptIff(zone, h, clock, calls);
    if calls != [] {
      PunctualInPlace(zone, h, clock, calls[0]);
      CallKeepsHours(zone, h, clock, calls[0]);
      PunctualKeepsHours(zone, After(zone, h, calls[0]), ClockAfter(clock, calls[0]), calls[1..]);
    }
  }

  lemma ConsistentIsSound(zone: Zone, h: History, clock: int)
    requires Consistent(zone, h, clock)
    ensures Sound(h)
  {
  }

  // One handler alone, closed and opened again as often as it likes, never
  // misplaces a line, however long it pauses.
  ghost predicate Alone(zone: Zone, h: History, pid: nat)
    requires Sound(h)
  {
    forall q <- h.handlers :: q == pid && Base in h.dir.names && OnBase(zone, h, h.handlers[q])
  }

  lemma AloneInPlace(zone: Zone, h: History, clock: int, call: Call)
    requires RegularZone(zone) && Consistent(zone, h, clock) && Follows(clock, call) && Alone(zone, h, call.pid)
    ensures !Misplaces(zone, h, call)
    ensures Alone(zone, After(zone, h, call), call.pid)
  {
    hide DirInv, HourOf, ArchivesKept, ArchiveStamp, RegularZone, LocalHourAt, ComputeRollover, HandlerKept, BaseKept;
    match call
    case Open(_, now) => AloneOpens(zone, h, call);
    case Emit(pid, _, _, _) =>
      if pid in h.handlers {
        HourIsFree(zone, h, clock);
        BaseHasFile(h.dir);
        ClosingStamp(zone, h.mtime[h.dir.names[Base]]);
        AloneEmits(zone, h, clock, call);
      }
    case Close(_) =>
  }

  lemma AloneOpens(zone: Zone, h: History, call: Call)
    requires Sound(h) && call.Open? && Alone(zone, h, call.pid)
    ensures Alone(zone, After(zone, h, call), call.pid)
  {
    hide DirInv, ArchiveStamp, ComputeRollover;
  }

  lemma AloneEmits(zone: Zone, h: History, clock: int, call: Call)
    requires RegularZone(zone) && Consistent(zone, h, clock) && Follows(clock, call)
    requires call.Emit? && call.pid in h.handlers && Alone(zone, h, call.pid)
    requires Archive(ArchiveStamp(zone, h.handlers[call.pid].rolloverAt)) !in h.dir.names
    ensures Alone(zone, After(zone, h, call), call.pid)
  {
    hide DirInv, HourOf, ArchivesKept, ArchiveStamp, RegularZone, LocalHourAt, ComputeRollover, HandlerKept, AfterEmit;
    var p, base := h.handlers[call.pid], h.dir.names[Base];
    BaseHasFile(h.dir);
    assert h.mtime[base] <= clock;
    if call.checked < p.rolloverAt {
      SameBaseShape(zone, h, call.pid, call.checked, call.now, call.text);
      HourLaw(zone, h.mtime[base]);
      HourLater(zone, HourOf(zone, h.mtime[base]), call.checked);
    } else {
      RolledShape(zone, h, call.pid, call.checked, call.now, call.text);
      RolloverEndsHour(zone, call.now);
    }
  }

  lemma {:induction false} SingleHandlerKeepsHours(
    zone: Zone, h: History, clock: int, pid: nat, calls: seq<Call>)
    requires RegularZone(zone) && Consistent(zone, h, clock) && InOrder(clock, calls)
    requires Alone(zone, h, pid) && forall call <- calls :: call.pid == pid
    ensures NeverMisplaces(zone, h, calls) && HoursKept(zone, AfterAll(zone, h, calls))
    decreases calls
  {
    hide Consistent, Sound, After, Misplaces, Alone, RegularZone;
    ConsistentIsSound(zone, h, clock);
    HoursKeptIff(zone, h, clock, calls);
    if calls != [] {
      AloneInPlace(zone, h, clock, calls[0]);
      CallKeepsHours(zone, h, clock, calls[0]);
      SingleHandlerKeepsHours(zone, After(zone, h, calls[0]), ClockAfter(clock, calls[0]), pid, calls[1..]);
    }
  }

  /* ---------- Two handlers that do not ---------- */

  const NOTHING := History(Dir(map[], map[], 0), map[], map[], map[])

  const LATE := 5 * INTERVAL

  // Both open the empty directory.
  ghost function BothOpen(): History {
    var p := Handler(0, INTERVAL);
    History(Dir(map[Base := 0], map[0 := []], 1), map[1 := p, 2 := p], map[0 := []], map[0 := 0])
  }

  lemma ReachBothOpen()
    ensures Sound(NOTHING) && Consistent(UTC, NOTHING, 0) && Alone(UTC, NOTHING, 1)
    ensures var h := After(UTC, NOTHING, Open(1, 0));
            Base in h.dir.names && After(UTC, h, Open(2, 0)) == BothOpen()
  {
    assert ComputeRollover(UTC, 0) == INTERVAL;
    hide DirInv, ComputeRollover;
    assert After(UTC, NOTHING, Open(1, 0))
           == History(Dir(map[Base := 0], map[0 := []], 1), map[1 := Handler(0, INTERVAL)], map[0 := []], map[0 := 0]);
  }

  // The first rolls over in time.
  ghost function FirstRolled(): History {
    History(Dir(map[Archive(StampAt(0, 0)) := 0, Base := 1], map[0 := [], 1 := ["on time"]], 2),
            map[1 := Handler(1, 2 * INTERVAL), 2 := Handler(0, INTERVAL)],
            map[0 := [], 1 := [INTERVAL]], map[0 := 0, 1 := INTERVAL])
  }

  lemma FirstTwoHours()
    ensures StampAt(0, 0) != StampAt(INTERVAL, 0)
    ensures ArchiveStamp(UTC, INTERVAL) == StampAt(0, 0) && ArchiveStamp(UTC, 2 * INTERVAL) == StampAt(INTERVAL, 0)
    ensures ComputeRollover(UTC, INTERVAL) == 2 * INTERVAL && ComputeRollover(UTC, LATE) == LATE + INTERVAL
    ensures StampOf(UTC, LATE) != StampAt(INTERVAL, 0)
  {
  }

  lemma ReachFirstRolled()
    requires Sound(BothOpen())
    ensures After(UTC, BothOpen(), Emit(1, INTERVAL, INTERVAL, "on time")) == FirstRolled()
  {
    FirstTwoHours();
    hide DirInv, ArchiveStamp, StampAt, ComputeRollover, AfterEmit;
    var h := BothOpen();
    RolledShape(UTC, h, 1, INTERVAL, INTERVAL, "on time");
    var t := After(UTC, h, Emit(1, INTERVAL, INTERVAL, "on time"));
    assert t.dir.names == FirstRolled().dir.names;
    assert t.dir == FirstRolled().dir;
    assert t.handlers == FirstRolled().handlers;
  }

  // The second wakes up four hours later, finds its archive made, and writes to
  // the base file as it stands.
  ghost function SecondWrote(): History {
    History(Dir(map[Archive(StampAt(0, 0)) := 0, Base := 1], map[0 := [], 1 := ["on time", "late"]], 2),
            map[1 := Handler(1, 2 * INTERVAL), 2 := Handler(1, LATE + INTERVAL)],
            map[0 := [], 1 := [INTERVAL, LATE]], map[0 := 0, 1 := LATE])
  }

  lemma ReachSecondWrote()
    requires Sound(FirstRolled())
    ensures Misplaces(UTC, FirstRolled(), Emit(2, LATE, LATE, "late"))
    ensures After(UTC, FirstRolled(), Emit(2, LATE, LATE, "late")) == SecondWrote()
  {
    hide DirInv, ArchiveStamp, StampAt, StampOf, ComputeRollover, AfterEmit;
    FirstTwoHours();
    var h := FirstRolled();
    SameBaseShape(UTC, h, 2, LATE, LATE, "late");
    assert ["on time"] + ["late"] == ["on time", "late"] && [INTERVAL] + [LATE] == [INTERVAL, LATE];
    var t := After(UTC, h, Emit(2, LATE, LATE, "late"));
    assert t.dir == SecondWrote().dir;
    assert t.handlers == SecondWrote().handlers;
  }

  function LateCalls(): seq<Call> {
    [Open(1, 0), Open(2, 0),
     Emit(1, INTERVAL, INTERVAL, "on time"), Emit(2, LATE, LATE, "late"), Emit(1, LATE, LATE, "later")]
  }

  // Two handlers: the late line ends up in an archive named for an hour long
  // past, when the first handler rolls over.
  lemma SecondHandlerMisfilesLines()
    ensures Consistent(UTC, NOTHING, 0) && InOrder(0, LateCalls())
    ensures Sound(NOTHING)
    ensures var t := AfterAll(UTC, NOTHING, LateCalls());
            var archive := Archive(StampAt(INTERVAL, 0));
            && archive in t.dir.names && t.dir.names[archive] in t.dir.files && t.dir.names[archive] in t.times
            && t.dir.files[t.dir.names[archive]] == ["on time", "late"]
            && t.times[t.dir.names[archive]] == [INTERVAL, LATE]
            && !HoursKept(UTC, t)
  {
    hide Sound, After, Consistent, HoursKept, StampAt;
    LateCallsInOrder();
    hide InOrder;
    ReachBothOpen();
    ReachFirstRolled();
    ReachSecondWrote();
    AfterFive(UTC, NOTHING, LateCalls());
    LastRolls();
  }

  lemma LateCallsInOrder()
    ensures InOrder(0, LateCalls())
  {
    var calls := LateCalls();
    var a, b := calls[1..], calls[2..];
    var c, d := calls[3..], calls[4..];
    assert a[1..] == b && b[1..] == c && c[1..] == d && d[1..] == [];
    assert InOrder(LATE, d) && InOrder(INTERVAL, c) && InOrder(0, b);
  }

  lemma AfterFive(zone: Zone, h: History, calls: seq<Call>)
    requires Sound(h) && |calls| == 5
    ensures var two := After(zone, After(zone, h, calls[0]), calls[1]);
            AfterAll(zone, h, calls) == After(zone, After(zone, After(zone, two, calls[2]), calls[3]), calls[4])
  {
    hide After, Sound;
    var one := After(zone, h, calls[0]);
    var two := After(zone, one, calls[1]);
    var three := After(zone, two, calls[2]);
    assert calls[1..][1..] == calls[2..] && calls[2..][1..] == calls[3..] && calls[3..][1..] == calls[4..];
    assert AfterAll(zone, h, calls) == AfterAll(zone, one, calls[1..]) == AfterAll(zone, two, calls[2..]);
    assert AfterAll(zone, two, calls[2..]) == AfterAll(zone, three, calls[3..]);
    var four := After(zone, three, calls[3]);
    assert AfterAll(zone, three, calls[3..]) == AfterAll(zone, four, calls[4..]);
    assert calls[4..][1..] == [];
    assert AfterAll(zone, four, calls[4..]) == AfterAll(zone, After(zone, four, calls[4]), []);
  }

  lemma LastRolls()
    requires Sound(SecondWrote())
    ensures var t := After(UTC, SecondWrote(), Emit(1, LATE, LATE, "later"));
            var archive := Archive(StampAt(INTERVAL, 0));
            && archive in t.dir.names && t.dir.names[archive] == 1
            && 1 in t.dir.files && 1 in t.times
            && t.dir.files[1] == ["on time", "late"] && t.times[1] == [INTERVAL, LATE]
            && !HoursKept(UTC, t)
  {
    FirstTwoHours();
    hide DirInv, ArchiveStamp, StampAt, ComputeRollover, AfterEmit, StampOf;
    var h := SecondWrote();
    RolledShape(UTC, h, 1, LATE, LATE, "later");
    var t := After(UTC, h, Emit(1, LATE, LATE, "later"));
    assert t.times[1][1] == LATE;
    assert LATE in t.times[1];
  }
}
