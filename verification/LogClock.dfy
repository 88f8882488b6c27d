// The clock arithmetic of hourly log rotation: when the next rollover is due,
// and the suffix an archive gets.
module LogClock {
  // A local time zone: seconds west of UTC in standard and in daylight time, and
  // when daylight time is in force.  `utc` switches the handler to UTC.
  datatype Zone = Zone(utc: bool, timezone: int, altzone: int, daylight: bool, isDst: int -> bool)

  const INTERVAL := 3600

  // Seconds east of UTC at an instant.
  function Offset(zone: Zone, t: int): int {
    if zone.utc then 0
    else if zone.daylight && zone.isDst(t) then -zone.altzone
    else -zone.timezone
  }

  function ComputeRollover(zone: Zone, t: int): int {
    var offset := Offset(zone, t);
    ((t + offset) / 3600 + 1) * 3600 - offset
  }

  predicate OnHour(t: int, offset: int) {
    (t + offset) % 3600 == 0
  }

  // Seconds west of UTC, as the zone itself counts them.
  ghost function West(zone: Zone, t: int): int {
    if zone.utc then 0
    else if zone.daylight && zone.isDst(t) then zone.altzone
    else zone.timezone
  }

  // The next rollover is the first later instant on a full hour of the local
  // time now in force; in particular it is at most an hour away.
  lemma RolloverIsNextHour(zone: Zone, t: int)
    ensures var r := ComputeRollover(zone, t);
            && t < r <= t + INTERVAL
            && OnHour(r, Offset(zone, t))
            && (forall s :: t < s && OnHour(s, Offset(zone, t)) ==> r <= s)
            && (r - West(zone, t)) % 3600 == 0
            && r <= t + 3600
  {
    var offset := Offset(zone, t);
    var r := ComputeRollover(zone, t);
    forall s | t < s && OnHour(s, offset)
      ensures r <= s
    {
      assert (s + offset) / 3600 * 3600 == s + offset;
    }
    assert offset == -West(zone, t);
  }

  // It is a full local hour when it comes unless the offset changes in between
  // by something other than whole hours.
  lemma RolloverOnLocalHourIff(zone: Zone, t: int)
    ensures var r := ComputeRollover(zone, t);
            OnHour(r, Offset(zone, r)) <==> (Offset(zone, r) - Offset(zone, t)) % 3600 == 0
  {
    RolloverIsNextHour(zone, t);
    var r := ComputeRollover(zone, t);
    var k := (r + Offset(zone, t)) / 3600;
    assert r + Offset(zone, r) == 3600 * k + (Offset(zone, r) - Offset(zone, t));
  }

  // A half-hour daylight shift, as on Lord Howe Island, is such a change.
  lemma HalfHourShiftMissesTheHour() returns (zone: Zone, t: int)
    ensures var r := ComputeRollover(zone, t); !OnHour(r, Offset(zone, r))
  {
    zone := Zone(false, -37800, -39600, true, (s: int) => s >= 5400);
    t := 1800;
    assert ComputeRollover(zone, t) == 5400;
  }

  /* ---------- Archive suffixes ---------- */

  // What `%Y%m%d-%H%z` renders: the local day and hour and the offset from UTC,
  // whose seconds are dropped.
  datatype Stamp = Stamp(day: int, hour: int, west: bool, offsetMinutes: nat)

  function StampAt(t: int, offset: int): Stamp {
    Stamp((t + offset) / 86400, (t + offset) / 3600 % 24, offset < 0, (if offset < 0 then -offset else offset) / 60)
  }

  // The suffix names the local day, hour and offset of an instant: west of UTC
  // local time is behind, and the offset has a minus sign.
  ghost predicate NamesHour(zone: Zone, t: int, stamp: Stamp) {
    && 0 <= stamp.hour < 24
    && stamp.day * 24 + stamp.hour == (t - West(zone, t)) / 3600
    && (stamp.west <==> West(zone, t) > 0)
    && stamp.offsetMinutes == (if West(zone, t) < 0 then -West(zone, t) else West(zone, t)) / 60
  }

  lemma StampNamesHour(zone: Zone, t: int)
    ensures NamesHour(zone, t, StampAt(t, Offset(zone, t)))
    ensures forall stamp :: NamesHour(zone, t, stamp) ==> stamp == StampAt(t, Offset(zone, t))
  {
    var local := t + Offset(zone, t);
    assert Offset(zone, t) == -West(zone, t);
    assert local / 86400 == local / 3600 / 24;
    forall stamp | NamesHour(zone, t, stamp)
      ensures stamp == StampAt(t, Offset(zone, t))
    {
      assert stamp.day == (stamp.day * 24 + stamp.hour) / 24;
    }
  }

  // On full local hours a suffix fixes the instant up to the dropped seconds of
  // the offset: two instants share it only if they differ by what their offsets
  // differ, by less than a minute.
  lemma StampDetermines(t: int, offset: int, t': int, offset': int)
    requires OnHour(t, offset) && OnHour(t', offset')
    requires StampAt(t, offset) == StampAt(t', offset')
    ensures t - t' == offset' - offset
    ensures -60 < t - t' < 60
    ensures offset % 60 == 0 && offset' % 60 == 0 ==> t == t'
  {
    var local, local' := t + offset, t' + offset';
    LocalHour(local);
    LocalHour(local');
  }

  lemma LocalHour(local: int)
    requires local % 3600 == 0
    ensures local == local / 86400 * 86400 + local / 3600 % 24 * 3600
  {
    var hours := local / 3600;
    assert local == hours * 3600;
    assert local / 86400 == hours / 24;
  }

  // The hour that repeats when clocks go back gets two suffixes.
  lemma RepeatedHourStampsDiffer(t: int, offset: int)
    requires OnHour(t, offset) && offset % 60 == 0
    ensures StampAt(t, offset) != StampAt(t + INTERVAL, offset - INTERVAL)
    ensures StampAt(t, offset).day == StampAt(t + INTERVAL, offset - INTERVAL).day
    ensures StampAt(t, offset).hour == StampAt(t + INTERVAL, offset - INTERVAL).hour
  {
    if StampAt(t, offset) == StampAt(t + INTERVAL, offset - INTERVAL) {
      StampDetermines(t, offset, t + INTERVAL, offset - INTERVAL);
    }
  }

  // With offsets that are not whole minutes, distinct hours can share a suffix.
  lemma SecondsOfOffsetAreLost()
    ensures OnHour(-1, 1) && OnHour(0, 0) && StampAt(-1, 1) == StampAt(0, 0)
  {
  }
}
