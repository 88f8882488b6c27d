// Hours of a local zone whose offsets are whole minutes and shift by whole
// hours: they lie on one grid, and an archive name fixes its hour.
module LocalHours {
  import opened LogClock
  import opened LogRotation

  // Offsets are whole minutes and change by whole hours only.
  ghost predicate RegularZone(zone: Zone) {
    && (forall t :: Offset(zone, t) % 60 == 0)
    && (forall t, t' :: (Offset(zone, t) - Offset(zone, t')) % 3600 == 0)
  }

  ghost predicate LocalHourAt(zone: Zone, hour: int) {
    OnHour(hour, Offset(zone, hour))
  }

  // The start of the hour an instant belongs to.
  function HourOf(zone: Zone, t: int): int {
    ComputeRollover(zone, t) - INTERVAL
  }

  // The name an archive has for that hour.
  function StampOf(zone: Zone, t: int): Stamp {
    ArchiveStamp(zone, ComputeRollover(zone, t))
  }

  lemma HourUnderBothOffsets(r: int, a: int, b: int)
    requires OnHour(r, a) && (b - a) % 3600 == 0
    ensures OnHour(r - INTERVAL, b)
  {
    var k, m := (r + a) / 3600, (b - a) / 3600;
    assert r - INTERVAL + b == 3600 * (k + m - 1);
  }

  lemma HourLaw(zone: Zone, t: int)
    requires RegularZone(zone)
    ensures HourOf(zone, t) <= t < HourOf(zone, t) + INTERVAL && LocalHourAt(zone, HourOf(zone, t))
  {
    RolloverIsNextHour(zone, t);
    var r := ComputeRollover(zone, t);
    var hour := r - INTERVAL;
    assert (Offset(zone, hour) - Offset(zone, t)) % 3600 == 0;
    HourUnderBothOffsets(r, Offset(zone, t), Offset(zone, hour));
  }

  // Hours lie on one grid: an earlier hour ends before the hour of `t` begins.
  lemma HourLater(zone: Zone, hour: int, t: int)
    requires RegularZone(zone) && LocalHourAt(zone, hour)
    ensures hour + INTERVAL <= t ==> hour + INTERVAL <= HourOf(zone, t)
    ensures hour <= t < hour + INTERVAL ==> HourOf(zone, t) == hour
  {
    RolloverIsNextHour(zone, t);
    var r := ComputeRollover(zone, t);
    var offset, other := Offset(zone, t), Offset(zone, hour);
    assert (offset - other) % 3600 == 0;
    var a, b, m := (r + offset) / 3600, (hour + other) / 3600, (offset - other) / 3600;
    assert r + offset == 3600 * a && hour + other == 3600 * b && offset - other == 3600 * m;
    assert r - hour == 3600 * (a - b - m);
  }

  lemma StampFixesHour(zone: Zone, a: int, b: int)
    requires RegularZone(zone) && LocalHourAt(zone, a) && LocalHourAt(zone, b)
    requires StampAt(a, Offset(zone, a)) == StampAt(b, Offset(zone, b))
    ensures a == b
  {
    StampDetermines(a, Offset(zone, a), b, Offset(zone, b));
  }

  lemma HourMonotone(zone: Zone, a: int, b: int)
    requires RegularZone(zone) && a <= b
    ensures HourOf(zone, a) <= HourOf(zone, b)
  {
    HourLaw(zone, a);
    HourLater(zone, HourOf(zone, a), b);
  }
}
