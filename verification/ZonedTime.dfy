/** Zone arithmetic of packages/date-utils/src/timezone.ts over an abstract offset function. Instants are
    milliseconds since the epoch, offsets whole minutes. */
module ZonedTime {
  const MINUTE := 60000
  const SECOND := 1000

  /** What the formatter knows of a zone: minutes ahead of UTC, at each instant. */
  type Zone = int -> int

  /** The wall clock at an instant, as the number of milliseconds it would be in UTC. */
  function WallClock(zone: Zone, instant: int): int {
    instant + zone(instant) * MINUTE
  }

  /** The wall clock as the formatter gives it, without milliseconds. */
  function ZonedParts(zone: Zone, instant: int): int {
    var w := WallClock(zone, instant);
    w - w % SECOND
  }

  /** The quotient by a minute, rounded to the nearest, halves up. */
  function RoundToMinutes(milliseconds: int): int {
    (milliseconds + MINUTE / 2) / MINUTE
  }

  function ZoneOffsetMinutes(zone: Zone, instant: int): int {
    RoundToMinutes(ZonedParts(zone, instant) - instant)
  }

  /** Rounding makes up for the milliseconds the formatter drops. */
  lemma OffsetIsExact(zone: Zone, instant: int)
    ensures ZoneOffsetMinutes(zone, instant) == zone(instant)
  {
    var o := zone(instant);
    var w := WallClock(zone, instant);
    assert ZonedParts(zone, instant) - instant == o * MINUTE - w % SECOND;
    assert (o * MINUTE - w % SECOND + MINUTE / 2) / MINUTE == o;
  }

  /** The instant whose wall clock is to read naiveUtc: a first guess with the offset at naiveUtc itself, then the
      offset at the guess. */
  function DateFromZonedParts(zone: Zone, naiveUtc: int): int {
    var firstGuess := naiveUtc - ZoneOffsetMinutes(zone, naiveUtc) * MINUTE;
    naiveUtc - ZoneOffsetMinutes(zone, firstGuess) * MINUTE
  }

  /** Around naiveUtc the zone goes from one offset to another at most once, at a given instant. */
  ghost predicate OneTransition(zone: Zone, naiveUtc: int, before: int, after: int, at: int) {
    forall t :: t in [naiveUtc, naiveUtc - before * MINUTE, naiveUtc - after * MINUTE] ==>
      zone(t) == if t < at then before else after
  }

  /** An instant, reached with either offset, at which the clock reads naiveUtc. */
  ghost predicate Exists(zone: Zone, naiveUtc: int, before: int, after: int) {
    || WallClock(zone, naiveUtc - before * MINUTE) == naiveUtc
    || WallClock(zone, naiveUtc - after * MINUTE) == naiveUtc
  }

  /** Any instant at which the clock reads naiveUtc with one of the two offsets is one of the two candidates. */
  lemma OnlyCandidates(zone: Zone, naiveUtc: int, before: int, after: int, instant: int)
    requires WallClock(zone, instant) == naiveUtc && zone(instant) in [before, after]
    ensures Exists(zone, naiveUtc, before, after)
  {
    assert instant == naiveUtc - zone(instant) * MINUTE;
  }

  /** The gap, ahead or behind. */
  function Skip(naiveUtc: int, before: int, after: int, at: int): int {
    if naiveUtc >= at then (after - before) * MINUTE else (before - after) * MINUTE
  }

  /** The result reads exactly naiveUtc if any instant does. If none does, the clocks went forward over it, and the
      result is off by exactly the gap: ahead if naiveUtc, taken as an instant, is at or after the transition,
      behind if before. */
  lemma ExactUnlessSkipped(zone: Zone, naiveUtc: int, before: int, after: int, at: int)
    requires OneTransition(zone, naiveUtc, before, after, at)
    ensures var wall := WallClock(zone, DateFromZonedParts(zone, naiveUtc));
            && (wall == naiveUtc <==> Exists(zone, naiveUtc, before, after))
            && (!Exists(zone, naiveUtc, before, after)
                ==> after > before && wall == naiveUtc + Skip(naiveUtc, before, after, at))
  {
    OffsetIsExact(zone, naiveUtc);
    OffsetIsExact(zone, naiveUtc - before * MINUTE);
    OffsetIsExact(zone, naiveUtc - after * MINUTE);
    var candidates := [naiveUtc, naiveUtc - before * MINUTE, naiveUtc - after * MINUTE];
    assert candidates[0] in candidates && candidates[1] in candidates && candidates[2] in candidates;
  }

  /** When the clock reads naiveUtc twice, the earlier instant is taken before the transition, the later after. */
  lemma RepeatedHour(zone: Zone, naiveUtc: int, before: int, after: int, at: int)
    requires OneTransition(zone, naiveUtc, before, after, at) && before > after
    requires naiveUtc - before * MINUTE < at <= naiveUtc - after * MINUTE
    ensures DateFromZonedParts(zone, naiveUtc) == naiveUtc - (if naiveUtc < at then before else after) * MINUTE
  {
    OffsetIsExact(zone, naiveUtc);
    OffsetIsExact(zone, naiveUtc - before * MINUTE);
    OffsetIsExact(zone, naiveUtc - after * MINUTE);
    var candidates := [naiveUtc, naiveUtc - before * MINUTE, naiveUtc - after * MINUTE];
    assert candidates[0] in candidates && candidates[1] in candidates && candidates[2] in candidates;
  }
}
