/** The 06:00 KST day boundary, as the reservation window, the chat day and the statistics day each compute it.
    Seoul keeps one fixed offset, +09:00. Dafny's division floors for a positive divisor, as the calendar does. */
module PlayDay {
  import opened Common

  const KST := 9 * HOUR
  const DAY_START := 6 * HOUR
  const LEAD_TIME := 10 * MINUTE

  /** Midnight, on the wall clock, of the day a wall-clock instant falls in. */
  function Midnight(wall: int): int { wall / DAY * DAY }

  // -- reservation: the next 06:00 KST ------------------------------------------

  function WindowEnd(now: int): int {
    var wall := now + KST;
    var end := Midnight(wall) + DAY_START;
    (if wall >= end then end + DAY else end) - KST
  }

  // -- chat: the last 06:00 KST, at or before now ------------------------------

  function DayStart(now: int): int {
    var wall := now + KST;
    var start := Midnight(wall) + DAY_START;
    (if wall < start then start - DAY else start) - KST
  }

  function HistoryStart(now: int): int { DayStart(now) - DAY }

  // -- history: a plain calendar date in a zone three hours behind Seoul's morning --

  const STAT_ZONE := KST - DAY_START

  function StatDay(moment: int): int { (moment + STAT_ZONE) / DAY }

  function StatDayStart(day: int): int { day * DAY - STAT_ZONE }

  // -- Choosing a start by time of day -------------------------------------------

  datatype StartRefusal = TooSoon | PastDawn

  /** The instant a wall-clock KST time of day denotes, if it can be reserved now. */
  function StartAtFrom(timeOfDay: int, now: int): Result<int, StartRefusal> {
    var today := Midnight(now + KST) + timeOfDay - KST;
    var startAt := if today < now then today + DAY else today;
    if startAt < now + LEAD_TIME then Err(TooSoon)
    else if startAt >= WindowEnd(now) then Err(PastDawn)
    else Ok(startAt)
  }

  // -- What the three agree on -----------------------------------------------------

  ghost predicate IsDawn(t: int) { (t + KST) % DAY == DAY_START }

  /** The three formulas name one boundary: the last 06:00 KST at or before now, and the first one after it. */
  lemma BoundariesAgree(now: int)
    ensures WindowEnd(now) == DayStart(now) + DAY
    ensures StatDayStart(StatDay(now)) == DayStart(now)
    ensures IsDawn(DayStart(now)) && DayStart(now) <= now < WindowEnd(now)
    ensures forall t | IsDawn(t) && t <= now :: t <= DayStart(now)
    ensures forall t | IsDawn(t) && t > now :: t >= WindowEnd(now)
  {
    var d := StatDay(now);
    assert DayStart(now) == d * DAY - STAT_ZONE by { DayStartByDay(now); }
    assert IsDawn(DayStart(now)) by { DawnAt(d); }
    forall t | IsDawn(t)
      ensures t <= now ==> t <= DayStart(now)
      ensures t > now ==> t >= DayStart(now) + DAY
    {
      var k := (t + KST) / DAY;
      assert t == k * DAY - STAT_ZONE;
    }
  }

  lemma DayStartByDay(now: int)
    ensures DayStart(now) == StatDay(now) * DAY - STAT_ZONE
    ensures WindowEnd(now) == (StatDay(now) + 1) * DAY - STAT_ZONE
  {
    var w := (now + KST) / DAY;
    var d := (now + STAT_ZONE) / DAY;
    assert w * DAY <= now + KST < w * DAY + DAY;
    assert d * DAY <= now + STAT_ZONE < d * DAY + DAY;
    if now + KST < w * DAY + DAY_START {
      assert d == w - 1;
    } else {
      assert d == w;
    }
  }

  lemma DawnAt(day: int)
    ensures IsDawn(StatDayStart(day))
    ensures StatDay(StatDayStart(day)) == day
  {
    assert StatDayStart(day) + KST == day * DAY + DAY_START;
  }

  /** The reservation window only moves forward, by whole days. */
  lemma WindowEndMonotone(earlier: int, later: int)
    requires earlier <= later
    ensures WindowEnd(earlier) <= WindowEnd(later)
  {
    DayStartByDay(earlier);
    DayStartByDay(later);
  }

  ghost predicate HasTimeOfDay(t: int, timeOfDay: int) { (t + KST) % DAY == timeOfDay }

  lemma OccurrenceOn(day: int, timeOfDay: int)
    requires 0 <= timeOfDay < DAY
    ensures HasTimeOfDay(day * DAY + timeOfDay - KST, timeOfDay)
  {
  }

  lemma OccursOnSomeDay(t: int, timeOfDay: int) returns (day: int)
    requires HasTimeOfDay(t, timeOfDay)
    ensures t == day * DAY + timeOfDay - KST
  {
    day := (t + KST) / DAY;
  }

  lemma OccursOnceADay(timeOfDay: int, first: int, second: int)
    requires HasTimeOfDay(first, timeOfDay) && HasTimeOfDay(second, timeOfDay) && first <= second < first + DAY
    ensures first == second
  {
    var j := OccursOnSomeDay(first, timeOfDay);
    var k := OccursOnSomeDay(second, timeOfDay);
  }

  /** Today's occurrence, moved to tomorrow once it has passed. */
  function NextAt(timeOfDay: int, now: int): int {
    var today := Midnight(now + KST) + timeOfDay - KST;
    if today < now then today + DAY else today
  }

  /** The next occurrence always exists, within a day. */
  lemma NextOccurrenceExists(timeOfDay: int, now: int)
    requires 0 <= timeOfDay < DAY
    ensures HasTimeOfDay(NextAt(timeOfDay, now), timeOfDay) && now <= NextAt(timeOfDay, now) < now + DAY
    ensures forall t | HasTimeOfDay(t, timeOfDay) && now <= t :: NextAt(timeOfDay, now) <= t
  {
    var w := (now + KST) / DAY;
    OccurrenceOn(w, timeOfDay);
    OccurrenceOn(w + 1, timeOfDay);
    forall t | HasTimeOfDay(t, timeOfDay) && now <= t ensures NextAt(timeOfDay, now) <= t {
      var k := OccursOnSomeDay(t, timeOfDay);
    }
  }

  /** A chosen time of day means its first occurrence from now on, and is accepted exactly when that
      instant lies between ten minutes from now and the next dawn. */
  lemma StartAtFromIsNextOccurrence(timeOfDay: int, now: int, next: int)
    requires 0 <= timeOfDay < DAY
    requires HasTimeOfDay(next, timeOfDay) && now <= next
    requires forall t | HasTimeOfDay(t, timeOfDay) && now <= t :: next <= t
    ensures StartAtFrom(timeOfDay, now).Ok? <==> now + 10 * MINUTE <= next < WindowEnd(now)
    ensures StartAtFrom(timeOfDay, now).Ok? ==> StartAtFrom(timeOfDay, now).value == next
    ensures StartAtFrom(timeOfDay, now) == Err(TooSoon) <==> next < now + 10 * MINUTE
  {
    NextOccurrenceExists(timeOfDay, now);
    assert next == NextAt(timeOfDay, now);
  }

  /** What a snapshot shows begins at the dawn before the last one, so it reaches back at least a day. */
  lemma HistoryReachesBackADay(now: int)
    ensures IsDawn(HistoryStart(now)) && now - 2 * DAY < HistoryStart(now) <= now - DAY
    ensures forall t | IsDawn(t) && t <= now :: t <= HistoryStart(now) || t == HistoryStart(now) + DAY
  {
    DayStartByDay(now);
    BoundariesAgree(now);
    DawnAt(StatDay(now) - 1);
    forall t | IsDawn(t) && t <= now ensures t <= HistoryStart(now) || t == HistoryStart(now) + DAY {
      var k := (t + KST) / DAY;
      assert t == k * DAY - STAT_ZONE;
    }
  }

  /** A dawn is nine in the evening, UTC. */
  lemma DawnInUtc(t: int)
    ensures IsDawn(t) <==> t % DAY == 21 * HOUR
  {
    var q := t / DAY;
    assert t == q * DAY + t % DAY;
    if t % DAY >= 15 * HOUR {
      assert t + KST == (q + 1) * DAY + (t % DAY - 15 * HOUR);
    } else {
      assert t + KST == q * DAY + (t % DAY + 9 * HOUR);
    }
  }
}
