/** Shift bucketing and the daily roll-up of `src/api/attendance_controller.cpp`.

    Times are epoch seconds.  Local time is a fixed offset `zone` from it with days of 86400
    seconds, so `localtime` and `mktime` are arithmetic. */
module Attendance {
  import opened Common

  // ----- HH:MM -----

  predicate IsDigit(c: char) { '0' <= c <= '9' }

  function Digit(c: char): int { c as int - '0' as int }

  predicate IsValidHm(s: string) {
    && |s| == 5 && s[2] == ':'
    && IsDigit(s[0]) && IsDigit(s[1]) && IsDigit(s[3]) && IsDigit(s[4])
    && Digit(s[0]) * 10 + Digit(s[1]) <= 23 && Digit(s[3]) * 10 + Digit(s[4]) <= 59
  }

  function HmToMinutes(s: string): int
    requires IsValidHm(s)
  {
    (Digit(s[0]) * 10 + Digit(s[1])) * 60 + (Digit(s[3]) * 10 + Digit(s[4]))
  }

  function DigitChar(d: int): char
    requires 0 <= d <= 9
  {
    ('0' as int + d) as char
  }

  function FormatHm(minutes: int): string
    requires 0 <= minutes < 1440
  {
    var h, m := minutes / 60, minutes % 60;
    [DigitChar(h / 10), DigitChar(h % 10), ':', DigitChar(m / 10), DigitChar(m % 10)]
  }

  /** The strict format is canonical: valid strings and minutes of the day correspond one to one. */
  lemma HmRoundTrip(s: string, minutes: int)
    requires 0 <= minutes < 1440
    ensures IsValidHm(s) ==> 0 <= HmToMinutes(s) < 1440 && FormatHm(HmToMinutes(s)) == s
    ensures IsValidHm(FormatHm(minutes)) && HmToMinutes(FormatHm(minutes)) == minutes
  {
    if IsValidHm(s) {
      var h, m := Digit(s[0]) * 10 + Digit(s[1]), Digit(s[3]) * 10 + Digit(s[4]);
      assert HmToMinutes(s) / 60 == h && HmToMinutes(s) % 60 == m;
      assert h / 10 == Digit(s[0]) && h % 10 == Digit(s[1]);
      assert m / 10 == Digit(s[3]) && m % 10 == Digit(s[4]);
    }
  }

  // ----- the day a punch belongs to -----

  predicate IsMidnight(t: int, zone: int) { (t + zone) % 86400 == 0 }

  function CalendarMidnight(ts: int, zone: int): int { ts - (ts + zone) % 86400 }

  predicate Overnight(hasShift: bool, start: int, end: int) {
    hasShift && start > end && start >= 0 && end >= 0
  }

  /** The middle of the off-duty window of an overnight shift, in minutes. */
  function OffDutyMidpoint(start: int, end: int): int
    requires start > end
  {
    end + (start - end) / 2
  }

  /** `shiftDateMidnight`. */
  function ShiftDate(ts: int, zone: int, hasShift: bool, start: int, end: int): int {
    var minuteOfDay := (ts + zone) % 86400 / 60;
    if Overnight(hasShift, start, end) && minuteOfDay < OffDutyMidpoint(start, end)
    then CalendarMidnight(ts, zone) - 86400
    else CalendarMidnight(ts, zone)
  }

  /** Every punch falls in the day-long stretch that starts, on its shift date, at the
      midpoint of the off-duty window (or at midnight), so the stretches tile the time line
      and bucketed minutes are never negative. */
  lemma ShiftDayTiles(ts: int, zone: int, hasShift: bool, start: int, end: int, date: int)
    requires start < 1440 && IsMidnight(date, zone)
    ensures var from := if Overnight(hasShift, start, end) then OffDutyMidpoint(start, end) * 60 else 0;
            ShiftDate(ts, zone, hasShift, start, end) == date <==> date + from <= ts < date + 86400 + from
    ensures IsMidnight(ShiftDate(ts, zone, hasShift, start, end), zone)
    ensures ShiftDate(ts, zone, hasShift, start, end) <= ts
  {
    ShiftDateIsMidnight(ts, zone, hasShift, start, end);
    var second := (ts + zone) % 86400;
    var n, k := (ts + zone) / 86400, (date + zone) / 86400;
    assert ts + zone == n * 86400 + second && date + zone == k * 86400;
    if Overnight(hasShift, start, end) {
      assert second / 60 < OffDutyMidpoint(start, end) <==> second < OffDutyMidpoint(start, end) * 60;
    }
  }

  lemma ShiftDateIsMidnight(ts: int, zone: int, hasShift: bool, start: int, end: int)
    ensures IsMidnight(ShiftDate(ts, zone, hasShift, start, end), zone)
  {
    var calendar := CalendarMidnight(ts, zone);
    assert calendar + zone == (ts + zone) / 86400 * 86400;
  }

  // ----- which day's roll-up counts a punch -----

  predicate InWindow(ts: int, dayStart: int) {
    dayStart - 12 * 3600 <= ts < dayStart + 36 * 3600
  }

  /** The query window and the filter of the aggregation loop together. */
  predicate CountedOn(ts: int, zone: int, hasShift: bool, start: int, end: int, dayStart: int) {
    InWindow(ts, dayStart) && ShiftDate(ts, zone, hasShift, start, end) == dayStart
  }

  /** No punch is counted on two days. */
  lemma CountedAtMostOnce(ts: int, zone: int, hasShift: bool, start: int, end: int, d1: int, d2: int)
    requires CountedOn(ts, zone, hasShift, start, end, d1) && CountedOn(ts, zone, hasShift, start, end, d2)
    ensures d1 == d2
  {
  }

  /** The punches counted on no day are exactly those of an overnight shift from 36 hours
      after their shift date on, up to the midpoint of the following day. */
  lemma UncountedExactly(ts: int, zone: int, hasShift: bool, start: int, end: int)
    requires start < 1440
    ensures var date := ShiftDate(ts, zone, hasShift, start, end);
            !CountedSomeDay(ts, zone, hasShift, start, end)
            <==> Overnight(hasShift, start, end)
                 && date + 36 * 3600 <= ts < date + 86400 + OffDutyMidpoint(start, end) * 60
  {
    var date := ShiftDate(ts, zone, hasShift, start, end);
    ShiftDateIsMidnight(ts, zone, hasShift, start, end);
    ShiftDayTiles(ts, zone, hasShift, start, end, date);
    if InWindow(ts, date) {
      assert CountedOn(ts, zone, hasShift, start, end, date);
    }
  }

  ghost predicate CountedSomeDay(ts: int, zone: int, hasShift: bool, start: int, end: int) {
    exists d :: IsMidnight(d, zone) && CountedOn(ts, zone, hasShift, start, end, d)
  }

  ghost predicate EveryPunchCounted(zone: int, hasShift: bool, start: int, end: int) {
    forall ts :: CountedSomeDay(ts, zone, hasShift, start, end)
  }

  /** The query window is wide enough for a shift exactly when the shift is no overnight one
      or its off-duty midpoint is at noon or earlier.  (22:00 to 06:00 has 14:00.) */
  lemma EveryPunchCountedIff(zone: int, hasShift: bool, start: int, end: int)
    requires start < 1440
    ensures EveryPunchCounted(zone, hasShift, start, end)
            <==> !Overnight(hasShift, start, end) || OffDutyMidpoint(start, end) <= 720
  {
    if !Overnight(hasShift, start, end) || OffDutyMidpoint(start, end) <= 720 {
      forall ts ensures CountedSomeDay(ts, zone, hasShift, start, end) {
        UncountedExactly(ts, zone, hasShift, start, end);
      }
    } else {
      var ts := -zone + 36 * 3600;
      assert IsMidnight(-zone, zone);
      ShiftDayTiles(ts, zone, hasShift, start, end, -zone);
      UncountedExactly(ts, zone, hasShift, start, end);
      assert !CountedSomeDay(ts, zone, hasShift, start, end);
    }
  }

  // ----- late and overtime minutes -----

  /** Division as in C++, towards zero. */
  function TruncDiv(a: int, b: int): int
    requires b > 0
  {
    if a >= 0 then a / b else -((-a) / b)
  }

  function LateMinutes(checkIn: int, date: int, start: int, grace: int): int {
    var delta := TruncDiv(checkIn - date, 60) - start - grace;
    if delta <= 0 then 0 else delta
  }

  function OvertimeDelta(checkOut: int, date: int, start: int, end: int, otGrace: int): int {
    TruncDiv(checkOut - date, 60) - (if start > end then end + 1440 else end) - otGrace
  }

  function OvertimeMinutes(checkOut: int, date: int, start: int, end: int, otGrace: int, otMin: int, otMax: int): int {
    if checkOut <= 0 then 0
    else
      var delta := OvertimeDelta(checkOut, date, start, end, otGrace);
      if delta <= 0 then 0
      else if delta < otMin then 0
      else if otMax > 0 && delta > otMax then otMax
      else delta
  }

  lemma TruncDivMonotone(a: int, b: int)
    requires a <= b
    ensures TruncDiv(a, 60) <= TruncDiv(b, 60)
  {
  }

  /** Later punches are never less late and never earn less overtime. */
  lemma MinutesAreMonotone(t1: int, t2: int, date: int, start: int, end: int, grace: int,
                           otGrace: int, otMin: int, otMax: int)
    requires t1 <= t2
    ensures LateMinutes(t1, date, start, grace) <= LateMinutes(t2, date, start, grace)
    ensures OvertimeMinutes(t1, date, start, end, otGrace, otMin, otMax)
            <= OvertimeMinutes(t2, date, start, end, otGrace, otMin, otMax)
  {
    TruncDivMonotone(t1 - date, t2 - date);
  }

  /** Late means checking in a whole minute or more past start plus grace. */
  lemma LateMeaning(checkIn: int, date: int, start: int, grace: int)
    requires date <= checkIn
    ensures LateMinutes(checkIn, date, start, grace) >= 0
    ensures LateMinutes(checkIn, date, start, grace) > 0 <==> checkIn >= date + (start + grace + 1) * 60
    ensures LateMinutes(checkIn, date, start, grace) > 0 ==>
        var due := date + (start + grace) * 60;
        due + LateMinutes(checkIn, date, start, grace) * 60 <= checkIn
        < due + (LateMinutes(checkIn, date, start, grace) + 1) * 60
  {
  }

  /** Overtime is earned exactly when the last punch is past the shift's end by the grace and
      by the minimum; nothing asks for a second punch. */
  lemma OvertimePositiveIff(checkOut: int, date: int, start: int, end: int, otGrace: int, otMin: int, otMax: int)
    requires checkOut > 0 && date <= checkOut
    ensures OvertimeMinutes(checkOut, date, start, end, otGrace, otMin, otMax) > 0
            <==> checkOut >= date + ((if start > end then end + 1440 else end) + otGrace
                                     + (if otMin > 1 then otMin else 1)) * 60
  {
  }

  /** Overtime counts the whole minutes past shift end and grace, up to a positive maximum. */
  lemma OvertimeMeaning(checkOut: int, date: int, start: int, end: int, otGrace: int, otMin: int, otMax: int)
    requires date <= checkOut
    ensures checkOut <= 0 ==> OvertimeMinutes(checkOut, date, start, end, otGrace, otMin, otMax) == 0
    ensures var ot := OvertimeMinutes(checkOut, date, start, end, otGrace, otMin, otMax);
            var due := date + ((if start > end then end + 1440 else end) + otGrace) * 60;
            && ot >= 0 && (otMax > 0 ==> ot <= otMax)
            && (ot > 0 ==> due + ot * 60 <= checkOut && (checkOut < due + (ot + 1) * 60 || ot == otMax))
  {
  }

  /** Whatever `ot_max` allows, overnight overtime stops at the bucket's edge, and what the
      query can see of it stops 36 hours after the shift date. */
  lemma OvernightOvertimeBound(checkOut: int, zone: int, start: int, end: int, otGrace: int, otMin: int, otMax: int)
    requires 0 <= end < start < 1440
    ensures var date := ShiftDate(checkOut, zone, true, start, end);
            var ot := OvertimeMinutes(checkOut, date, start, end, otGrace, otMin, otMax);
            && (ot > 0 ==> ot <= (start - end) / 2 - 1 - otGrace)
            && (ot > 0 && InWindow(checkOut, date) ==> ot <= 719 - end - otGrace)
  {
    var date := ShiftDate(checkOut, zone, true, start, end);
    ShiftDateIsMidnight(checkOut, zone, true, start, end);
    ShiftDayTiles(checkOut, zone, true, start, end, date);
  }

  /** Both bounds are reached, by the last second of the bucket or of the window. */
  lemma OvernightOvertimeBoundReached(date: int, zone: int, start: int, end: int, otGrace: int) returns (checkOut: int)
    requires 0 <= end < start < 1440 && date >= 0 && IsMidnight(date, zone) && otGrace >= 0
    requires otGrace < (start - end) / 2 - 1 && otGrace < 719 - end
    ensures CountedOn(checkOut, zone, true, start, end, date)
    ensures OvertimeMinutes(checkOut, date, start, end, otGrace, 0, 0)
            == if OffDutyMidpoint(start, end) <= 720 then (start - end) / 2 - 1 - otGrace else 719 - end - otGrace
  {
    var mid := OffDutyMidpoint(start, end);
    checkOut := date + 86400 + (if mid <= 720 then mid else 720) * 60 - 1;
    ShiftDayTiles(checkOut, zone, true, start, end, date);
  }
}
