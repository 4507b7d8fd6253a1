/** The aggregation loop of `queryAttendanceForDate`: punches of a day grouped per person,
    with the minutes that the roll-up row reports. */
module AttendanceRollup {
  import opened Common
  import opened Attendance

  datatype Shift = Shift(id: int, name: string, startHm: string, endHm: string, lateThreshold: int, grace: int,
                         otGrace: int, otMin: int, otMax: int)

  /** One joined row of the query; `employeeId` is -1 for a person not attached to one. */
  datatype Punch = Punch(personId: int, employeeId: int, ts: int, code: string, name: string, dept: string,
                         shift: Option<Shift>)

  datatype Key = Key(personId: int, employeeId: int, date: int)

  datatype Agg = Agg(count: nat, minTs: int, maxTs: int, code: string, name: string, dept: string,
                     shift: Option<Shift>)

  predicate HasTimes(p: Punch) {
    p.shift.Some? && IsValidHm(p.shift.value.startHm) && IsValidHm(p.shift.value.endHm)
  }

  function DateOf(p: Punch, zone: int): int {
    if HasTimes(p)
    then ShiftDate(p.ts, zone, true, HmToMinutes(p.shift.value.startHm), HmToMinutes(p.shift.value.endHm))
    else ShiftDate(p.ts, zone, false, -1, -1)
  }

  function KeyOf(p: Punch, zone: int): Key {
    Key(p.personId, p.employeeId, DateOf(p, zone))
  }

  predicate Counted(p: Punch, zone: int, dayStart: int) {
    InWindow(p.ts, dayStart) && DateOf(p, zone) == dayStart
  }

  /** The rows of the table, in timestamp order, that the query selects. */
  function Window(table: seq<Punch>, dayStart: int): seq<Punch> {
    if table == [] then []
    else Window(DropLast(table), dayStart) + if InWindow(Last(table).ts, dayStart) then [Last(table)] else []
  }

  /** The filter of the loop, and the key of a row. */
  predicate Member(p: Punch, zone: int, dayStart: int, key: Key) {
    DateOf(p, zone) == dayStart && KeyOf(p, zone) == key
  }

  /** The rows that belong under one key of the requested day. */
  function Group(rows: seq<Punch>, zone: int, dayStart: int, key: Key): seq<Punch> {
    if rows == [] then []
    else Group(DropLast(rows), zone, dayStart, key) +
         if Member(Last(rows), zone, dayStart, key) then [Last(rows)] else []
  }

  function FirstNonEmpty(old': string, new': string): string { if old' == "" then new' else old' }

  function Fresh(p: Punch): Agg { Agg(1, p.ts, p.ts, p.code, p.name, p.dept, p.shift) }

  function Absorb(a: Agg, p: Punch): Agg {
    Agg(a.count + 1, if p.ts < a.minTs then p.ts else a.minTs, if p.ts > a.maxTs then p.ts else a.maxTs,
        FirstNonEmpty(a.code, p.code), FirstNonEmpty(a.name, p.name), FirstNonEmpty(a.dept, p.dept), p.shift)
  }

  function AggOf(group: seq<Punch>): Agg
    requires group != []
  {
    if |group| == 1 then Fresh(group[0]) else Absorb(AggOf(DropLast(group)), Last(group))
  }

  method QueryDay(table: seq<Punch>, zone: int, dayStart: int) returns (byKey: map<Key, Agg>)
    ensures forall key :: key in byKey <==> Group(Window(table, dayStart), zone, dayStart, key) != []
    ensures forall key :: key in byKey ==> byKey[key] == AggOf(Group(Window(table, dayStart), zone, dayStart, key))
  {
    var rows := Window(table, dayStart);
    byKey := map[];
    for i := 0 to |rows|
      invariant forall key :: key in byKey <==> Group(rows[..i], zone, dayStart, key) != []
      invariant forall key :: key in byKey ==> byKey[key] == AggOf(Group(rows[..i], zone, dayStart, key))
    {
      var p := rows[i];
      var date := DateOf(p, zone);
      forall key { NextGroup(rows, i, zone, dayStart, key); }
      if date != dayStart { continue; }
      var key := Key(p.personId, p.employeeId, date);
      AbsorbNext(Group(rows[..i], zone, dayStart, key), p);
      if key in byKey {
        byKey := byKey[key := Absorb(byKey[key], p)];
      } else {
        byKey := byKey[key := Fresh(p)];
      }
    }
    assert rows[..|rows|] == rows;
  }

  lemma NextGroup(rows: seq<Punch>, i: nat, zone: int, dayStart: int, key: Key)
    requires i < |rows|
    ensures Group(rows[..i + 1], zone, dayStart, key) ==
            if Member(rows[i], zone, dayStart, key) then Group(rows[..i], zone, dayStart, key) + [rows[i]]
            else Group(rows[..i], zone, dayStart, key)
  {
    assert DropLast(rows[..i + 1]) == rows[..i] && Last(rows[..i + 1]) == rows[i];
  }

  lemma AbsorbNext(group: seq<Punch>, p: Punch)
    ensures AggOf(group + [p]) == if group == [] then Fresh(p) else Absorb(AggOf(group), p)
  {
    assert DropLast(group + [p]) == group && Last(group + [p]) == p;
  }

  // ----- what a roll-up entry means -----

  ghost predicate FirstNonEmptyOf(group: seq<Punch>, field: Punch -> string, value: string) {
    if value == "" then forall p :: p in group ==> field(p) == ""
    else exists i :: 0 <= i < |group| && field(group[i]) == value && forall k :: 0 <= k < i ==> field(group[k]) == ""
  }

  lemma FirstNonEmptyExtends(group: seq<Punch>, p: Punch, field: Punch -> string, value: string)
    requires FirstNonEmptyOf(group, field, value)
    ensures FirstNonEmptyOf(group + [p], field, FirstNonEmpty(value, field(p)))
  {
    var longer := group + [p];
    if value != "" {
      var i :| 0 <= i < |group| && field(group[i]) == value && forall k :: 0 <= k < i ==> field(group[k]) == "";
      assert field(longer[i]) == value;
    } else if field(p) != "" {
      assert forall k :: 0 <= k < |group| ==> group[k] in group && field(longer[k]) == "";
      assert longer[|group|] == p;
    }
  }

  /** Count, first and last punch of the group, the first non-empty identity columns, and the
      shift of the latest row. */
  lemma {:induction false} AggMeaning(group: seq<Punch>)
    requires group != []
    ensures var a := AggOf(group);
            && a.count == |group|
            && (exists p :: p in group && p.ts == a.minTs) && (forall p :: p in group ==> a.minTs <= p.ts)
            && (exists p :: p in group && p.ts == a.maxTs) && (forall p :: p in group ==> p.ts <= a.maxTs)
            && a.shift == Last(group).shift
    decreases group
  {
    if |group| > 1 {
      var before := DropLast(group);
      AggMeaning(before);
      assert group == before + [Last(group)];
      assert forall p :: p in group <==> p in before || p == Last(group);
    } else {
      assert group[0] in group;
    }
  }

  lemma {:induction false} AggIdentity(group: seq<Punch>)
    requires group != []
    ensures FirstNonEmptyOf(group, (p: Punch) => p.code, AggOf(group).code)
    ensures FirstNonEmptyOf(group, (p: Punch) => p.name, AggOf(group).name)
    ensures FirstNonEmptyOf(group, (p: Punch) => p.dept, AggOf(group).dept)
    decreases group
  {
    var before := DropLast(group);
    assert group == before + [Last(group)];
    if |group| > 1 {
      AggIdentity(before);
      FirstNonEmptyExtends(before, Last(group), (p: Punch) => p.code, AggOf(before).code);
      FirstNonEmptyExtends(before, Last(group), (p: Punch) => p.name, AggOf(before).name);
      FirstNonEmptyExtends(before, Last(group), (p: Punch) => p.dept, AggOf(before).dept);
    }
  }

  lemma {:induction false} WindowCount(table: seq<Punch>, dayStart: int, p: Punch)
    ensures multiset(Window(table, dayStart))[p] ==
            if dayStart - 43200 <= p.ts < dayStart + 129600 then multiset(table)[p] else 0
    decreases table
  {
    if table != [] {
      var before, last := DropLast(table), Last(table);
      WindowCount(before, dayStart, p);
      assert table == before + [last];
      Appended(before, last, p);
      Appended(Window(before, dayStart), last, p);
      assert Window(table, dayStart) == if InWindow(last.ts, dayStart) then Window(before, dayStart) + [last] else Window(before, dayStart);
    }
  }

  lemma {:induction false} GroupCount(rows: seq<Punch>, zone: int, dayStart: int, key: Key, p: Punch)
    ensures multiset(Group(rows, zone, dayStart, key))[p] == if Member(p, zone, dayStart, key) then multiset(rows)[p] else 0
    decreases rows
  {
    if rows != [] {
      GroupCount(DropLast(rows), zone, dayStart, key, p);
      Appended(DropLast(rows), Last(rows), p);
      assert rows == DropLast(rows) + [Last(rows)];
      Appended(Group(DropLast(rows), zone, dayStart, key), Last(rows), p);
    }
  }

  /** Conservation per row: a table row appears in its own group of its day as often as in the
      table, and in no other group and on no other day. */
  lemma EachRowInOneGroup(table: seq<Punch>, zone: int, dayStart: int, key: Key, p: Punch)
    ensures multiset(Group(Window(table, dayStart), zone, dayStart, key))[p]
            == if Counted(p, zone, dayStart) && key == KeyOf(p, zone) then multiset(table)[p] else 0
  {
    WindowCount(table, dayStart, p);
    GroupCount(Window(table, dayStart), zone, dayStart, key, p);
  }

  lemma Appended(rows: seq<Punch>, last: Punch, p: Punch)
    ensures multiset(rows + [last])[p] == multiset(rows)[p] + if last == p then 1 else 0
    ensures rows + [] == rows
  {
    assert multiset(rows + [last]) == multiset(rows) + multiset{last};
  }

  /** Over all days: a row is found in the roll-up of at most one day, and of exactly one
      unless its shift's midpoint is past noon and it came 36 hours or more after its date. */
  lemma RowOnOneDay(p: Punch, zone: int)
    ensures forall d1, d2 :: Counted(p, zone, d1) && Counted(p, zone, d2) ==> d1 == d2
    ensures (exists d :: IsMidnight(d, zone) && Counted(p, zone, d)) <==> p.ts < DateOf(p, zone) + 36 * 3600
    ensures p.ts >= DateOf(p, zone) + 36 * 3600 ==>
        HasTimes(p) && HmToMinutes(p.shift.value.startHm) > HmToMinutes(p.shift.value.endHm)
        && OffDutyMidpoint(HmToMinutes(p.shift.value.startHm), HmToMinutes(p.shift.value.endHm)) > 720
  {
    var start := if HasTimes(p) then HmToMinutes(p.shift.value.startHm) else -1;
    var end := if HasTimes(p) then HmToMinutes(p.shift.value.endHm) else -1;
    ShiftDateIsMidnight(p.ts, zone, HasTimes(p), start, end);
    if HasTimes(p) {
      HmRoundTrip(p.shift.value.startHm, 0);
    }
    ShiftDayTiles(p.ts, zone, HasTimes(p), start, end, DateOf(p, zone));
    assert p.ts < DateOf(p, zone) + 36 * 3600 ==> Counted(p, zone, DateOf(p, zone));
  }

  /** Which day counts a row.  With a valid overnight shift it is the day whose stretch from one
      off-duty midpoint to the next holds the punch; otherwise the calendar day.  Of an overnight
      stretch the query sees no more than its first 36 hours from midnight. */
  lemma CountedIff(p: Punch, zone: int, day: int)
    requires IsMidnight(day, zone)
    ensures HasTimes(p) ==>
        var start, end := HmToMinutes(p.shift.value.startHm), HmToMinutes(p.shift.value.endHm);
        var mid := end + (start - end) / 2;
        Counted(p, zone, day) <==>
          if start > end then day + mid * 60 <= p.ts < day + 86400 + mid * 60 && p.ts < day + 36 * 3600
          else day <= p.ts < day + 86400
    ensures !HasTimes(p) ==> (Counted(p, zone, day) <==> day <= p.ts < day + 86400)
  {
    if HasTimes(p) {
      HmRoundTrip(p.shift.value.startHm, 0);
      HmRoundTrip(p.shift.value.endHm, 0);
      ShiftDayTiles(p.ts, zone, true, HmToMinutes(p.shift.value.startHm), HmToMinutes(p.shift.value.endHm), day);
    } else {
      ShiftDayTiles(p.ts, zone, false, -1, -1, day);
    }
  }

  /** Two rows counted on a day share an entry exactly when person and employee agree. */
  lemma SameEntryIff(p: Punch, q: Punch, zone: int, day: int)
    requires Counted(p, zone, day) && Counted(q, zone, day)
    ensures KeyOf(p, zone) == KeyOf(q, zone) <==> p.personId == q.personId && p.employeeId == q.employeeId
    ensures KeyOf(p, zone).date == day
  {
  }

  // ----- the reported minutes -----

  datatype Line = Line(late: Option<int>, isLate: Option<bool>, isSevere: Option<bool>, overtime: Option<int>)

  function Report(a: Agg, dayStart: int, isHoliday: bool): Line {
    if isHoliday then Line(None, Some(false), Some(false), None)
    else if a.shift.None? then Line(None, None, None, None)
    else
      var s := a.shift.value;
      var late := if a.minTs > 0 && IsValidHm(s.startHm)
                  then Some(LateMinutes(a.minTs, dayStart, HmToMinutes(s.startHm), s.grace)) else None;
      var overtime := if a.maxTs > 0 && IsValidHm(s.startHm) && IsValidHm(s.endHm)
                      then Some(OvertimeMinutes(a.maxTs, dayStart, HmToMinutes(s.startHm), HmToMinutes(s.endHm),
                                                s.otGrace, s.otMin, s.otMax)) else None;
      Line(late,
           if late.Some? then Some(late.value > 0) else None,
           if late.Some? then Some(late.value >= s.lateThreshold) else None,
           overtime)
  }

  /** A row reports the least lateness and the greatest overtime of any punch of its group;
      on a holiday, or without a shift, it reports neither. */
  lemma ReportIsExtreme(group: seq<Punch>, dayStart: int, isHoliday: bool)
    requires group != [] && forall p :: p in group ==> p.ts > 0
    ensures var line := Report(AggOf(group), dayStart, isHoliday);
            var shift := Last(group).shift;
            && (line.late.Some? <==> !isHoliday && shift.Some? && IsValidHm(shift.value.startHm))
            && (line.overtime.Some? <==> line.late.Some? && IsValidHm(shift.value.endHm))
            && (isHoliday ==> line.isLate == Some(false) && line.isSevere == Some(false))
            && (line.late.Some? ==> line.isLate == Some(line.late.value > 0)
                                    && line.isSevere == Some(line.late.value >= shift.value.lateThreshold))
            && (!isHoliday && line.late.None? ==> line.isLate == None && line.isSevere == None)
            && (line.late.Some? ==>
                  var start := HmToMinutes(shift.value.startHm);
                  && (forall p :: p in group ==> line.late.value <= LateMinutes(p.ts, dayStart, start, shift.value.grace))
                  && (exists p :: p in group && line.late.value == LateMinutes(p.ts, dayStart, start, shift.value.grace)))
  {
    AggMeaning(group);
    var a := AggOf(group);
    var shift := Last(group).shift;
    if !isHoliday && shift.Some? && IsValidHm(shift.value.startHm) {
      forall p | p in group
        ensures LateMinutes(a.minTs, dayStart, HmToMinutes(shift.value.startHm), shift.value.grace)
             <= LateMinutes(p.ts, dayStart, HmToMinutes(shift.value.startHm), shift.value.grace)
      {
        TruncDivMonotone(a.minTs - dayStart, p.ts - dayStart);
      }
    }
  }

  lemma ReportedOvertimeIsGreatest(group: seq<Punch>, dayStart: int)
    requires group != [] && (forall p :: p in group ==> p.ts > 0) && HasTimes(Last(group))
    ensures var s := Last(group).shift.value;
            var overtime := Report(AggOf(group), dayStart, false).overtime;
            var start, end := HmToMinutes(s.startHm), HmToMinutes(s.endHm);
            && overtime.Some?
            && (forall p :: p in group ==>
                  OvertimeMinutes(p.ts, dayStart, start, end, s.otGrace, s.otMin, s.otMax) <= overtime.value)
            && (exists p :: p in group && overtime.value
                  == OvertimeMinutes(p.ts, dayStart, start, end, s.otGrace, s.otMin, s.otMax))
  {
    AggMeaning(group);
    var s := Last(group).shift.value;
    forall p | p in group
      ensures OvertimeMinutes(p.ts, dayStart, HmToMinutes(s.startHm), HmToMinutes(s.endHm), s.otGrace, s.otMin, s.otMax)
           <= OvertimeMinutes(AggOf(group).maxTs, dayStart, HmToMinutes(s.startHm), HmToMinutes(s.endHm), s.otGrace, s.otMin, s.otMax)
    {
      TruncDivMonotone(p.ts - dayStart, AggOf(group).maxTs - dayStart);
    }
  }

  /** On its own day, a single punch earns no overtime if and only if it comes before the end of
      its shift plus the grace plus the minimum, at least one minute; that there is only one
      punch does not matter. */
  lemma SinglePunchOvertimeIff(p: Punch, zone: int)
    requires HasTimes(p) && p.ts > 0
    ensures var s := p.shift.value;
            var start, end := HmToMinutes(s.startHm), HmToMinutes(s.endHm);
            var due := (if start > end then end + 1440 else end) + s.otGrace + (if s.otMin > 1 then s.otMin else 1);
            Report(AggOf([p]), DateOf(p, zone), false).overtime == Some(0) <==> p.ts < DateOf(p, zone) + due * 60
  {
    var s := p.shift.value;
    var start, end := HmToMinutes(s.startHm), HmToMinutes(s.endHm);
    HmRoundTrip(s.startHm, 0);
    ShiftDateIsMidnight(p.ts, zone, true, start, end);
    ShiftDayTiles(p.ts, zone, true, start, end, DateOf(p, zone));
    OvertimePositiveIff(p.ts, DateOf(p, zone), start, end, s.otGrace, s.otMin, s.otMax);
    OvertimeMeaning(p.ts, DateOf(p, zone), start, end, s.otGrace, s.otMin, s.otMax);
  }

  /** One punch is enough for overtime: a single punch three hours past the end of 08:00 to
      17:00 reports 180 minutes. */
  lemma SinglePunchCanEarnOvertime(p: Punch, zone: int) returns (dayStart: int)
    requires p.ts == 86400 + 20 * 3600 - zone && p.ts > 0
    requires p.shift == Some(Shift(1, "day", "08:00", "17:00", 15, 0, 0, 0, 720))
    ensures Counted(p, zone, dayStart) && Report(AggOf([p]), dayStart, false).overtime == Some(180)
  {
    assert IsValidHm("08:00") && HmToMinutes("08:00") == 480;
    assert IsValidHm("17:00") && HmToMinutes("17:00") == 1020;
    dayStart := DateOf(p, zone);
    ShiftDayTiles(p.ts, zone, true, 480, 1020, 86400 - zone);
  }
}
