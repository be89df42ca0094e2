/** The school-calendar handler (`api/calendar.js`): the week or month
    around the current day, the NEIS schedule of that range, and the reply
    text. The current day is an input. */
module ApiCalendar {
  import opened Wrappers
  import opened Text
  import opened Seqs
  import opened Js
  import opened Calendar
  import opened DateUtil
  import opened ResponseBuilder
  import opened ApiCommon
  import LibNeis

  /** `ymd(date)`: the year as `String` gives it, then month and day padded
      to two digits. */
  function Ymd(d: Day): string {
    IntToString(d.year) + Pad2(d.month) + Pad2(d.day)
  }

  /** For four-digit years `ymd` is the NEIS day key, so it reads back as
      the day. */
  lemma YmdIsNeisKey(d: Day)
    requires 1000 <= d.year <= 9999
    ensures Ymd(d) == Compact(d)
    ensures |Ymd(d)| == 8 && DecimalValue(Ymd(d)[..4]) == d.year
    ensures DecimalValue(Ymd(d)[4..6]) == d.month && DecimalValue(Ymd(d)[6..]) == d.day
  {
    var y := NatToString(d.year);
    DecimalBound(y);
    assert Year4(d.year) == y;
  }

  /** `body?.action?.params?.range || "week"`: month mode only for exactly
      "month". */
  predicate MonthMode(body: Value) {
    Or(Param(body, "range"), Str("week")) == Str("month")
  }

  lemma MonthModeOnlyForMonth(body: Value)
    ensures MonthMode(body) <==> Param(body, "range") == Str("month")
  {
  }

  /** `start.setDate(now.getDate() - ((day + 6) % 7))`: back to the Monday,
      six days back from a Sunday. */
  function WeekStart(now: Day): (r: Day)
    ensures Weekday(r) == 1
    ensures Ordinal(now) - 6 <= Ordinal(r) <= Ordinal(now)
    ensures Ordinal(now) - Ordinal(r) == if Weekday(now) == 0 then 6 else Weekday(now) - 1
  {
    var w := Weekday(now);
    var back: int := DaysBackToMonday(w);
    var r := AddDays(now, -back);
    assert Weekday(r) == 1 by {
      WeekdayShift(now, -back);
      MondayResidue(w + -back);
    }
    r
  }

  /** Going back to the Monday leaves one more than a multiple of seven. */
  lemma MondayResidue(x: int)
    requires x == 1 || x == -6
    ensures x % 7 == 1
  {
  }

  /** `(day + 6) % 7`: six for a Sunday, one less than the weekday
      otherwise. */
  function DaysBackToMonday(day: nat): (r: nat)
    requires day < 7
    ensures r == if day == 0 then 6 else day - 1
  {
    assert day != 0 ==> day + 6 == 7 + (day - 1);
    (day + 6) % 7
  }

  /** The Monday agrees with `ToMonday` except on a Sunday, where the
      handler goes back and `ToMonday` goes forward. */
  lemma WeekStartVersusToMonday(now: Day)
    ensures Weekday(now) != 0 <==> WeekStart(now) == ToMonday(now)
    ensures Weekday(now) == 0 ==> Ordinal(ToMonday(now)) - Ordinal(WeekStart(now)) == 7
  {
    if Weekday(now) != 0 {
      OrdinalInjective(WeekStart(now), ToMonday(now));
    }
  }

  /** The evidently intended end: the Sunday six days after the Monday. */
  function WeekEnd(now: Day): (r: Day)
    ensures Weekday(r) == 0
    ensures Ordinal(r) == Ordinal(WeekStart(now)) + 6
    ensures DayLe(now, r)
  {
    var monday := WeekStart(now);
    var r := AddDays(monday, 6);
    assert Weekday(r) == 0 by {
      WeekdayShift(monday, 6);
      assert (1 + 6) % 7 == 0;
    }
    r
  }

  /** `end.setDate(start.getDate() + 6)` on a copy of the current day, as
      written: the day of the month of the Monday plus six, counted in the
      CURRENT month, overflowing into the next. It is the intended Sunday
      exactly when the Monday lies in the current month, and later
      otherwise. */
  function WeekEndAsWritten(now: Day): (r: Day)
    ensures DayLe(WeekEnd(now), r)
    ensures r == WeekEnd(now) <==> WeekStart(now).year == now.year && WeekStart(now).month == now.month
  {
    var r := AddDays(FirstOfMonth(now), WeekStart(now).day + 6 - 1);
    EndCountedInMonth(now, r);
    r
  }

  lemma EndCountedInMonth(now: Day, r: Day)
    requires Ordinal(r) == Ordinal(FirstOfMonth(now)) + WeekStart(now).day + 5
    ensures DayLe(WeekEnd(now), r)
    ensures r == WeekEnd(now) <==> WeekStart(now).year == now.year && WeekStart(now).month == now.month
  {
    var monday, first := WeekStart(now), FirstOfMonth(now);
    if monday.year == now.year && monday.month == now.month {
      assert Ordinal(monday) == Ordinal(first) + monday.day - 1;
      OrdinalInjective(r, WeekEnd(now));
    } else {
      DayLeIsChronological(monday, now);
      assert Before(monday, first);
      OrdinalOrder(monday, first);
      assert Ordinal(WeekEnd(now)) < Ordinal(r);
    }
  }

  /** Days of spring 2023. */
  const Feb27: Day := Date(2023, 2, 27)
  const Mar1: Day := Date(2023, 3, 1)
  const Mar5: Day := Date(2023, 3, 5)
  const Apr2: Day := Date(2023, 4, 2)

  /** On Wednesday 1 March 2023 the Monday is 27 February, and the end as
      written is 27 + 6 = 33 March, that is 2 April, not 5 March. */
  lemma WeekEndAsWrittenOverflows(now: Day)
    requires now == Mar1
    ensures WeekStart(now) == Feb27
    ensures WeekEnd(now) == Mar5
    ensures WeekEndAsWritten(now) == Apr2
  {
    Spring2023();
    OrdinalInjective(WeekStart(now), Feb27);
    OrdinalInjective(WeekEnd(now), Mar5);
    OrdinalInjective(WeekEndAsWritten(now), Apr2);
  }

  /** The day numbers of the days above. */
  lemma Spring2023()
    ensures Ordinal(Feb27) == 738578 && Ordinal(Mar1) == 738580
    ensures Ordinal(Mar5) == 738584 && Ordinal(Apr2) == 738612
    ensures Weekday(Mar1) == 3
  {
    assert DaysBeforeYear(2023) == 738520;
    assert !IsLeapYear(2023);
    assert DaysBeforeMonth(2023, 3) == 59;
    assert DaysBeforeMonth(2023, 4) == 90;
  }

  /** The range of the query: the whole current month in month mode,
      otherwise from the Monday of the current week to the end as written.
      Either holds the current day. */
  function Range(now: Day, body: Value): (r: (Day, Day))
    ensures MonthMode(body) ==> r == (FirstOfMonth(now), LastOfMonth(now))
    ensures !MonthMode(body) ==> r == (WeekStart(now), WeekEndAsWritten(now))
    ensures DayLe(r.0, now) && DayLe(now, r.1)
  {
    if MonthMode(body) then (FirstOfMonth(now), LastOfMonth(now)) else (WeekStart(now), WeekEndAsWritten(now))
  }

  /** The range with the intended week end: the Monday-to-Sunday week
      holding the current day. */
  function RangeIntended(now: Day, body: Value): (r: (Day, Day))
    ensures MonthMode(body) ==> r == (FirstOfMonth(now), LastOfMonth(now))
    ensures !MonthMode(body) ==> Weekday(r.0) == 1 && Weekday(r.1) == 0 && Ordinal(r.1) - Ordinal(r.0) == 6
    ensures DayLe(r.0, now) && DayLe(now, r.1)
  {
    if MonthMode(body) then (FirstOfMonth(now), LastOfMonth(now)) else (WeekStart(now), WeekEnd(now))
  }

  /** Month mode covers exactly the days of the current month. */
  lemma MonthRangeIsTheMonth(now: Day, d: Day)
    ensures var r := Range(now, Obj(map["action" := Obj(map["params" := Obj(map["range" := Str("month")])])]));
      DayLe(r.0, d) && DayLe(d, r.1) <==> d.year == now.year && d.month == now.month
  {
    var first, last := FirstOfMonth(now), LastOfMonth(now);
    DayLeIsChronological(first, d);
    DayLeIsChronological(d, last);
  }

  /** Week mode covers the seven days from a Monday to a Sunday, the
      current day among them, exactly when that Monday lies in the current
      month; otherwise the range runs past the Sunday. */
  lemma WeekRangeIsTheWeek(now: Day, body: Value)
    requires !MonthMode(body)
    ensures var r := Range(now, body);
      (Weekday(r.1) == 0 && Ordinal(r.1) - Ordinal(r.0) == 6)
        <==> WeekStart(now).year == now.year && WeekStart(now).month == now.month
    ensures var r := Range(now, body);
      Weekday(r.0) == 1 && Ordinal(r.1) - Ordinal(r.0) >= 6
    ensures (Range(now, body) == RangeIntended(now, body))
      <==> WeekStart(now).year == now.year && WeekStart(now).month == now.month
  {
    var r := Range(now, body);
    if Weekday(r.1) == 0 && Ordinal(r.1) - Ordinal(r.0) == 6 {
      OrdinalInjective(r.1, WeekEnd(now));
    }
  }

  const NoEvents := "해당 기간에 학사일정이 없습니다."
  const Failed := "학사일정 조회 중 오류가 발생했습니다."

  /** `${e.date} - ${e.name}` and ` (${e.desc})` when there is a
      description. */
  function EventLine(e: LibNeis.ScheduleItem): (r: string)
    ensures !Truthy(e.desc) ==> r == ToStr(e.date) + " - " + ToStr(e.name)
    ensures Truthy(e.desc) ==> r == ToStr(e.date) + " - " + ToStr(e.name) + " (" + ToStr(e.desc) + ")"
  {
    ToStr(e.date) + " - " + ToStr(e.name) + (if Truthy(e.desc) then " (" + ToStr(e.desc) + ")" else "")
  }

  /** The reply text: one line per event, or the fixed text when there is
      none. */
  function EventsText(events: seq<LibNeis.ScheduleItem>): (r: string)
    ensures |events| == 0 ==> r == NoEvents
    ensures |events| > 0 ==> r == Join(Map(events, EventLine), "\n")
  {
    if |events| == 0 then NoEvents else Join(Map(events, EventLine), "\n")
  }

  /** The reply splits back into one line per event, in order, when no
      field holds a line break. */
  lemma EventLinesReadBack(events: seq<LibNeis.ScheduleItem>)
    requires |events| > 0
    requires forall i :: 0 <= i < |events| ==> '\n' !in EventLine(events[i])
    ensures Split(EventsText(events), '\n') == Map(events, EventLine)
  {
    SplitJoin(Map(events, EventLine), '\n');
  }

  /** `handler`: 405 for anything but POST; otherwise status 200 with the
      events of the range, or the failure text when the request fails. */
  function Handle(cfg: Config, now: Day, req: Request, fetch: string -> Result<LibNeis.HttpResponse>,
                  encode: string -> string): (r: Reply)
    ensures req.verb != "POST" <==> r.MethodNotAllowed?
    ensures req.verb == "POST" ==>
      var range := Range(now, req.body);
      var events := LibNeis.GetSchoolSchedule(fetch, encode, cfg.neisKey, cfg.officeCode, cfg.schoolCode,
                                              Str(Ymd(range.0)), Str(Ymd(range.1)));
      && (events.Failure? ==> r == TextReply(Failed))
      && (events.Success? ==> r == TextReply(EventsText(events.value)))
  {
    if req.verb != "POST" then MethodNotAllowed
    else
      var range := Range(now, req.body);
      match LibNeis.GetSchoolSchedule(fetch, encode, cfg.neisKey, cfg.officeCode, cfg.schoolCode,
                                      Str(Ymd(range.0)), Str(Ymd(range.1)))
      case Failure(_) => TextReply(Failed)
      case Success(events) => TextReply(EventsText(events))
  }
}
