/** The Kakao skill endpoint (`src/kakao/skillController.js`): reading the
    date and the period out of the request, turning them into a day range,
    picking the reply by action name, and wrapping it in the response
    envelope. The HMAC signature check is a boolean input. */
module SkillController {
  import opened Wrappers
  import opened Text
  import opened Js
  import opened Calendar
  import opened DateUtil
  import opened ResponseBuilder
  import opened SchoolInfo

  // ------------------------------------------------------ parameter lookup

  /** `extractValue`: the value under the first key whose value is truthy,
      `undefined` when there is none. */
  function ExtractValue(source: Value, keys: seq<string>): (r: Value)
    ensures Truthy(r) <==> exists i :: 0 <= i < |keys| && Truthy(Get(source, keys[i]))
    ensures !Truthy(r) ==> r == Undefined
    ensures Truthy(r) ==> exists i :: 0 <= i < |keys| && r == Get(source, keys[i])
                                      && forall j :: 0 <= j < i ==> !Truthy(Get(source, keys[j]))
  {
    if |keys| == 0 then Undefined
    else if Truthy(Get(source, keys[0])) then Get(source, keys[0])
    else
      var r := ExtractValue(source, keys[1..]);
      assert forall i :: 1 <= i < |keys| ==> keys[i] == keys[1..][i - 1];
      r
  }

  const DateKeys: seq<string> := ["date", "day", "targetDate"]
  const DetailDateKeys: seq<string> := ["date", "sys_date", "targetDate"]

  /** `parseDateParam`: a direct parameter first; otherwise the first
      truthy detail entry, read through `.value` and then `.origin`.
      `None` is the source's `null`. */
  function ParseDateParam(env: Env, action: Value): (r: Option<Day>)
    ensures var direct := ExtractValue(Get(action, "params"), DateKeys);
      Truthy(direct) ==> r == Some(ToZoned(env, Raw(direct)))
    ensures var direct := ExtractValue(Get(action, "params"), DateKeys);
      var detailed := ExtractValue(Get(action, "detailParams"), DetailDateKeys);
      !Truthy(direct) ==>
        && (r.Some? <==> Truthy(Get(detailed, "value")) || Truthy(Get(detailed, "origin")))
        && (Truthy(Get(detailed, "value")) ==> r == Some(ToZoned(env, Raw(Get(detailed, "value")))))
        && (!Truthy(Get(detailed, "value")) && Truthy(Get(detailed, "origin")) ==>
              r == Some(ToZoned(env, Raw(Get(detailed, "origin")))))
  {
    var direct := ExtractValue(Get(action, "params"), DateKeys);
    if Truthy(direct) then Some(ToZoned(env, Raw(direct)))
    else
      var detailed := ExtractValue(Get(action, "detailParams"), DetailDateKeys);
      if Truthy(Get(detailed, "value")) then Some(ToZoned(env, Raw(Get(detailed, "value"))))
      else if Truthy(Get(detailed, "origin")) then Some(ToZoned(env, Raw(Get(detailed, "origin"))))
      else None
  }

  /** A detail entry that is truthy but has neither a `value` nor an
      `origin` stops the search: a later `sys_date` is never looked at and
      no date is found. */
  lemma NoFallThrough(env: Env, params: Value, entry: Value, later: Value)
    requires forall i :: 0 <= i < |DateKeys| ==> !Truthy(Get(params, DateKeys[i]))
    requires Truthy(entry) && !Truthy(Get(entry, "value")) && !Truthy(Get(entry, "origin"))
    ensures ParseDateParam(env, Obj(map["params" := params,
                                        "detailParams" := Obj(map["date" := entry, "sys_date" := later])])) == None
  {
    var action := Obj(map["params" := params, "detailParams" := Obj(map["date" := entry, "sys_date" := later])]);
    assert Get(Get(action, "detailParams"), DetailDateKeys[0]) == entry;
    assert !Truthy(ExtractValue(Get(action, "params"), DateKeys));
  }

  /** The start and the end of an explicit range, each from `params`,
      else from the `.value` of the detail entry. */
  function RangeParam(env: Env, action: Value, key: string): (r: Option<Day>)
    ensures var direct := Get(Get(action, "params"), key);
      var detail := Get(Get(Get(action, "detailParams"), key), "value");
      && (r.Some? <==> Truthy(direct) || Truthy(detail))
      && (Truthy(direct) ==> r == Some(ToZoned(env, Raw(direct))))
      && (!Truthy(direct) && Truthy(detail) ==> r == Some(ToZoned(env, Raw(detail))))
  {
    var direct := ExtractValue(Get(action, "params"), [key]);
    var detail := ExtractValue(Get(action, "detailParams"), [key]);
    if Truthy(direct) then Some(ToZoned(env, Raw(direct)))
    else if Truthy(Get(detail, "value")) then Some(ToZoned(env, Raw(Get(detail, "value"))))
    else None
  }

  /** `parseRangeParams`. */
  function ParseRangeParams(env: Env, action: Value): (r: (Option<Day>, Option<Day>))
    ensures r.0 == RangeParam(env, action, "startDate") && r.1 == RangeParam(env, action, "endDate")
  {
    (RangeParam(env, action, "startDate"), RangeParam(env, action, "endDate"))
  }

  // ------------------------------------------------------ period detection

  /** `utterance.includes(keyword)`: a substring test on text, an element
      test on an array, and a TypeError on anything else. */
  function Includes(utterance: Value, keyword: string): (r: Result<bool>)
    ensures r.Success? <==> utterance.Str? || utterance.Arr?
    ensures utterance.Str? ==> r == Success(Contains(utterance.s, keyword))
    ensures utterance.Arr? ==> r == Success(Str(keyword) in utterance.items)
  {
    match utterance
    case Str(s) => Success(Contains(s, keyword))
    case Arr(items) => Success(Str(keyword) in items)
    case _ => Failure("TypeError: utterance.includes is not a function")
  }

  /** One line of the keyword scan: any of the keywords gives the period. */
  datatype Rule = Rule(keywords: seq<string>, period: string)

  predicate Matches(utterance: Value, rule: Rule) {
    exists k :: 0 <= k < |rule.keywords| && Includes(utterance, rule.keywords[k]) == Success(true)
  }

  /** The keyword scan of `detectPeriod`, in its priority order. */
  const PeriodRules: seq<Rule> := [
    Rule(["다음 주", "다음주"], "nextweek"),
    Rule(["이번 주", "이번주"], "week"),
    Rule(["다음 달", "다음달"], "nextmonth"),
    Rule(["이번 달", "이번달"], "month"),
    Rule(["내일"], "tomorrow"),
    Rule(["모레"], "day2")]

  /** Whether any keyword of a rule occurs, asking in keyword order. */
  function MatchesRule(utterance: Value, keywords: seq<string>): (r: Result<bool>)
    requires |keywords| > 0
    ensures r.Success? <==> utterance.Str? || utterance.Arr?
    ensures r.Success? ==> (r.value <==> Matches(utterance, Rule(keywords, "")))
  {
    var hit :- Includes(utterance, keywords[0]);
    if hit || |keywords| == 1 then Success(hit)
    else
      var rest := MatchesRule(utterance, keywords[1..]);
      assert forall k :: 1 <= k < |keywords| ==> keywords[k] == keywords[1..][k - 1];
      rest
  }

  /** The scan: the period of the first rule that matches, "day" when none
      does. */
  function Scan(utterance: Value, rules: seq<Rule>): (r: Result<string>)
    requires forall i :: 0 <= i < |rules| ==> |rules[i].keywords| > 0
    ensures |rules| > 0 ==> (r.Success? <==> utterance.Str? || utterance.Arr?)
    ensures (utterance.Str? || utterance.Arr?) && (forall i :: 0 <= i < |rules| ==> !Matches(utterance, rules[i])) ==>
              r == Success("day")
    ensures forall i :: 0 <= i < |rules| && Matches(utterance, rules[i])
                        && (forall j :: 0 <= j < i ==> !Matches(utterance, rules[j])) ==>
              r == Success(rules[i].period)
  {
    if |rules| == 0 then Success("day")
    else
      var hit :- MatchesRule(utterance, rules[0].keywords);
      assert hit <==> Matches(utterance, rules[0]);
      if hit then Success(rules[0].period)
      else
        var rest := Scan(utterance, rules[1..]);
        assert forall i :: 1 <= i < |rules| ==> rules[i] == rules[1..][i - 1];
        rest
  }

  /** `params.period || detailParams.period?.value`. */
  function PeriodValue(action: Value): Value {
    Or(ExtractValue(Get(action, "params"), ["period"]),
       Get(ExtractValue(Get(action, "detailParams"), ["period"]), "value"))
  }

  /** `detectPeriod`. */
  function DetectPeriod(action: Value, utterance: Value): (r: Result<string>)
    ensures Truthy(PeriodValue(action)) ==> r == Success(Lower(ToStr(PeriodValue(action))))
    ensures !Truthy(PeriodValue(action)) ==> r == Scan(utterance, PeriodRules)
  {
    var v := PeriodValue(action);
    if Truthy(v) then Success(Lower(ToStr(v))) else Scan(utterance, PeriodRules)
  }

  /** An explicit period wins whatever the utterance says, even when the
      utterance could not be scanned at all. */
  lemma ExplicitPeriodWins(action: Value, u1: Value, u2: Value)
    requires Truthy(PeriodValue(action))
    ensures DetectPeriod(action, u1) == DetectPeriod(action, u2)
    ensures DetectPeriod(action, u1).Success?
  {
  }

  /** A rule with one keyword matches text exactly when the text holds it. */
  lemma MatchesOne(s: string, keyword: string, period: string)
    ensures Matches(Str(s), Rule([keyword], period)) <==> Contains(s, keyword)
  {
    if Contains(s, keyword) {
      assert Includes(Str(s), Rule([keyword], period).keywords[0]) == Success(true);
    }
  }

  /** "다음 주" outranks every other keyword. */
  lemma NextWeekFirst(action: Value, s: string)
    requires !Truthy(PeriodValue(action)) && Contains(s, "다음 주")
    ensures DetectPeriod(action, Str(s)) == Success("nextweek")
  {
    assert Includes(Str(s), PeriodRules[0].keywords[0]) == Success(true);
    assert Matches(Str(s), PeriodRules[0]);
  }

  /** "모레" counts only when no other keyword occurs. */
  lemma DayAfterTomorrowLast(action: Value, s: string)
    requires !Truthy(PeriodValue(action))
    ensures DetectPeriod(action, Str(s)) == Success("day2") <==>
      && Contains(s, "모레")
      && forall i :: 0 <= i < 5 ==> !Matches(Str(s), PeriodRules[i])
  {
    var rules := PeriodRules;
    MatchesOne(s, "모레", "day2");
    assert rules[5] == Rule(["모레"], "day2");
    assert forall i :: 0 <= i < |rules| && i != 5 ==> rules[i].period != "day2";
    ScanGives(Str(s), rules, 5);
  }

  /** A rule whose period no other rule gives, and which is not "day",
      decides the scan exactly when it is the first rule that matches. */
  lemma ScanGives(utterance: Value, rules: seq<Rule>, k: nat)
    requires forall i :: 0 <= i < |rules| ==> |rules[i].keywords| > 0
    requires utterance.Str? || utterance.Arr?
    requires k < |rules| && rules[k].period != "day"
    requires forall i :: 0 <= i < |rules| && i != k ==> rules[i].period != rules[k].period
    ensures Scan(utterance, rules) == Success(rules[k].period) <==>
      Matches(utterance, rules[k]) && forall i :: 0 <= i < k ==> !Matches(utterance, rules[i])
  {
    if exists i :: 0 <= i < |rules| && Matches(utterance, rules[i]) {
      var i := FirstMatch(utterance, rules, 0);
      assert Scan(utterance, rules) == Success(rules[i].period);
      if Matches(utterance, rules[k]) && forall j :: 0 <= j < k ==> !Matches(utterance, rules[j]) {
        assert i == k;
      }
    }
  }

  /** The index of the first matching rule at or after `from`. */
  lemma FirstMatch(utterance: Value, rules: seq<Rule>, from: nat) returns (i: nat)
    requires from <= |rules|
    requires forall j :: 0 <= j < from ==> !Matches(utterance, rules[j])
    requires exists j :: from <= j < |rules| && Matches(utterance, rules[j])
    ensures i < |rules| && Matches(utterance, rules[i]) && forall j :: 0 <= j < i ==> !Matches(utterance, rules[j])
    decreases |rules| - from
  {
    if Matches(utterance, rules[from]) {
      i := from;
    } else {
      i := FirstMatch(utterance, rules, from + 1);
    }
  }

  // -------------------------------------------------------- period ranges

  /** Monday to Sunday of the week that starts on `monday`. */
  function WeekFrom(monday: Day): (r: (Day, Day))
    requires Weekday(monday) == 1
    ensures r.0 == monday && Weekday(r.1) == 0 && Ordinal(r.1) == Ordinal(r.0) + 6
  {
    WeekdayShift(monday, 6);
    (monday, AddDays(monday, 6))
  }

  /** The first to the last day of `d`'s month. */
  function MonthOf(d: Day): (r: (Day, Day))
    ensures r.0.year == d.year && r.0.month == d.month && r.0.day == 1
    ensures r.1.year == d.year && r.1.month == d.month && NextDay(r.1).day == 1
    ensures DayLe(r.0, r.1)
  {
    (FirstOfMonth(d), LastOfMonth(d))
  }

  /** The week after `base`'s week, Monday to Sunday. */
  function NextWeek(base: Day): (r: (Day, Day))
    ensures Weekday(r.0) == 1 && Ordinal(r.0) == Ordinal(ToMonday(base)) + 7
    ensures Weekday(r.1) == 0 && Ordinal(r.1) == Ordinal(r.0) + 6
  {
    var monday := AddDays(ToMonday(base), 7);
    assert Weekday(monday) == 1 by {
      WeekdayShift(ToMonday(base), 7);
      assert (1 + 7) % 7 == 1;
    }
    WeekFrom(monday)
  }

  /** The period names the `switch` handles. */
  predicate KnownPeriod(period: string) {
    || period == "tomorrow" || period == "day2" || period == "week" || period == "nextweek"
    || period == "month" || period == "nextmonth"
  }

  /** The range of a period around the base day (the `switch` of
      `resolveDateRange`). */
  function PeriodRange(base: Day, period: string): (r: (Day, Day))
    ensures DayLe(r.0, r.1)
    ensures period == "tomorrow" ==> Ordinal(r.0) == Ordinal(base) + 1 && r.1 == r.0
    ensures period == "day2" ==> Ordinal(r.0) == Ordinal(base) + 2 && r.1 == r.0
    ensures period == "week" ==> r.0 == ToMonday(base) && Weekday(r.1) == 0 && Ordinal(r.1) == Ordinal(r.0) + 6
    ensures period == "nextweek" ==> r == NextWeek(base)
    ensures period == "month" ==> r == MonthOf(base)
    ensures period == "nextmonth" ==> r == MonthOf(NextDay(LastOfMonth(base)))
    ensures !KnownPeriod(period) ==> r == (base, base)
  {
    if period == "tomorrow" then (AddDays(base, 1), AddDays(base, 1))
    else if period == "day2" then (AddDays(base, 2), AddDays(base, 2))
    else if period == "nextweek" then NextWeek(base)
    else if period == "week" then WeekFrom(ToMonday(base))
    else if period == "nextmonth" then MonthOf(FirstOfNextMonth(base))
    else if period == "month" then MonthOf(base)
    else (base, base)
  }

  /** The week holds its base day, except that a Sunday's week is the one
      that starts the next day. */
  lemma WeekAroundBase(base: Day)
    ensures var r := PeriodRange(base, "week");
      && (Weekday(base) != 0 ==> DayLe(r.0, base) && DayLe(base, r.1))
      && (Weekday(base) == 0 ==> r.0 == NextDay(base) && !DayLe(r.0, base))
  {
  }

  /** The month ranges hold every day of their month and nothing else. */
  lemma MonthCovers(base: Day, d: Day)
    ensures var r := PeriodRange(base, "month");
      DayLe(r.0, d) && DayLe(d, r.1) <==> d.year == base.year && d.month == base.month
  {
    var r := PeriodRange(base, "month");
    DayLeIsChronological(r.0, d);
    DayLeIsChronological(d, r.1);
  }

  // ------------------------------------------------------- date resolution

  /** `resolveDateRange`: an explicit range wins, a start alone is a single
      day, and otherwise the period decides around the base day (the date
      parameter, else today). The only failure is a scan of an utterance
      that is neither text nor an array. */
  function ResolveDateRange(env: Env, action: Value, utterance: Value): (r: Result<(Day, Day)>)
    ensures var (start, end) := ParseRangeParams(env, action);
      && (start.Some? && end.Some? ==> r == Success((start.value, end.value)))
      && (start.Some? && end.None? ==> r == Success((start.value, start.value)))
      && (start.None? ==>
            var base := ParseDateParam(env, action).GetOr(env.today);
            && (r.Failure? <==> DetectPeriod(action, utterance).Failure?)
            && (r.Success? ==> r.value == PeriodRange(base, DetectPeriod(action, utterance).value)))
  {
    var base := ParseDateParam(env, action).GetOr(env.today);
    var (start, end) := ParseRangeParams(env, action);
    if start.Some? && end.Some? then Success((start.value, end.value))
    else if start.Some? then Success((start.value, start.value))
    else
      var period :- DetectPeriod(action, utterance);
      Success(PeriodRange(base, period))
  }

  /** An explicit range is taken as given: an end before the start is
      kept. */
  lemma ReversedRangeKept(env: Env, action: Value)
    requires ParseRangeParams(env, action).0.Some? && ParseRangeParams(env, action).1.Some?
    requires !DayLe(ParseRangeParams(env, action).0.value, ParseRangeParams(env, action).1.value)
    ensures ResolveDateRange(env, action, Undefined).Success?
    ensures var r := ResolveDateRange(env, action, Undefined).value; !DayLe(r.0, r.1)
  {
  }

  /** An end without a start is ignored: the result is what it would be
      with no end at all. */
  lemma EndAloneIgnored(env: Env, action: Value, utterance: Value)
    requires ParseRangeParams(env, action).0.None?
    ensures ResolveDateRange(env, action, utterance).Success? ==>
      DayLe(ResolveDateRange(env, action, utterance).value.0, ResolveDateRange(env, action, utterance).value.1)
  {
  }

  // --------------------------------------------------------------- dispatch

  /** `String(body.action.name || body.intent.name || "help").toLowerCase()`. */
  function ActionName(body: Value): (name: string)
    ensures Truthy(Get(Get(body, "action"), "name")) ==> name == Lower(ToStr(Get(Get(body, "action"), "name")))
    ensures !Truthy(Get(Get(body, "action"), "name")) && Truthy(Get(Get(body, "intent"), "name")) ==>
              name == Lower(ToStr(Get(Get(body, "intent"), "name")))
    ensures !Truthy(Get(Get(body, "action"), "name")) && !Truthy(Get(Get(body, "intent"), "name")) ==>
              name == "help"
  {
    Lower(ToStr(Or(Or(Get(Get(body, "action"), "name"), Get(Get(body, "intent"), "name")), Str("help"))))
  }

  /** `body.userRequest.utterance || ""`. */
  function Utterance(body: Value): (u: Value)
    ensures Truthy(Get(Get(body, "userRequest"), "utterance")) ==> u == Get(Get(body, "userRequest"), "utterance")
    ensures !Truthy(Get(Get(body, "userRequest"), "utterance")) ==> u == Str("")
  {
    Or(Get(Get(body, "userRequest"), "utterance"), Str(""))
  }

  datatype Reply = MealReply | TimetableReply | ScheduleReply | ExamReply | AssessmentReply | HelpReply

  /** The `switch (actionName)` of `handleKakaoSkill`. */
  function Route(name: string): (h: Reply)
    ensures h == MealReply <==> name == "meal" || name == "meal_today"
    ensures h == TimetableReply <==> name == "timetable"
    ensures h == ScheduleReply <==> name == "schedule"
    ensures h == ExamReply <==> name == "exam"
    ensures h == AssessmentReply <==> name == "assessment"
  {
    match name
    case "meal" => MealReply
    case "meal_today" => MealReply
    case "timetable" => TimetableReply
    case "schedule" => ScheduleReply
    case "exam" => ExamReply
    case "assessment" => AssessmentReply
    case _ => HelpReply
  }

  /** A reply builder for a date range. */
  type RangeBuilder = (Env, Sources, Day, Day) -> Result<string>

  /** The dispatch of `handleKakaoSkill`, with the exam and assessment
      builders as parameters: the range is resolved for every action, then
      the routed builder runs. Meal and timetable read only the start. */
  function Dispatch(env: Env, cfg: ClassConfig, src: Sources, body: Value,
                    exam: RangeBuilder, assessment: RangeBuilder): Result<string> {
    var (start, end) :- ResolveDateRange(env, Get(body, "action"), Utterance(body));
    match Route(ActionName(body))
    case MealReply => MealMessage(env, src, start)
    case TimetableReply => TimetableMessage(env, cfg, src, start)
    case ScheduleReply => ScheduleMessage(env, src, start, end)
    case ExamReply => exam(env, src, start, end)
    case AssessmentReply => assessment(env, src, start, end)
    case HelpReply => Success(HelpMessage())
  }

  /** The reply text as the source computes it: the exam and assessment
      replies run the builders whose range filter throws. */
  function SkillText(env: Env, cfg: ClassConfig, src: Sources, body: Value): (r: Result<string>)
    ensures var range := ResolveDateRange(env, Get(body, "action"), Utterance(body));
      && (range.Failure? ==> r.Failure?)
      && (range.Success? ==>
            var (start, end) := range.value;
            match Route(ActionName(body))
            case MealReply => r == MealMessage(env, src, start)
            case TimetableReply => r == TimetableMessage(env, cfg, src, start)
            case ScheduleReply => r == ScheduleMessage(env, src, start, end)
            case ExamReply => r == ExamMessageAsWritten(env, src, start, end)
            case AssessmentReply => r == AssessmentMessageAsWritten(env, src, start, end)
            case HelpReply => r == Success(HelpMessage()))
  {
    Dispatch(env, cfg, src, body, ExamMessageAsWritten, AssessmentMessageAsWritten)
  }

  /** The reply text with working range filters. */
  function SkillTextIntended(env: Env, cfg: ClassConfig, src: Sources, body: Value): (r: Result<string>)
    ensures var range := ResolveDateRange(env, Get(body, "action"), Utterance(body));
      && (range.Failure? ==> r.Failure?)
      && (range.Success? ==>
            var (start, end) := range.value;
            match Route(ActionName(body))
            case MealReply => r == MealMessage(env, src, start)
            case TimetableReply => r == TimetableMessage(env, cfg, src, start)
            case ScheduleReply => r == ScheduleMessage(env, src, start, end)
            case ExamReply => r == ExamMessage(env, src, start, end)
            case AssessmentReply => r == AssessmentMessage(env, src, start, end)
            case HelpReply => r == Success(HelpMessage()))
  {
    Dispatch(env, cfg, src, body, ExamMessage, AssessmentMessage)
  }

  /** The two reply texts differ only on exam and assessment questions. */
  lemma OtherRoutesAgree(env: Env, cfg: ClassConfig, src: Sources, body: Value)
    requires Route(ActionName(body)) != ExamReply && Route(ActionName(body)) != AssessmentReply
    ensures SkillText(env, cfg, src, body) == SkillTextIntended(env, cfg, src, body)
  {
  }

  /** While both custom lists are empty, every question gets the same text
      from the two. */
  lemma EmptyCustomListsAgree(env: Env, cfg: ClassConfig, src: Sources, body: Value)
    requires CustomList(src.customEvents, "exams") == Success([])
    requires CustomList(src.customEvents, "performanceAssessments") == Success([])
    ensures SkillText(env, cfg, src, body) == SkillTextIntended(env, cfg, src, body)
  {
    var range := ResolveDateRange(env, Get(body, "action"), Utterance(body));
    if range.Success? {
      var (start, end) := range.value;
      ExamsAsWrittenFail(env, src, start, end);
      AssessmentsAsWrittenFail(env, src, start, end);
    }
  }

  // ---------------------------------------------------------- quick replies

  const BaseReplies: seq<ReplySpec> := [
    Spec("도움말", "도움말"),
    Spec("오늘 급식", "오늘 급식 알려줘"),
    Spec("시간표", "오늘 시간표 알려줘")]

  /** `buildQuickReplies`: a fixed set per action name, the base set for
      every other name (`meal_today` included). */
  function QuickReplies(name: string): (r: seq<ReplySpec>)
    ensures |r| == 3
    ensures forall i :: 0 <= i < 3 ==> r[i].action == Undefined && r[i].caption.Str? && r[i].messageText.Str?
    ensures name !in {"meal", "schedule", "timetable", "exam", "assessment"} ==> r == BaseReplies
  {
    match name
    case "meal" => [
      Spec("오늘 급식", "오늘 급식 알려줘"),
      Spec("내일 급식", "내일 급식 알려줘"),
      Spec("학사일정", "이번 주 학사일정 알려줘")]
    case "schedule" => [
      Spec("이번 주 일정", "이번 주 학사일정 알려줘"),
      Spec("다음 주 일정", "다음 주 학사일정 알려줘"),
      Spec("시험 일정", "다음 시험 일정 알려줘")]
    case "timetable" => [
      Spec("오늘 시간표", "오늘 시간표 알려줘"),
      Spec("내일 시간표", "내일 시간표 알려줘"),
      Spec("학사일정", "이번 주 학사일정 알려줘")]
    case "exam" => [
      Spec("시험 일정", "다음 시험 일정 알려줘"),
      Spec("수행평가", "다가오는 수행평가 알려줘"),
      Spec("시간표", "오늘 시간표 알려줘")]
    case "assessment" => [
      Spec("수행평가", "다가오는 수행평가 알려줘"),
      Spec("시험 일정", "다음 시험 일정 알려줘"),
      Spec("급식", "오늘 급식 알려줘")]
    case _ => BaseReplies
  }

  // ------------------------------------------------------------- handler

  /** An HTTP status and the JSON body. */
  datatype HttpReply = HttpReply(status: nat, response: Response)

  const SignatureError := "서명 검증에 실패했습니다."
  const LoadError := "정보를 불러오는데 실패했습니다. 잠시 후 다시 시도해주세요."

  /** `handleKakaoSkill`; `signatureOk` is the outcome of `verifySignature`. */
  function HandleSkill(env: Env, cfg: ClassConfig, src: Sources, signatureOk: bool, body: Value): (reply: HttpReply)
    ensures !signatureOk ==> reply == HttpReply(401, BuildErrorResponse(SignatureError))
    ensures signatureOk ==> reply.status == 200
    ensures signatureOk && SkillText(env, cfg, src, body).Failure? ==>
              reply.response == BuildErrorResponse(LoadError)
    ensures signatureOk && SkillText(env, cfg, src, body).Success? ==>
              reply.response.outputs == [SkillText(env, cfg, src, body).value]
              && |reply.response.quickReplies| == 3
              && forall i :: 0 <= i < 3 ==>
                   reply.response.quickReplies[i] == BuildQuickReply(QuickReplies(ActionName(body))[i])
  {
    if !signatureOk then HttpReply(401, BuildErrorResponse(SignatureError))
    else ReplyTo(SkillText(env, cfg, src, body), ActionName(body))
  }

  /** The reply once the signature is accepted: the load error when the
      text failed, the text with the action's quick replies otherwise. */
  function ReplyTo(text: Result<string>, name: string): (reply: HttpReply)
    ensures reply.status == 200
    ensures text.Failure? ==> reply.response == BuildErrorResponse(LoadError)
    ensures text.Success? ==> reply.response == BuildSimpleTextResponse(text.value, QuickReplies(name))
  {
    match text
    case Failure(_) => HttpReply(200, BuildErrorResponse(LoadError))
    case Success(t) => HttpReply(200, BuildSimpleTextResponse(t, QuickReplies(name)))
  }

  /** Every reply the handler sends offers quick replies whose message is
      the text of a button: three after success, two after an error. */
  lemma RepliesAlwaysOffered(env: Env, cfg: ClassConfig, src: Sources, signatureOk: bool, body: Value)
    ensures var q := HandleSkill(env, cfg, src, signatureOk, body).response.quickReplies;
      && (|q| == 2 || |q| == 3)
      && forall i :: 0 <= i < |q| ==> q[i].action == Str("message") && q[i].messageText.Str?
  {
    if signatureOk {
      RepliesOffered(SkillText(env, cfg, src, body), ActionName(body));
    }
  }

  lemma RepliesOffered(text: Result<string>, name: string)
    ensures var q := ReplyTo(text, name).response.quickReplies;
      && (|q| == 2 || |q| == 3)
      && forall i :: 0 <= i < |q| ==> q[i].action == Str("message") && q[i].messageText.Str?
  {
    var reply := ReplyTo(text, name);
    if text.Success? {
      var specs := QuickReplies(name);
      forall i | 0 <= i < 3
        ensures reply.response.quickReplies[i].action == Str("message")
        ensures reply.response.quickReplies[i].messageText.Str?
      {
        assert reply.response.quickReplies[i] == BuildQuickReply(specs[i]);
      }
    }
  }

  /** As the source runs, an exam question while any custom exam exists
      gets the load-error reply. */
  lemma CustomExamIsLoadError(env: Env, cfg: ClassConfig, src: Sources, body: Value)
    requires Route(ActionName(body)) == ExamReply
    requires ResolveDateRange(env, Get(body, "action"), Utterance(body)).Success?
    requires CustomList(src.customEvents, "exams").Success? && |CustomList(src.customEvents, "exams").value| > 0
    ensures HandleSkill(env, cfg, src, true, body) == HttpReply(200, BuildErrorResponse(LoadError))
  {
    var (start, end) := ResolveDateRange(env, Get(body, "action"), Utterance(body)).value;
    ExamsAsWrittenFail(env, src, start, end);
  }

  /** An action with no name gets the help text once its range resolves. */
  lemma NamelessIsHelp(env: Env, cfg: ClassConfig, src: Sources, body: Value)
    requires !Truthy(Get(Get(body, "action"), "name")) && !Truthy(Get(Get(body, "intent"), "name"))
    requires ResolveDateRange(env, Get(body, "action"), Utterance(body)).Success?
    ensures HandleSkill(env, cfg, src, true, body) ==
      HttpReply(200, BuildSimpleTextResponse(HelpMessage(), BaseReplies))
  {
  }
}
