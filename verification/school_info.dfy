/** The reply texts of the Kakao skill (`src/services/schoolInfoService.js`):
    meals, timetable, school schedule, exams, assessments and help. The NEIS
    getters and the custom-events file are inputs. */
module SchoolInfo {
  import opened Wrappers
  import opened Text
  import opened Seqs
  import opened Js
  import opened Calendar
  import opened DateUtil
  import opened BrTags

  /** The class the chatbot serves (`config.grade`, `config.classNum`). */
  datatype ClassConfig = ClassConfig(grade: string, classNum: string)

  /** The getters of `neisClient.js` (`getMeals(from, to)`,
      `getTimetable(ymd, ay, semester)`,
      `getSchoolSchedule(from, to, ay, semester)`), each giving the rows for
      its arguments or an error, and the parsed custom-events file
      (`loadCustomEvents`, whose own failure yields the empty lists). */
  datatype Sources = Sources(
    meals: (string, string) -> Result<seq<Row>>,
    timetable: (string, string, string) -> Result<seq<Row>>,
    schedule: (string, string, string, string) -> Result<seq<Row>>,
    customEvents: Value)

  // ---------------------------------------------------------- meal text

  /** `cleanMealText`: every `<br>`, `<br/>`, `<br />` (any case, any
      spacing) becomes "\n". The second replacement returns each match
      unchanged; the third replaces "." by "." and is shown to change
      nothing. */
  function CleanMealText(text: string): (r: string)
    ensures r == ReplaceTags(text, true)
  {
    ReplaceSelf(ReplaceTags(text, true), ".");
    ReplaceAll(ReplaceTags(text, true), ".", ".")
  }

  /** Text without any `<br>` variant comes through unchanged, and text
      with one does not. */
  lemma CleanMealTextOnlyTouchesTags(text: string)
    ensures CleanMealText(text) == text <==> NoTag(text, true)
  {
    UnchangedIffNoTag(text, true);
  }

  // -------------------------------------------------- academic context

  datatype Context = Context(academicYear: string, semester: string, target: Day)

  /** The school year a day belongs to: it begins on the 1st of March. */
  function AcademicYearOf(d: Day): int {
    if d.month < 3 then d.year - 1 else d.year
  }

  /** `computeAcademicContext`. */
  function AcademicContext(env: Env, a: DateArg): (c: Context)
    ensures c.target == ToZoned(env, a)
    ensures c.academicYear == IntToString(AcademicYearOf(c.target))
    ensures c.semester == "1" <==> 3 <= c.target.month <= 8
  {
    var target := ToZoned(env, a);
    Context(IntToString(AcademicYearOf(target)), SemesterByMonth(target.month), target)
  }

  /** A day lies between the 1st of March of its academic year (included)
      and the 1st of March of the next one (excluded). */
  lemma AcademicYearSpan(d: Day)
    ensures var y := AcademicYearOf(d);
      && (Date(y, 3, 1) == d || Before(Date(y, 3, 1), d))
      && Before(d, Date(y + 1, 3, 1))
  {
  }

  // ---------------------------------------------------------- row lists

  /** `Number(row.PERIO)`. */
  function PerioNumber(row: Row): Option<int> {
    ToNumber(FieldText(row, "PERIO"))
  }

  /** The period number, 0 for NaN. */
  function PerioKey(row: Row): int {
    PerioNumber(row).GetOr(0)
  }

  /** `(a, b) => Number(a.PERIO) - Number(b.PERIO)` read as "a may stay
      ahead of b": a NaN difference counts as a tie, as
      `Array.prototype.sort` treats it. */
  predicate PerioLe(a: Row, b: Row) {
    PerioNumber(a).None? || PerioNumber(b).None? || PerioNumber(a).value <= PerioNumber(b).value
  }

  /** The numeric order of period numbers, a total preorder that agrees
      with the comparator when every `PERIO` is a number. */
  predicate NumericLe(a: Row, b: Row) {
    PerioKey(a) <= PerioKey(b)
  }

  predicate AllNumbered(rows: seq<Row>) {
    forall i :: 0 <= i < |rows| ==> PerioNumber(rows[i]).Some?
  }

  /** `sortByPeriod`: a sorted copy; `rows` itself is a value and stays.
      When every `PERIO` is a number, the copy ascends by period. */
  function SortByPeriod(rows: seq<Row>): (r: seq<Row>)
    ensures multiset(r) == multiset(rows)
    ensures AllNumbered(rows) ==> AllNumbered(r) && forall i, j :: 0 <= i < j < |r| ==> PerioKey(r[i]) <= PerioKey(r[j])
  {
    NumberedRowsAscend(rows);
    SortBy(rows, PerioLe)
  }

  lemma NumberedRowsAscend(rows: seq<Row>)
    ensures var r := SortBy(rows, PerioLe);
      AllNumbered(rows) ==> AllNumbered(r) && forall i, j :: 0 <= i < j < |r| ==> PerioKey(r[i]) <= PerioKey(r[j])
  {
    if AllNumbered(rows) {
      SortByAgree(rows, PerioLe, NumericLe);
      assert TotalPreorder(NumericLe);
      SortBySorted(rows, NumericLe);
      var r := SortBy(rows, PerioLe);
      assert forall i :: 0 <= i < |r| ==> r[i] in multiset(rows);
    }
  }

  /** Rows with the same period number keep their row order. */
  lemma {:induction false} SortByPeriodIsStable(rows: seq<Row>, n: int)
    requires AllNumbered(rows)
    ensures Filter(SortByPeriod(rows), KeyIs(PerioKey, n)) == Filter(rows, KeyIs(PerioKey, n))
  {
    SortByKeepsKeyOrder(rows, PerioLe, PerioKey, n);
  }

  /** A row whose `PERIO` is not a number ties with every row, so two rows
      one of which is unnumbered keep their order. */
  lemma UnnumberedRowsStay(a: Row, b: Row)
    requires PerioNumber(a).None? || PerioNumber(b).None?
    ensures SortByPeriod([a, b]) == [a, b]
  {
    assert PerioLe(a, b);
    TieKeepsPair(a, b, PerioLe);
  }

  /** `row.EVENT_NM || ""`. */
  function EventName(row: Row): string {
    FieldOr(row, "EVENT_NM", "")
  }

  predicate MentionsAny(name: string, keywords: seq<string>) {
    exists k :: 0 <= k < |keywords| && Contains(name, keywords[k])
  }

  /** `filterScheduleByKeyword`: exactly the rows whose event name contains
      one of the keywords, in their original order. */
  function FilterScheduleByKeyword(rows: seq<Row>, keywords: seq<string>): (r: seq<Row>)
    ensures Subsequence(r, rows)
    ensures forall i :: 0 <= i < |r| ==> MentionsAny(EventName(r[i]), keywords)
    ensures forall i :: 0 <= i < |rows| && MentionsAny(EventName(rows[i]), keywords) ==> rows[i] in r
  {
    Filter(rows, NamesAny(keywords))
  }

  /** The filter's test as a value. */
  function NamesAny(keywords: seq<string>): Row -> bool {
    row => MentionsAny(EventName(row), keywords)
  }

  /** Every row naming a keyword is kept as many times as it occurs, and
      every other row is dropped. */
  lemma KeywordFilterCounts(rows: seq<Row>, keywords: seq<string>)
    ensures forall row ::
              multiset(FilterScheduleByKeyword(rows, keywords))[row] ==
              if MentionsAny(EventName(row), keywords) then multiset(rows)[row] else 0
  {
    FilterCounts(rows, NamesAny(keywords));
  }

  /** `${row.EVENT_NM}-${row.AA_YMD}-${row.AA_TO_YMD}`. */
  function EventKey(row: Row): string {
    FieldText(row, "EVENT_NM") + "-" + FieldText(row, "AA_YMD") + "-" + FieldText(row, "AA_TO_YMD")
  }

  /** `uniqueByEventNameAndDate`: the first row of every key, in first-seen
      order; no two results share a key. */
  function UniqueByEventNameAndDate(rows: seq<Row>): (r: seq<Row>)
    ensures Subsequence(r, rows)
    ensures forall i, j :: 0 <= i < j < |r| ==> EventKey(r[i]) != EventKey(r[j])
    ensures forall j :: 0 <= j < |r| ==>
      exists i :: 0 <= i < |rows| && r[j] == rows[i] && forall k :: 0 <= k < i ==> EventKey(rows[k]) != EventKey(rows[i])
    ensures forall i :: 0 <= i < |rows| && (forall k :: 0 <= k < i ==> EventKey(rows[k]) != EventKey(rows[i])) ==> rows[i] in r
  {
    DedupBy(rows, EventKey)
  }

  // --------------------------------------------------------------- meals

  /** `\n칼로리: ${CAL_INFO}` when the row has a non-empty calorie field. */
  function CalorieLine(row: Row): string {
    var cal := FieldOr(row, "CAL_INFO", "");
    if cal != "" then "\n칼로리: " + cal else ""
  }

  /** `buildMealMessage`: asks for the day's meals and describes the first. */
  function MealMessage(env: Env, src: Sources, date: Day): (r: Result<string>)
    ensures var ymd := FormatNeisDate(env, Parsed(date));
      && (src.meals(ymd, ymd).Failure? <==> r.Failure?)
      && (src.meals(ymd, ymd).Success? && |src.meals(ymd, ymd).value| == 0 ==>
            r == Success(FormatDisplayDate(env, Parsed(date)) + " 급식 정보가 없습니다."))
  {
    var ymd := FormatNeisDate(env, Parsed(date));
    var rows :- src.meals(ymd, ymd);
    var head := FormatDisplayDate(env, Parsed(date));
    if |rows| == 0 then Success(head + " 급식 정보가 없습니다.")
    else
      var meal := rows[0];
      Success(head + " 급식\n" + CleanMealText(FieldOr(meal, "DDISH_NM", "")) + CalorieLine(meal))
  }

  /** Only the first row counts: rows after it never show. */
  lemma MealUsesFirstRowOnly(env: Env, src: Sources, date: Day, rest: seq<Row>)
    requires var ymd := FormatNeisDate(env, Parsed(date));
      src.meals(ymd, ymd).Success? && |src.meals(ymd, ymd).value| > 0
    ensures var ymd := FormatNeisDate(env, Parsed(date));
      var first := src.meals(ymd, ymd).value[0];
      MealMessage(env, src, date) ==
        MealMessage(env, src.(meals := (a: string, b: string) => Success([first] + rest)), date)
  {
  }

  /** A calorie line closes the message exactly when the first row has a
      non-empty `CAL_INFO`. */
  lemma MealCalories(env: Env, src: Sources, date: Day)
    requires var ymd := FormatNeisDate(env, Parsed(date));
      src.meals(ymd, ymd).Success? && |src.meals(ymd, ymd).value| > 0
    ensures var ymd := FormatNeisDate(env, Parsed(date));
      var meal := src.meals(ymd, ymd).value[0];
      var text := MealMessage(env, src, date).value;
      var head := FormatDisplayDate(env, Parsed(date)) + " 급식\n" + CleanMealText(FieldOr(meal, "DDISH_NM", ""));
      && (FieldOr(meal, "CAL_INFO", "") != "" ==> text == head + "\n칼로리: " + meal["CAL_INFO"])
      && (FieldOr(meal, "CAL_INFO", "") == "" ==> text == head)
  {
  }

  // ----------------------------------------------------------- timetable

  /** `${row.PERIO}교시: ${row.ITRT_CNTNT}`. */
  function PeriodLine(row: Row): string {
    FieldText(row, "PERIO") + "교시: " + FieldText(row, "ITRT_CNTNT")
  }

  /** The lines of a timetable: one per row, in the order of the rows
      sorted by period (a permutation in ascending `PERIO` order). */
  function TimetableLines(rows: seq<Row>): (lines: seq<string>)
    ensures |lines| == |rows|
    ensures forall i :: 0 <= i < |lines| ==> lines[i] == PeriodLine(SortByPeriod(rows)[i])
  {
    Map(SortByPeriod(rows), PeriodLine)
  }

  /** `buildTimetableMessage`: asks for the day's timetable in the day's
      academic year and semester. */
  function TimetableMessage(env: Env, cfg: ClassConfig, src: Sources, date: Day): (r: Result<string>)
    ensures var c := AcademicContext(env, Parsed(date));
      var rows := src.timetable(FormatNeisDate(env, Parsed(date)), c.academicYear, c.semester);
      && (rows.Failure? <==> r.Failure?)
      && (rows.Success? && |rows.value| == 0 ==>
            r == Success(FormatDisplayDate(env, Parsed(date)) + " 시간표 정보가 없습니다."))
      && (rows.Success? && |rows.value| > 0 ==>
            r == Success(FormatDisplayDate(env, Parsed(date)) + " 시간표 (" + cfg.grade + "학년 "
                         + cfg.classNum + "반)\n" + Join(TimetableLines(rows.value), "\n")))
  {
    var c := AcademicContext(env, Parsed(date));
    var ymd := FormatNeisDate(env, Parsed(c.target));
    var rows :- src.timetable(ymd, c.academicYear, c.semester);
    var head := FormatDisplayDate(env, Parsed(c.target));
    if |rows| == 0 then Success(head + " 시간표 정보가 없습니다.")
    else
      Success(head + " 시간표 (" + cfg.grade + "학년 " + cfg.classNum + "반)\n"
              + Join(Map(SortByPeriod(rows), PeriodLine), "\n"))
  }

  // ------------------------------------------------------------ schedule

  /** The arguments of `getSchoolSchedule` for a range: NEIS keys of both
      ends, and the academic year and semester of the start. */
  function ScheduleQuery(env: Env, start: Day, end: Day): (q: (string, string, string, string))
    ensures q.0 == FormatNeisDate(env, Parsed(start)) && q.1 == FormatNeisDate(env, Parsed(end))
    ensures q.2 == IntToString(AcademicYearOf(start)) && q.3 == SemesterByMonth(start.month)
  {
    var c := AcademicContext(env, Parsed(start));
    (FormatNeisDate(env, Parsed(start)), FormatNeisDate(env, Parsed(end)), c.academicYear, c.semester)
  }

  function Fetch(src: Sources, q: (string, string, string, string)): Result<seq<Row>> {
    src.schedule(q.0, q.1, q.2, q.3)
  }

  /** `formatDisplayRange(row.AA_YMD, row.AA_TO_YMD || row.AA_YMD)`. */
  function RowRange(env: Env, row: Row): string {
    var from := FieldValue(row, "AA_YMD");
    FormatDisplayRange(env, Raw(from), Raw(Or(FieldValue(row, "AA_TO_YMD"), from)))
  }

  /** `• ${row.EVENT_NM} (${range})`. */
  function RowBullet(env: Env, row: Row): string {
    "• " + FieldText(row, "EVENT_NM") + " (" + RowRange(env, row) + ")"
  }

  function RowBullets(env: Env, rows: seq<Row>): (items: seq<string>)
    ensures |items| == |rows| && forall i :: 0 <= i < |rows| ==> items[i] == RowBullet(env, rows[i])
  {
    Map(rows, (row: Row) => RowBullet(env, row))
  }

  function RangeHeader(env: Env, start: Day, end: Day): string {
    FormatDisplayRange(env, Parsed(start), Parsed(end))
  }

  /** `buildScheduleMessage`: one bullet per fetched row, in order. */
  function ScheduleMessage(env: Env, src: Sources, start: Day, end: Day): (r: Result<string>)
    ensures var rows := Fetch(src, ScheduleQuery(env, start, end));
      && (rows.Failure? <==> r.Failure?)
      && (rows.Success? && |rows.value| == 0 ==>
            r == Success(RangeHeader(env, start, end) + " 학사 일정이 없습니다."))
      && (rows.Success? && |rows.value| > 0 ==>
            r == Success(RangeHeader(env, start, end) + " 학사 일정\n"
                         + Join(RowBullets(env, rows.value), "\n")))
  {
    var rows :- Fetch(src, ScheduleQuery(env, start, end));
    if |rows| == 0 then Success(RangeHeader(env, start, end) + " 학사 일정이 없습니다.")
    else Success(RangeHeader(env, start, end) + " 학사 일정\n" + Join(RowBullets(env, rows), "\n"))
  }

  // ------------------------------------------------------- custom events

  /** `custom.<key> || []`, as the list `.filter` runs over: reading a key
      of `null` and filtering a non-array both throw. */
  function CustomList(custom: Value, key: string): (r: Result<seq<Value>>)
    ensures r.Success? <==> !custom.Null? && Or(Get(custom, key), Arr([])).Arr?
    ensures r.Success? && !Truthy(Get(custom, key)) ==> r.value == []
    ensures r.Success? && Truthy(Get(custom, key)) ==> Get(custom, key) == Arr(r.value)
  {
    if custom.Null? then Failure("TypeError: Cannot read properties of null")
    else
      var list := Or(Get(custom, key), Arr([]));
      if list.Arr? then Success(list.items) else Failure("TypeError: " + key + ".filter is not a function")
  }

  /** dayjs `d.isBetween(a, b, "day", "[]")`: inclusive by day, and the
      bounds may come in either order. */
  predicate Between(d: Day, a: Day, b: Day) {
    (DayLe(a, d) && DayLe(d, b)) || (DayLe(b, d) && DayLe(d, a))
  }

  /** With ordered bounds, `Between` is the closed interval. */
  lemma BetweenOrdered(d: Day, a: Day, b: Day)
    requires DayLe(a, b)
    ensures Between(d, a, b) <==> DayLe(a, d) && DayLe(d, b)
  {
  }

  /** A description suffix: ` - ${description}` when truthy. */
  function DescriptionSuffix(v: Value): string {
    var desc := Get(v, "description");
    if Truthy(desc) then " - " + ToStr(desc) else ""
  }

  // --------------------------------------------------------------- exams

  /** The custom-exam filter with the `isBetween` plugin in place: an exam
      is listed when its start or its end (its start when it has none) lies
      in the range. */
  function ExamInRange(env: Env, start: Day, end: Day, exam: Value): (r: Result<bool>)
    ensures r.Failure? <==> Nullish(exam)
    ensures r.Success? ==>
      var s := Get(exam, "startDate");
      (r.value <==> Between(ToZoned(env, Raw(s)), start, end)
                    || Between(ToZoned(env, Raw(Or(Get(exam, "endDate"), s))), start, end))
  {
    var s :- Member(exam, "startDate");
    var examStart := ToZoned(env, Raw(s));
    var examEnd := ToZoned(env, Raw(Or(Get(exam, "endDate"), s)));
    Success(Between(examStart, start, end) || Between(examEnd, start, end))
  }

  /** An exam that starts before the range and ends after it is not listed. */
  lemma EnclosingExamExcluded(env: Env, start: Day, end: Day, exam: Value)
    requires exam.Obj? && DayLe(start, end)
    requires var s := Get(exam, "startDate");
      && Ordinal(ToZoned(env, Raw(s))) < Ordinal(start)
      && Ordinal(end) < Ordinal(ToZoned(env, Raw(Or(Get(exam, "endDate"), s))))
    ensures ExamInRange(env, start, end, exam) == Success(false)
  {
  }

  /** The same filter as the source calls it: dayjs without the `isBetween`
      plugin has no such method, so every call throws. */
  function ExamInRangeAsWritten(env: Env, start: Day, end: Day, exam: Value): (r: Result<bool>)
    ensures r.Failure?
  {
    var s :- Member(exam, "startDate");
    Failure("TypeError: examStart.isBetween is not a function")
  }

  /** `• ${exam.title} (${range})` plus the description suffix. */
  function ExamBullet(env: Env, exam: Value): string {
    var s := Get(exam, "startDate");
    "• " + ToStr(Get(exam, "title")) + " (" + FormatDisplayRange(env, Raw(s), Raw(Or(Get(exam, "endDate"), s)))
      + ")" + DescriptionSuffix(exam)
  }

  const ExamKeywords: seq<string> := ["시험", "고사"]

  /** Schedule bullets first, then custom bullets, each in source order. */
  function Bullets(env: Env, rows: seq<Row>, custom: seq<Value>, bullet: (Env, Value) -> string): (items: seq<string>)
    ensures |items| == |rows| + |custom|
    ensures forall i :: 0 <= i < |rows| ==> items[i] == RowBullet(env, rows[i])
    ensures forall i :: 0 <= i < |custom| ==> items[|rows| + i] == bullet(env, custom[i])
  {
    RowBullets(env, rows) + Map(custom, (v: Value) => bullet(env, v))
  }

  /** The custom entries under `key` that `select` accepts, in order; a
      throw of `select` or a malformed list ends the reply in an error. */
  function CustomItems(custom: Value, key: string, select: Value -> Result<bool>): (r: Result<seq<Value>>)
    ensures r.Success? <==>
      && CustomList(custom, key).Success?
      && forall i :: 0 <= i < |CustomList(custom, key).value| ==> select(CustomList(custom, key).value[i]).Success?
    ensures r.Success? ==> Subsequence(r.value, CustomList(custom, key).value)
    ensures r.Success? ==> forall i :: 0 <= i < |r.value| ==> r.value[i] in CustomList(custom, key).value
    ensures r.Success? ==> forall i :: 0 <= i < |r.value| ==> select(r.value[i]) == Success(true)
    ensures r.Success? ==> var list := CustomList(custom, key).value;
      forall i :: 0 <= i < |list| && select(list[i]) == Success(true) ==> list[i] in r.value
    ensures r.Success? ==> r.value == Filter(CustomList(custom, key).value, Accepted(select))
  {
    var list :- CustomList(custom, key);
    FilterOrFail(list, select)
  }

  /** What differs between the exam and the assessment replies. */
  datatype Listing = Listing(keywords: seq<string>, customKey: string, title: string,
                             bullet: (Env, Value) -> string)

  const ExamListing := Listing(ExamKeywords, "exams", "시험 일정", ExamBullet)

  /** The shared shape of `buildExamMessage` and `buildAssessmentMessage`:
      schedule rows naming the topic (first of each key), then the accepted
      custom entries; a fixed text when there are none. */
  function ListingMessage(env: Env, src: Sources, start: Day, end: Day, listing: Listing,
                          select: Value -> Result<bool>): (r: Result<string>)
    ensures r.Success? <==>
      Fetch(src, ScheduleQuery(env, start, end)).Success? && CustomItems(src.customEvents, listing.customKey, select).Success?
    ensures r.Success? ==>
      var rows := UniqueByEventNameAndDate(FilterScheduleByKeyword(Fetch(src, ScheduleQuery(env, start, end)).value, listing.keywords));
      var chosen := CustomItems(src.customEvents, listing.customKey, select).value;
      && (|rows| + |chosen| == 0 ==> r.value == RangeHeader(env, start, end) + " " + listing.title + "이 없습니다.")
      && (|rows| + |chosen| > 0 ==>
            r.value == RangeHeader(env, start, end) + " " + listing.title + "\n"
                       + Join(Bullets(env, rows, chosen, listing.bullet), "\n"))
  {
    var fetched :- Fetch(src, ScheduleQuery(env, start, end));
    var chosen :- CustomItems(src.customEvents, listing.customKey, select);
    var rows := UniqueByEventNameAndDate(FilterScheduleByKeyword(fetched, listing.keywords));
    var items := Bullets(env, rows, chosen, listing.bullet);
    if |items| == 0 then Success(RangeHeader(env, start, end) + " " + listing.title + "이 없습니다.")
    else Success(RangeHeader(env, start, end) + " " + listing.title + "\n" + Join(items, "\n"))
  }

  /** A filter that throws exactly on `null` entries: the listing fails
      only on an unreadable schedule, a malformed list or a `null` entry. */
  lemma SelectsAllUnlessNull(env: Env, src: Sources, start: Day, end: Day, listing: Listing,
                             select: Value -> Result<bool>)
    requires forall v :: select(v).Failure? <==> Nullish(v)
    ensures var list := CustomList(src.customEvents, listing.customKey);
      ListingMessage(env, src, start, end, listing, select).Success? <==>
        && Fetch(src, ScheduleQuery(env, start, end)).Success? && list.Success?
        && forall i :: 0 <= i < |list.value| ==> !Nullish(list.value[i])
  {
    CustomItemsUnlessNull(src.customEvents, listing.customKey, select);
  }

  lemma CustomItemsUnlessNull(custom: Value, key: string, select: Value -> Result<bool>)
    requires forall v :: select(v).Failure? <==> Nullish(v)
    ensures var list := CustomList(custom, key);
      CustomItems(custom, key, select).Success? <==>
        list.Success? && forall i :: 0 <= i < |list.value| ==> !Nullish(list.value[i])
  {
    var list := CustomList(custom, key);
    if list.Success? {
      assert (forall i :: 0 <= i < |list.value| ==> select(list.value[i]).Success?)
         <==> (forall i :: 0 <= i < |list.value| ==> !Nullish(list.value[i]));
    }
  }

  /** With every custom entry rejected, only schedule rows can be listed. */
  lemma NoneAccepted(custom: Value, key: string, select: Value -> Result<bool>)
    requires CustomList(custom, key).Success?
    requires forall i :: 0 <= i < |CustomList(custom, key).value| ==> select(CustomList(custom, key).value[i]) == Success(false)
    ensures CustomItems(custom, key, select) == Success([])
  {
  }

  function ExamMessageWith(env: Env, src: Sources, start: Day, end: Day,
                           select: Value -> Result<bool>): Result<string> {
    ListingMessage(env, src, start, end, ExamListing, select)
  }

  /** `buildExamMessage` with working range checks: an error only when the
      schedule cannot be read, the exam list is malformed or holds a
      `null` entry. */
  function ExamMessage(env: Env, src: Sources, start: Day, end: Day): (r: Result<string>)
    ensures var exams := CustomList(src.customEvents, "exams");
      r.Success? <==> && Fetch(src, ScheduleQuery(env, start, end)).Success? && exams.Success?
                      && forall i :: 0 <= i < |exams.value| ==> !Nullish(exams.value[i])
  {
    var select := (exam: Value) => ExamInRange(env, start, end, exam);
    SelectsAllUnlessNull(env, src, start, end, ExamListing, select);
    ExamMessageWith(env, src, start, end, select)
  }

  /** `buildExamMessage` as the source runs it: a reply only when there is
      no custom exam at all. */
  function ExamMessageAsWritten(env: Env, src: Sources, start: Day, end: Day): (r: Result<string>)
    ensures var exams := CustomList(src.customEvents, "exams");
      r.Success? <==> Fetch(src, ScheduleQuery(env, start, end)).Success? && exams.Success? && |exams.value| == 0
  {
    ExamMessageWith(env, src, start, end, (exam: Value) => ExamInRangeAsWritten(env, start, end, exam))
  }

  /** As written, any custom exam at all turns the exam reply into an
      error; with no custom exams the two versions agree. */
  lemma ExamsAsWrittenFail(env: Env, src: Sources, start: Day, end: Day)
    ensures var exams := CustomList(src.customEvents, "exams");
      exams.Success? && |exams.value| > 0 ==> ExamMessageAsWritten(env, src, start, end).Failure?
    ensures var exams := CustomList(src.customEvents, "exams");
      exams.Success? && |exams.value| == 0 ==>
        ExamMessageAsWritten(env, src, start, end) == ExamMessage(env, src, start, end)
  {
  }

  // --------------------------------------------------------- assessments

  /** The custom-assessment filter with the plugin in place. */
  function AssessmentInRange(env: Env, start: Day, end: Day, item: Value): (r: Result<bool>)
    ensures r.Failure? <==> Nullish(item)
    ensures r.Success? ==> (r.value <==> Between(ToZoned(env, Raw(Get(item, "date"))), start, end))
  {
    var d :- Member(item, "date");
    Success(Between(ToZoned(env, Raw(d)), start, end))
  }

  function AssessmentInRangeAsWritten(env: Env, start: Day, end: Day, item: Value): (r: Result<bool>)
    ensures r.Failure?
  {
    var d :- Member(item, "date");
    Failure("TypeError: assessmentDate.isBetween is not a function")
  }

  /** `• ${title} (${formatDisplayDate(date)})` plus the description suffix. */
  function AssessmentBullet(env: Env, item: Value): string {
    "• " + ToStr(Get(item, "title")) + " (" + FormatDisplayDate(env, Raw(Get(item, "date"))) + ")"
      + DescriptionSuffix(item)
  }

  const AssessmentKeywords: seq<string> := ["평가"]

  const AssessmentListing := Listing(AssessmentKeywords, "performanceAssessments", "수행평가 일정", AssessmentBullet)

  function AssessmentMessageWith(env: Env, src: Sources, start: Day, end: Day,
                                 select: Value -> Result<bool>): Result<string> {
    ListingMessage(env, src, start, end, AssessmentListing, select)
  }

  /** `buildAssessmentMessage` with working range checks. */
  function AssessmentMessage(env: Env, src: Sources, start: Day, end: Day): (r: Result<string>)
    ensures var items := CustomList(src.customEvents, "performanceAssessments");
      r.Success? <==> && Fetch(src, ScheduleQuery(env, start, end)).Success? && items.Success?
                      && forall i :: 0 <= i < |items.value| ==> !Nullish(items.value[i])
  {
    var select := (item: Value) => AssessmentInRange(env, start, end, item);
    SelectsAllUnlessNull(env, src, start, end, AssessmentListing, select);
    AssessmentMessageWith(env, src, start, end, select)
  }

  /** `buildAssessmentMessage` as the source runs it: a reply only when
      there is no custom assessment at all. */
  function AssessmentMessageAsWritten(env: Env, src: Sources, start: Day, end: Day): (r: Result<string>)
    ensures var items := CustomList(src.customEvents, "performanceAssessments");
      r.Success? <==> Fetch(src, ScheduleQuery(env, start, end)).Success? && items.Success? && |items.value| == 0
  {
    AssessmentMessageWith(env, src, start, end, (item: Value) => AssessmentInRangeAsWritten(env, start, end, item))
  }

  lemma AssessmentsAsWrittenFail(env: Env, src: Sources, start: Day, end: Day)
    ensures var items := CustomList(src.customEvents, "performanceAssessments");
      items.Success? && |items.value| > 0 ==> AssessmentMessageAsWritten(env, src, start, end).Failure?
    ensures var items := CustomList(src.customEvents, "performanceAssessments");
      items.Success? && |items.value| == 0 ==>
        AssessmentMessageAsWritten(env, src, start, end) == AssessmentMessage(env, src, start, end)
  {
  }

  // ---------------------------------------------------------------- help

  const HelpHeader := "카카오톡에서 사용할 수 있는 예시 질문입니다:"
  const HelpFooter := "원하는 날짜가 있다면 \"2025년 5월 3일 급식\"처럼 말해보세요."
  const Features: seq<string> := [
    "오늘 급식 알려줘",
    "이번 주 학사일정 알려줘",
    "내일 시간표 알려줘",
    "다음 시험 일정 알려줘",
    "다가오는 수행평가 알려줘"]

  function Bullet(feature: string): string {
    "• " + feature
  }

  /** The lines of the help text: the header, one bullet per example
      question in order, and the footer. */
  function HelpLineList(): seq<string> {
    [HelpHeader] + Map(Features, Bullet) + [HelpFooter]
  }

  /** `buildHelpMessage`: seven lines, the header, one bullet per example
      question in order, and the footer. */
  function HelpMessage(): (r: string)
    ensures Split(r, '\n') == HelpLineList() && |HelpLineList()| == 7
  {
    var bullets := Map(Features, Bullet);
    JoinAppend([HelpHeader], bullets, "\n");
    JoinAppend([HelpHeader] + bullets, [HelpFooter], "\n");
    HelpLinesSplit();
    HelpHeader + "\n" + Join(bullets, "\n") + "\n" + HelpFooter
  }

  /** None of the lines holds a line break, so they split back apart. */
  lemma HelpLinesSplit()
    ensures Split(Join(HelpLineList(), "\n"), '\n') == HelpLineList()
  {
    var lines := HelpLineList();
    HelpTextsUnbroken();
    forall i | 0 <= i < |Features| ensures '\n' !in Bullet(Features[i]) {
      assert Bullet(Features[i])[2..] == Features[i];
    }
    forall i | 0 <= i < |lines| ensures '\n' !in lines[i] {
      if 0 < i < |lines| - 1 {
        assert lines[i] == Bullet(Features[i - 1]);
      }
    }
    SplitJoin(lines, '\n');
  }

  lemma HelpTextsUnbroken()
    ensures '\n' !in HelpHeader && '\n' !in HelpFooter
    ensures forall i :: 0 <= i < |Features| ==> '\n' !in Features[i]
  {
    HeaderUnbroken();
    FooterUnbroken();
    forall i | 0 <= i < |Features| ensures '\n' !in Features[i] {
      FeatureUnbroken(i);
    }
  }

  lemma HeaderUnbroken()
    ensures '\n' !in HelpHeader
  {
  }

  lemma FooterUnbroken()
    ensures '\n' !in HelpFooter
  {
  }

  lemma FeatureUnbroken(i: nat)
    requires i < |Features|
    ensures '\n' !in Features[i]
  {
  }
}
