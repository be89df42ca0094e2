/** The performance assessments (`src/services/assessmentService.js`): the
    reading of the free-form date text of a record, the normalised record,
    and the upcoming ones in date order. The data file's parsed JSON is an
    input. */
module Assessment {
  import opened Wrappers
  import opened Text
  import opened Seqs
  import opened Js
  import opened Calendar
  import opened DateUtil

  // ---------------------------------------------------------- date text

  /** What `buildDateInfo` makes of a date text. */
  datatype DateInfo =
    | Range(start: Day, end: Day, display: string)
    | Point(before: bool, start: Day, display: string)

  /** A text holding `~` splits into at least two parts there. */
  lemma TildeSplits(value: string)
    requires Contains(value, "~")
    ensures |Split(value, '~')| >= 2
  {
    var i :| 0 <= i <= |value| && IsPrefix("~", value[i..]);
    assert value[i] == '~';
    SplitAtLeastTwo(value, '~');
  }

  /** The range branch: both trimmed sides must parse. */
  function RangeInfo(env: Env, startRaw: string, endRaw: string): (r: Option<DateInfo>)
    ensures r.Some? <==> env.flexibleParse(Str(startRaw)).Some? && env.flexibleParse(Str(endRaw)).Some?
    ensures r.Some? ==> r.value.Range? && Some(r.value.start) == env.flexibleParse(Str(startRaw))
                        && Some(r.value.end) == env.flexibleParse(Str(endRaw))
  {
    match (env.flexibleParse(Str(startRaw)), env.flexibleParse(Str(endRaw)))
    case (Some(s), Some(e)) => Some(Range(s, e, env.shortDate(s) + " ~ " + env.shortDate(e) + " 사이"))
    case _ => None
  }

  /** The text left for the date parser once every "이전" is removed. */
  function WithoutBefore(value: string): string {
    Trim(ReplaceAll(value, "이전", ""))
  }

  /** `buildDateInfo`: nothing for a falsy or blank value; a text holding
      "~" is a range (this is tried first); otherwise a single day, marked
      "before" when the text mentions "이전". */
  function BuildDateInfo(env: Env, raw: Value): (r: Option<DateInfo>)
    ensures !Truthy(raw) || Blank(ToStr(raw)) ==> r.None?
    ensures var value := Trim(ToStr(raw));
      && (r.Some? && r.value.Range? ==> Truthy(raw) && Contains(value, "~"))
      && (r.Some? && r.value.Point? ==>
            && Truthy(raw) && !Contains(value, "~")
            && (r.value.before <==> Contains(value, "이전"))
            && env.flexibleParse(Str(WithoutBefore(value))) == Some(r.value.start))
  {
    if !Truthy(raw) then None
    else
      var value := Trim(ToStr(raw));
      if value == "" then None
      else if Contains(value, "~") then
        TildeSplits(value);
        var parts := Split(value, '~');
        RangeInfo(env, Trim(parts[0]), Trim(parts[1]))
      else
        var before := Contains(value, "이전");
        match env.flexibleParse(Str(WithoutBefore(value)))
        case None => None
        case Some(d) => Some(Point(before, d, env.shortDate(d) + (if before then " 이전" else "")))
  }

  /** A text with "~" never reads as a "before" day, even when it also
      says "이전". */
  lemma RangeCheckedFirst(env: Env, raw: Value)
    requires Contains(Trim(ToStr(raw)), "~")
    ensures BuildDateInfo(env, raw).None? || BuildDateInfo(env, raw).value.Range?
  {
  }

  /** Only the first two `~`-separated parts count: a third is ignored. */
  lemma ThirdPartIgnored(env: Env, a: string, b: string, c: string)
    requires '~' !in a && '~' !in b && '~' !in c
    requires |a| > 0 && !IsSpace(a[0]) && |c| > 0 && !IsSpace(c[|c| - 1])
    ensures BuildDateInfo(env, Str(a + "~" + b + "~" + c)) == RangeInfo(env, Trim(a), Trim(b))
  {
    var value := a + "~" + b + "~" + c;
    TildeParts(a, b, c);
    assert value[0] == a[0] && value[|value| - 1] == c[|c| - 1];
    TextTrimmed(value);
  }

  /** Three parts joined by `~` split back into the three, and the text
      holds `~`. */
  lemma TildeParts(a: string, b: string, c: string)
    requires '~' !in a && '~' !in b && '~' !in c
    ensures var value := a + "~" + b + "~" + c;
      Split(value, '~') == [a, b, c] && Contains(value, "~")
  {
    var value := a + "~" + b + "~" + c;
    assert [a, b, c][1..] == [b, c] && [b, c][1..] == [c];
    assert Join([b, c], "~") == b + "~" + c;
    assert Join([a, b, c], "~") == a + "~" + (b + "~" + c);
    assert value == a + "~" + (b + "~" + c);
    SplitJoin([a, b, c], '~');
    ContainsAt(value, "~", |a|);
  }

  /** A text without "~" that parses: a single day, or a "before" day when
      it says "이전", and the parser sees the text without it. */
  lemma BeforeDay(env: Env, value: string, d: Day)
    requires value != "" && Trim(value) == value && !Contains(value, "~") && Contains(value, "이전")
    requires env.flexibleParse(Str(WithoutBefore(value))) == Some(d)
    ensures BuildDateInfo(env, Str(value)) == Some(Point(true, d, env.shortDate(d) + " 이전"))
  {
    assert ToStr(Str(value)) == value;
  }

  // ------------------------------------------------------------- records

  /** A normalised assessment; `endDate` is there only for a range. */
  datatype Assessment = Assessment(title: string, subject: string, date: string, displayDate: string,
                                   description: string, endDate: Option<string>, dateType: string)

  /** `value ? String(value).trim() : ""`. */
  function TextOr(v: Value): (r: string)
    ensures !Truthy(v) ==> r == ""
  {
    if Truthy(v) then Trim(ToStr(v)) else ""
  }

  /** `String(record.title ?? record.subject ?? "수행평가").trim()`. */
  function Title(record: Value): string {
    Trim(ToStr(Coalesce(Coalesce(Get(record, "title"), Get(record, "subject")), Str("수행평가"))))
  }

  /** `normalizeRecord`: reading `date` of a `null` record throws; a record
      whose date text does not read is dropped (`None`). */
  function NormalizeRecord(env: Env, record: Value): (r: Result<Option<Assessment>>)
    ensures r.Failure? <==> Nullish(record)
    ensures r.Success? ==> (r.value.None? <==> BuildDateInfo(env, Get(record, "date")).None?)
    ensures r.Success? && r.value.Some? ==>
      var a, info := r.value.value, BuildDateInfo(env, Get(record, "date")).value;
      && a.title == Title(record)
      && a.subject == TextOr(Get(record, "subject"))
      && a.description == TextOr(Get(record, "description"))
      && a.date == IsoDate(info.start) && a.displayDate == info.display
      && (info.Range? <==> a.endDate.Some?)
      && (info.Range? ==> a.endDate == Some(IsoDate(info.end)) && a.dateType == "range")
      && (info.Point? ==> a.dateType == if info.before then "before" else "single")
  {
    var raw :- Member(record, "date");
    match BuildDateInfo(env, raw)
    case None => Success(None)
    case Some(info) =>
      var base := Assessment(Title(record), TextOr(Get(record, "subject")), IsoDate(info.start), info.display,
                             TextOr(Get(record, "description")), None, "");
      Success(Some(
        match info
        case Range(_, end, _) => base.(endDate := Some(IsoDate(end)), dateType := "range")
        case Point(before, _, _) => base.(dateType := if before then "before" else "single")))
  }

  /** A record without title or subject is called "수행평가". */
  lemma DefaultTitle()
    ensures Title(Obj(map[])) == "수행평가"
  {
    var fallback := Str("수행평가");
    assert Coalesce(Coalesce(Get(Obj(map[]), "title"), Get(Obj(map[]), "subject")), fallback) == fallback;
    TextTrimmed("수행평가");
  }

  /** A text of letters at both ends is left alone by `String(…).trim()`. */
  lemma TextTrimmed(t: string)
    requires |t| > 0 && !IsSpace(t[0]) && !IsSpace(t[|t| - 1])
    ensures Trim(ToStr(Str(t))) == t
  {
  }

  /** The subject stands in for a missing title. */
  lemma SubjectStandsIn(subject: string)
    requires |subject| > 0 && !IsSpace(subject[0]) && !IsSpace(subject[|subject| - 1])
    ensures Title(Obj(map["subject" := Str(subject)])) == subject
  {
    var m := map["subject" := Str(subject)];
    assert "title" != "subject" by { assert |"title"| != |"subject"|; }
    assert Get(Obj(m), "title") == Undefined;
    assert Coalesce(Coalesce(Undefined, Str(subject)), Str("수행평가")) == Str(subject);
    assert ToStr(Str(subject)) == subject;
    assert Trim(subject) == subject;
  }

  /** An empty title is still a title: only `null` and `undefined` fall
      through to the subject. */
  lemma EmptyTitleKept(subject: string)
    ensures Title(Obj(map["title" := Str(""), "subject" := Str(subject)])) == ""
  {
    var m := map["title" := Str(""), "subject" := Str(subject)];
    assert Get(Obj(m), "title") == Str("");
    assert Coalesce(Coalesce(Str(""), Str(subject)), Str("수행평가")) == Str("");
    assert ToStr(Str("")) == "";
  }

  // ------------------------------------------------------------ listing

  /** The filter of `getPerformanceAssessments`: a range counts while its
      end is not past, anything else while its day is not past, both
      compared as ISO text. */
  predicate Upcoming(today: string, a: Assessment) {
    if a.dateType == "range" && a.endDate.Some? && a.endDate.value != "" then StrLe(today, a.endDate.value)
    else StrLe(today, a.date)
  }

  /** `sortByDate(..., (item) => new Date(item.date))`: ascending by day,
      which for ISO dates is ascending by text. */
  predicate DateLe(a: Assessment, b: Assessment) {
    StrLe(a.date, b.date)
  }

  lemma DateLeIsPreorder()
    ensures TotalPreorder(DateLe)
  {
    forall a: Assessment, b: Assessment ensures DateLe(a, b) || DateLe(b, a) {
      StrLeTotal(a.date, b.date);
    }
    forall a: Assessment, b: Assessment, c: Assessment | DateLe(a, b) && DateLe(b, c) ensures DateLe(a, c) {
      StrLeTransitive(a.date, b.date, c.date);
    }
  }

  const NotAnArray := "수행평가 데이터가 올바른 배열 형식이 아닙니다."

  /** The normalised records of the file that are still upcoming, in file
      order: per item, its record when it normalises and is upcoming. */
  function UpcomingRecords(env: Env, items: seq<Value>): (r: Result<seq<Assessment>>)
    ensures r.Failure? <==> exists i :: 0 <= i < |items| && Nullish(items[i])
    ensures r.Success? ==> forall k :: 0 <= k < |r.value| ==>
      && Upcoming(IsoDate(env.today), r.value[k])
      && exists i :: 0 <= i < |items| && NormalizeRecord(env, items[i]) == Success(Some(r.value[k]))
    ensures r.Success? ==> forall i :: 0 <= i < |items| ==>
      var n := NormalizeRecord(env, items[i]);
      n.Success? && n.value.Some? && Upcoming(IsoDate(env.today), n.value.value) ==> n.value.value in r.value
    ensures r.Success? ==> r.value == Somes(Map(items, KeepIf(NormalizeIn(env), UpcomingOn(IsoDate(env.today)))))
  {
    CollectKept(items, NormalizeIn(env), UpcomingOn(IsoDate(env.today)))
  }

  /** The `map` callback as a value. */
  function NormalizeIn(env: Env): Value -> Result<Option<Assessment>> {
    v => NormalizeRecord(env, v)
  }

  /** The filter callback as a value. */
  function UpcomingOn(today: string): Assessment -> bool {
    a => Upcoming(today, a)
  }

  /** `getPerformanceAssessments`: the upcoming records sorted by date
      (stably); a file that is not an array is an error. */
  function GetPerformanceAssessments(env: Env, items: Value): (r: Result<seq<Assessment>>)
    ensures !items.Arr? ==> r == Failure(NotAnArray)
    ensures items.Arr? ==> (r.Failure? <==> UpcomingRecords(env, items.items).Failure?)
    ensures r.Success? ==> items.Arr? && multiset(r.value) == multiset(UpcomingRecords(env, items.items).value)
    ensures r.Success? ==> forall i, j :: 0 <= i < j < |r.value| ==> StrLe(r.value[i].date, r.value[j].date)
  {
    if !items.Arr? then Failure(NotAnArray)
    else
      var upcoming :- UpcomingRecords(env, items.items);
      DateLeIsPreorder();
      SortBySorted(upcoming, DateLe);
      Success(SortBy(upcoming, DateLe))
  }

  /** With four-digit years, the ISO comparison of the filter is the day
      order: a range is kept while its last day is not before today, any
      other record while its day is not before today. */
  lemma UpcomingByDay(env: Env, record: Value)
    requires NormalizeRecord(env, record).Success? && NormalizeRecord(env, record).value.Some?
    requires var info := BuildDateInfo(env, Get(record, "date")).value;
      0 <= env.today.year <= 9999 && 0 <= info.start.year <= 9999 && (info.Range? ==> 0 <= info.end.year <= 9999)
    ensures var a, info := NormalizeRecord(env, record).value.value, BuildDateInfo(env, Get(record, "date")).value;
      && (info.Range? ==> (Upcoming(IsoDate(env.today), a) <==> DayLe(env.today, info.end)))
      && (info.Point? ==> (Upcoming(IsoDate(env.today), a) <==> DayLe(env.today, info.start)))
  {
    var info := BuildDateInfo(env, Get(record, "date")).value;
    IsoOrderIsDayOrder(env.today, info.start);
    if info.Range? {
      IsoOrderIsDayOrder(env.today, info.end);
    }
  }
}
