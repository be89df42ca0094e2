/** The serverless NEIS helpers (`lib/neis.js`): the query string, the row
    extraction of `hubFetch`, and the row mapping of meals, timetables and
    school schedules. The HTTP request is a parameter. */
module LibNeis {
  import opened Wrappers
  import opened Text
  import opened Seqs
  import opened Js
  import NeisService

  const Base := "https://open.neis.go.kr/hub"

  /** What `fetch` answers: the status and the parsed JSON body. A request
      that fails outright, or a body that is not JSON, is a `Failure` of
      the fetch parameter itself. */
  datatype HttpResponse = HttpResponse(ok: bool, status: int, body: Value)

  /** `v?.[i]` on an array. */
  function Elem(v: Value, i: nat): (r: Value)
    ensures v.Arr? && i < |v.items| ==> r == v.items[i]
    ensures !(v.Arr? && i < |v.items|) ==> r == Undefined
  {
    if v.Arr? && i < |v.items| then v.items[i] else Undefined
  }

  /** `data?.[path]?.[1]?.row || []`: the rows part of a NEIS answer. */
  function RowsPart(data: Value, path: string): Value {
    Or(Get(Elem(Get(data, path), 1), "row"), Arr([]))
  }

  /** The URL of `hubFetch`. */
  function HubUrl(path: string, params: seq<(string, Value)>, encode: string -> string): string {
    Base + "/" + path + "?" + NeisService.BuildQuery(params, encode)
  }

  /** `hubFetch`: a non-ok status is an error naming it; otherwise the rows
      of the body, none when the body has no rows part. Anything else
      truthy in place of the rows has no `map`, which throws. */
  function HubFetch(fetch: string -> Result<HttpResponse>, encode: string -> string,
                    path: string, params: seq<(string, Value)>): (r: Result<seq<Value>>)
    ensures var res := fetch(HubUrl(path, params, encode));
      && (res.Failure? ==> r.Failure?)
      && (res.Success? && !res.value.ok ==> r == Failure("NEIS HTTP " + IntToString(res.value.status)))
      && (res.Success? && res.value.ok ==>
            var rows := Get(Elem(Get(res.value.body, path), 1), "row");
            && (!Truthy(rows) ==> r == Success([]))
            && (rows.Arr? ==> r == Success(rows.items))
            && (Truthy(rows) && !rows.Arr? ==> r.Failure?))
  {
    var res :- fetch(HubUrl(path, params, encode));
    if !res.ok then Failure("NEIS HTTP " + IntToString(res.status))
    else
      var rows := RowsPart(res.body, path);
      if rows.Arr? then Success(rows.items) else Failure("TypeError: rows.map is not a function")
  }

  /** A NEIS answer with a head part and a rows part yields exactly those
      rows; an answer for another service, or a bare `RESULT` (how NEIS
      reports "no data"), yields none. */
  lemma RowsOfAnswer(path: string, head: Value, rows: seq<Value>, other: string, result: Value)
    requires other != path && path != "RESULT"
    ensures RowsPart(Obj(map[path := Arr([head, Obj(map["row" := Arr(rows)])])]), path) == Arr(rows)
    ensures RowsPart(Obj(map[other := Arr([head, Obj(map["row" := Arr(rows)])])]), path) == Arr([])
    ensures RowsPart(Obj(map["RESULT" := result]), path) == Arr([])
  {
  }

  // ---------------------------------------------------------------- meals

  /** One meal of `getMeal`. */
  datatype LibMeal = LibMeal(date: Value, mealName: Value, dishes: string)

  /** The query of `getMeal`: an absent meal type drops out of the query. */
  function MealParams(key: Value, atpt: Value, schul: Value, ymd: Value, mealType: Value): seq<(string, Value)> {
    [("KEY", key), ("Type", Str("json")), ("pIndex", Num(1)), ("pSize", Num(100)),
     ("ATPT_OFCDC_SC_CODE", atpt), ("SD_SCHUL_CODE", schul), ("MLSV_YMD", ymd), ("MMEAL_SC_CODE", mealType)]
  }

  /** The meal type is sent exactly when it is present. */
  lemma MealTypeSent(key: Value, atpt: Value, schul: Value, ymd: Value, mealType: Value)
    ensures var kept := NeisService.Kept(MealParams(key, atpt, schul, ymd, mealType));
      NeisService.Present(mealType) <==> ("MMEAL_SC_CODE", mealType) in kept
  {
    var params := MealParams(key, atpt, schul, ymd, mealType);
    var kept := NeisService.Kept(params);
    assert params[7] == ("MMEAL_SC_CODE", mealType);
    if ("MMEAL_SC_CODE", mealType) in kept {
      var i :| 0 <= i < |kept| && kept[i] == ("MMEAL_SC_CODE", mealType);
      assert NeisService.Present(kept[i].1);
    }
  }

  /** Without a meal type no `MMEAL_SC_CODE` is sent at all, so every meal
      of the day comes back. */
  lemma MealTypeOmitted(key: Value, atpt: Value, schul: Value, ymd: Value)
    ensures var kept := NeisService.Kept(MealParams(key, atpt, schul, ymd, Undefined));
      forall i :: 0 <= i < |kept| ==> kept[i].0 != "MMEAL_SC_CODE"
  {
    var params := MealParams(key, atpt, schul, ymd, Undefined);
    forall j | 0 <= j < |params| && params[j].0 == "MMEAL_SC_CODE" ensures !NeisService.Present(params[j].1) {
      assert j == 7;
    }
    AbsentKeyDropped(params, "MMEAL_SC_CODE");
  }

  /** A key whose every entry is absent does not reach the query. */
  lemma AbsentKeyDropped(params: seq<(string, Value)>, k: string)
    requires forall j :: 0 <= j < |params| && params[j].0 == k ==> !NeisService.Present(params[j].1)
    ensures forall i :: 0 <= i < |NeisService.Kept(params)| ==> NeisService.Kept(params)[i].0 != k
  {
    var kept := NeisService.Kept(params);
    forall i | 0 <= i < |kept| ensures kept[i].0 != k {
      var j :| 0 <= j < |params| && params[j] == kept[i];
    }
  }

  /** `(r.DDISH_NM || "").replace(/<br\/>/g, "\n")`: a missing menu is
      empty, and a truthy menu that is not text has no `replace`. */
  function Dishes(menu: Value): (r: Result<string>)
    ensures !Truthy(menu) ==> r == Success("")
    ensures menu.Str? ==> r == Success(ReplaceAll(menu.s, "<br/>", "\n"))
    ensures Truthy(menu) && !menu.Str? ==> r.Failure?
  {
    var m := Or(menu, Str(""));
    if m.Str? then Success(ReplaceAll(m.s, "<br/>", "\n"))
    else Failure("TypeError: DDISH_NM.replace is not a function")
  }

  /** The menu lines come back one per line break, as long as no line
      holds a `<` or a line break of its own. */
  lemma DishesSplitIntoLines(lines: seq<string>)
    requires |lines| > 0 && forall i :: 0 <= i < |lines| ==> '<' !in lines[i] && '\n' !in lines[i]
    ensures Dishes(Str(Join(lines, "<br/>"))) == Success(Join(lines, "\n"))
    ensures Split(Dishes(Str(Join(lines, "<br/>"))).value, '\n') == lines
  {
    ReplaceJoin(lines, "<br/>", "\n");
    SplitJoin(lines, '\n');
  }

  /** Only the exact `<br/>` is a separator: `<br>` and `<br />` stay as
      they are. */
  lemma OnlyExactBreak()
    ensures Dishes(Str("a<br>b")) == Success("a<br>b")
    ensures Dishes(Str("a<br />b")) == Success("a<br />b")
  {
    NoBreakTagIn("a<br>b");
    ReplaceAbsent("a<br>b", "<br/>", "\n");
    NoBreakTagIn("a<br />b");
    ReplaceAbsent("a<br />b", "<br/>", "\n");
  }

  /** A text in which no `<` has a `/` three places later holds no `<br/>`. */
  lemma NoBreakTagIn(s: string)
    requires forall i :: 0 <= i < |s| - 3 && s[i] == '<' ==> s[i + 3] != '/'
    ensures !Contains(s, "<br/>")
  {
    forall i | 0 <= i <= |s| ensures !IsPrefix("<br/>", s[i..]) {
      if i + 5 <= |s| {
        if s[i] == '<' {
          assert s[i..][3] == s[i + 3];
        } else {
          assert s[i..][0] == s[i];
        }
      }
    }
  }

  /** The mapping of one meal row; a `null` row throws. */
  function MealOfRow(row: Value): (r: Result<LibMeal>)
    ensures r.Failure? <==> Nullish(row) || Dishes(Get(row, "DDISH_NM")).Failure?
    ensures r.Success? ==> r.value.date == Get(row, "MLSV_YMD") && r.value.mealName == Get(row, "MMEAL_SC_NM")
                           && Success(r.value.dishes) == Dishes(Get(row, "DDISH_NM"))
  {
    var date :- Member(row, "MLSV_YMD");
    var dishes :- Dishes(Get(row, "DDISH_NM"));
    Success(LibMeal(date, Get(row, "MMEAL_SC_NM"), dishes))
  }

  /** `getMeal`: one meal per row, in row order. */
  function GetMeal(fetch: string -> Result<HttpResponse>, encode: string -> string,
                   key: Value, atpt: Value, schul: Value, ymd: Value, mealType: Value): (r: Result<seq<LibMeal>>)
    ensures var rows := HubFetch(fetch, encode, "mealServiceDietInfo", MealParams(key, atpt, schul, ymd, mealType));
      && (rows.Failure? ==> r.Failure?)
      && (rows.Success? ==> (r.Success? <==> forall i :: 0 <= i < |rows.value| ==> MealOfRow(rows.value[i]).Success?))
      && (r.Success? ==> |r.value| == |rows.value|
                         && forall i :: 0 <= i < |r.value| ==> MealOfRow(rows.value[i]) == Success(r.value[i]))
  {
    var rows :- HubFetch(fetch, encode, "mealServiceDietInfo", MealParams(key, atpt, schul, ymd, mealType));
    MapOrFail(rows, MealOfRow)
  }

  // ------------------------------------------------------------ timetable

  /** `Number(v)`; `None` is NaN. */
  function NumberOf(v: Value): (r: Option<int>)
    ensures v.Undefined? ==> r.None?
    ensures v.Null? ==> r == Some(0)
    ensures v.Num? ==> r == Some(v.n)
    ensures v.Str? ==> r == ToNumber(v.s)
  {
    match v
    case Undefined => None
    case Null => Some(0)
    case Bool(b) => Some(if b then 1 else 0)
    case Num(n) => Some(n)
    case _ => ToNumber(ToStr(v))
  }

  /** One period of `getHisTimetable`. */
  datatype Period = Period(perio: Option<int>, subject: Value)

  function PeriodOfRow(row: Value): (r: Result<Period>)
    ensures r.Failure? <==> Nullish(row)
    ensures r.Success? ==> r.value == Period(NumberOf(Get(row, "PERIO")), Get(row, "ITRT_CNTNT"))
  {
    var perio :- Member(row, "PERIO");
    Success(Period(NumberOf(perio), Get(row, "ITRT_CNTNT")))
  }

  /** `(a, b) => a.perio - b.perio` read as "a may stay ahead of b": a
      NaN difference counts as a tie, as `Array.prototype.sort` treats it. */
  predicate PerioLe(a: Period, b: Period) {
    a.perio.None? || b.perio.None? || a.perio.value <= b.perio.value
  }

  /** The period number, 0 for NaN. */
  function PerioKey(p: Period): int {
    if p.perio.Some? then p.perio.value else 0
  }

  /** An order that agrees with the comparator when every period is a
      number, and is a total preorder. */
  predicate NumericLe(a: Period, b: Period) {
    PerioKey(a) <= PerioKey(b)
  }

  function TimetableParams(key: Value, atpt: Value, schul: Value, ymd: Value, grade: Value,
                           classNm: Value, ay: Value, sem: Value): seq<(string, Value)> {
    [("KEY", key), ("Type", Str("json")), ("pIndex", Num(1)), ("pSize", Num(100)),
     ("ATPT_OFCDC_SC_CODE", atpt), ("SD_SCHUL_CODE", schul), ("ALL_TI_YMD", ymd), ("GRADE", grade),
     ("CLASS_NM", classNm), ("AY", ay), ("SEM", sem)]
  }

  /** `getHisTimetable`: the rows as periods, stably sorted by period
      number. */
  function GetHisTimetable(fetch: string -> Result<HttpResponse>, encode: string -> string,
                           key: Value, atpt: Value, schul: Value, ymd: Value, grade: Value,
                           classNm: Value, ay: Value, sem: Value): (r: Result<seq<Period>>)
    ensures var rows := HubFetch(fetch, encode, "hisTimetable",
                                 TimetableParams(key, atpt, schul, ymd, grade, classNm, ay, sem));
      && (r.Success? <==> rows.Success? && forall i :: 0 <= i < |rows.value| ==> !Nullish(rows.value[i]))
      && (r.Success? ==>
            var periods := MapOrFail(rows.value, PeriodOfRow).value;
            multiset(r.value) == multiset(periods) && r.value == SortBy(periods, PerioLe))
  {
    var rows :- HubFetch(fetch, encode, "hisTimetable", TimetableParams(key, atpt, schul, ymd, grade, classNm, ay, sem));
    var periods :- MapOrFail(rows, PeriodOfRow);
    Success(SortBy(periods, PerioLe))
  }

  /** When every `PERIO` is a number, the periods come out in ascending
      order of their numbers. */
  lemma PeriodsAscend(periods: seq<Period>)
    requires forall i :: 0 <= i < |periods| ==> periods[i].perio.Some?
    ensures var sorted := SortBy(periods, PerioLe);
      forall i, j :: 0 <= i < j < |sorted| ==>
        sorted[i].perio.Some? && sorted[j].perio.Some? && sorted[i].perio.value <= sorted[j].perio.value
  {
    SortByAgree(periods, PerioLe, NumericLe);
    assert TotalPreorder(NumericLe);
    SortBySorted(periods, NumericLe);
    var sorted := SortBy(periods, PerioLe);
    forall i | 0 <= i < |sorted| ensures sorted[i].perio.Some? {
      assert sorted[i] in multiset(periods);
    }
  }

  /** Stability in general: when every `PERIO` is a number, the periods of
      any one number come out in row order. */
  lemma {:induction false} PeriodsStable(periods: seq<Period>, n: int)
    requires forall i :: 0 <= i < |periods| ==> periods[i].perio.Some?
    ensures Filter(SortBy(periods, PerioLe), KeyIs(PerioKey, n)) == Filter(periods, KeyIs(PerioKey, n))
  {
    SortByKeepsKeyOrder(periods, PerioLe, PerioKey, n);
  }

  /** Periods with the same number keep their row order. */
  lemma EqualPeriodsKeepOrder(a: Period, b: Period)
    requires a.perio.Some? && a.perio == b.perio
    ensures SortBy([a, b], PerioLe) == [a, b]
    ensures SortBy([b, a], PerioLe) == [b, a]
  {
    assert [a, b][1..] == [b];
    assert [b, a][1..] == [a];
  }

  // ------------------------------------------------------------- schedule

  /** One event of `getSchoolSchedule`. */
  datatype ScheduleItem = ScheduleItem(date: Value, name: Value, desc: Value)

  function ScheduleOfRow(row: Value): (r: Result<ScheduleItem>)
    ensures r.Failure? <==> Nullish(row)
    ensures r.Success? ==> r.value == ScheduleItem(Get(row, "AA_YMD"), Get(row, "EVENT_NM"), Get(row, "CONTENT"))
  {
    var date :- Member(row, "AA_YMD");
    Success(ScheduleItem(date, Get(row, "EVENT_NM"), Get(row, "CONTENT")))
  }

  function ScheduleParams(key: Value, atpt: Value, schul: Value, fromYmd: Value, toYmd: Value): seq<(string, Value)> {
    [("KEY", key), ("Type", Str("json")), ("pIndex", Num(1)), ("pSize", Num(100)),
     ("ATPT_OFCDC_SC_CODE", atpt), ("SD_SCHUL_CODE", schul), ("AA_FROM_YMD", fromYmd), ("AA_TO_YMD", toYmd)]
  }

  /** `getSchoolSchedule`: one event per row, in row order. */
  function GetSchoolSchedule(fetch: string -> Result<HttpResponse>, encode: string -> string,
                             key: Value, atpt: Value, schul: Value, fromYmd: Value, toYmd: Value)
    : (r: Result<seq<ScheduleItem>>)
    ensures var rows := HubFetch(fetch, encode, "SchoolSchedule", ScheduleParams(key, atpt, schul, fromYmd, toYmd));
      && (r.Success? <==> rows.Success? && forall i :: 0 <= i < |rows.value| ==> !Nullish(rows.value[i]))
      && (r.Success? ==>
            && |r.value| == |rows.value|
            && forall i :: 0 <= i < |r.value| ==>
                 r.value[i] == ScheduleItem(Get(rows.value[i], "AA_YMD"), Get(rows.value[i], "EVENT_NM"),
                                           Get(rows.value[i], "CONTENT")))
  {
    var rows :- HubFetch(fetch, encode, "SchoolSchedule", ScheduleParams(key, atpt, schul, fromYmd, toYmd));
    MapOrFail(rows, ScheduleOfRow)
  }
}
