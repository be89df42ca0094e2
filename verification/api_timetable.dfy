/** The timetable handler (`api/timetable.js`): the request parameters
    with their defaults, the semester rule, and the reply text. The current
    day and `todayYMD(true)` are inputs. */
module ApiTimetable {
  import opened Wrappers
  import opened Text
  import opened Seqs
  import opened Js
  import opened Calendar
  import opened DateUtil
  import opened ResponseBuilder
  import opened ApiCommon
  import LibNeis

  /** `sem || (month <= 2 ? "1" : "2")`. */
  function Semester(body: Value, month: int): (r: Value)
    ensures Truthy(Param(body, "sem")) ==> r == Param(body, "sem")
    ensures !Truthy(Param(body, "sem")) ==> r == Str(if month <= 2 then "1" else "2")
  {
    Or(Param(body, "sem"), Str(if month <= 2 then "1" else "2"))
  }

  /** The handler's own semester guess differs from `getSemesterByMonth`
      everywhere but September to December. */
  lemma SemesterRulesDiffer(body: Value, month: int)
    requires 1 <= month <= 12 && !Truthy(Param(body, "sem"))
    ensures Semester(body, month) == Str(SemesterByMonth(month)) <==> 9 <= month
  {
  }

  /** What the handler asks NEIS for: each parameter of the request, or
      its default when it is falsy. The academic year is the current
      calendar year. */
  datatype Query = Query(ymd: Value, grade: Value, classNm: Value, ay: Value, sem: Value)

  function QueryOf(cfg: Config, now: Day, today: string, body: Value): (q: Query)
    ensures Truthy(Param(body, "dateYMD")) ==> q.ymd == Param(body, "dateYMD")
    ensures !Truthy(Param(body, "dateYMD")) ==> q.ymd == Str(today)
    ensures Truthy(Param(body, "grade")) ==> q.grade == Param(body, "grade")
    ensures !Truthy(Param(body, "grade")) ==> q.grade == cfg.defaultGrade
    ensures Truthy(Param(body, "classNm")) ==> q.classNm == Param(body, "classNm")
    ensures !Truthy(Param(body, "classNm")) ==> q.classNm == cfg.defaultClassNm
    ensures q.ay == Str(IntToString(now.year)) && q.sem == Semester(body, now.month)
  {
    Query(Or(Param(body, "dateYMD"), Str(today)), Or(Param(body, "grade"), cfg.defaultGrade),
          Or(Param(body, "classNm"), cfg.defaultClassNm), Str(IntToString(now.year)), Semester(body, now.month))
  }

  /** A request without parameters asks for today's timetable of the
      default class. */
  lemma EmptyBodyUsesDefaults(cfg: Config, now: Day, today: string)
    requires today != ""
    ensures QueryOf(cfg, now, today, Obj(map[])) ==
      Query(Str(today), cfg.defaultGrade, cfg.defaultClassNm, Str(IntToString(now.year)),
            Str(if now.month <= 2 then "1" else "2"))
  {
  }

  /** `${grade}학년 ${classNm}반 ${ymd} 시간표`. */
  function Header(q: Query): string {
    ToStr(q.grade) + "학년 " + ToStr(q.classNm) + "반 " + ToStr(q.ymd) + " 시간표"
  }

  /** `${r.perio}교시: ${r.subject}`; a period that is not a number prints
      as NaN. */
  function PeriodLine(p: LibNeis.Period): string {
    NumberText(p.perio) + "교시: " + ToStr(p.subject)
  }

  const NoPeriods := "해당 날짜에 시간표 정보가 없습니다."
  const Failed := "시간표 조회 중 오류가 발생했습니다."

  /** The header, then one line per period or the fixed text. */
  function TimetableText(q: Query, periods: seq<LibNeis.Period>): (r: string)
    ensures |periods| == 0 ==> r == Header(q) + "\n" + NoPeriods
    ensures |periods| > 0 ==> r == Header(q) + "\n" + Join(Map(periods, PeriodLine), "\n")
  {
    Header(q) + "\n" + (if |periods| == 0 then NoPeriods else Join(Map(periods, PeriodLine), "\n"))
  }

  /** The reply reads back line by line: the header first, then each
      period in order (or the fixed text), when no part holds a line
      break. */
  lemma TimetableLines(q: Query, periods: seq<LibNeis.Period>)
    requires '\n' !in Header(q)
    requires forall i :: 0 <= i < |periods| ==> '\n' !in PeriodLine(periods[i])
    ensures |periods| > 0 ==> Split(TimetableText(q, periods), '\n') == [Header(q)] + Map(periods, PeriodLine)
    ensures |periods| == 0 ==> Split(TimetableText(q, periods), '\n') == [Header(q), NoPeriods]
  {
    var lines := if |periods| == 0 then [NoPeriods] else Map(periods, PeriodLine);
    var all := [Header(q)] + lines;
    assert all[1..] == lines;
    assert Join(all, "\n") == TimetableText(q, periods) by {
      if |periods| == 0 {
        assert Join(lines, "\n") == NoPeriods;
      }
    }
    SplitJoin(all, '\n');
  }

  /** `handler`: 405 for anything but POST; otherwise status 200 with the
      timetable of the query, or the failure text when the request
      fails. */
  function Handle(cfg: Config, now: Day, today: string, req: Request,
                  fetch: string -> Result<LibNeis.HttpResponse>, encode: string -> string): (r: Reply)
    ensures req.verb != "POST" <==> r.MethodNotAllowed?
    ensures req.verb == "POST" ==>
      var q := QueryOf(cfg, now, today, req.body);
      var periods := LibNeis.GetHisTimetable(fetch, encode, cfg.neisKey, cfg.officeCode, cfg.schoolCode,
                                             q.ymd, q.grade, q.classNm, q.ay, q.sem);
      && (periods.Failure? ==> r == TextReply(Failed))
      && (periods.Success? ==> r == TextReply(TimetableText(q, periods.value)))
  {
    if req.verb != "POST" then MethodNotAllowed
    else
      var q := QueryOf(cfg, now, today, req.body);
      match LibNeis.GetHisTimetable(fetch, encode, cfg.neisKey, cfg.officeCode, cfg.schoolCode,
                                    q.ymd, q.grade, q.classNm, q.ay, q.sem)
      case Failure(_) => TextReply(Failed)
      case Success(periods) => TextReply(TimetableText(q, periods))
  }
}
