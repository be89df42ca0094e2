/** The exam handler (`api/exam.js`): the sheet rows as exams, filtered by
    grade and class, the first ten by date, and the reply text. The sheet,
    as `readCsv` returns it or its error, is an input. */
module ApiExam {
  import opened Wrappers
  import opened Text
  import opened Seqs
  import opened Js
  import opened ResponseBuilder
  import opened ApiCommon

  datatype Exam = Exam(date: Value, grade: string, classNm: string, subject: Value, scope: Value, memo: Value)

  /** The `map` callback: the sheet column `class` becomes `classNm`, and a
      missing grade or class becomes "". */
  function ExamOf(row: Row): (a: Exam)
    ensures a.grade == FieldOr(row, "grade", "") && a.classNm == FieldOr(row, "class", "")
    ensures a.date == FieldValue(row, "date")
    ensures a.subject == FieldValue(row, "subject") && a.scope == FieldValue(row, "scope")
    ensures a.memo == FieldValue(row, "memo")
  {
    Exam(FieldValue(row, "date"), FieldOr(row, "grade", ""), FieldOr(row, "class", ""),
         FieldValue(row, "subject"), FieldValue(row, "scope"), FieldValue(row, "memo"))
  }

  predicate Matches(grade: Value, classNm: Value, a: Exam) {
    ClassMatches(grade, classNm, a.grade, a.classNm)
  }

  /** `(a, b) => (a.date || "").localeCompare(b.date)`. */
  predicate DateLe(a: Exam, b: Exam) {
    LocaleLe(a.date, b.date)
  }

  /** `.filter(...).sort(...).slice(0, 10)`. */
  function Selected(rows: seq<Row>, grade: Value, classNm: Value): (r: seq<Exam>)
    ensures |r| <= 10
    ensures forall k :: 0 <= k < |r| ==>
      && Matches(grade, classNm, r[k])
      && exists i :: 0 <= i < |rows| && r[k] == ExamOf(rows[i])
  {
    var items := Map(rows, ExamOf);
    var r := FirstTen(items, (a: Exam) => Matches(grade, classNm, a), DateLe);
    forall k | 0 <= k < |r| ensures exists i :: 0 <= i < |rows| && r[k] == ExamOf(rows[i]) {
      var i :| 0 <= i < |items| && items[i] == r[k];
    }
    r
  }

  /** The order of dates as text. */
  predicate DateTextLe(a: Exam, b: Exam) {
    StrLe(ToStr(a.date), ToStr(b.date))
  }

  lemma DateTextLeIsPreorder()
    ensures TotalPreorder(DateTextLe)
  {
    forall a: Exam, b: Exam ensures DateTextLe(a, b) || DateTextLe(b, a) {
      StrLeTotal(ToStr(a.date), ToStr(b.date));
    }
    forall a: Exam, b: Exam, c: Exam | DateTextLe(a, b) && DateTextLe(b, c)
      ensures DateTextLe(a, c)
    {
      StrLeTransitive(ToStr(a.date), ToStr(b.date), ToStr(c.date));
    }
  }

  /** With the date column present the comparator is the text order of
      the dates, so the selection is the same under either. */
  lemma DateOrderAgrees(rows: seq<Row>, grade: Value, classNm: Value)
    requires forall i :: 0 <= i < |rows| ==> "date" in rows[i]
    ensures var items, keep := Map(rows, ExamOf), (a: Exam) => Matches(grade, classNm, a);
      FirstTen(items, keep, DateLe) == FirstTen(items, keep, DateTextLe)
  {
    var items := Map(rows, ExamOf);
    var keep := (a: Exam) => Matches(grade, classNm, a);
    var kept := Filter(items, keep);
    KeptHaveDate(rows, keep);
    DateOrdersAgree(kept);
    SortByAgree(kept, DateLe, DateTextLe);
  }

  /** Rows that all have the date column give exams with a date text,
      whichever are kept. */
  lemma KeptHaveDate(rows: seq<Row>, keep: Exam -> bool)
    requires forall i :: 0 <= i < |rows| ==> "date" in rows[i]
    ensures var kept := Filter(Map(rows, ExamOf), keep);
      forall k :: 0 <= k < |kept| ==> kept[k].date.Str?
  {
    var items := Map(rows, ExamOf);
    var kept := Filter(items, keep);
    forall k | 0 <= k < |kept| ensures kept[k].date.Str? {
      var m :| 0 <= m < |items| && items[m] == kept[k];
    }
  }

  /** On date texts the two orders are the same. */
  lemma DateOrdersAgree(kept: seq<Exam>)
    requires forall k :: 0 <= k < |kept| ==> kept[k].date.Str?
    ensures forall i, j :: 0 <= i < |kept| && 0 <= j < |kept| ==> DateLe(kept[i], kept[j]) == DateTextLe(kept[i], kept[j])
  {
    forall i, j | 0 <= i < |kept| && 0 <= j < |kept| ensures DateLe(kept[i], kept[j]) == DateTextLe(kept[i], kept[j]) {
      LocaleLeOnText(kept[i].date.s, kept[j].date.s);
    }
  }

  /** The selection under the text order of dates, for rows that all
      have the date column. */
  lemma SelectedByDateText(rows: seq<Row>, grade: Value, classNm: Value)
    requires forall i :: 0 <= i < |rows| ==> "date" in rows[i]
    ensures var items, keep := Map(rows, ExamOf), (a: Exam) => Matches(grade, classNm, a);
      && Selected(rows, grade, classNm) == FirstTen(items, keep, DateTextLe)
      && SortedBy(FirstTen(items, keep, DateTextLe), DateTextLe)
      && forall i :: 0 <= i < |items| && keep(items[i]) && items[i] !in FirstTen(items, keep, DateTextLe) ==>
           |FirstTen(items, keep, DateTextLe)| == 10
           && forall k :: 0 <= k < |FirstTen(items, keep, DateTextLe)| ==>
                DateTextLe(FirstTen(items, keep, DateTextLe)[k], items[i])
  {
    DateOrderAgrees(rows, grade, classNm);
    DateTextLeIsPreorder();
    TopTen(Map(rows, ExamOf), (a: Exam) => Matches(grade, classNm, a), DateTextLe);
  }

  /** When every row has a date column, the selection is in date order. */
  lemma SelectedInDateOrder(rows: seq<Row>, grade: Value, classNm: Value)
    requires forall i :: 0 <= i < |rows| ==> "date" in rows[i]
    ensures var r := Selected(rows, grade, classNm);
      forall i, j :: 0 <= i < j < |r| ==> StrLe(ToStr(r[i].date), ToStr(r[j].date))
  {
    SelectedByDateText(rows, grade, classNm);
  }

  /** It holds the earliest matching exams: a matching row left out
      means ten were selected, none after it. */
  lemma SelectedAreEarliest(rows: seq<Row>, grade: Value, classNm: Value, i: nat)
    requires forall i :: 0 <= i < |rows| ==> "date" in rows[i]
    requires i < |rows| && Matches(grade, classNm, ExamOf(rows[i]))
    requires ExamOf(rows[i]) !in Selected(rows, grade, classNm)
    ensures var r := Selected(rows, grade, classNm);
      |r| == 10 && forall k :: 0 <= k < |r| ==> StrLe(ToStr(r[k].date), rows[i]["date"])
  {
    var items := Map(rows, ExamOf);
    SelectedByDateText(rows, grade, classNm);
    assert items[i] == ExamOf(rows[i]);
    assert ToStr(items[i].date) == rows[i]["date"];
  }

  /** Nothing is selected exactly when no row matches. */
  lemma NoneSelected(rows: seq<Row>, grade: Value, classNm: Value)
    ensures |Selected(rows, grade, classNm)| == 0 <==>
      forall i :: 0 <= i < |rows| ==> !Matches(grade, classNm, ExamOf(rows[i]))
  {
    var items := Map(rows, ExamOf);
    FirstTenEmpty(items, (a: Exam) => Matches(grade, classNm, a), DateLe);
    assert forall i :: 0 <= i < |rows| ==> items[i] == ExamOf(rows[i]);
  }

  /** One entry: `date [grade-class] subject — scope`, then ` (memo)` when
      there is one. */
  function Line(x: Exam): (r: string)
    ensures !Truthy(x.memo) ==>
      r == ToStr(x.date) + " [" + x.grade + "-" + x.classNm + "] " + ToStr(x.subject) + " — " + ToStr(x.scope)
    ensures Truthy(x.memo) ==>
      r == ToStr(x.date) + " [" + x.grade + "-" + x.classNm + "] " + ToStr(x.subject) + " — " + ToStr(x.scope)
           + " (" + ToStr(x.memo) + ")"
  {
    ToStr(x.date) + " [" + x.grade + "-" + x.classNm + "] " + ToStr(x.subject) + " — " + ToStr(x.scope)
      + (if Truthy(x.memo) then " (" + ToStr(x.memo) + ")" else "")
  }

  const NoExams := "등록된 시험 일정이 없습니다."
  const Failed := "시험 일정 조회 중 오류가 발생했습니다."

  /** One entry per line, or the fixed text when there is none. */
  function ExamsText(items: seq<Exam>): (r: string)
    ensures |items| == 0 ==> r == NoExams
    ensures |items| > 0 ==> r == Join(Map(items, Line), "\n")
  {
    if |items| == 0 then NoExams else Join(Map(items, Line), "\n")
  }

  /** Entries without a line break read back one per line. */
  lemma EntriesReadBack(items: seq<Exam>)
    requires |items| > 0 && forall i :: 0 <= i < |items| ==> '\n' !in Line(items[i])
    ensures Split(ExamsText(items), '\n') == Map(items, Line)
  {
    SplitJoin(Map(items, Line), '\n');
  }

  /** `handler`: 405 for anything but POST; otherwise status 200 with the
      selected exams, or the failure text when the sheet cannot be
      read. */
  function Handle(req: Request, sheet: Result<seq<Row>>): (r: Reply)
    ensures req.verb != "POST" <==> r.MethodNotAllowed?
    ensures req.verb == "POST" && sheet.Failure? ==> r == TextReply(Failed)
    ensures req.verb == "POST" && sheet.Success? ==>
      r == TextReply(ExamsText(Selected(sheet.value, Param(req.body, "grade"), Param(req.body, "classNm"))))
  {
    if req.verb != "POST" then MethodNotAllowed
    else match sheet
      case Failure(_) => TextReply(Failed)
      case Success(rows) =>
        TextReply(ExamsText(Selected(rows, Param(req.body, "grade"), Param(req.body, "classNm"))))
  }
}
