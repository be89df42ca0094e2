/** The assignment handler (`api/assignment.js`): the sheet rows as
    assignments, filtered by grade and class, the first ten by due date,
    and the reply text. The sheet, as `readCsv` returns it or its error,
    is an input. */
module ApiAssignment {
  import opened Wrappers
  import opened Text
  import opened Seqs
  import opened Js
  import opened ResponseBuilder
  import opened ApiCommon

  datatype Assignment = Assignment(due: Value, grade: string, classNm: string, subject: Value,
                                   item: Value, weight: Value, link: Value)

  /** The `map` callback: the sheet column `class` becomes `classNm`, and a
      missing grade or class becomes "". */
  function AssignmentOf(row: Row): (a: Assignment)
    ensures a.grade == FieldOr(row, "grade", "") && a.classNm == FieldOr(row, "class", "")
    ensures a.due == FieldValue(row, "due")
    ensures a.subject == FieldValue(row, "subject") && a.item == FieldValue(row, "item")
    ensures a.weight == FieldValue(row, "weight") && a.link == FieldValue(row, "link")
  {
    Assignment(FieldValue(row, "due"), FieldOr(row, "grade", ""), FieldOr(row, "class", ""),
               FieldValue(row, "subject"), FieldValue(row, "item"), FieldValue(row, "weight"),
               FieldValue(row, "link"))
  }

  predicate Matches(grade: Value, classNm: Value, a: Assignment) {
    ClassMatches(grade, classNm, a.grade, a.classNm)
  }

  /** `(a, b) => (a.due || "").localeCompare(b.due)`. */
  predicate DueLe(a: Assignment, b: Assignment) {
    LocaleLe(a.due, b.due)
  }

  /** `.filter(...).sort(...).slice(0, 10)`. */
  function Selected(rows: seq<Row>, grade: Value, classNm: Value): (r: seq<Assignment>)
    ensures |r| <= 10
    ensures forall k :: 0 <= k < |r| ==>
      && Matches(grade, classNm, r[k])
      && exists i :: 0 <= i < |rows| && r[k] == AssignmentOf(rows[i])
  {
    var items := Map(rows, AssignmentOf);
    var r := FirstTen(items, (a: Assignment) => Matches(grade, classNm, a), DueLe);
    forall k | 0 <= k < |r| ensures exists i :: 0 <= i < |rows| && r[k] == AssignmentOf(rows[i]) {
      var i :| 0 <= i < |items| && items[i] == r[k];
    }
    r
  }

  /** The order of due dates as text. */
  predicate DueTextLe(a: Assignment, b: Assignment) {
    StrLe(ToStr(a.due), ToStr(b.due))
  }

  lemma DueTextLeIsPreorder()
    ensures TotalPreorder(DueTextLe)
  {
    forall a: Assignment, b: Assignment ensures DueTextLe(a, b) || DueTextLe(b, a) {
      StrLeTotal(ToStr(a.due), ToStr(b.due));
    }
    forall a: Assignment, b: Assignment, c: Assignment | DueTextLe(a, b) && DueTextLe(b, c)
      ensures DueTextLe(a, c)
    {
      StrLeTransitive(ToStr(a.due), ToStr(b.due), ToStr(c.due));
    }
  }

  /** With the due column present the comparator is the text order of
      the due dates, so the selection is the same under either. */
  lemma DueOrderAgrees(rows: seq<Row>, grade: Value, classNm: Value)
    requires forall i :: 0 <= i < |rows| ==> "due" in rows[i]
    ensures var items, keep := Map(rows, AssignmentOf), (a: Assignment) => Matches(grade, classNm, a);
      FirstTen(items, keep, DueLe) == FirstTen(items, keep, DueTextLe)
  {
    var items := Map(rows, AssignmentOf);
    var keep := (a: Assignment) => Matches(grade, classNm, a);
    var kept := Filter(items, keep);
    KeptHaveDue(rows, keep);
    DueOrdersAgree(kept);
    SortByAgree(kept, DueLe, DueTextLe);
  }

  /** Rows that all have the due column give assignments with a due
      text, whichever are kept. */
  lemma KeptHaveDue(rows: seq<Row>, keep: Assignment -> bool)
    requires forall i :: 0 <= i < |rows| ==> "due" in rows[i]
    ensures var kept := Filter(Map(rows, AssignmentOf), keep);
      forall k :: 0 <= k < |kept| ==> kept[k].due.Str?
  {
    var items := Map(rows, AssignmentOf);
    var kept := Filter(items, keep);
    forall k | 0 <= k < |kept| ensures kept[k].due.Str? {
      var m :| 0 <= m < |items| && items[m] == kept[k];
    }
  }

  /** On due texts the two orders are the same. */
  lemma DueOrdersAgree(kept: seq<Assignment>)
    requires forall k :: 0 <= k < |kept| ==> kept[k].due.Str?
    ensures forall i, j :: 0 <= i < |kept| && 0 <= j < |kept| ==> DueLe(kept[i], kept[j]) == DueTextLe(kept[i], kept[j])
  {
    forall i, j | 0 <= i < |kept| && 0 <= j < |kept| ensures DueLe(kept[i], kept[j]) == DueTextLe(kept[i], kept[j]) {
      LocaleLeOnText(kept[i].due.s, kept[j].due.s);
    }
  }

  /** The selection under the text order of due dates, for rows that all
      have the due column. */
  lemma SelectedByDueText(rows: seq<Row>, grade: Value, classNm: Value)
    requires forall i :: 0 <= i < |rows| ==> "due" in rows[i]
    ensures var items, keep := Map(rows, AssignmentOf), (a: Assignment) => Matches(grade, classNm, a);
      && Selected(rows, grade, classNm) == FirstTen(items, keep, DueTextLe)
      && SortedBy(FirstTen(items, keep, DueTextLe), DueTextLe)
      && forall i :: 0 <= i < |items| && keep(items[i]) && items[i] !in FirstTen(items, keep, DueTextLe) ==>
           |FirstTen(items, keep, DueTextLe)| == 10
           && forall k :: 0 <= k < |FirstTen(items, keep, DueTextLe)| ==>
                DueTextLe(FirstTen(items, keep, DueTextLe)[k], items[i])
  {
    DueOrderAgrees(rows, grade, classNm);
    DueTextLeIsPreorder();
    TopTen(Map(rows, AssignmentOf), (a: Assignment) => Matches(grade, classNm, a), DueTextLe);
  }

  /** When every row has a due column, the selection is in due order. */
  lemma SelectedInDueOrder(rows: seq<Row>, grade: Value, classNm: Value)
    requires forall i :: 0 <= i < |rows| ==> "due" in rows[i]
    ensures var r := Selected(rows, grade, classNm);
      forall i, j :: 0 <= i < j < |r| ==> StrLe(ToStr(r[i].due), ToStr(r[j].due))
  {
    SelectedByDueText(rows, grade, classNm);
  }

  /** It holds the earliest matching assignments: a matching row left out
      means ten were selected, none due after it. */
  lemma SelectedAreEarliest(rows: seq<Row>, grade: Value, classNm: Value, i: nat)
    requires forall i :: 0 <= i < |rows| ==> "due" in rows[i]
    requires i < |rows| && Matches(grade, classNm, AssignmentOf(rows[i]))
    requires AssignmentOf(rows[i]) !in Selected(rows, grade, classNm)
    ensures var r := Selected(rows, grade, classNm);
      |r| == 10 && forall k :: 0 <= k < |r| ==> StrLe(ToStr(r[k].due), rows[i]["due"])
  {
    var items := Map(rows, AssignmentOf);
    SelectedByDueText(rows, grade, classNm);
    assert items[i] == AssignmentOf(rows[i]);
    assert ToStr(items[i].due) == rows[i]["due"];
  }

  /** Nothing is selected exactly when no row matches. */
  lemma NoneSelected(rows: seq<Row>, grade: Value, classNm: Value)
    ensures |Selected(rows, grade, classNm)| == 0 <==>
      forall i :: 0 <= i < |rows| ==> !Matches(grade, classNm, AssignmentOf(rows[i]))
  {
    var items := Map(rows, AssignmentOf);
    FirstTenEmpty(items, (a: Assignment) => Matches(grade, classNm, a), DueLe);
    assert forall i :: 0 <= i < |rows| ==> items[i] == AssignmentOf(rows[i]);
  }

  /** One entry: `due [grade-class] subject — item`, then ` (weight)` and a
      line with the link when they are there. */
  function Line(x: Assignment): (r: string)
    ensures var head := ToStr(x.due) + " [" + x.grade + "-" + x.classNm + "] " + ToStr(x.subject) + " — " + ToStr(x.item);
      && (!Truthy(x.weight) && !Truthy(x.link) ==> r == head)
      && (Truthy(x.weight) && !Truthy(x.link) ==> r == head + " (" + ToStr(x.weight) + ")")
      && (!Truthy(x.weight) && Truthy(x.link) ==> r == head + "\n" + ToStr(x.link))
      && (Truthy(x.weight) && Truthy(x.link) ==> r == head + " (" + ToStr(x.weight) + ")" + "\n" + ToStr(x.link))
    ensures Truthy(x.link) ==> '\n' in r
  {
    ToStr(x.due) + " [" + x.grade + "-" + x.classNm + "] " + ToStr(x.subject) + " — " + ToStr(x.item)
      + (if Truthy(x.weight) then " (" + ToStr(x.weight) + ")" else "")
      + (if Truthy(x.link) then "\n" + ToStr(x.link) else "")
  }

  const NoAssignments := "등록된 수행평가 일정이 없습니다."
  const Failed := "수행평가 조회 중 오류가 발생했습니다."

  /** The entries separated by blank lines, or the fixed text when there
      is none. */
  function AssignmentsText(items: seq<Assignment>): (r: string)
    ensures |items| == 0 ==> r == NoAssignments
    ensures |items| > 0 ==> r == Join(Map(items, Line), "\n\n")
  {
    if |items| == 0 then NoAssignments else Join(Map(items, Line), "\n\n")
  }

  /** Entries without a line break (so without a link) read back one per
      line, with a blank line between each two. */
  lemma EntriesReadBack(items: seq<Assignment>)
    requires |items| > 0 && forall i :: 0 <= i < |items| ==> '\n' !in Line(items[i])
    ensures Split(AssignmentsText(items), '\n') == Spaced(Map(items, Line))
  {
    BlankLinesSplit(Map(items, Line));
  }

  /** `handler`: 405 for anything but POST; otherwise status 200 with the
      selected assignments, or the failure text when the sheet cannot be
      read. */
  function Handle(req: Request, sheet: Result<seq<Row>>): (r: Reply)
    ensures req.verb != "POST" <==> r.MethodNotAllowed?
    ensures req.verb == "POST" && sheet.Failure? ==> r == TextReply(Failed)
    ensures req.verb == "POST" && sheet.Success? ==>
      r == TextReply(AssignmentsText(Selected(sheet.value, Param(req.body, "grade"), Param(req.body, "classNm"))))
  {
    if req.verb != "POST" then MethodNotAllowed
    else match sheet
      case Failure(_) => TextReply(Failed)
      case Success(rows) =>
        TextReply(AssignmentsText(Selected(rows, Param(req.body, "grade"), Param(req.body, "classNm"))))
  }
}
