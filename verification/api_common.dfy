/** What the serverless handlers under `api/` share: the request, the
    reply, the action parameters, the grade and class filter of the sheet
    handlers, and their "first ten by key" selection. The configuration,
    `parseBody` and `todayYMD` come from `api/_common.js`, which is not part
    of this model: they are inputs here. */
module ApiCommon {
  import opened Wrappers
  import opened Text
  import opened Seqs
  import opened Js
  import opened ResponseBuilder

  /** `CONFIG`: the NEIS key, the office and school codes and the default
      grade and class. */
  datatype Config = Config(neisKey: Value, officeCode: Value, schoolCode: Value,
                           defaultGrade: Value, defaultClassNm: Value)

  /** The method and the body as `parseBody(req.body || "{}")` returns it; `verb` is `req.method`. */
  datatype Request = Request(verb: string, body: Value)

  /** `res.status(405).end()`, or status 200 with a Kakao reply. */
  datatype Reply = MethodNotAllowed | Ok(response: Response)

  /** `body?.action?.params?.[name]`. */
  function Param(body: Value, name: string): Value {
    Get(Get(Get(body, "action"), "params"), name)
  }

  /** `simpleText(text)`: the text alone, no quick replies. */
  function TextReply(text: string): (r: Reply)
    ensures r.Ok? && r.response.outputs == [text] && r.response.quickReplies == []
  {
    Ok(SimpleText(text, []))
  }

  /** `(!grade || r.grade === String(grade)) && (!classNm || r.classNm === String(classNm))`. */
  predicate ClassMatches(grade: Value, classNm: Value, itemGrade: string, itemClass: string) {
    (!Truthy(grade) || itemGrade == ToStr(grade)) && (!Truthy(classNm) || itemClass == ToStr(classNm))
  }

  /** Without a grade or a class every item matches; with both, exactly
      the items of that grade and class. */
  lemma ClassFilter(grade: Value, classNm: Value, itemGrade: string, itemClass: string)
    ensures !Truthy(grade) && !Truthy(classNm) ==> ClassMatches(grade, classNm, itemGrade, itemClass)
    ensures Truthy(grade) && Truthy(classNm) ==>
      (ClassMatches(grade, classNm, itemGrade, itemClass) <==> itemGrade == ToStr(grade) && itemClass == ToStr(classNm))
    ensures ClassMatches(Num(2), Undefined, "2", itemClass) && !ClassMatches(Num(2), Undefined, "02", itemClass)
  {
    assert ToStr(Num(2)) == "2";
  }

  /** `(a || "").localeCompare(b) <= 0`, with `localeCompare` taken as
      code-unit order: the left key falls back to "", the right one is
      `String(b)`, so a missing right key reads "undefined". */
  predicate LocaleLe(a: Value, b: Value) {
    StrLe(ToStr(Or(a, Str(""))), ToStr(b))
  }

  /** On present text keys the comparator is the text order. */
  lemma LocaleLeOnText(a: string, b: string)
    ensures LocaleLe(Str(a), Str(b)) <==> StrLe(a, b)
  {
    if a == "" {
      assert Or(Str(a), Str("")) == Str("");
    }
  }

  /** `.filter(keep).sort(le).slice(0, 10)`. */
  function FirstTen<T(!new)>(items: seq<T>, keep: T -> bool, le: (T, T) -> bool): (r: seq<T>)
    ensures |r| == if |Filter(items, keep)| < 10 then |Filter(items, keep)| else 10
    ensures forall k :: 0 <= k < |r| ==> keep(r[k]) && r[k] in items
  {
    var sorted := SortBy(Filter(items, keep), le);
    forall k | 0 <= k < |sorted| ensures sorted[k] in Filter(items, keep) {
      assert sorted[k] in multiset(sorted);
    }
    Take(sorted, 10)
  }

  /** Nothing is selected exactly when no item is kept. */
  lemma FirstTenEmpty<T(!new)>(items: seq<T>, keep: T -> bool, le: (T, T) -> bool)
    ensures |FirstTen(items, keep, le)| == 0 <==> forall i :: 0 <= i < |items| ==> !keep(items[i])
  {
    var kept := Filter(items, keep);
    if |kept| == 0 {
      forall i | 0 <= i < |items| ensures !keep(items[i]) {
      }
    }
  }

  /** With a total preorder, the selection is ordered, and it holds the
      ten least kept items: a kept item left out means ten were selected,
      each no greater than it. */
  lemma TopTen<T(!new)>(items: seq<T>, keep: T -> bool, le: (T, T) -> bool)
    requires TotalPreorder(le)
    ensures SortedBy(FirstTen(items, keep, le), le)
    ensures var r := FirstTen(items, keep, le);
      forall i :: 0 <= i < |items| && keep(items[i]) && items[i] !in r ==>
        |r| == 10 && forall k :: 0 <= k < |r| ==> le(r[k], items[i])
  {
    var kept := Filter(items, keep);
    var sorted := SortBy(kept, le);
    var r := FirstTen(items, keep, le);
    SortBySorted(kept, le);
    assert r == Take(sorted, 10);
    forall i | 0 <= i < |items| && keep(items[i]) && items[i] !in r
      ensures |r| == 10 && forall k :: 0 <= k < |r| ==> le(r[k], items[i])
    {
      assert items[i] in kept;
      assert items[i] in multiset(sorted);
      var m :| 0 <= m < |sorted| && sorted[m] == items[i];
      forall k | 0 <= k < |r| ensures le(r[k], items[i]) {
        assert r[k] == sorted[k];
      }
    }
  }

  /** Lines separated by blank lines: `[a, "", b, "", c]`. */
  function Spaced(lines: seq<string>): (r: seq<string>)
    ensures |lines| > 0 ==> |r| == 2 * |lines| - 1
    ensures forall k :: 0 <= k < |r| ==> r[k] == "" || r[k] in lines
  {
    if |lines| <= 1 then lines
    else [lines[0], ""] + Spaced(lines[1..])
  }

  /** The lines sit at the even places, the blank lines at the odd ones. */
  lemma {:induction false} SpacedPlaces(lines: seq<string>, i: nat)
    requires i < |lines|
    ensures Spaced(lines)[2 * i] == lines[i]
    ensures i < |lines| - 1 ==> Spaced(lines)[2 * i + 1] == ""
  {
    if i > 0 {
      SpacedPlaces(lines[1..], i - 1);
      assert Spaced(lines) == [lines[0], ""] + Spaced(lines[1..]);
    }
  }

  /** `join("\n\n")` is `join("\n")` of the lines with blank lines between. */
  lemma {:induction false} JoinBlankLines(lines: seq<string>)
    ensures Join(lines, "\n\n") == Join(Spaced(lines), "\n")
  {
    if |lines| > 1 {
      JoinBlankLines(lines[1..]);
      var rest := Spaced(lines[1..]);
      assert Spaced(lines) == [lines[0], ""] + rest;
      BlankStep(lines[0], rest, "\n");
      assert lines[0] + "\n" + "\n" == lines[0] + "\n\n";
    }
  }

  /** One step of the above: an empty line after the head doubles the
      separator. */
  lemma BlankStep(head: string, rest: seq<string>, sep: string)
    requires |rest| > 0
    ensures Join([head, ""] + rest, sep) == head + sep + sep + Join(rest, sep)
  {
    JoinAppend([head, ""], rest, sep);
    assert [head, ""][1..] == [""];
  }

  /** Lines free of line breaks joined by blank lines split back into the
      lines with an empty line between each two. */
  lemma BlankLinesSplit(lines: seq<string>)
    requires |lines| > 0 && forall i :: 0 <= i < |lines| ==> '\n' !in lines[i]
    ensures Split(Join(lines, "\n\n"), '\n') == Spaced(lines)
  {
    JoinBlankLines(lines);
    SplitJoin(Spaced(lines), '\n');
  }
}
