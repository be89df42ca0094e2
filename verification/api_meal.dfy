/** The meal handler (`api/meal.js`): the request parameters, the reply
    text and its quick replies. `todayYMD(true)` is an input. */
module ApiMeal {
  import opened Wrappers
  import opened Text
  import opened Seqs
  import opened Js
  import opened ResponseBuilder
  import opened ApiCommon
  import LibNeis

  /** `【${r.mealName || "급식"}】`. */
  function Heading(m: LibNeis.LibMeal): string {
    "【" + ToStr(Or(m.mealName, Str("급식"))) + "】"
  }

  /** The heading, a line break, and the dishes. */
  function Block(m: LibNeis.LibMeal): string {
    Heading(m) + "\n" + m.dishes
  }

  /** A meal without a name is headed "급식". */
  lemma UnnamedMeal(date: Value, dishes: string)
    ensures Heading(LibNeis.LibMeal(date, Undefined, dishes)) == "【급식】"
    ensures Heading(LibNeis.LibMeal(date, Str(""), dishes)) == "【급식】"
  {
  }

  /** One meal reads back as its heading line and then its dishes, one
      per line, when the menu joined them with `<br/>`. */
  lemma BlockLines(date: Value, name: string, lines: seq<string>)
    requires name != "" && '\n' !in name
    requires |lines| > 0 && forall i :: 0 <= i < |lines| ==> '<' !in lines[i] && '\n' !in lines[i]
    ensures var dishes := LibNeis.Dishes(Str(Join(lines, "<br/>")));
      && dishes.Success?
      && Split(Block(LibNeis.LibMeal(date, Str(name), dishes.value)), '\n') == ["【" + name + "】"] + lines
  {
    var text := Join(lines, "\n");
    LibNeis.DishesSplitIntoLines(lines);
    NamedHeading(date, name, text);
    BlockOf(LibNeis.LibMeal(date, Str(name), text), lines);
  }

  /** A named meal is headed by its name. */
  lemma NamedHeading(date: Value, name: string, dishes: string)
    requires name != ""
    ensures Heading(LibNeis.LibMeal(date, Str(name), dishes)) == "【" + name + "】"
  {
    assert Or(Str(name), Str("급식")) == Str(name);
  }

  /** A block splits into its heading and the lines of its dishes. */
  lemma BlockOf(m: LibNeis.LibMeal, lines: seq<string>)
    requires m.dishes == Join(lines, "\n") && '\n' !in Heading(m)
    requires |lines| > 0 && forall i :: 0 <= i < |lines| ==> '\n' !in lines[i]
    ensures Split(Block(m), '\n') == [Heading(m)] + lines
  {
    HeadThenLines(Heading(m), lines);
  }

  /** A heading line followed by lines splits back into both. */
  lemma HeadThenLines(head: string, lines: seq<string>)
    requires '\n' !in head && |lines| > 0 && forall i :: 0 <= i < |lines| ==> '\n' !in lines[i]
    ensures Split(head + "\n" + Join(lines, "\n"), '\n') == [head] + lines
  {
    var all := [head] + lines;
    assert all[1..] == lines;
    SplitJoin(all, '\n');
  }

  const NoMeals := "해당 날짜에 급식 정보가 없습니다."
  const Failed := "급식 조회 중 오류가 발생했습니다."

  /** The quick replies of a successful answer. */
  const Quick: seq<QuickInput> := [QuickInput(Str("내일 급식"), Str("내일 급식")), QuickInput(Str("시간표"), Str("시간표"))]

  /** The meals separated by blank lines, or the fixed text. */
  function MealsText(meals: seq<LibNeis.LibMeal>): (r: string)
    ensures |meals| == 0 ==> r == NoMeals
    ensures |meals| > 0 ==> r == Join(Map(meals, Block), "\n\n")
  {
    if |meals| == 0 then NoMeals else Join(Map(meals, Block), "\n\n")
  }

  /** `handler`: 405 for anything but POST; otherwise status 200. The day
      is the `dateYMD` parameter or today, the meal type is passed on as
      it came. A successful answer carries the two quick replies, the
      failure text none. */
  function Handle(cfg: Config, today: string, req: Request,
                  fetch: string -> Result<LibNeis.HttpResponse>, encode: string -> string): (r: Reply)
    ensures req.verb != "POST" <==> r.MethodNotAllowed?
    ensures req.verb == "POST" ==>
      var ymd := if Truthy(Param(req.body, "dateYMD")) then Param(req.body, "dateYMD") else Str(today);
      var meals := LibNeis.GetMeal(fetch, encode, cfg.neisKey, cfg.officeCode, cfg.schoolCode, ymd,
                                   Param(req.body, "mealType"));
      && (meals.Failure? ==> r == TextReply(Failed))
      && (meals.Success? ==>
            && r.response.outputs == [MealsText(meals.value)]
            && |r.response.quickReplies| == 2
            && r.response.quickReplies[0] == QuickReply(Str("내일 급식"), Str("message"), Str("내일 급식"))
            && r.response.quickReplies[1] == QuickReply(Str("시간표"), Str("message"), Str("시간표")))
  {
    if req.verb != "POST" then MethodNotAllowed
    else
      var ymd := Or(Param(req.body, "dateYMD"), Str(today));
      match LibNeis.GetMeal(fetch, encode, cfg.neisKey, cfg.officeCode, cfg.schoolCode, ymd,
                            Param(req.body, "mealType"))
      case Failure(_) => TextReply(Failed)
      case Success(meals) => Ok(SimpleText(MealsText(meals), Quick))
  }
}
