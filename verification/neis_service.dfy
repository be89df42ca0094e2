/** The direct NEIS client (`src/services/neisService.js`): query strings,
    the payload check, dish parsing and the row mapping of meals and
    school events. The HTTP request is a parameter. */
module NeisService {
  import opened Wrappers
  import opened Text
  import opened Seqs
  import opened Js
  import opened BrTags

  // ------------------------------------------------------------- queries

  /** A value that takes part in a query: not `undefined`, `null` or "". */
  predicate Present(v: Value) {
    !v.Undefined? && !v.Null? && v != Str("")
  }

  /** The entries that survive the filter of `buildQuery`, in order. */
  function Kept(params: seq<(string, Value)>): (r: seq<(string, Value)>)
    ensures Subsequence(r, params)
    ensures forall i :: 0 <= i < |r| ==> Present(r[i].1) && r[i] in params
    ensures forall i :: 0 <= i < |params| && Present(params[i].1) ==> params[i] in r
  {
    Filter(params, PresentEntry)
  }

  predicate PresentEntry(e: (string, Value)) {
    Present(e.1)
  }

  /** Every present entry is kept as many times as it occurs, and every
      other entry is dropped. */
  lemma KeptCounts(params: seq<(string, Value)>)
    ensures forall e :: multiset(Kept(params))[e] == if Present(e.1) then multiset(params)[e] else 0
  {
    FilterCounts(params, PresentEntry);
  }

  /** `encodeURIComponent` escapes `&` and `=`, so neither appears in its
      output. */
  ghost predicate EscapesSeparators(encode: string -> string) {
    forall s :: '&' !in encode(s) && '=' !in encode(s)
  }

  /** `${encodeURIComponent(key)}=${encodeURIComponent(value)}`. */
  function Pair(encode: string -> string, e: (string, Value)): string {
    encode(e.0) + "=" + encode(ToStr(e.1))
  }

  /** `buildQuery` (and `qs` of `lib/neis.js`): the kept entries as
      `key=value`, joined by "&". With an encoder that escapes the
      separators, splitting the query at "&" gives back one pair per kept
      entry, in order, and each pair splits at "=" into key and value. */
  function BuildQuery(params: seq<(string, Value)>, encode: string -> string): (q: string)
    ensures |Kept(params)| == 0 ==> q == ""
    ensures EscapesSeparators(encode) && |Kept(params)| > 0 ==>
      var pairs := Split(q, '&');
      && |pairs| == |Kept(params)|
      && forall i :: 0 <= i < |pairs| ==>
           Split(pairs[i], '=') == [encode(Kept(params)[i].0), encode(ToStr(Kept(params)[i].1))]
  {
    QuerySplits(params, encode);
    Join(Map(Kept(params), (e: (string, Value)) => Pair(encode, e)), "&")
  }

  lemma QuerySplits(params: seq<(string, Value)>, encode: string -> string)
    ensures var kept := Kept(params);
      var pairs := Split(Join(Map(kept, (e: (string, Value)) => Pair(encode, e)), "&"), '&');
      EscapesSeparators(encode) && |kept| > 0 ==>
        && |pairs| == |kept|
        && forall i :: 0 <= i < |pairs| ==> Split(pairs[i], '=') == [encode(kept[i].0), encode(ToStr(kept[i].1))]
  {
    var kept := Kept(params);
    var pairs := Map(kept, (e: (string, Value)) => Pair(encode, e));
    if EscapesSeparators(encode) && |kept| > 0 {
      forall i | 0 <= i < |pairs|
        ensures '&' !in pairs[i] && Split(pairs[i], '=') == [encode(kept[i].0), encode(ToStr(kept[i].1))]
      {
        PairSplits(encode, kept[i]);
      }
      SplitJoin(pairs, '&');
    }
  }

  lemma PairSplits(encode: string -> string, e: (string, Value))
    requires EscapesSeparators(encode)
    ensures '&' !in Pair(encode, e)
    ensures Split(Pair(encode, e), '=') == [encode(e.0), encode(ToStr(e.1))]
  {
    var parts := [encode(e.0), encode(ToStr(e.1))];
    assert Join(parts, "=") == Pair(encode, e);
    SplitJoin(parts, '=');
  }

  /** Zero is a value like any other: only the three empty values drop. */
  lemma ZeroIsKept(key: string)
    ensures Kept([(key, Num(0))]) == [(key, Num(0))]
    ensures Kept([(key, Undefined), (key, Null), (key, Str(""))]) == []
  {
  }

  // ----------------------------------------------------- payload check

  /** `items.find((item) => item?.RESULT)`: `undefined` when none. */
  function FirstWithResult(items: seq<Value>): (r: Value)
    ensures r.Undefined? <==> forall i :: 0 <= i < |items| ==> !Truthy(Get(items[i], "RESULT"))
    ensures !r.Undefined? ==> exists i :: 0 <= i < |items| && r == items[i] && Truthy(Get(items[i], "RESULT"))
                                         && forall j :: 0 <= j < i ==> !Truthy(Get(items[j], "RESULT"))
  {
    if |items| == 0 then Undefined
    else if Truthy(Get(items[0], "RESULT")) then items[0]
    else
      var r := FirstWithResult(items[1..]);
      assert forall i :: 1 <= i < |items| ==> items[i] == items[1..][i - 1];
      r
  }

  /** The `RESULT` of the first head entry that has one, `null` when the
      meta part has no head array. */
  function HeadResult(meta: Value): Value {
    var head := Get(meta, "head");
    if head.Arr? then Get(FirstWithResult(head.items), "RESULT") else Null
  }

  /** What `requestNeis` does with a successful response; `values` is
      `Object.values(payload)`, whose first two entries are the meta part
      and the data part. A `RESULT.CODE` that is present and not exactly
      "INFO-000" is an error; otherwise the rows are `data.row` when it is
      an array, else none. */
  function CheckPayload(values: seq<Value>): (r: Result<seq<Value>>)
    ensures var code := Get(HeadResult(if |values| > 0 then values[0] else Undefined), "CODE");
      r.Failure? <==> Truthy(code) && code != Str("INFO-000")
    ensures r.Success? ==>
      var rows := Get(if |values| > 1 then values[1] else Undefined, "row");
      (rows.Arr? ==> r.value == rows.items) && (!rows.Arr? ==> r.value == [])
  {
    var meta := if |values| > 0 then values[0] else Undefined;
    var data := if |values| > 1 then values[1] else Undefined;
    var result := HeadResult(meta);
    var code := Get(result, "CODE");
    if Truthy(code) && code != Str("INFO-000") then
      Failure("NEIS API returned error " + ToStr(code) + ": " + ToStr(Get(result, "MESSAGE")))
    else
      var rows := Coalesce(Get(data, "row"), Arr([]));
      Success(if rows.Arr? then rows.items else [])
  }

  /** "INFO-200" (no data) is an error for this client. */
  lemma NoDataIsAnError(rest: seq<Value>)
    ensures CheckPayload([Obj(map["head" := Arr([Obj(map["RESULT" := Obj(map["CODE" := Str("INFO-200")])])])])] + rest).Failure?
  {
    var meta := Obj(map["head" := Arr([Obj(map["RESULT" := Obj(map["CODE" := Str("INFO-200")])])])]);
    assert ([meta] + rest)[0] == meta;
    assert Get(HeadResult(meta), "CODE") == Str("INFO-200");
  }

  // ------------------------------------------------------------- dishes

  /** A dish: its name and its allergy codes. */
  datatype Dish = Dish(name: string, allergyCodes: seq<nat>)

  /** `[0-9.]`. */
  predicate CodeChar(c: char) {
    IsDigit(c) || c == '.'
  }

  /** The optional group `\(([0-9.]+)\)$` matches from index `i` to the end. */
  predicate GroupAt(s: string, i: nat) {
    && i + 3 <= |s| && s[i] == '(' && s[|s| - 1] == ')'
    && forall k :: i < k < |s| - 1 ==> CodeChar(s[k])
  }

  /** The group can match at one index at most, since `(` is not a code
      character. */
  lemma GroupUnique(s: string, i: nat, j: nat)
    requires GroupAt(s, i) && GroupAt(s, j)
    ensures i == j
  {
  }

  /** The lazy `(.*?)`: the name grows one character at a time from `from`
      until the rest of the text is the group; without a group the name is
      the whole text. */
  function LazyGroup(s: string, from: nat): (r: Option<nat>)
    ensures r.Some? ==> from <= r.value < |s| && GroupAt(s, r.value)
    ensures r.None? ==> forall k: nat :: from <= k < |s| ==> !GroupAt(s, k)
    decreases |s| - from
  {
    if from >= |s| then None
    else if GroupAt(s, from) then Some(from)
    else LazyGroup(s, from + 1)
  }

  /** `^\d+(\.\d+)*\.?$`: digit runs joined by single dots, with at most
      one dot at the end. */
  predicate ValidCodes(c: string) {
    && |c| > 0 && IsDigit(c[0])
    && (forall k :: 0 <= k < |c| ==> CodeChar(c[k]))
    && (forall k :: 0 <= k < |c| - 1 ==> !(c[k] == '.' && c[k + 1] == '.'))
  }

  /** `codes.replace(/\.$/, "")`: one trailing dot goes. */
  function DropTrailingDot(c: string): (r: string)
    ensures |c| > 0 && c[|c| - 1] == '.' ==> r == c[..|c| - 1]
    ensures (|c| == 0 || c[|c| - 1] != '.') ==> r == c
  {
    if |c| > 0 && c[|c| - 1] == '.' then c[..|c| - 1] else c
  }

  /** Length of the leading digit run. */
  function DigitRun(s: string): (n: nat)
    ensures n <= |s| && AllDigits(s[..n]) && (n < |s| ==> !IsDigit(s[n]))
  {
    if |s| > 0 && IsDigit(s[0]) then
      var n := 1 + DigitRun(s[1..]);
      assert forall k :: 1 <= k < n ==> s[..n][k] == s[1..][..n - 1][k - 1];
      n
    else 0
  }

  /** `Number.parseInt(piece, 10)` on a piece without leading spaces or
      sign: the value of the leading digits, NaN (`None`) when there are
      none. */
  function ParseInt(s: string): (r: Option<nat>)
    ensures AllDigits(s) && |s| > 0 ==> r == Some(DecimalValue(s))
    ensures r.None? <==> |s| == 0 || !IsDigit(s[0])
  {
    var n := DigitRun(s);
    assert s[..|s|] == s;
    if n == 0 then None else Some(DecimalValue(s[..n]))
  }

  /** The allergy codes of a valid group: split at the dots, parsed, and
      the non-integers dropped. */
  function Codes(c: string): seq<nat> {
    Somes(Map(Split(DropTrailingDot(c), '.'), ParseInt))
  }

  /** `parseDish`: whitespace runs become single spaces and the ends are
      trimmed; blank text is no dish. A trailing parenthesised group of
      digits and dots is cut from the name; it yields codes only when it is
      valid. */
  function ParseDish(raw: string): (r: Option<Dish>)
    ensures r.None? <==> Blank(raw)
    ensures r.Some? ==> var n := r.value.name; |n| > 0 ==> !IsSpace(n[0]) && !IsSpace(n[|n| - 1])
  {
    var cleaned := Trim(CollapseSpaces(raw));
    if cleaned == "" then None else Some(DishOf(cleaned))
  }

  /** The match on non-blank cleaned text: the lazy name, and the group if
      there is one. */
  function DishOf(cleaned: string): (d: Dish)
    ensures var n := d.name; |n| > 0 ==> !IsSpace(n[0]) && !IsSpace(n[|n| - 1])
  {
    match LazyGroup(cleaned, 0)
    case None => Dish(Trim(cleaned), [])
    case Some(i) =>
      var codes := cleaned[i + 1..|cleaned| - 1];
      Dish(Trim(cleaned[..i]), if ValidCodes(codes) then Codes(codes) else [])
  }

  /** A name that `parseDish` keeps as it is: single-spaced and trimmed. */
  predicate CleanName(name: string) {
    SingleSpaced(name) && (|name| > 0 ==> !IsSpace(name[0]) && !IsSpace(name[|name| - 1]))
  }

  /** The codes as the menu writes them: `1.5.13`. */
  function CodeText(codes: seq<nat>): string {
    Join(Map(codes, NatToString), ".")
  }

  /** A numeral, a dot and valid codes ending in a digit are valid codes
      ending in a digit. */
  lemma DotJoin(a: string, b: string)
    requires |a| > 0 && AllDigits(a) && ValidCodes(b) && IsDigit(b[|b| - 1])
    ensures ValidCodes(a + "." + b) && IsDigit((a + "." + b)[|a| + |b|])
  {
    var c := a + "." + b;
    var n := |a|;
    assert forall k :: 0 <= k < n ==> c[k] == a[k];
    assert forall k :: n < k < |c| ==> c[k] == b[k - n - 1];
    assert c[n] == '.';
    forall k | 0 <= k < |c| - 1 ensures !(c[k] == '.' && c[k + 1] == '.') {
      if k < n - 1 {
        assert IsDigit(c[k]);
      } else if k == n - 1 {
        assert IsDigit(c[k]);
      } else if k == n {
        assert c[k + 1] == b[0];
      } else {
        assert c[k] == b[k - n - 1] && c[k + 1] == b[k - n];
      }
    }
  }

  lemma {:induction false} CodeTextShape(codes: seq<nat>)
    requires |codes| > 0
    ensures var c := CodeText(codes);
      ValidCodes(c) && IsDigit(c[|c| - 1])
  {
    var head := NatToString(codes[0]);
    if |codes| > 1 {
      var rest := CodeText(codes[1..]);
      CodeTextShape(codes[1..]);
      assert Map(codes, NatToString)[1..] == Map(codes[1..], NatToString);
      assert CodeText(codes) == head + "." + rest;
      DotJoin(head, rest);
    } else {
      assert CodeText(codes) == head;
    }
  }

  lemma CodesOfCodeText(codes: seq<nat>)
    requires |codes| > 0
    ensures Codes(CodeText(codes)) == codes
  {
    var c := CodeText(codes);
    CodeTextShape(codes);
    var parts := Map(codes, NatToString);
    forall i | 0 <= i < |parts| ensures '.' !in parts[i] {
      assert AllDigits(parts[i]);
    }
    SplitJoin(parts, '.');
    assert DropTrailingDot(c) == c;
    var parsed := Map(parts, ParseInt);
    assert forall i :: 0 <= i < |parsed| ==> parsed[i] == Some(codes[i]);
    SomesAllPresent(parsed);
  }

  /** A dish as a menu line: the name, then the codes in parentheses when
      there are any. */
  function Render(d: Dish): string {
    if |d.allergyCodes| == 0 then d.name else d.name + "(" + CodeText(d.allergyCodes) + ")"
  }

  /** Text without whitespace can follow single-spaced text. */
  lemma SingleSpacedAppend(a: string, t: string)
    requires SingleSpaced(a) && forall k :: 0 <= k < |t| ==> !IsSpace(t[k])
    ensures SingleSpaced(a + t)
  {
    var s := a + t;
    assert forall k :: 0 <= k < |a| ==> s[k] == a[k];
    assert forall k :: |a| <= k < |s| ==> s[k] == t[k - |a|];
  }

  /** `(group)` for digits and dots: free of whitespace. */
  lemma GroupText(g: string)
    requires forall k :: 0 <= k < |g| ==> CodeChar(g[k])
    ensures var t := "(" + g + ")";
      && (forall k :: 0 <= k < |t| ==> !IsSpace(t[k]))
      && t[1..|t| - 1] == g
  {
    var t := "(" + g + ")";
    assert forall k :: 0 < k < |t| - 1 ==> t[k] == g[k - 1];
    forall k | 0 <= k < |t| ensures !IsSpace(t[k]) {
      if 0 < k < |t| - 1 {
        assert CodeChar(g[k - 1]);
      }
    }
  }

  /** Where the group can match, the lazy match finds it. */
  lemma LazyFinds(s: string, n: nat)
    requires GroupAt(s, n)
    ensures LazyGroup(s, 0) == Some(n)
  {
    var m := LazyGroup(s, 0);
    GroupUnique(s, m.value, n);
  }

  /** A clean name followed by `(group)` is clean text already. */
  lemma GroupedClean(name: string, g: string)
    requires CleanName(name) && forall k :: 0 <= k < |g| ==> CodeChar(g[k])
    ensures var s := name + "(" + g + ")"; Trim(CollapseSpaces(s)) == s
  {
    var t := "(" + g + ")";
    var s := name + t;
    GroupText(g);
    SingleSpacedAppend(name, t);
    assert !IsSpace(s[0]) by {
      if |name| > 0 {
        assert s[0] == name[0];
      } else {
        assert s[0] == t[0];
      }
    }
    assert s[|s| - 1] == t[|t| - 1];
    CleanTextKept(s);
    GroupAppended(name, g);
  }

  lemma GroupAppended(name: string, g: string)
    ensures name + ("(" + g + ")") == name + "(" + g + ")"
  {
  }

  /** Single-spaced text with no space at either end is clean already. */
  lemma CleanTextKept(s: string)
    requires SingleSpaced(s) && |s| > 0 && !IsSpace(s[0]) && !IsSpace(s[|s| - 1])
    ensures Trim(CollapseSpaces(s)) == s
  {
    CollapseSingleSpaced(s);
  }

  /** A text whose group starts at `n`: the name before it and the codes
      inside it. */
  lemma DishOfGroup(s: string, n: nat)
    requires GroupAt(s, n)
    ensures var codes := s[n + 1..|s| - 1];
      DishOf(s) == Dish(Trim(s[..n]), if ValidCodes(codes) then Codes(codes) else [])
  {
    LazyFinds(s, n);
  }

  /** A clean name followed by a group of digits and dots: the lazy match
      cuts the group off, and it yields codes when it is valid. */
  lemma GroupedDish(name: string, g: string)
    requires CleanName(name) && |g| > 0 && forall k :: 0 <= k < |g| ==> CodeChar(g[k])
    ensures ParseDish(name + "(" + g + ")") == Some(Dish(name, if ValidCodes(g) then Codes(g) else []))
  {
    var s := name + "(" + g + ")";
    GroupShape(name, g);
    GroupedClean(name, g);
    ParseCleanText(s);
    DishOfNamed(s, name, g);
  }

  /** A text that cleaning leaves alone is matched as it is. */
  lemma ParseCleanText(s: string)
    requires s != "" && Trim(CollapseSpaces(s)) == s
    ensures ParseDish(s) == Some(DishOf(s))
  {
  }

  /** The match of a clean name followed by its group. */
  lemma DishOfNamed(s: string, name: string, g: string)
    requires CleanName(name) && GroupAt(s, |name|)
    requires s[..|name|] == name && s[|name| + 1..|s| - 1] == g
    ensures DishOf(s) == Dish(name, if ValidCodes(g) then Codes(g) else [])
  {
    DishOfGroup(s, |name|);
    CleanTrimmed(name);
  }

  /** Where the name and the group sit in `name(g)`. */
  lemma GroupShape(name: string, g: string)
    requires |g| > 0 && forall k :: 0 <= k < |g| ==> CodeChar(g[k])
    ensures var s, n := name + "(" + g + ")", |name|;
      && s[..n] == name && s[n + 1..|s| - 1] == g && GroupAt(s, n)
  {
    var s := name + "(" + g + ")";
    var n := |name|;
    assert s[..n] == name;
    assert s[n + 1..|s| - 1] == g;
    assert forall k :: n < k < |s| - 1 ==> s[k] == g[k - n - 1];
  }

  /** Trimming a clean name leaves it as it is. */
  lemma CleanTrimmed(name: string)
    requires CleanName(name)
    ensures Trim(name) == name
  {
    if |name| == 0 {
      assert Blank(name);
    }
  }

  /** Reading a rendered dish gives the dish back: name and codes in order. */
  lemma DishRoundTrip(d: Dish)
    requires |d.allergyCodes| > 0 && CleanName(d.name)
    ensures ParseDish(Render(d)) == Some(Dish(d.name, d.allergyCodes))
  {
    var c := CodeText(d.allergyCodes);
    CodeTextShape(d.allergyCodes);
    GroupedDish(d.name, c);
    CodesOfCodeText(d.allergyCodes);
  }

  /** A name without any `(` is taken whole, with no codes. */
  lemma PlainDish(name: string)
    requires |name| > 0 && CleanName(name) && '(' !in name
    ensures ParseDish(name) == Some(Dish(name, []))
  {
    forall k: nat | k < |name| ensures !GroupAt(name, k) {
      assert name[k] in name;
    }
    UngroupedWhole(name);
  }

  /** A clean text with no group anywhere is taken whole, with no codes. */
  lemma UngroupedWhole(s: string)
    requires |s| > 0 && CleanName(s) && forall k: nat :: k < |s| ==> !GroupAt(s, k)
    ensures ParseDish(s) == Some(Dish(s, []))
  {
    CollapseSingleSpaced(s);
    assert LazyGroup(s, 0).None?;
  }

  /** A group of digits and dots that fails validation is still cut from
      the name, and no codes come out of it. */
  lemma InvalidGroupStripped(name: string, g: string)
    requires CleanName(name) && |g| > 0 && !ValidCodes(g)
    requires forall k :: 0 <= k < |g| ==> CodeChar(g[k])
    ensures ParseDish(name + "(" + g + ")") == Some(Dish(name, []))
  {
    GroupedDish(name, g);
  }

  /** A parenthesised group holding anything but digits and dots is no
      group: the text stays in the name. */
  lemma OtherParenthesesKept(name: string, inner: string)
    requires CleanName(name + "(" + inner + ")") && '(' !in name && '(' !in inner
    requires exists k :: 0 <= k < |inner| && !CodeChar(inner[k])
    ensures ParseDish(name + "(" + inner + ")") == Some(Dish(name + "(" + inner + ")", []))
  {
    var s := name + "(" + inner + ")";
    var n := |name|;
    forall k: nat | k < |s| ensures !GroupAt(s, k) {
      if k < n {
        assert s[k] == name[k] && name[k] in name;
      } else if k > n && k < |s| - 1 {
        assert s[k] == inner[k - n - 1] && inner[k - n - 1] in inner;
      } else if k == n {
        var j :| 0 <= j < |inner| && !CodeChar(inner[j]);
        assert s[n + 1 + j] == inner[j];
      }
    }
    UngroupedWhole(s);
  }

  // --------------------------------------------------------------- menus

  /** The lines of a menu: `String(raw ?? "")` with the `<br>` variants
      (no spaces before `>`) turned into line breaks, split at each break;
      joined again with line breaks they give that text back. */
  function MenuLines(raw: Value): (lines: seq<string>)
    ensures |lines| >= 1 && forall i :: 0 <= i < |lines| ==> '\n' !in lines[i]
    ensures Join(lines, "\n") == ReplaceTags(ToStr(Coalesce(raw, Str(""))), false)
  {
    Split(ReplaceTags(ToStr(Coalesce(raw, Str(""))), false), '\n')
  }

  /** `sanitizeMenu`: every line parsed as a dish, the blank ones dropped.
      The source splits at runs of breaks; the extra empty lines that
      splitting at each break leaves are blank and give no dish. */
  function SanitizeMenu(raw: Value): (r: seq<Dish>)
    ensures Nullish(raw) ==> r == []
    ensures forall i :: 0 <= i < |r| ==> Some(r[i]) in Map(MenuLines(raw), ParseDish)
    ensures forall i :: 0 <= i < |MenuLines(raw)| && !Blank(MenuLines(raw)[i]) ==>
              ParseDish(MenuLines(raw)[i]).value in r
  {
    NullishMenu(raw);
    ParsedKept(MenuLines(raw));
    Somes(Map(MenuLines(raw), ParseDish))
  }

  /** A missing menu is one empty line, which gives no dish. */
  lemma NullishMenu(raw: Value)
    ensures Nullish(raw) ==> MenuLines(raw) == [""] && Somes(Map(MenuLines(raw), ParseDish)) == []
  {
    if Nullish(raw) {
      assert ToStr(Coalesce(raw, Str(""))) == "";
      assert ReplaceTags("", false) == "";
      assert MenuLines(raw) == Split("", '\n');
      EmptyLineNoDish();
    }
  }

  /** The empty text is one empty line, and that line is no dish. */
  lemma EmptyLineNoDish()
    ensures Split("", '\n') == [""] && Somes(Map([""], ParseDish)) == []
  {
    assert ParseDish("") == None by { assert Blank(""); }
    assert Map([""], ParseDish) == [None];
  }

  /** Every line that is not blank gives a dish that is kept. */
  lemma ParsedKept(lines: seq<string>)
    ensures forall i :: 0 <= i < |lines| && !Blank(lines[i]) ==> ParseDish(lines[i]).value in Somes(Map(lines, ParseDish))
  {
    var parsed := Map(lines, ParseDish);
    forall i | 0 <= i < |lines| && !Blank(lines[i]) ensures ParseDish(lines[i]).value in Somes(parsed) {
      assert parsed[i] == ParseDish(lines[i]);
    }
  }

  /** A dish of the menu text that `parseDish` reads back whole. */
  predicate Printable(d: Dish) {
    && |d.allergyCodes| > 0 && CleanName(d.name) && '<' !in d.name
  }

  /** Codes as the menu writes them hold neither `<` nor a line break. */
  lemma CodeTextPlain(codes: seq<nat>)
    requires |codes| > 0
    ensures '<' !in CodeText(codes) && '\n' !in CodeText(codes)
  {
    var c := CodeText(codes);
    CodeTextShape(codes);
    forall k | 0 <= k < |c| ensures c[k] != '<' && c[k] != '\n' {
      assert CodeChar(c[k]);
    }
  }

  /** A rendered dish holds neither `<` nor a line break. */
  lemma RenderedPlain(d: Dish)
    requires Printable(d)
    ensures '<' !in Render(d) && '\n' !in Render(d)
  {
    CodeTextPlain(d.allergyCodes);
    assert '\n' !in d.name by {
      forall k | 0 <= k < |d.name| ensures d.name[k] != '\n' {
        assert IsSpace('\n');
      }
    }
    assert Render(d) == d.name + "(" + CodeText(d.allergyCodes) + ")";
  }

  /** `<br/>` is a tag of the `sanitizeMenu` pattern, whatever follows. */
  lemma SlashTag(t: string)
    ensures TagAt("<br/>" + t, false) == Some(5)
  {
    var s := "<br/>" + t;
    assert s[3..][0] == '/';
    assert s[4..][0] == '>';
  }

  /** Lines free of `<` joined by `<br/>` come out joined by line breaks. */
  lemma {:induction false} TagsBecomeBreaks(lines: seq<string>)
    requires |lines| > 0 && forall i :: 0 <= i < |lines| ==> '<' !in lines[i]
    ensures ReplaceTags(Join(lines, "<br/>"), false) == Join(lines, "\n")
  {
    if |lines| > 1 {
      var rest := Join(lines[1..], "<br/>");
      TagsBecomeBreaks(lines[1..]);
      SlashTag(rest);
      TagBecomesNewline("<br/>", rest, false);
      PlainPrefix(lines[0], "<br/>" + rest, false);
      assert Join(lines, "<br/>") == lines[0] + ("<br/>" + rest);
    } else {
      PlainPrefix(lines[0], "", false);
      assert lines[0] + "" == lines[0];
    }
  }

  /** A menu written as rendered dishes separated by `<br/>` is read back
      as the same dishes, in order. */
  lemma MenuRoundTrip(dishes: seq<Dish>)
    requires |dishes| > 0 && forall i :: 0 <= i < |dishes| ==> Printable(dishes[i])
    ensures SanitizeMenu(Str(Join(Map(dishes, Render), "<br/>"))) == dishes
  {
    var lines := Map(dishes, Render);
    RenderedLinesPlain(dishes);
    MenuLinesOfJoin(lines);
    DishesReadBack(dishes);
  }

  /** Rendered dishes hold neither `<` nor a line break. */
  lemma RenderedLinesPlain(dishes: seq<Dish>)
    requires forall i :: 0 <= i < |dishes| ==> Printable(dishes[i])
    ensures var lines := Map(dishes, Render);
      forall i :: 0 <= i < |lines| ==> '<' !in lines[i] && '\n' !in lines[i]
  {
    var lines := Map(dishes, Render);
    forall i | 0 <= i < |lines| ensures '<' !in lines[i] && '\n' !in lines[i] {
      RenderedPlain(dishes[i]);
    }
  }

  /** Plain lines joined by `<br/>` come back as the menu's lines. */
  lemma MenuLinesOfJoin(lines: seq<string>)
    requires |lines| > 0 && forall i :: 0 <= i < |lines| ==> '<' !in lines[i] && '\n' !in lines[i]
    ensures MenuLines(Str(Join(lines, "<br/>"))) == lines
  {
    TagsBecomeBreaks(lines);
    SplitJoin(lines, '\n');
  }

  /** Every rendered dish parses back, so all of them are kept, in order. */
  lemma DishesReadBack(dishes: seq<Dish>)
    requires forall i :: 0 <= i < |dishes| ==> Printable(dishes[i])
    ensures Somes(Map(Map(dishes, Render), ParseDish)) == dishes
  {
    var parsed := Map(Map(dishes, Render), ParseDish);
    forall i | 0 <= i < |parsed| ensures parsed[i] == Some(dishes[i]) {
      DishRoundTrip(dishes[i]);
    }
    SomesAllPresent(parsed);
  }

  // -------------------------------------------------------- row mapping

  /** One meal of `getMealsByDate`. */
  datatype Meal = Meal(mealCode: Value, mealName: Value, date: Value, dishes: seq<Dish>,
                       origin: Value, calorie: Value, nutrition: Value)

  /** The mapping of one meal row; reading a field of a `null` row throws. */
  function MealOf(row: Value): (r: Result<Meal>)
    ensures r.Failure? <==> Nullish(row)
    ensures r.Success? ==>
      && r.value.mealCode == Get(row, "MMEAL_SC_CODE") && r.value.mealName == Get(row, "MMEAL_SC_NM")
      && r.value.date == Get(row, "MLSV_YMD")
      && r.value.dishes == SanitizeMenu(Get(row, "DDISH_NM"))
      && (Truthy(Get(row, "ORPLC_INFO")) ==> r.value.origin == Get(row, "ORPLC_INFO"))
      && (!Truthy(Get(row, "ORPLC_INFO")) ==> r.value.origin == Str(""))
      && (Truthy(Get(row, "CAL_INFO")) ==> r.value.calorie == Get(row, "CAL_INFO"))
      && (!Truthy(Get(row, "CAL_INFO")) ==> r.value.calorie == Str(""))
      && (Truthy(Get(row, "NTR_INFO")) ==> r.value.nutrition == Get(row, "NTR_INFO"))
      && (!Truthy(Get(row, "NTR_INFO")) ==> r.value.nutrition == Str(""))
  {
    var code :- Member(row, "MMEAL_SC_CODE");
    Success(Meal(code, Get(row, "MMEAL_SC_NM"), Get(row, "MLSV_YMD"), SanitizeMenu(Get(row, "DDISH_NM")),
                 Or(Get(row, "ORPLC_INFO"), Str("")), Or(Get(row, "CAL_INFO"), Str("")),
                 Or(Get(row, "NTR_INFO"), Str(""))))
  }

  /** One event of `getMonthlySchedule`. */
  datatype Event = Event(title: Value, date: Value, grade: Value, description: Value)

  /** The mapping of one schedule row: the title falls back to the date and
      then to "일정", so it is never empty; the description falls back to
      `EVENT_CNTNT` and then to "". */
  function EventOf(row: Value): (r: Result<Event>)
    ensures r.Failure? <==> Nullish(row)
    ensures r.Success? ==>
      && Truthy(r.value.title)
      && (Truthy(Get(row, "EVENT_NM")) ==> r.value.title == Get(row, "EVENT_NM"))
      && (!Truthy(Get(row, "EVENT_NM")) && Truthy(Get(row, "AA_YMD")) ==> r.value.title == Get(row, "AA_YMD"))
      && (!Truthy(Get(row, "EVENT_NM")) && !Truthy(Get(row, "AA_YMD")) ==> r.value.title == Str("일정"))
      && r.value.date == Get(row, "AA_YMD")
      && (Truthy(Get(row, "SBTR_DD_SC_NM")) ==> r.value.grade == Get(row, "SBTR_DD_SC_NM"))
      && (!Truthy(Get(row, "SBTR_DD_SC_NM")) ==> r.value.grade == Str(""))
      && (Truthy(Get(row, "CONTENT")) ==> r.value.description == Get(row, "CONTENT"))
      && (!Truthy(Get(row, "CONTENT")) && Truthy(Get(row, "EVENT_CNTNT")) ==>
            r.value.description == Get(row, "EVENT_CNTNT"))
      && (!Truthy(Get(row, "CONTENT")) && !Truthy(Get(row, "EVENT_CNTNT")) ==> r.value.description == Str(""))
  {
    var name :- Member(row, "EVENT_NM");
    Success(Event(Or(Or(name, Get(row, "AA_YMD")), Str("일정")), Get(row, "AA_YMD"),
                  Or(Get(row, "SBTR_DD_SC_NM"), Str("")),
                  Or(Or(Get(row, "CONTENT"), Get(row, "EVENT_CNTNT")), Str(""))))
  }

  // ------------------------------------------------------------ requests

  /** The school the client asks about and its key (`neisConfig`). */
  datatype NeisConfig = NeisConfig(apiKey: Value, officeCode: Value, schoolCode: Value)

  /** `${BASE_URL}/${endpoint}?${buildQuery(query)}`. */
  function RequestUrl(endpoint: string, query: seq<(string, Value)>, encode: string -> string): string {
    "https://open.neis.go.kr/hub/" + endpoint + "?" + BuildQuery(query, encode)
  }

  /** `requestNeis`: `fetch` gives `Object.values` of the parsed payload
      for a URL, or the error of a failed response. */
  function RequestNeis(fetch: string -> Result<seq<Value>>, encode: string -> string,
                       endpoint: string, query: seq<(string, Value)>): (r: Result<seq<Value>>)
    ensures fetch(RequestUrl(endpoint, query, encode)).Failure? ==> r.Failure?
    ensures fetch(RequestUrl(endpoint, query, encode)).Success? ==>
              r == CheckPayload(fetch(RequestUrl(endpoint, query, encode)).value)
  {
    var values :- fetch(RequestUrl(endpoint, query, encode));
    CheckPayload(values)
  }

  function MealQuery(cfg: NeisConfig, ymd: string): seq<(string, Value)> {
    [("KEY", cfg.apiKey), ("Type", Str("json")), ("pIndex", Num(1)), ("pSize", Num(100)),
     ("ATPT_OFCDC_SC_CODE", cfg.officeCode), ("SD_SCHUL_CODE", cfg.schoolCode),
     ("MLSV_FROM_YMD", Str(ymd)), ("MLSV_TO_YMD", Str(ymd))]
  }

  /** `getMealsByDate` for the NEIS key `ymd` of the day. */
  function GetMealsByDate(cfg: NeisConfig, fetch: string -> Result<seq<Value>>, encode: string -> string,
                          ymd: string): (r: Result<seq<Meal>>)
    ensures var rows := RequestNeis(fetch, encode, "mealServiceDietInfo", MealQuery(cfg, ymd));
      && (r.Success? <==> rows.Success? && forall i :: 0 <= i < |rows.value| ==> !Nullish(rows.value[i]))
      && (r.Success? ==> |r.value| == |rows.value|
                         && forall i :: 0 <= i < |r.value| ==> MealOf(rows.value[i]) == Success(r.value[i]))
  {
    var rows :- RequestNeis(fetch, encode, "mealServiceDietInfo", MealQuery(cfg, ymd));
    MapOrFail(rows, MealOf)
  }

  function ScheduleQuery(cfg: NeisConfig, fromYmd: string, toYmd: string): seq<(string, Value)> {
    [("KEY", cfg.apiKey), ("Type", Str("json")), ("pIndex", Num(1)), ("pSize", Num(200)),
     ("ATPT_OFCDC_SC_CODE", cfg.officeCode), ("SD_SCHUL_CODE", cfg.schoolCode),
     ("AA_FROM_YMD", Str(fromYmd)), ("AA_TO_YMD", Str(toYmd))]
  }

  /** `getMonthlySchedule` for the NEIS keys of the two ends. */
  function GetMonthlySchedule(cfg: NeisConfig, fetch: string -> Result<seq<Value>>, encode: string -> string,
                              fromYmd: string, toYmd: string): (r: Result<seq<Event>>)
    ensures var rows := RequestNeis(fetch, encode, "SchoolSchedule", ScheduleQuery(cfg, fromYmd, toYmd));
      && (r.Success? <==> rows.Success? && forall i :: 0 <= i < |rows.value| ==> !Nullish(rows.value[i]))
      && (r.Success? ==> |r.value| == |rows.value|
                         && forall i :: 0 <= i < |r.value| ==> EventOf(rows.value[i]) == Success(r.value[i]))
  {
    var rows :- RequestNeis(fetch, encode, "SchoolSchedule", ScheduleQuery(cfg, fromYmd, toYmd));
    MapOrFail(rows, EventOf)
  }
}
