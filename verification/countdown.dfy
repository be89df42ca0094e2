/** The countdowns (`src/services/ddayService.js`, `src/services/examDdayService.js`):
    the nearest event or exam of a static list that is not yet past, with
    the number of days left. The list is the parsed data file; "today" is
    the reference day. */
module Countdown {
  import opened Wrappers
  import opened Text
  import opened Seqs
  import opened Js
  import opened Calendar
  import opened DateUtil

  /** A candidate: the record as returned and its days left. */
  datatype Entry = Entry(fields: Record, daysLeft: int)

  /** `differenceInCalendarDays(day, today)`. */
  function DaysBetween(today: Day, day: Day): (n: int)
    ensures AddDays(today, n) == day
  {
    var n := Ordinal(day) - Ordinal(today);
    OrdinalInjective(AddDays(today, n), day);
    n
  }

  /** The own fields of a record, as `{ ...record }` copies them. */
  function OwnFields(v: Value): Record {
    if v.Obj? then v.props else map[]
  }

  /** The `map` callback: reading `date` of a `null` entry throws; an entry
      whose date does not parse is `null`; otherwise the entry with its
      date rewritten to ISO form, the short display date and the days left. */
  function EntryOf(env: Env, today: Day, item: Value): (r: Result<Option<Entry>>)
    ensures r.Failure? <==> Nullish(item)
    ensures r.Success? ==> (r.value.None? <==> env.flexibleParse(Get(item, "date")).None?)
    ensures r.Success? && r.value.Some? ==>
      var day, e := env.flexibleParse(Get(item, "date")).value, r.value.value;
      && AddDays(today, e.daysLeft) == day
      && e.fields == OwnFields(item)["date" := Str(IsoDate(day))]["displayDate" := Str(env.shortDate(day))]
                                    ["daysLeft" := Num(e.daysLeft)]
  {
    var raw :- Member(item, "date");
    match env.flexibleParse(raw)
    case None => Success(None)
    case Some(day) =>
      var gap := DaysBetween(today, day);
      Success(Some(Entry(OwnFields(item)["date" := Str(IsoDate(day))]["displayDate" := Str(env.shortDate(day))]
                                        ["daysLeft" := Num(gap)], gap)))
  }

  predicate NotPast(e: Entry) {
    e.daysLeft >= 0
  }

  /** The `map` callback as a value. */
  function EntryIn(env: Env, today: Day): Value -> Result<Option<Entry>> {
    v => EntryOf(env, today, v)
  }

  /** Per item of the list, its candidate: the entry when it parses and is
      not past, `None` otherwise. */
  function Upcoming(env: Env, today: Day, items: seq<Value>): (u: seq<Option<Entry>>)
    ensures |u| == |items|
    ensures forall i :: 0 <= i < |items| ==>
      (u[i].Some? <==> EntryOf(env, today, items[i]).Success? && EntryOf(env, today, items[i]).value.Some?
                       && NotPast(EntryOf(env, today, items[i]).value.value))
    ensures forall i :: 0 <= i < |items| && u[i].Some? ==> EntryOf(env, today, items[i]) == Success(u[i])
  {
    Map(items, KeepIf(EntryIn(env, today), NotPast))
  }

  predicate DaysLe(a: Entry, b: Entry) {
    a.daysLeft <= b.daysLeft
  }

  /** The entries that parse and are not past, in list order. */
  function Candidates(env: Env, today: Day, items: seq<Value>): (r: Result<seq<Entry>>)
    ensures r.Failure? <==> exists i :: 0 <= i < |items| && Nullish(items[i])
    ensures r.Success? ==> forall k :: 0 <= k < |r.value| ==>
      && NotPast(r.value[k])
      && exists i :: 0 <= i < |items| && EntryOf(env, today, items[i]) == Success(Some(r.value[k]))
    ensures r.Success? ==> forall i :: 0 <= i < |items| ==>
      var e := EntryOf(env, today, items[i]);
      e.Success? && e.value.Some? && NotPast(e.value.value) ==> e.value.value in r.value
    ensures r.Success? ==> r.value == Somes(Upcoming(env, today, items))
  {
    CollectKept(items, EntryIn(env, today), NotPast)
  }

  /** `e` is the first of the candidates with the fewest days left. */
  ghost predicate FirstNearest(e: Entry, c: seq<Entry>) {
    exists i :: 0 <= i < |c| && c[i] == e
                && (forall j :: 0 <= j < |c| ==> e.daysLeft <= c[j].daysLeft)
                && (forall j :: 0 <= j < i ==> c[j].daysLeft > e.daysLeft)
  }

  /** The same over the list: `e` is the candidate of the first item whose
      candidate has the fewest days left (`u` holds `None` for items
      without one). */
  ghost predicate FirstNearestItem(e: Entry, u: seq<Option<Entry>>) {
    exists m :: 0 <= m < |u| && u[m] == Some(e)
                && (forall j :: 0 <= j < |u| && u[j].Some? ==> e.daysLeft <= u[j].value.daysLeft)
                && (forall j :: 0 <= j < m && u[j].Some? ==> u[j].value.daysLeft > e.daysLeft)
  }

  /** The head of the stable sort by days left: the first of the nearest
      candidates, which is the candidate of the first nearest item of the
      list. */
  function Nearest(env: Env, today: Day, items: seq<Value>): (r: Result<Option<Entry>>)
    ensures r.Failure? <==> Candidates(env, today, items).Failure?
    ensures r.Success? ==> (r.value.None? <==> |Candidates(env, today, items).value| == 0)
    ensures r.Success? && r.value.Some? ==> FirstNearest(r.value.value, Candidates(env, today, items).value)
    ensures r.Success? && r.value.Some? ==> FirstNearestItem(r.value.value, Upcoming(env, today, items))
  {
    var c :- Candidates(env, today, items);
    if |c| == 0 then Success(None)
    else
      var e := SortBy(c, DaysLe)[0];
      SortedHeadNearest(c);
      NearestInList(Upcoming(env, today, items), c, e);
      Success(Some(e))
  }

  /** The first least candidate, traced back to the list. */
  lemma NearestInList(u: seq<Option<Entry>>, c: seq<Entry>, e: Entry)
    requires c == Somes(u) && FirstNearest(e, c)
    ensures FirstNearestItem(e, u)
  {
    var i :| 0 <= i < |c| && c[i] == e
             && (forall j :: 0 <= j < |c| ==> e.daysLeft <= c[j].daysLeft)
             && (forall j :: 0 <= j < i ==> c[j].daysLeft > e.daysLeft);
    var m := SomesIndex(u, i);
    forall j | 0 <= j < |u| && u[j].Some? ensures e.daysLeft <= u[j].value.daysLeft {
      var k :| 0 <= k < |c| && c[k] == u[j].value;
    }
    forall j | 0 <= j < m && u[j].Some? ensures u[j].value.daysLeft > e.daysLeft {
      var k :| 0 <= k < i && c[k] == u[j].value;
    }
  }

  /** Days left order the entries totally. */
  lemma DaysLeTotal()
    ensures TotalPreorder(DaysLe)
  {
  }

  /** The head of the candidates sorted by days left has the fewest days
      left, and every candidate before it has more. */
  lemma SortedHeadNearest(c: seq<Entry>)
    requires |c| > 0
    ensures FirstNearest(SortBy(c, DaysLe)[0], c)
  {
    DaysLeTotal();
    SortHeadIsFirstLeast(c, DaysLe);
    var i :| 0 <= i < |c| && SortBy(c, DaysLe)[0] == c[i] && Least(c[i], c, DaysLe)
             && forall j :: 0 <= j < i ==> !Least(c[j], c, DaysLe);
    var e := c[i];
    forall j | 0 <= j < |c| ensures e.daysLeft <= c[j].daysLeft {
      assert DaysLe(e, c[j]);
    }
    forall j | 0 <= j < i ensures c[j].daysLeft > e.daysLeft {
      assert !Least(c[j], c, DaysLe);
    }
  }

  /** `D-DAY` on the day, `D-n` before it. */
  function Label(daysLeft: int): (r: string)
    ensures daysLeft == 0 ==> r == "D-DAY"
  {
    if daysLeft == 0 then "D-DAY" else "D-" + IntToString(daysLeft)
  }

  /** The label reads back as the days left: "D-DAY" only on the day, and
      the number after "D-" otherwise. */
  lemma LabelReadsBack(n: nat)
    ensures Label(n) == "D-DAY" <==> n == 0
    ensures n > 0 ==> Label(n)[..2] == "D-" && ToNumber(Label(n)[2..]) == Some(n)
  {
    if n > 0 {
      ToNumberOfNumeral(n);
      assert Label(n)[2..] == NatToString(n);
      assert Label(n)[2] != 'D' by {
        assert IsDigit(NatToString(n)[0]);
      }
    }
  }

  /** `getUpcomingDday`: the nearest event with its label, `null` when no
      event is ahead. */
  function GetUpcomingDday(env: Env, today: Day, events: seq<Value>): (r: Result<Option<Record>>)
    ensures r.Failure? <==> exists i :: 0 <= i < |events| && Nullish(events[i])
    ensures r.Success? ==> (r.value.None? <==> Nearest(env, today, events).value.None?)
    ensures r.Success? && r.value.Some? ==>
      var e := Nearest(env, today, events).value.value;
      r.value.value == e.fields["label" := Str(Label(e.daysLeft))]
  {
    var nearest :- Nearest(env, today, events);
    match nearest
    case None => Success(None)
    case Some(e) => Success(Some(e.fields["label" := Str(Label(e.daysLeft))]))
  }

  /** `getUpcomingExam`: the nearest exam, `null` when none is ahead. */
  function GetUpcomingExam(env: Env, today: Day, exams: seq<Value>): (r: Result<Option<Record>>)
    ensures r.Failure? <==> exists i :: 0 <= i < |exams| && Nullish(exams[i])
    ensures r.Success? ==> (r.value.None? <==> Nearest(env, today, exams).value.None?)
    ensures r.Success? && r.value.Some? ==> r.value.value == Nearest(env, today, exams).value.value.fields
  {
    var nearest :- Nearest(env, today, exams);
    match nearest
    case None => Success(None)
    case Some(e) => Success(Some(e.fields))
  }

  /** An event on the reference day is due today: zero days left, and no
      other event can be nearer. */
  lemma TodayIsDday(env: Env, today: Day, events: seq<Value>, i: nat)
    requires i < |events| && forall k :: 0 <= k < |events| ==> !Nullish(events[k])
    requires env.flexibleParse(Get(events[i], "date")) == Some(today)
    ensures var r := GetUpcomingDday(env, today, events);
      r.Success? && r.value.Some? && r.value.value["label"] == Str("D-DAY")
  {
    var e := TodayIsCandidate(env, today, events, i);
    var c := Candidates(env, today, events).value;
    var n := Nearest(env, today, events).value.value;
    NearestDueToday(n, c, e);
  }

  /** The entry of an event on the reference day is a candidate with zero
      days left. */
  lemma TodayIsCandidate(env: Env, today: Day, events: seq<Value>, i: nat) returns (e: Entry)
    requires i < |events| && forall k :: 0 <= k < |events| ==> !Nullish(events[k])
    requires env.flexibleParse(Get(events[i], "date")) == Some(today)
    ensures Candidates(env, today, events).Success?
    ensures e in Candidates(env, today, events).value && e.daysLeft == 0
  {
    e := EntryOf(env, today, events[i]).value.value;
    assert e.daysLeft == 0 by {
      assert AddDays(today, e.daysLeft) == today;
    }
  }

  /** With a candidate due today, the first nearest one is due today too. */
  lemma NearestDueToday(n: Entry, c: seq<Entry>, e: Entry)
    requires FirstNearest(n, c) && e in c && e.daysLeft == 0
    requires forall k :: 0 <= k < |c| ==> NotPast(c[k])
    ensures n.daysLeft == 0
  {
    NoneNearerThan(n, c, e);
  }

  /** The first nearest candidate is no further than any candidate. */
  lemma NoneNearerThan(n: Entry, c: seq<Entry>, e: Entry)
    requires FirstNearest(n, c) && e in c
    ensures n.daysLeft <= e.daysLeft
  {
    var j :| 0 <= j < |c| && c[j] == e;
  }

  /** Past events never count: with every event behind the reference day
      there is nothing to count down to. */
  lemma AllPastIsNull(env: Env, today: Day, events: seq<Value>)
    requires forall k :: 0 <= k < |events| ==> !Nullish(events[k])
    requires forall k :: 0 <= k < |events| ==>
      var d := env.flexibleParse(Get(events[k], "date"));
      d.Some? ==> Ordinal(d.value) < Ordinal(today)
    ensures GetUpcomingDday(env, today, events) == Success(None)
    ensures GetUpcomingExam(env, today, events) == Success(None)
  {
    var c := Candidates(env, today, events).value;
    if |c| > 0 {
      var i :| 0 <= i < |events| && EntryOf(env, today, events[i]) == Success(Some(c[0]));
    }
  }
}
