# class_alim in Dafny

A model of the decision and text logic of `class_alim`, a school chatbot
backend. It answers Kakao i Open Builder skill requests with meals,
timetables, the school calendar, exams and performance assessments. The
data comes from the NEIS open API and from CSV sheets. The model covers:

- the skill controller (`src/kakao/skillController.js`): parameter lookup,
  base date, explicit range, period detection over the utterance, the
  period-to-range table, action dispatch, and quick replies;
- the date helpers (`src/utils/date.js`) over an own Gregorian calendar-day
  type (`Calendar`);
- the message builders of `src/services/schoolInfoService.js`;
- the NEIS request layer of `src/services/neisService.js`: query string,
  result-code check, dish and allergy-code parsing, menu sanitising;
- the cached NEIS client of `src/services/neisClient.js`: cache key,
  dataset parsing, parameter merge, read-through cache;
- the performance-assessment reader (`src/services/assessmentService.js`);
- the D-day and exam D-day services and the allergy table;
- the Kakao reply builders (`src/kakao/responseBuilder.js`, `lib/kakao.js`);
- the serverless handlers under `api/` and their NEIS helper `lib/neis.js`.

JavaScript values are modelled by `Js.Value`: undefined, null, booleans,
integer numbers, strings, arrays and objects. Truthiness, `||`, `??`,
property access (a read of a property of `null` or `undefined` is an
error) and `String(...)` are modelled as in JavaScript. NEIS and CSV rows
are maps from column names to text. Every operation that can throw returns
a `Result`. "Now", the parsers and the network are parameters.

Modules, one per source file or shared concern:

- `Wrappers`, `Text`, `Seqs` and `Js` hold the shared helpers.
- `Calendar` holds calendar days, ordinals and weekdays.
- `DateUtil` models `src/utils/date.js`.
- `SkillController`, `SchoolInfo`, `NeisService`, `NeisClient`,
  `Assessment`, `Countdown` (both D-day services), `Allergy` and
  `ResponseBuilder` (both builders) model the services.
- `BrTags` holds the `<br>` tag replacement shared by two services.
- `LibNeis` models `lib/neis.js`.
- `ApiCommon` holds what the handlers share.
- `ApiCalendar`, `ApiAssignment`, `ApiExam`, `ApiTimetable` and `ApiMeal`
  model the handlers.

Where the prose description of the system and the code disagree, the model
follows the code. Where the code is evidently wrong (see Findings), the
operation is modelled as written, and the skill handler and the calendar
handler use that version; the corrected version sits beside it with the
intended property proved:

- `requestNeis` rejects every result code other than "INFO-000", so
  "INFO-200" (no data) is an error there (`NeisService.NoDataIsAnError`).
  `fetchNeis` accepts it.
- The custom exam and assessment filters call dayjs `isBetween`, but
  `src/utils/date.js` never loads that plugin (see Findings).

## Model

| member | source | states |
|---|---|---|
| SkillController.ExtractValue | src/kakao/skillController.js:18-25 | the result is truthy iff some listed key holds a truthy value, and then it is the value of the first such key; otherwise it is `undefined` (empty string, 0 and null are skipped) |
| SkillController.ParseDateParam | src/kakao/skillController.js:27-48 | a truthy direct `date`/`day`/`targetDate` parameter gives its parsed day; otherwise the first truthy detail entry is read through `.value`, then `.origin`, else there is no date |
| SkillController.NoFallThrough | src/kakao/skillController.js:33-47 | a truthy detail entry with neither `value` nor `origin` ends the search with no date, even when a later key holds a usable entry |
| SkillController.RangeParam | src/kakao/skillController.js:50-68 | a range end comes from the truthy `params` entry, else from the truthy `.value` of the detail entry, else is absent |
| SkillController.ParseRangeParams | src/kakao/skillController.js:50-69 | the start and the end are read independently with the same rule |
| SkillController.Includes | src/kakao/skillController.js:80-101 | `includes` is a substring test on text and an element test on an array; any other utterance is a TypeError |
| SkillController.MatchesRule | src/kakao/skillController.js:80-101 | a keyword rule succeeds on text and arrays only, and then matches iff one of its keywords occurs |
| SkillController.Scan | src/kakao/skillController.js:80-104 | the scan yields the period of the first matching rule, "day" when none matches, and fails only on an utterance that is neither text nor array |
| SkillController.DetectPeriod | src/kakao/skillController.js:71-105 | a truthy `params.period`, else `detailParams.period.value`, is lower-cased and returned; otherwise the utterance scan decides |
| SkillController.ExplicitPeriodWins | src/kakao/skillController.js:74-78 | with an explicit period the utterance has no influence, even an utterance the scan would reject |
| SkillController.MatchesOne | src/kakao/skillController.js:96-102 | a one-keyword rule matches text iff the text contains the keyword |
| SkillController.NextWeekFirst | src/kakao/skillController.js:80-82 | an utterance containing "다음 주" is "nextweek" whatever else it contains |
| SkillController.DayAfterTomorrowLast | src/kakao/skillController.js:80-104 | "day2" is detected iff "모레" occurs and none of the earlier keywords does |
| SkillController.FirstMatch | src/kakao/skillController.js:80-104 | when some rule matches there is a first one, with no earlier rule matching |
| SkillController.WeekFrom | src/kakao/skillController.js:138-141 | a week range runs from the Monday to the Sunday six days later |
| SkillController.MonthOf | src/kakao/skillController.js:146-148 | a month range runs from the 1st to the last day of that month |
| SkillController.NextWeek | src/kakao/skillController.js:134-137 | "nextweek" starts on the Monday seven days after the base's Monday and ends six days later on a Sunday |
| SkillController.PeriodRange | src/kakao/skillController.js:123-152 | tomorrow and day2 are the single days base+1 and base+2; week, nextweek, month and nextmonth as above; an unknown period gives base..base; every such range has start <= end |
| SkillController.WeekAroundBase | src/kakao/skillController.js:107-141 | the week holds its base day, except that a Sunday base gets the week starting the next day |
| SkillController.MonthCovers | src/kakao/skillController.js:146-148 | the month range holds a day iff that day is in the base's month |
| SkillController.ResolveDateRange | src/kakao/skillController.js:109-153 | start and end both present are returned as given; a start alone gives a one-day range; otherwise the detected period decides around the date parameter or today |
| SkillController.ReversedRangeKept | src/kakao/skillController.js:113-115 | an explicit end before the start is kept as it is (no start <= end check) |
| SkillController.EndAloneIgnored | src/kakao/skillController.js:113-121 | without a start the end is ignored, so the resolved range is never reversed |
| SkillController.ActionName | src/kakao/skillController.js:231-233 | the action name is `action.name`, else `intent.name`, else "help", lower-cased |
| SkillController.Utterance | src/kakao/skillController.js:234 | the utterance is `userRequest.utterance` when truthy, otherwise "" |
| SkillController.Route | src/kakao/skillController.js:242-262 | "meal" and "meal_today" go to the meal builder; "timetable", "schedule", "exam" and "assessment" to theirs; every other name to help |
| SkillController.SkillText | src/kakao/skillController.js:236-262 | the range is resolved for every action; meal and timetable use only its start, schedule, exam and assessment both ends; exam and assessment go to the builders as written |
| SkillController.SkillTextIntended | src/kakao/skillController.js:236-262 | the same dispatch with the exam and assessment builders as intended |
| SkillController.OtherRoutesAgree | src/kakao/skillController.js:242-262 | for every action but exam and assessment the dispatch as written and as intended give the same text |
| SkillController.EmptyCustomListsAgree | src/kakao/skillController.js:253-258 | with no custom exams and no custom assessments the dispatch as written and as intended give the same text |
| SkillController.CustomExamIsLoadError | src/kakao/skillController.js:253-272 | with any custom exam, an exam request whose range resolves is answered with status 200 and the fixed load-error reply |
| SkillController.QuickReplies | src/kakao/skillController.js:174-221 | always exactly three replies with text labels and messages; names outside the switch, `meal_today` included, get the base set |
| SkillController.HandleSkill | src/kakao/skillController.js:223-274 | a failed signature gives status 401 with the fixed signature-error reply; otherwise status 200, with the fixed load-error reply when the text fails and otherwise the text with the action's three quick replies |
| SkillController.RepliesAlwaysOffered | src/kakao/skillController.js:225-273 | every reply offers quick replies whose action is "message" and whose message is text |
| SkillController.NamelessIsHelp | src/kakao/skillController.js:231-260 | a request with neither action nor intent name gets the help text with the base quick replies |
| DateUtil.ToZoned | src/utils/date.js:14-23 | total: a falsy or unparseable value yields today, a parseable one its day |
| DateUtil.FormatNeisDate | src/utils/date.js:25 | eight digits whose first four, middle two and last two read back as year, month and day |
| DateUtil.NeisDateInjective | src/utils/date.js:25 | two values with the same NEIS key (four-digit years) are the same day |
| DateUtil.Compact | src/utils/date.js:25 | the key is the four-digit year and the zero-padded month and day |
| DateUtil.FormatDisplayDate | src/utils/date.js:27-28 | `YYYY년 M월 D일 (요일)` with unpadded month and day, ending with the weekday's short name in parentheses |
| DateUtil.FormatDisplayRange | src/utils/date.js:30-41 | a missing end or the same day gives the single display date; otherwise the full start, " ~ ", and the end without its year |
| DateUtil.SemesterByMonth | src/utils/date.js:43-45 | "1" exactly for months 3 to 8, "2" otherwise |
| DateUtil.IsoOrderIsDayOrder | src/services/assessmentService.js:113-119 | for four-digit years, comparing ISO dates as text is comparing the days |
| SchoolInfo.CleanMealTextOnlyTouchesTags | src/services/schoolInfoService.js:25-29 | the cleaned text equals the input iff the input holds no `<br>` tag in any spelling; the other two replaces change nothing |
| SchoolInfo.CleanMealText | src/services/schoolInfoService.js:25-29 | the cleaned text is the `<br>` replacement alone: the parenthesis and dot replaces change nothing |
| BrTags.CommonTags | src/services/schoolInfoService.js:27 | `<br>`, `<BR/>` and `<br />` are all recognised as tags |
| BrTags.SpaceBeforeClose | src/services/schoolInfoService.js:27 | a space between `/` and `>` is allowed by the meal cleaner's pattern but not by the menu sanitiser's |
| BrTags.TagBecomesNewline | src/services/schoolInfoService.js:27 | a recognised tag is replaced by one line break and the rest is processed on |
| BrTags.UnchangedIffNoTag | src/services/neisService.js:80 | the replacement leaves a text unchanged iff it holds no tag |
| BrTags.TagShortens | src/services/neisService.js:80 | a text with a tag gets strictly shorter |
| SchoolInfo.AcademicContext | src/services/schoolInfoService.js:31-42 | the academic year is the previous year in January and February and the current year otherwise; the semester is "1" exactly for months 3 to 8 |
| SchoolInfo.AcademicYearSpan | src/services/schoolInfoService.js:34 | an academic year runs from March of that year to February of the next |
| SchoolInfo.SortByPeriod | src/services/schoolInfoService.js:44-45 | a permutation of the rows; when every `PERIO` is a number, in ascending period order (a NaN difference is a tie, so unnumbered rows are not ordered) |
| SchoolInfo.SortByPeriodIsStable | src/services/schoolInfoService.js:44-45 | when every `PERIO` is a number, the rows of any one period keep their order |
| SchoolInfo.UnnumberedRowsStay | src/services/schoolInfoService.js:45 | two rows one of which has no numeric `PERIO` keep their order |
| SchoolInfo.FilterScheduleByKeyword | src/services/schoolInfoService.js:47-51 | an order-preserving subsequence holding exactly the rows whose `EVENT_NM` (missing as "") contains some keyword |
| SchoolInfo.KeywordFilterCounts | src/services/schoolInfoService.js:47-51 | a row naming a keyword is kept as many times as it occurs; every other row is dropped |
| SchoolInfo.UniqueByEventNameAndDate | src/services/schoolInfoService.js:53-64 | a duplicate-free subsequence by the name-date-end key that keeps the first row of every key |
| SchoolInfo.MealMessage | src/services/schoolInfoService.js:66-80 | the meal query is for the target day; no rows give the fixed "급식 정보가 없습니다." text; a fetch failure fails |
| SchoolInfo.MealUsesFirstRowOnly | src/services/schoolInfoService.js:75 | rows after the first never change the message |
| SchoolInfo.MealCalories | src/services/schoolInfoService.js:76-79 | a calorie line closes the message iff the first row's `CAL_INFO` is non-empty |
| SchoolInfo.TimetableLines | src/services/schoolInfoService.js:91-92 | one line per row; line i is the period line of row i of the period sort |
| SchoolInfo.TimetableMessage | src/services/schoolInfoService.js:82-97 | the query uses the day's academic year and semester; a failed fetch fails; no rows give the fixed text; otherwise a header with grade and class, then the period lines |
| SchoolInfo.ScheduleQuery | src/services/schoolInfoService.js:100-108 | both ends as NEIS keys, and the academic year and semester of the start |
| SchoolInfo.RowBullets | src/services/schoolInfoService.js:117-123 | one bullet per row, in order |
| SchoolInfo.ScheduleMessage | src/services/schoolInfoService.js:99-128 | no rows give the fixed "학사 일정이 없습니다." text, otherwise the range header and the bullets |
| SchoolInfo.CustomList | src/services/schoolInfoService.js:145-146 | a missing list is empty; a list that is not an array, or a `null` file, fails |
| SchoolInfo.BetweenOrdered | src/services/schoolInfoService.js:165 | the inclusive day check `[]` is start <= day <= end |
| SchoolInfo.ExamInRange | src/services/schoolInfoService.js:159-167 | with the plugin, an exam is listed iff its start or its end (its start when it has none) lies in the range; a nullish entry fails |
| SchoolInfo.EnclosingExamExcluded | src/services/schoolInfoService.js:164-167 | an exam starting before and ending after the range is not listed |
| SchoolInfo.ExamInRangeAsWritten | src/services/schoolInfoService.js:165 | as written, the check always throws |
| SchoolInfo.Bullets | src/services/schoolInfoService.js:148-179 | the schedule bullets come first, then the custom bullets, in order |
| SchoolInfo.CustomItems | src/services/schoolInfoService.js:158-168 | succeeds iff the list reads and the check throws on no entry; then exactly the accepted entries, each as often as in the list and in list order |
| SchoolInfo.CustomItemsUnlessNull | src/services/schoolInfoService.js:158-168 | with a check that throws exactly on nullish entries, the entries are read iff the list reads and holds no nullish entry |
| SchoolInfo.ListingMessage | src/services/schoolInfoService.js:130-245 | schedule rows naming the topic (the first of each key), then the accepted custom entries; the fixed "…이 없습니다." text when there are none |
| SchoolInfo.NoneAccepted | src/services/schoolInfoService.js:158-168 | with every custom entry rejected, only schedule rows are listed |
| SchoolInfo.ExamsAsWrittenFail | src/services/schoolInfoService.js:145-168 | as written, any custom exam makes the exam reply an error; with none the two versions agree |
| SchoolInfo.ExamMessage | src/services/schoolInfoService.js:130-191 | with the plugin, the exam reply succeeds iff the schedule fetch succeeds, the custom list reads and no custom exam is nullish |
| SchoolInfo.ExamMessageAsWritten | src/services/schoolInfoService.js:130-191 | as written, the exam reply succeeds iff the schedule fetch succeeds and there is no custom exam |
| SchoolInfo.AssessmentInRange | src/services/schoolInfoService.js:219-224 | with the plugin, an assessment is listed iff its day lies in the range |
| SchoolInfo.AssessmentInRangeAsWritten | src/services/schoolInfoService.js:223 | as written, the check always throws |
| SchoolInfo.AssessmentsAsWrittenFail | src/services/schoolInfoService.js:205-224 | as written, any custom assessment makes the reply an error; with none the two versions agree |
| SchoolInfo.AssessmentMessage | src/services/schoolInfoService.js:193-245 | with the plugin, the assessment reply succeeds iff the schedule fetch succeeds, the custom list reads and no custom assessment is nullish |
| SchoolInfo.AssessmentMessageAsWritten | src/services/schoolInfoService.js:193-245 | as written, the assessment reply succeeds iff the schedule fetch succeeds and there is no custom assessment |
| SchoolInfo.SelectsAllUnlessNull | src/services/schoolInfoService.js:130-191 | with a check that throws exactly on nullish entries, a listing succeeds iff the fetch succeeds, the list reads and no entry is nullish |
| SchoolInfo.HelpMessage | src/services/schoolInfoService.js:247-261 | seven lines, which splitting at line breaks gives back: the header, one bullet per example question in order, and the footer |
| NeisService.Kept | src/services/neisService.js:8-10 | an order-preserving subsequence holding exactly the entries that are not undefined, null or "" |
| NeisService.KeptCounts | src/services/neisService.js:8-10 | a present entry is kept as many times as it occurs; every other entry is dropped |
| NeisService.BuildQuery | src/services/neisService.js:6-15 | no kept entries give ""; otherwise the pairs joined by "&" |
| NeisService.QuerySplits | src/services/neisService.js:6-15 | with an encoder that escapes separators, the query splits back into one `key=value` pair per kept entry, in order |
| NeisService.PairSplits | src/services/neisService.js:11-14 | one pair splits at "=" into the encoded key and the encoded value |
| NeisService.ZeroIsKept | src/services/neisService.js:9 | 0 is kept, and undefined, null and "" are dropped |
| NeisService.FirstWithResult | src/services/neisService.js:37 | the first head entry with a truthy `RESULT`, or undefined when none has one |
| NeisService.CheckPayload | src/services/neisService.js:35-47 | fails iff the head reports a truthy code other than "INFO-000"; otherwise the data's `row` when it is an array, else no rows |
| NeisService.NoDataIsAnError | src/services/neisService.js:40-44 | "INFO-200" is rejected here |
| NeisService.RequestNeis | src/services/neisService.js:17-48 | a failed request fails; otherwise the payload check decides |
| NeisService.ParseDish | src/services/neisService.js:50-54 | no dish iff the text is blank; a name never starts or ends with a space |
| NeisService.GroupUnique | src/services/neisService.js:56 | the trailing code group, when there is one, is unique |
| NeisService.LazyGroup | src/services/neisService.js:56 | the lazy name stops at the first position where a code group runs to the end |
| NeisService.DropTrailingDot | src/services/neisService.js:67 | one trailing dot is dropped |
| NeisService.ParseInt | src/services/neisService.js:69 | a digit run reads as its decimal value; no leading digit gives none |
| NeisService.CodesOfCodeText | src/services/neisService.js:66-70 | the codes of a dotted code list read back as the list |
| NeisService.GroupedDish | src/services/neisService.js:56-75 | a name with a code group gives the name, and the codes only when the group passes validation |
| NeisService.DishRoundTrip | src/services/neisService.js:56-75 | a rendered dish with codes parses back to the same dish |
| NeisService.PlainDish | src/services/neisService.js:56-63 | a name without parentheses parses to itself with no codes |
| NeisService.InvalidGroupStripped | src/services/neisService.js:61-64 | a group that fails validation, such as `(1..2)`, is stripped from the name and yields no codes |
| NeisService.OtherParenthesesKept | src/services/neisService.js:56 | a trailing group holding anything but digits and dots stays in the name |
| NeisService.MenuLines | src/services/neisService.js:78-80 | at least one line, none holding a line break, and joined with line breaks they give the text with its `<br>` tags replaced |
| NeisService.SanitizeMenu | src/services/neisService.js:78-83 | a nullish menu gives no dishes; every dish comes from a line, and every non-blank line gives a dish |
| NeisService.MenuRoundTrip | src/services/neisService.js:78-83 | dishes rendered and joined with `<br/>` read back as the same dishes in order |
| NeisService.TagsBecomeBreaks | src/services/neisService.js:80 | lines joined with `<br/>` become the same lines joined with line breaks |
| NeisService.MealOf | src/services/neisService.js:97-105 | fails iff the row is nullish; code, name, date and dishes come from their columns; origin, calorie and nutrition default to "" |
| NeisService.EventOf | src/services/neisService.js:120-125 | fails iff the row is nullish; the title is `EVENT_NM`, else `AA_YMD`, else "일정"; the description is `CONTENT`, else `EVENT_CNTNT`, else "" |
| NeisService.GetMealsByDate | src/services/neisService.js:85-106 | one meal per fetched row, in order; a failed request fails |
| NeisService.GetMonthlySchedule | src/services/neisService.js:108-126 | one event per fetched row, in order; a failed request fails |
| NeisClient.Assign | src/services/neisClient.js:19 | assignment keeps the key order, appends a new key, and changes only that key's value |
| NeisClient.SpreadAll | src/services/neisClient.js:62-68 | after the spread, a key has the caller's value when the caller has it and the default's otherwise |
| NeisClient.Escape | src/services/neisClient.js:22 | text without characters to escape is written as it is |
| NeisClient.Normalized | src/services/neisClient.js:17-21 | a permutation of the parameters, sorted by key |
| NeisClient.CacheKey | src/services/neisClient.js:16-23 | the key is the endpoint, ":" and a braced JSON object text |
| NeisClient.CacheKeyDropsUndefined | src/services/neisClient.js:16-23 | a parameter whose value is undefined does not enter the key: the key equals the one built without it |
| NeisClient.CacheKeyIgnoresOrder | src/services/neisClient.js:16-23 | two parameter lists with the same entries give the same key, whatever the insertion order |
| NeisClient.CacheKeySeparatesEndpoints | src/services/neisClient.js:16-23 | two different endpoints without a colon never share a cache key |
| NeisClient.FindResult | src/services/neisClient.js:40-42 | the first head entry with a truthy `RESULT`; a nullish entry before it throws |
| NeisClient.Step | src/services/neisClient.js:38-52 | one turn fails iff the item's head cannot be searched |
| NeisClient.StepEffect | src/services/neisClient.js:38-52 | a truthy result sets code and message, a truthy `row` replaces the rows, and a turn changes nothing else |
| NeisClient.Scan | src/services/neisClient.js:34-54 | the scan fails iff some item's head cannot be searched |
| NeisClient.ParseDataset | src/services/neisClient.js:25-55 | a dataset that is not an array gives no rows, "INFO-200" and the no-data message; otherwise it fails iff some item's head cannot be searched |
| NeisClient.LastResultWins | src/services/neisClient.js:34-54 | the code and message are those of the last item reporting a result, "INFO-000" and the default message when none does |
| NeisClient.LastRowsWin | src/services/neisClient.js:49-51 | the rows are those of the last item with rows, none when no item has any |
| NeisClient.LaterResultOverrides | src/services/neisClient.js:38-47 | an error code after a success code is the one reported |
| NeisClient.FinalParams | src/services/neisClient.js:62-68 | the caller's parameters override `KEY`, `Type`, `pIndex` "1" and `pSize` "100", which come first |
| NeisClient.FetchNeis | src/services/neisClient.js:57-94 | a missing key fails; a cached key returns the stored value unchanged; a fresh answer is stored only when its code is accepted |
| NeisClient.HitSkipsFetch | src/services/neisClient.js:70-73 | a cache hit does not depend on the network at all |
| NeisClient.MissOutcome | src/services/neisClient.js:75-93 | on a miss, the parsed dataset is returned and stored iff its code is falsy, "INFO-000" or "INFO-200"; otherwise the error names endpoint, code and message |
| NeisClient.NoDataAccepted | src/services/neisClient.js:26-93 | an answer without the endpoint's dataset is accepted as no data |
| Assessment.TildeSplits | src/services/assessmentService.js:27-28 | a text with "~" has at least two parts |
| Assessment.RangeInfo | src/services/assessmentService.js:28-43 | a range needs both sides to parse, else there is none |
| Assessment.BuildDateInfo | src/services/assessmentService.js:16-61 | a falsy or blank value gives none; "~" makes a range; otherwise "이전" marks "before", with every "이전" removed before parsing |
| Assessment.RangeCheckedFirst | src/services/assessmentService.js:27-46 | a text with "~" is never read as "before" or single |
| Assessment.ThirdPartIgnored | src/services/assessmentService.js:28 | parts after a second "~" are ignored |
| Assessment.BeforeDay | src/services/assessmentService.js:46-60 | a "이전" text parses the rest and is displayed with " 이전" |
| Assessment.NormalizeRecord | src/services/assessmentService.js:63-102 | a nullish record fails; an unusable date drops the record; title, subject, description, date and display come from the record; the end date is present only for ranges |
| Assessment.DefaultTitle | src/services/assessmentService.js:69 | with neither title nor subject the title is "수행평가" |
| Assessment.SubjectStandsIn | src/services/assessmentService.js:69 | without a title, the subject is the title |
| Assessment.EmptyTitleKept | src/services/assessmentService.js:69 | an empty title is kept (`??` does not skip ""), even with a subject |
| Assessment.UpcomingRecords | src/services/assessmentService.js:112-119 | exactly the usable records that are not past, in file order; a nullish entry fails |
| Assessment.GetPerformanceAssessments | src/services/assessmentService.js:104-122 | a file that is not an array fails; otherwise a permutation of the upcoming records in ascending date order |
| Assessment.UpcomingByDay | src/services/assessmentService.js:113-119 | a range is kept while its last day is not before today, any other record while its day is not before today |
| Countdown.DaysBetween | src/services/ddayService.js:23 | the day difference n satisfies today + n days = the day |
| Countdown.EntryOf | src/services/ddayService.js:17-30 | a nullish event fails; an unparseable date drops the event; otherwise the fields are kept, with the ISO date, the display date and the days left |
| Countdown.Upcoming | src/services/ddayService.js:16-31 | per event, its entry when it parses and is not past, and nothing otherwise |
| Countdown.Candidates | src/services/ddayService.js:16-31 | exactly the parsed events that are not past, in list order; a nullish event fails |
| Countdown.Nearest | src/services/ddayService.js:32-38 | none iff there are no candidates; otherwise the first candidate with the fewest days left, which is the candidate of the first event with the fewest days left |
| Countdown.SortedHeadNearest | src/services/ddayService.js:32-35 | the head of the stable sort by days left is the first candidate with the fewest days left |
| Countdown.NearestInList | src/services/ddayService.js:16-38 | the first nearest candidate is the candidate of the first event with the fewest days left |
| Countdown.Label | src/services/ddayService.js:39 | "D-DAY" for zero days left |
| Countdown.LabelReadsBack | src/services/ddayService.js:39 | the label is "D-DAY" iff no days are left, otherwise "D-" and the number, which reads back |
| Countdown.GetUpcomingDday | src/services/ddayService.js:12-44 | null iff nothing is upcoming; otherwise the nearest event's fields with its label added |
| Countdown.GetUpcomingExam | src/services/examDdayService.js:12-39 | null iff nothing is upcoming; otherwise the nearest exam's fields |
| Countdown.TodayIsDday | src/services/ddayService.js:31-43 | an event today makes the answer a "D-DAY" event |
| Countdown.AllPastIsNull | src/services/ddayService.js:34-36 | with every event past or unparseable, both services answer null |
| Allergy.TableShape | src/services/allergyService.js:1-21 | 19 entries with codes 1 to 19 in order, all distinct |
| Allergy.ParseLine | src/services/allergyService.js:23-24 | a parsed line is a numeral for the code, ". " and the name |
| Allergy.LineReadsBack | src/services/allergyService.js:24 | a line `code. name` reads back as its entry |
| Allergy.NamesArePlain | src/services/allergyService.js:2-20 | no allergy name holds a dot or a line break |
| Allergy.ListReadsBack | src/services/allergyService.js:23-24 | the text splits into 19 lines, line i reading back as entry i |
| ResponseBuilder.BuildQuickReply | src/kakao/responseBuilder.js:1-5 | the action defaults to "message"; the message text defaults to the label only when null or undefined |
| ResponseBuilder.QuickReplyIdempotent | src/kakao/responseBuilder.js:1-5 | building a built reply again changes nothing |
| ResponseBuilder.BuildSimpleTextResponse | src/kakao/responseBuilder.js:7-19 | version "2.0", one text output, and one built quick reply per spec in order |
| ResponseBuilder.SpecRepliesAreMessages | src/kakao/responseBuilder.js:1-17 | replies from label and text specs are "message" replies carrying those texts |
| ResponseBuilder.BuildErrorResponse | src/kakao/responseBuilder.js:21-25 | the message with exactly the two fixed quick replies |
| ResponseBuilder.SimpleText | lib/kakao.js:1-13 | version "2.0", the text unchanged as the one output, and one "message" reply per input with label and text copied verbatim |
| ResponseBuilder.SimpleTextAgreesWithBuilder | lib/kakao.js:6-10 | the two builders agree iff every message text is present or already equals its label |
| LibNeis.HubFetch | lib/neis.js:10-20 | a non-ok status fails with "NEIS HTTP" and the status; the rows are `data[path][1].row`, none when it is falsy, and a truthy non-array throws |
| LibNeis.RowsOfAnswer | lib/neis.js:18 | rows are read from the second element under the path only, never from another key |
| LibNeis.MealTypeSent | lib/neis.js:3-32 | the meal type is sent iff it is not undefined, null or "" |
| LibNeis.MealTypeOmitted | lib/neis.js:3-32 | an undefined meal type leaves `MMEAL_SC_CODE` out of the query |
| LibNeis.Dishes | lib/neis.js:37 | a falsy menu gives ""; a text menu has its `<br/>` replaced by line breaks; any other value throws |
| LibNeis.DishesSplitIntoLines | lib/neis.js:37 | dishes joined by `<br/>` come back one per line |
| LibNeis.OnlyExactBreak | lib/neis.js:37 | `<br>` and `<br />` are left as they are |
| LibNeis.MealOfRow | lib/neis.js:34-38 | the date and the meal name are copied; a nullish row, or a menu that throws, fails |
| LibNeis.GetMeal | lib/neis.js:22-39 | one meal per row, in order; a failed fetch fails |
| LibNeis.NumberOf | lib/neis.js:66 | `Number`: null is 0, undefined is NaN, text is read as a decimal numeral |
| LibNeis.PeriodOfRow | lib/neis.js:66 | the period is the number of `PERIO`, the subject `ITRT_CNTNT` |
| LibNeis.GetHisTimetable | lib/neis.js:41-68 | the periods of the rows, stably sorted by period |
| LibNeis.PeriodsAscend | lib/neis.js:65-67 | with every period a number, the result is a permutation in ascending period order |
| LibNeis.PeriodsStable | lib/neis.js:65-67 | with every period a number, the periods of any one number come out in row order |
| LibNeis.EqualPeriodsKeepOrder | lib/neis.js:67 | two rows of the same period keep their order |
| LibNeis.ScheduleOfRow | lib/neis.js:81-85 | `AA_YMD`, `EVENT_NM` and `CONTENT` become date, name and description |
| LibNeis.GetSchoolSchedule | lib/neis.js:70-86 | one item per row, in order; a failed fetch fails |
| ApiCommon.TextReply | lib/kakao.js:1-6 | a text reply carries the text alone with no quick replies |
| ApiCommon.ClassFilter | api/assignment.js:25-29 | a falsy grade or class does not filter; otherwise it must match as text, so grade 2 matches "2" but not "02" |
| ApiCommon.LocaleLeOnText | api/assignment.js:30 | on present keys the comparator is the text order |
| ApiCommon.FirstTen | api/assignment.js:25-31 | min(10, kept) items, each kept and taken from the input |
| ApiCommon.FirstTenEmpty | api/assignment.js:25-31 | nothing is selected iff nothing is kept |
| ApiCommon.TopTen | api/assignment.js:30-31 | under a total preorder, the selection is sorted, and a kept item left out means ten were selected, none greater than it |
| ApiCommon.JoinBlankLines | api/assignment.js:43 | joining with a blank line is joining with a line break after inserting empty lines |
| ApiCommon.BlankLinesSplit | api/assignment.js:43 | entries without line breaks joined by blank lines split back into the entries with empty lines between |
| ApiCalendar.YmdIsNeisKey | api/calendar.js:5-10 | for four-digit years, `ymd` is the NEIS key: eight characters reading back as year, month and day |
| ApiCalendar.MonthModeOnlyForMonth | api/calendar.js:17-22 | month mode iff the `range` parameter is exactly "month" |
| ApiCalendar.WeekStart | api/calendar.js:26-27 | a Monday, six days back from a Sunday and weekday−1 days back otherwise |
| ApiCalendar.DaysBackToMonday | api/calendar.js:27 | `(day + 6) % 7` is 6 for Sunday and day−1 otherwise |
| ApiCalendar.WeekStartVersusToMonday | api/calendar.js:26-27 | the handler's Monday equals the skill controller's except on a Sunday, where it is seven days earlier |
| ApiCalendar.WeekEnd | api/calendar.js:28 | the corrected end: the Sunday six days after the Monday, never before the current day |
| ApiCalendar.WeekEndAsWritten | api/calendar.js:28 | as written, the end is never before the corrected Sunday, and equals it iff the Monday is in the current month |
| ApiCalendar.EndCountedInMonth | api/calendar.js:28 | the Monday's day of month plus six, counted in the current month, is the Sunday iff the Monday is in that month, and never earlier |
| ApiCalendar.WeekEndAsWrittenOverflows | api/calendar.js:20-28 | on 1 March 2023 the Monday is 27 February, the end should be 5 March, and as written it is 2 April |
| ApiCalendar.Range | api/calendar.js:17-29 | month mode gives the current month; week mode gives the Monday and the end as written; the current day always lies in the range |
| ApiCalendar.RangeIntended | api/calendar.js:17-29 | the corrected range: week mode runs from a Monday to the Sunday six days later; the current day always lies in the range |
| ApiCalendar.MonthRangeIsTheMonth | api/calendar.js:22-24 | month mode covers a day iff it is in the current month |
| ApiCalendar.WeekRangeIsTheWeek | api/calendar.js:26-28 | as written, week mode starts on a Monday and spans at least a week; it is exactly the Monday-to-Sunday week, and agrees with the corrected range, iff the Monday is in the current month |
| ApiCalendar.EventLinesReadBack | api/calendar.js:39-45 | the reply splits back into one line per event in order |
| ApiCalendar.EventLine | api/calendar.js:43 | "date - name", with " (desc)" only when there is a description |
| ApiCalendar.EventsText | api/calendar.js:39-46 | no events give "해당 기간에 학사일정이 없습니다." |
| ApiCalendar.Handle | api/calendar.js:12-53 | non-POST gives 405; otherwise the schedule between the `ymd` keys of the range as written, or the fixed error text |
| ApiAssignment.AssignmentOf | api/assignment.js:16-24 | the `class` column becomes the class, a missing grade or class becomes "", and every other field is its column |
| ApiAssignment.Selected | api/assignment.js:15-31 | at most ten assignments, each matching the filter and coming from a row |
| ApiAssignment.DueOrderAgrees | api/assignment.js:30 | with the due column present, the comparator is the text order of due dates |
| ApiAssignment.SelectedByDueText | api/assignment.js:25-31 | the selection is the sorted first ten by due text |
| ApiAssignment.SelectedInDueOrder | api/assignment.js:30 | the selection is in due order |
| ApiAssignment.SelectedAreEarliest | api/assignment.js:30-31 | a matching assignment left out means ten were selected, none due after it |
| ApiAssignment.NoneSelected | api/assignment.js:25-31 | nothing is selected iff no row matches |
| ApiAssignment.Line | api/assignment.js:37-41 | the line for each of the four weight/link cases: the weight in parentheses when truthy, then a line break and the link when truthy |
| ApiAssignment.AssignmentsText | api/assignment.js:33-44 | none gives "등록된 수행평가 일정이 없습니다." |
| ApiAssignment.EntriesReadBack | api/assignment.js:33-43 | the reply splits back into the entries with an empty line between each two |
| ApiAssignment.Handle | api/assignment.js:5-51 | non-POST gives 405; a sheet error gives the fixed text; otherwise the selected entries |
| ApiExam.ExamOf | api/exam.js:16-23 | the `class` column becomes the class, a missing grade or class becomes "", and every other field is its column |
| ApiExam.Selected | api/exam.js:15-30 | at most ten exams, each matching the filter and coming from a row |
| ApiExam.DateOrderAgrees | api/exam.js:29 | with the date column present, the comparator is the text order of dates |
| ApiExam.SelectedByDateText | api/exam.js:24-30 | the selection is the sorted first ten by date text |
| ApiExam.SelectedInDateOrder | api/exam.js:29 | the selection is in date order |
| ApiExam.SelectedAreEarliest | api/exam.js:29-30 | a matching exam left out means ten were selected, none dated after it |
| ApiExam.NoneSelected | api/exam.js:24-30 | nothing is selected iff no row matches |
| ApiExam.Line | api/exam.js:36-38 | the plain line without a memo; a memo is added in parentheses |
| ApiExam.ExamsText | api/exam.js:32-41 | none gives "등록된 시험 일정이 없습니다." |
| ApiExam.EntriesReadBack | api/exam.js:32-40 | the reply splits back into one line per exam |
| ApiExam.Handle | api/exam.js:5-48 | non-POST gives 405; a sheet error gives the fixed text; otherwise the selected entries |
| ApiTimetable.Semester | api/timetable.js:14-16 | the `sem` parameter when truthy, else "1" up to February and "2" after |
| ApiTimetable.SemesterRulesDiffer | api/timetable.js:14-16 | this rule agrees with `getSemesterByMonth` only from September to December |
| ApiTimetable.QueryOf | api/timetable.js:10-16 | day, grade and class come from the parameters, else today and the configured defaults; the academic year is the calendar year |
| ApiTimetable.EmptyBodyUsesDefaults | api/timetable.js:10-16 | a request without parameters asks for today's timetable of the default class |
| ApiTimetable.TimetableText | api/timetable.js:29-33 | the header `{grade}학년 {classNm}반 {ymd} 시간표`, then the period lines or the fixed text |
| ApiTimetable.TimetableLines | api/timetable.js:29-33 | the reply splits back into the header and one line per period in order |
| ApiTimetable.Handle | api/timetable.js:5-38 | non-POST gives 405; otherwise the timetable of the query, or the fixed error text |
| ApiMeal.UnnamedMeal | api/meal.js:24 | a meal without a name is headed "급식" |
| ApiMeal.BlockLines | api/meal.js:24 | a meal reads back as its heading line and then its dishes, one per line |
| ApiMeal.MealsText | api/meal.js:22-26 | none gives "해당 날짜에 급식 정보가 없습니다.", otherwise blocks joined by a blank line |
| ApiMeal.Handle | api/meal.js:5-35 | non-POST gives 405; the day defaults to today and the meal type is passed on unchanged; success carries exactly the two quick replies, an error none |

## Left out

- `api/_common.js` is not part of this model: `CONFIG`, `parseBody` and `todayYMD` are inputs (a `Config` record, the parsed body, a day string).
- `lib/sheets.js` is not part of this model: the handlers start from the parsed CSV rows or the read error.
- `parseFlexibleDate`, `sortByDate`, `formatToKoreanShortDate`, `getKstToday` and `formatToNeisDate` are imported from `src/utils/date.js` but not defined there. The parsers and the short-date formatter are parameters. `formatToIsoDate` is a zero-padded `YYYY-MM-DD`, and `sortByDate` a stable ascending sort by date.
- dayjs and date-fns internals: time zones and times of day are left out. Days are calendar days, and "now" and "today" are parameters.
- Network and file I/O: `fetch`, axios, `fs` reads and the JSON data files. Responses and files are inputs.
- `encodeURIComponent` is a parameter. Query read-back assumes only that it escapes "&" and "=".
- `localeCompare` is modelled as code-unit order. `Array.prototype.sort` is modelled as a stable insertion sort.
- Strings are sequences of Dafny characters, which are Unicode scalar values, not the UTF-16 code units of JavaScript: text outside the Basic Multilingual Plane has a different length and order. There is no Unicode normalisation, and `toLowerCase` folds ASCII only.
- NeisClient.CacheKey: array and object parameter values are written by a parameter, not by JSON rules.
- NeisClient.CacheKey: keys are sorted in code-unit order. The integer-like-key ordering of `Object.keys` does not arise, because every key is a NEIS parameter name.
- The HMAC signature check (`verifySignature`) is a boolean input of `SkillController.HandleSkill`.
- NodeCache expiry and concurrent requests are left out: the cache is a map threaded through the calls.
- Numbers are integers. `Number` of a text that is not an unsigned decimal numeral is NaN (`None`). In both period sorts a NaN difference counts as a tie, as it does for `Array.prototype.sort`. The engine's order for such an inconsistent comparator is implementation-defined, so order is proved only for rows whose periods are all numbers.
- Js.ToNumber: reads only unsigned decimal numerals, because every numeral the core reads (`PERIO`, allergy codes) is one. JavaScript reads "-1" as -1 and "1.5" as 1.5, while the model gives NaN (`None`). Signs, fractions, exponents and hex are left out.
- LibNeis.PeriodsAscend: ascending order is proved only when every period is a number, because NaN comparisons leave the order to the engine.
- SchoolInfo.SortByPeriod: ascending order and stability are proved only when every `PERIO` is a number, for the same reason; with unnumbered rows only the permutation and the two-row tie (`SchoolInfo.UnnumberedRowsStay`) are stated.
- ApiAssignment.EntriesReadBack: read-back is stated only for entries without a link, because a link adds its own line break.
- ApiAssignment.SelectedInDueOrder: due order is proved for rows that all have a due column; a missing due compares as "" on the left and "undefined" on the right, which is not a preorder.
- ApiExam.SelectedInDateOrder: the same restriction, for the date column.
- The Express and serverless wiring (`src/app.js`, `src/index.js`, `api/health.js`, `api/kakao.js`) and the configuration files are outside the core.
- The NEIS wrappers `getMeals`, `getSchoolSchedule` and `getTimetable` of `src/services/neisClient.js` (lines 96-132) are inputs of the message builders (`SchoolInfo.Sources`). Each only picks the rows out of `fetchNeis`.

## Findings

| source | as written | input that shows it | evidently intended | confidence | as-written member | corrected member |
|---|---|---|---|---|---|---|
| src/services/schoolInfoService.js:165 | `examStart.isBetween(...)` on dayjs objects, but `src/utils/date.js` loads only utc, timezone and weekday, so `isBetween` is not a function and the exam reply throws | any custom exam in `data/customEvents.json` | the exam is listed when its start or end lies in the range, inclusive by day | not executed | SchoolInfo.ExamInRangeAsWritten | SchoolInfo.ExamInRange |
| src/services/schoolInfoService.js:223 | `assessmentDate.isBetween(...)`, with the same missing plugin | any custom performance assessment | the assessment is listed when its day lies in the range, inclusive | not executed | SchoolInfo.AssessmentInRangeAsWritten | SchoolInfo.AssessmentInRange |
| api/calendar.js:28 | `end.setDate(start.getDate() + 6)` on a copy of the current day: the Monday's day of month plus six, counted in the current month | Wednesday 1 March 2023: the Monday is 27 February and the end becomes 2 April | the Sunday six days after the Monday, 5 March | not executed | ApiCalendar.WeekEndAsWritten | ApiCalendar.WeekEnd |
