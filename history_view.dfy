/** The archive (src/HistoryView.tsx): one search result per stored daily, weekly, monthly
    and yearly entry whose text matches the query, then the type filter and a sort by
    timestamp, newest first. The string and date library calls are parameters: the
    case-insensitive `includes` test, the Japanese date title of a day, and the timestamps
    of `new Date(string)` and `new Date(year, monthIndex, 1)`. */
module HistoryView {
  import opened Wrappers
  import opened Text
  import opened Lists
  import opened Records
  import IsoWeek
  import MonthlyView

  datatype EntryType = Daily | Weekly | Monthly | Yearly

  datatype SearchResult = SearchResult(id: string, date: string, kind: EntryType, title: string, content: string, timestamp: int)

  /** The library calls the results depend on. `localTime` takes the results of `parseInt`
      for the year and for the month index (`None` for NaN). */
  datatype Library = Library(
    matches: (string, string) -> bool,
    dayTitle: string -> string,
    dateTime: string -> int,
    localTime: (Option<int>, Option<int>) -> int)

  /** `Boolean(t)` on a string. */
  predicate Filled(t: string) {
    t != ""
  }

  /** `.filter(Boolean)` on strings: the non-empty ones, in order. */
  function NonEmpty(texts: seq<string>): (r: seq<string>)
    ensures forall t :: t in r <==> t in texts && t != ""
  {
    forall t ensures t in Filter(texts, Filled) <==> t in texts && Filled(t) {
      FilterMembers(texts, Filled, t);
    }
    Filter(texts, Filled)
  }

  /** `texts.slice(0, n)` */
  function Take(texts: seq<string>, n: nat): (r: seq<string>)
    ensures |r| <= n && |r| <= |texts| && r == texts[..|r|]
    ensures |texts| >= n ==> |r| == n
  {
    if |texts| <= n then texts else texts[..n]
  }

  /** `!searchQuery || content.toLowerCase().includes(searchQuery.toLowerCase())` */
  predicate Passes(content: string, query: string, lib: Library) {
    query == "" || lib.matches(content, query)
  }

  function TaskTexts(tasks: seq<DailyTask>): seq<string> {
    Map(tasks, (t: DailyTask) => t.text)
  }

  function WeeklyTaskTexts(tasks: seq<WeeklyTask>): seq<string> {
    Map(tasks, (t: WeeklyTask) => t.text)
  }

  // ---------------------------------------------------------------- one result per entry

  function DailyTexts(e: DailyEntry): seq<string> {
    NonEmpty(e.gratitude + [e.intention, e.mostImportantTask.text] + TaskTexts(e.secondaryTasks)
             + TaskTexts(e.additionalTasks) + [e.highlight, e.learning, e.remember])
  }

  function DailyResult(lib: Library, e: DailyEntry): (r: SearchResult)
    ensures r.kind == Daily && r.id == e.id
  {
    SearchResult(e.id, e.date, Daily, lib.dayTitle(e.date), Join(Take(DailyTexts(e), 3), " / "), lib.dateTime(e.date))
  }

  function WeeklyTexts(e: WeeklyEntry): seq<string> {
    NonEmpty([e.intention] + WeeklyTaskTexts(e.mostImportantTasks) + WeeklyTaskTexts(e.secondaryTasks)
             + WeeklyTaskTexts(e.additionalTasks))
  }

  /** `parts[i]` in a template literal: "undefined" past the end. */
  function PartText(parts: seq<string>, i: nat): string {
    if i < |parts| then parts[i] else "undefined"
  }

  /** A number in a template literal: NaN prints as "NaN". */
  function NumberText(n: Option<int>): string {
    if n.Some? then IntToString(n.value) else "NaN"
  }

  function WeeklyTitle(id: string): string {
    var parts := Split(id, '-');
    "Week " + PartText(parts, 1) + ", " + PartText(parts, 0)
  }

  function WeeklyResult(lib: Library, e: WeeklyEntry): (r: SearchResult)
    ensures r.kind == Weekly && r.id == e.id
  {
    SearchResult(e.id, e.startDate, Weekly, WeeklyTitle(e.id),
                 OrElse(e.intention, Join(Take(WeeklyTexts(e), 2), " / ")), lib.dateTime(e.startDate))
  }

  function MonthlyTexts(e: MonthlyEntry): seq<string> {
    NonEmpty([e.intention] + Map(e.goals, (g: CheckItem) => g.text) + [e.reflection])
  }

  /** `${y}年 ${parseInt(m)}月` with `[y, m] = id.split('-')`. */
  function MonthlyTitle(id: string): string {
    var parts := Split(id, '-');
    parts[0] + "年 " + NumberText(ParseInt(PartText(parts, 1))) + "月"
  }

  /** `parseInt(m) - 1`, NaN staying NaN. */
  function MonthIndex(m: Option<int>): Option<int> {
    if m.Some? then Some(m.value - 1) else None
  }

  function MonthlyResult(lib: Library, e: MonthlyEntry): (r: SearchResult)
    ensures r.kind == Monthly && r.id == e.id
  {
    var parts := Split(e.id, '-');
    SearchResult(e.id, e.id, Monthly, MonthlyTitle(e.id),
                 OrElse(e.intention, OrElse(e.reflection, Join(Take(MonthlyTexts(e), 2), " / "))),
                 lib.localTime(ParseInt(parts[0]), MonthIndex(ParseInt(PartText(parts, 1)))))
  }

  function YearlyTexts(e: YearlyEntry): seq<string> {
    NonEmpty([e.theme] + Map(e.goals, (g: YearlyGoal) => g.text) + [e.reflection])
  }

  function YearlyResult(lib: Library, e: YearlyEntry): (r: SearchResult)
    ensures r.kind == Yearly && r.id == e.id
  {
    SearchResult(e.id, e.id, Yearly, e.id + "年 Yearly Overview",
                 OrElse(e.theme, OrElse(e.reflection, Join(Take(YearlyTexts(e), 2), " / "))),
                 lib.localTime(ParseInt(e.id), Some(0)))
  }

  // ---------------------------------------------------------------- the whole list

  function DailyResults(lib: Library): DailyEntry -> SearchResult {
    e => DailyResult(lib, e)
  }

  function WeeklyResults(lib: Library): WeeklyEntry -> SearchResult {
    e => WeeklyResult(lib, e)
  }

  function MonthlyResults(lib: Library): MonthlyEntry -> SearchResult {
    e => MonthlyResult(lib, e)
  }

  function YearlyResults(lib: Library): YearlyEntry -> SearchResult {
    e => YearlyResult(lib, e)
  }

  function InType(filter: Option<EntryType>): SearchResult -> bool {
    r => OfType(filter, r)
  }

  /** The results pushed by one table's `forEach`: the matching entries, in table order. */
  function Gather<E>(entries: seq<E>, texts: E -> seq<string>, toResult: E -> SearchResult, query: string, lib: Library): seq<SearchResult> {
    Map(Filter(entries, (e: E) => Passes(Join(texts(e), " "), query, lib)), toResult)
  }

  /** `allResults` after the four loops. */
  function AllResults(daily: seq<DailyEntry>, weekly: seq<WeeklyEntry>, monthly: seq<MonthlyEntry>, yearly: seq<YearlyEntry>,
                      query: string, lib: Library): seq<SearchResult> {
    Gather(daily, DailyTexts, DailyResults(lib), query, lib)
    + Gather(weekly, WeeklyTexts, WeeklyResults(lib), query, lib)
    + Gather(monthly, MonthlyTexts, MonthlyResults(lib), query, lib)
    + Gather(yearly, YearlyTexts, YearlyResults(lib), query, lib)
  }

  /** `filterType === 'all' || r.type === filterType`; `None` is 'all'. */
  predicate OfType(filter: Option<EntryType>, r: SearchResult) {
    filter.None? || r.kind == filter.value
  }

  /** `b.timestamp - a.timestamp` as the comparator: ascending in the negated timestamp. */
  function Newest(r: SearchResult): int {
    -r.timestamp
  }

  function Archive(daily: seq<DailyEntry>, weekly: seq<WeeklyEntry>, monthly: seq<MonthlyEntry>, yearly: seq<YearlyEntry>,
                   query: string, filter: Option<EntryType>, lib: Library): seq<SearchResult> {
    SortBy(Filter(AllResults(daily, weekly, monthly, yearly, query, lib), InType(filter)), Newest)
  }

  /** One more entry adds its result exactly when it matches. */
  lemma GatherStep<E>(entries: seq<E>, x: E, texts: E -> seq<string>, toResult: E -> SearchResult, query: string, lib: Library)
    ensures Gather(entries + [x], texts, toResult, query, lib)
         == Gather(entries, texts, toResult, query, lib)
            + (if Passes(Join(texts(x), " "), query, lib) then [toResult(x)] else [])
  {
    var p := (e: E) => Passes(Join(texts(e), " "), query, lib);
    FilterAppend(entries, [x], p);
    assert Filter([x], p) == (if p(x) then [x] else []) + Filter([], p);
    MapAppend(Filter(entries, p), Filter([x], p), toResult);
  }

  /** One table's `forEach`: each entry whose text passes the search pushes its result. */
  method Collect<E>(allResults: seq<SearchResult>, entries: seq<E>, texts: E -> seq<string>, toResult: E -> SearchResult,
                    query: string, lib: Library) returns (pushed: seq<SearchResult>)
    ensures pushed == allResults + Gather(entries, texts, toResult, query, lib)
  {
    pushed := allResults;
    var i := 0;
    while i < |entries|
      invariant 0 <= i <= |entries|
      invariant pushed == allResults + Gather(entries[..i], texts, toResult, query, lib)
    {
      var entry := entries[i];
      GatherStep(entries[..i], entry, texts, toResult, query, lib);
      assert entries[..i + 1] == entries[..i] + [entry];
      var content := Join(texts(entry), " ");
      if query == "" || lib.matches(content, query) {
        pushed := pushed + [toResult(entry)];
      }
      i := i + 1;
    }
    assert entries[..i] == entries;
  }

  /** `results`: the four tables' matches in table order, then the type filter and the
      sort, newest first. */
  method Results(daily: seq<DailyEntry>, weekly: seq<WeeklyEntry>, monthly: seq<MonthlyEntry>, yearly: seq<YearlyEntry>,
                 query: string, filter: Option<EntryType>, lib: Library) returns (results: seq<SearchResult>)
    ensures results == Archive(daily, weekly, monthly, yearly, query, filter, lib)
  {
    var allResults: seq<SearchResult> := [];
    allResults := Collect(allResults, daily, DailyTexts, DailyResults(lib), query, lib);
    ghost var gathered := Gather(daily, DailyTexts, DailyResults(lib), query, lib);
    assert allResults == gathered;
    allResults := Collect(allResults, weekly, WeeklyTexts, WeeklyResults(lib), query, lib);
    gathered := gathered + Gather(weekly, WeeklyTexts, WeeklyResults(lib), query, lib);
    allResults := Collect(allResults, monthly, MonthlyTexts, MonthlyResults(lib), query, lib);
    gathered := gathered + Gather(monthly, MonthlyTexts, MonthlyResults(lib), query, lib);
    allResults := Collect(allResults, yearly, YearlyTexts, YearlyResults(lib), query, lib);
    gathered := gathered + Gather(yearly, YearlyTexts, YearlyResults(lib), query, lib);
    assert allResults == gathered == AllResults(daily, weekly, monthly, yearly, query, lib);
    results := SortBy(Filter(allResults, InType(filter)), Newest);
  }

  // ---------------------------------------------------------------- properties

  /** Newest first: the timestamps never increase down the list. */
  lemma ArchiveNewestFirst(daily: seq<DailyEntry>, weekly: seq<WeeklyEntry>, monthly: seq<MonthlyEntry>, yearly: seq<YearlyEntry>,
                           query: string, filter: Option<EntryType>, lib: Library)
    ensures var r := Archive(daily, weekly, monthly, yearly, query, filter, lib);
      forall i, j :: 0 <= i < j < |r| ==> r[i].timestamp >= r[j].timestamp
  {
    var r := Archive(daily, weekly, monthly, yearly, query, filter, lib);
    assert SortedBy(r, Newest);
    forall i, j | 0 <= i < j < |r| ensures r[i].timestamp >= r[j].timestamp {
      assert Newest(r[i]) <= Newest(r[j]);
    }
  }

  /** A type filter keeps exactly the matching results of that type, each once; 'all'
      keeps every matching result. */
  lemma ArchiveTypeFilter(daily: seq<DailyEntry>, weekly: seq<WeeklyEntry>, monthly: seq<MonthlyEntry>, yearly: seq<YearlyEntry>,
                          query: string, filter: Option<EntryType>, lib: Library, x: SearchResult)
    ensures var r, all := Archive(daily, weekly, monthly, yearly, query, filter, lib), AllResults(daily, weekly, monthly, yearly, query, lib);
      && (filter.Some? ==> forall y :: y in r ==> y.kind == filter.value)
      && multiset(r)[x] == (if OfType(filter, x) then multiset(all)[x] else 0)
      && (filter.None? ==> multiset(r) == multiset(all))
  {
    var all := AllResults(daily, weekly, monthly, yearly, query, lib);
    var keep := InType(filter);
    var r := Archive(daily, weekly, monthly, yearly, query, filter, lib);
    assert multiset(r) == multiset(Filter(all, keep));
    FilterCount(all, keep, x);
    forall y | y in r ensures OfType(filter, y) {
      assert y in multiset(Filter(all, keep));
      FilterMembers(all, keep, y);
    }
    if filter.None? {
      FilterKeepsAll(all, keep);
    }
  }

  /** With an empty query every entry passes the search: each table contributes one result
      per entry, in table order. */
  lemma EmptyQueryGathersAll<E>(entries: seq<E>, texts: E -> seq<string>, toResult: E -> SearchResult, lib: Library)
    ensures Gather(entries, texts, toResult, "", lib) == Map(entries, toResult)
  {
    FilterKeepsAll(entries, (e: E) => Passes(Join(texts(e), " "), "", lib));
  }

  /** With an empty query and no type filter the archive is every stored entry's result,
      exactly once each, reordered newest first. */
  lemma EmptyQueryOnePerEntry(daily: seq<DailyEntry>, weekly: seq<WeeklyEntry>, monthly: seq<MonthlyEntry>, yearly: seq<YearlyEntry>, lib: Library)
    ensures multiset(Archive(daily, weekly, monthly, yearly, "", None, lib))
         == multiset(Map(daily, DailyResults(lib)) + Map(weekly, WeeklyResults(lib))
                     + Map(monthly, MonthlyResults(lib)) + Map(yearly, YearlyResults(lib)))
    ensures |Archive(daily, weekly, monthly, yearly, "", None, lib)| == |daily| + |weekly| + |monthly| + |yearly|
  {
    EmptyQueryGathersAll(daily, DailyTexts, DailyResults(lib), lib);
    EmptyQueryGathersAll(weekly, WeeklyTexts, WeeklyResults(lib), lib);
    EmptyQueryGathersAll(monthly, MonthlyTexts, MonthlyResults(lib), lib);
    EmptyQueryGathersAll(yearly, YearlyTexts, YearlyResults(lib), lib);
    FilterKeepsAll(AllResults(daily, weekly, monthly, yearly, "", lib), InType(None));
    var r := Archive(daily, weekly, monthly, yearly, "", None, lib);
    assert |r| == |multiset(r)|;
  }

  /** Tasks without text add no text to the search. */
  lemma BlankTasksAddNothing(tasks: seq<DailyTask>)
    requires forall t :: t in tasks ==> t.text == ""
    ensures NonEmpty(TaskTexts(tasks)) == []
  {
    forall x | x in TaskTexts(tasks) ensures !Filled(x) {
      var i :| 0 <= i < |tasks| && TaskTexts(tasks)[i] == x;
      assert tasks[i] in tasks;
    }
    FilterDropsAll(TaskTexts(tasks), Filled);
  }

  /** A day's content is its first three non-empty texts joined by " / ", so a day whose
      only text is its intention shows the intention. */
  lemma DailyContentFirstTexts(lib: Library, e: DailyEntry)
    requires forall t :: t in e.gratitude ==> t == ""
    requires forall t :: t in e.secondaryTasks ==> t.text == ""
    requires forall t :: t in e.additionalTasks ==> t.text == ""
    requires e.mostImportantTask.text == "" && e.highlight == "" && e.learning == "" && e.remember == ""
    ensures DailyResult(lib, e).content == e.intention
  {
    OnlyIntentionFilled(e);
  }

  /** The texts a day searches are its intention alone when nothing else is filled in. */
  lemma OnlyIntentionFilled(e: DailyEntry)
    requires forall t :: t in e.gratitude ==> t == ""
    requires forall t :: t in e.secondaryTasks ==> t.text == ""
    requires forall t :: t in e.additionalTasks ==> t.text == ""
    requires e.mostImportantTask.text == "" && e.highlight == "" && e.learning == "" && e.remember == ""
    ensures DailyTexts(e) == if e.intention == "" then [] else [e.intention]
  {
    var a, i, m := e.gratitude, [e.intention], [e.mostImportantTask.text];
    var t2, t3, z := TaskTexts(e.secondaryTasks), TaskTexts(e.additionalTasks), [e.highlight, e.learning, e.remember];
    assert a + [e.intention, e.mostImportantTask.text] + t2 + t3 + z == a + i + m + t2 + t3 + z;
    FilterAppend(a + i + m + t2 + t3, z, Filled);
    FilterAppend(a + i + m + t2, t3, Filled);
    FilterAppend(a + i + m, t2, Filled);
    FilterAppend(a + i, m, Filled);
    FilterAppend(a, i, Filled);
    FilterDropsAll(a, Filled);
    FilterDropsAll(m, Filled);
    FilterDropsAll(z, Filled);
    BlankTasksAddNothing(e.secondaryTasks);
    BlankTasksAddNothing(e.additionalTasks);
    assert Filter(i, Filled) == (if Filled(e.intention) then i else []) + Filter([], Filled);
  }

  /** The archive titles a week saved under an ISO week id "Week <number>, <year>". */
  lemma WeeklyTitleOfWeekId(d: IsoWeek.Date)
    requires IsoWeek.Valid(d) && IsoWeek.Thursday(d).year >= 100
    ensures WeeklyTitle(IsoWeek.WeekId(d))
         == "Week " + NatToString(IsoWeek.WeekNumber(d)) + ", " + NatToString(IsoWeek.Thursday(d).year)
  {
    IsoWeek.WeekIdParts(d);
  }

  /** The archive titles a month saved under a month id "<year>年 <month>月", the month without
      its leading zero. */
  lemma MonthlyTitleOfMonthId(year: nat, month: int)
    requires 1 <= month <= 12
    ensures MonthlyTitle(MonthlyView.MonthId(year, month)) == NatToString(year) + "年 " + NatToString(month) + "月"
  {
    MonthlyView.MonthIdParts(year, month);
  }

  /** Ids without a dash: the week part prints as "undefined" and the month as NaN. */
  lemma TitlesOfIdsWithoutDash(id: string)
    requires '-' !in id
    ensures WeeklyTitle(id) == "Week undefined, " + id
    ensures MonthlyTitle(id) == id + "年 NaN月"
  {
    SplitWithoutSeparator(id, '-');
    UndefinedIsNaN();
    assert PartText([id], 1) == "undefined";
  }

  /** `parseInt(undefined)` is NaN. */
  lemma UndefinedIsNaN()
    ensures ParseInt("undefined") == None
  {
    assert DigitPrefixLength("undefined") == 0;
  }
}
