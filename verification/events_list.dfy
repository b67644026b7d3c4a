/**
 `prepareData` and `foundDay` of the event table. `prepareData` narrows the
 flat event list in three stages -- the chosen day, the language toggles, the
 text search over the chosen fields -- then sorts stably by one field and, for
 a descending sort, reverses the sorted list. `foundDay` picks the initial day
 from a calendar date.
 */
module EventsList {
  import opened Wrappers
  import opened Seqs
  import opened Text
  import opened Types
  import opened StableSort

  datatype Languages = Languages(en: bool, de: bool, other: bool)

  datatype Filters = Filters(day: int, languages: Languages, fields: seq<Field>, textFilter: string)

  datatype Direction = Asc | Desc

  /** The columns the table sorts by: those holding a string in every event. */
  type SortField = f: Field | AlwaysString(f) witness Date

  /** The sort key `sortBy` reads from an event: the text of that column. */
  function KeyOf(f: SortField): ExtendedEvent -> string
  {
    (e: ExtendedEvent) => FieldText(e, f).value
  }

  datatype Sorting = Sorting(sortBy: SortField, sortDirection: Direction)

  // ---------------------------------------------------------------------------
  // The three filter stages
  // ---------------------------------------------------------------------------

  function OnDay(day: int): ExtendedEvent -> bool
  {
    (e: ExtendedEvent) => e.day == day
  }

  /** Keeps the events of the chosen day. */
  function DayStage(xs: seq<ExtendedEvent>, day: int): (r: seq<ExtendedEvent>)
    ensures forall x :: multiset(r)[x] == if x.day == day then multiset(xs)[x] else 0
    ensures IsSubsequence(r, xs)
  {
    FilterMultiplicity(xs, OnDay(day));
    FilterSubsequence(xs, OnDay(day));
    Filter(xs, OnDay(day))
  }

  /** The language test as the source writes it: an if / else-if chain, falling through to a falsy result. */
  function KeepsLanguage(languages: Languages, language: Option<string>): bool
  {
    if languages.en && language == Some("en") then true
    else if languages.de && language == Some("de") then true
    else if languages.other && language != Some("de") && language != Some("en") then true
    else false
  }

  /** English, German, or anything else -- including no language at all -- under its toggle. */
  predicate LanguageSelected(languages: Languages, language: Option<string>)
  {
    || (languages.en && language == Some("en"))
    || (languages.de && language == Some("de"))
    || (languages.other && language !in {Some("en"), Some("de")})
  }

  function WithLanguage(languages: Languages): ExtendedEvent -> bool
  {
    (e: ExtendedEvent) => KeepsLanguage(languages, e.event.language)
  }

  /** Keeps the events whose language is switched on. */
  function LanguageStage(xs: seq<ExtendedEvent>, languages: Languages): (r: seq<ExtendedEvent>)
    ensures forall x ::
      multiset(r)[x] == if LanguageSelected(languages, x.event.language) then multiset(xs)[x] else 0
    ensures IsSubsequence(r, xs)
  {
    FilterMultiplicity(xs, WithLanguage(languages));
    FilterSubsequence(xs, WithLanguage(languages));
    Filter(xs, WithLanguage(languages))
  }

  /**
   The text test as the source writes it: walk the fields in order and stop at
   the first one holding a string whose lower-cased form contains `query`.
   */
  function MatchesText(e: ExtendedEvent, fields: seq<Field>, query: string): bool
  {
    if |fields| == 0 then false
    else match FieldText(e, fields[0])
      case Some(z) => if Contains(Lower(z), query) then true else MatchesText(e, fields[1..], query)
      case None => MatchesText(e, fields[1..], query)
  }

  /** Some chosen field holds a string containing `query` (at some position) once lower-cased. */
  ghost predicate SomeFieldContains(e: ExtendedEvent, fields: seq<Field>, query: string)
  {
    exists i, p: nat :: 0 <= i < |fields| && FieldText(e, fields[i]).Some?
      && OccursAt(Lower(FieldText(e, fields[i]).value), query, p)
  }

  lemma {:induction false} MatchesTextIff(e: ExtendedEvent, fields: seq<Field>, query: string)
    ensures MatchesText(e, fields, query) <==> SomeFieldContains(e, fields, query)
    decreases |fields|
  {
    if |fields| > 0 {
      MatchesTextIff(e, fields[1..], query);
      if SomeFieldContains(e, fields[1..], query) {
        var i, p: nat :| 0 <= i < |fields[1..]| && FieldText(e, fields[1..][i]).Some?
          && OccursAt(Lower(FieldText(e, fields[1..][i]).value), query, p);
        assert fields[1..][i] == fields[i + 1];
      }
      if SomeFieldContains(e, fields, query) {
        var i, p: nat :| 0 <= i < |fields| && FieldText(e, fields[i]).Some?
          && OccursAt(Lower(FieldText(e, fields[i]).value), query, p);
        if i > 0 {
          assert fields[1..][i - 1] == fields[i];
        }
      }
      match FieldText(e, fields[0])
      case Some(z) =>
        ContainsIff(Lower(z), query);
      case None =>
    }
  }

  function WithText(fields: seq<Field>, query: string): ExtendedEvent -> bool
  {
    (e: ExtendedEvent) => MatchesText(e, fields, query)
  }

  /**
   With an empty query, passes everything through; otherwise keeps the events
   with a chosen string field containing the lower-cased query.
   */
  function TextStage(xs: seq<ExtendedEvent>, fields: seq<Field>, textFilter: string): (r: seq<ExtendedEvent>)
    ensures textFilter == "" ==> r == xs
    ensures textFilter != "" ==> forall x ::
      multiset(r)[x] == if SomeFieldContains(x, fields, Lower(textFilter)) then multiset(xs)[x] else 0
    ensures IsSubsequence(r, xs)
  {
    if textFilter == "" then
      SubsequenceReflexive(xs);
      xs
    else
      var query := Lower(textFilter);
      FilterMultiplicity(xs, WithText(fields, query));
      FilterSubsequence(xs, WithText(fields, query));
      assert forall x :: MatchesText(x, fields, query) <==> SomeFieldContains(x, fields, query) by {
        forall x
          ensures MatchesText(x, fields, query) <==> SomeFieldContains(x, fields, query)
        {
          MatchesTextIff(x, fields, query);
        }
      }
      Filter(xs, WithText(fields, query))
  }

  /** Widening the searched fields keeps every match; a match in the wider list is a match in one of its parts. */
  lemma SearchFieldScope(x: ExtendedEvent, fs: seq<Field>, gs: seq<Field>, query: string)
    ensures SomeFieldContains(x, fs, query) ==> SomeFieldContains(x, fs + gs, query)
    ensures SomeFieldContains(x, fs + gs, query) ==> SomeFieldContains(x, fs, query) || SomeFieldContains(x, gs, query)
  {
    if SomeFieldContains(x, fs, query) {
      var i, p: nat :| 0 <= i < |fs| && FieldText(x, fs[i]).Some? && OccursAt(Lower(FieldText(x, fs[i]).value), query, p);
      assert (fs + gs)[i] == fs[i];
    }
    if SomeFieldContains(x, fs + gs, query) {
      var i, p: nat :| 0 <= i < |fs + gs| && FieldText(x, (fs + gs)[i]).Some?
        && OccursAt(Lower(FieldText(x, (fs + gs)[i]).value), query, p);
      if i >= |fs| {
        assert (fs + gs)[i] == gs[i - |fs|];
      }
    }
  }

  /** A search over fields that never hold a string (numbers, booleans, arrays) keeps nothing. */
  lemma NonStringFieldsNeverMatch(xs: seq<ExtendedEvent>, fields: seq<Field>, textFilter: string)
    requires textFilter != ""
    requires forall i :: 0 <= i < |fields| ==> NeverString(fields[i])
    ensures TextStage(xs, fields, textFilter) == []
  {
    var query := Lower(textFilter);
    forall i | 0 <= i < |xs|
      ensures !WithText(fields, query)(xs[i])
    {
      MatchesTextIff(xs[i], fields, query);
    }
    FilterKeepsNone(xs, WithText(fields, query));
  }

  // ---------------------------------------------------------------------------
  // The whole of prepareData
  // ---------------------------------------------------------------------------

  /** The event survives all three stages. */
  ghost predicate Passes(filters: Filters, x: ExtendedEvent)
  {
    && x.day == filters.day
    && LanguageSelected(filters.languages, x.event.language)
    && (filters.textFilter == "" || SomeFieldContains(x, filters.fields, Lower(filters.textFilter)))
  }

  /** The three stages in the source's order; the result keeps exactly the passing events, in input order. */
  function Narrow(filters: Filters, data: seq<ExtendedEvent>): (r: seq<ExtendedEvent>)
    ensures forall x :: multiset(r)[x] == if Passes(filters, x) then multiset(data)[x] else 0
    ensures IsSubsequence(r, data)
  {
    var byDay := DayStage(data, filters.day);
    var byLanguage := LanguageStage(byDay, filters.languages);
    var byText := TextStage(byLanguage, filters.fields, filters.textFilter);
    SubsequenceTransitive(byLanguage, byDay, data);
    SubsequenceTransitive(byText, byLanguage, data);
    byText
  }

  /**
   The last step of `prepareData`: sort stably ascending by `sortBy`, then
   reverse the sorted list when the direction is descending.
   */
  function SortRows(sorting: Sorting, rows: seq<ExtendedEvent>): (r: seq<ExtendedEvent>)
    ensures multiset(r) == multiset(rows)
    ensures sorting.sortDirection == Asc ==> Ascending(r, KeyOf(sorting.sortBy))
    ensures sorting.sortDirection == Desc ==> Descending(r, KeyOf(sorting.sortBy))
  {
    var sorted := SortAsc(rows, KeyOf(sorting.sortBy));
    SortAscAscending(rows, KeyOf(sorting.sortBy));
    if sorting.sortDirection == Desc then
      ReverseAscending(sorted, KeyOf(sorting.sortBy));
      ReverseMultiset(sorted);
      Reverse(sorted)
    else
      sorted
  }

  /**
   Rows with equal sort keys keep their order under an ascending sort and come
   out in reversed order under a descending one.
   */
  lemma SortRowsTies(sorting: Sorting, rows: seq<ExtendedEvent>, k: string)
    ensures sorting.sortDirection == Asc ==>
      Ties(SortRows(sorting, rows), KeyOf(sorting.sortBy), k) == Ties(rows, KeyOf(sorting.sortBy), k)
    ensures sorting.sortDirection == Desc ==>
      Ties(SortRows(sorting, rows), KeyOf(sorting.sortBy), k) == Reverse(Ties(rows, KeyOf(sorting.sortBy), k))
  {
    SortAscStable(rows, KeyOf(sorting.sortBy), k);
    ReverseTies(SortAsc(rows, KeyOf(sorting.sortBy)), KeyOf(sorting.sortBy), k);
  }

  /** The descending order is the ascending order read backwards, element for element. */
  lemma DescendingReversesAscending(sortBy: SortField, rows: seq<ExtendedEvent>)
    ensures SortRows(Sorting(sortBy, Desc), rows) == Reverse(SortRows(Sorting(sortBy, Asc), rows))
    ensures Reverse(SortRows(Sorting(sortBy, Desc), rows)) == SortRows(Sorting(sortBy, Asc), rows)
  {
    ReverseReverse(SortRows(Sorting(sortBy, Asc), rows));
  }

  /** The ascending order is the only ascending arrangement of the rows that keeps every key's ties in order. */
  lemma SortRowsUnique(sortBy: SortField, rows: seq<ExtendedEvent>, s: seq<ExtendedEvent>)
    requires Ascending(s, KeyOf(sortBy))
    requires forall k :: Ties(s, KeyOf(sortBy), k) == Ties(rows, KeyOf(sortBy), k)
    ensures s == SortRows(Sorting(sortBy, Asc), rows)
  {
    SortAscUnique(rows, s, KeyOf(sortBy));
  }

  /**
   `prepareData`: the three filter stages, then the sort. The result holds
   exactly the passing events, each as often as in the input, ordered by the
   sort key.
   */
  function PrepareData(filters: Filters, sorting: Sorting, data: seq<ExtendedEvent>): (r: seq<ExtendedEvent>)
    ensures forall x :: multiset(r)[x] == if Passes(filters, x) then multiset(data)[x] else 0
    ensures sorting.sortDirection == Asc ==> Ascending(r, KeyOf(sorting.sortBy))
    ensures sorting.sortDirection == Desc ==> Descending(r, KeyOf(sorting.sortBy))
  {
    SortRows(sorting, Narrow(filters, data))
  }

  /**
   Rows with equal sort keys keep their filtered order under an ascending
   `prepareData` and come out in reversed filtered order under a descending one.
   */
  lemma PrepareDataTies(filters: Filters, sorting: Sorting, data: seq<ExtendedEvent>, k: string)
    ensures sorting.sortDirection == Asc ==>
      Ties(PrepareData(filters, sorting, data), KeyOf(sorting.sortBy), k) == Ties(Narrow(filters, data), KeyOf(sorting.sortBy), k)
    ensures sorting.sortDirection == Desc ==>
      Ties(PrepareData(filters, sorting, data), KeyOf(sorting.sortBy), k) == Reverse(Ties(Narrow(filters, data), KeyOf(sorting.sortBy), k))
  {
    SortRowsTies(sorting, Narrow(filters, data), k);
  }

  /** The descending table is the ascending table read backwards, element for element. */
  lemma PrepareDataDescending(filters: Filters, sortBy: SortField, data: seq<ExtendedEvent>)
    ensures PrepareData(filters, Sorting(sortBy, Desc), data) == Reverse(PrepareData(filters, Sorting(sortBy, Asc), data))
  {
    DescendingReversesAscending(sortBy, Narrow(filters, data));
  }

  /** With every language on and no query, the result is the chosen day's events. */
  lemma PermissiveFiltersKeepDay(filters: Filters, data: seq<ExtendedEvent>)
    requires filters.languages == Languages(true, true, true) && filters.textFilter == ""
    ensures Narrow(filters, data) == DayStage(data, filters.day)
  {
    FilterKeepsAll(DayStage(data, filters.day), WithLanguage(filters.languages));
  }

  /** With every language toggle off, nothing is shown. */
  lemma AllLanguagesOffShowsNothing(filters: Filters, sorting: Sorting, data: seq<ExtendedEvent>)
    requires filters.languages == Languages(false, false, false)
    ensures PrepareData(filters, sorting, data) == []
  {
  }

  // ---------------------------------------------------------------------------
  // The initial filter and sort state
  // ---------------------------------------------------------------------------

  /** The calendar days of the festival, 27 to 30 December, in day order. */
  const FestivalDates: seq<int> := [27, 28, 29, 30]

  /**
   `foundDay` for calendar month `month` (1 to 12) and day of month `date`:
   inside 27-30 December the position of the date in the festival, otherwise 0.
   */
  function FoundDay(month: int, date: int): (r: int)
    ensures 0 <= r <= 3
    ensures r == if month == 12 && 27 <= date <= 30 then date - 27 else 0
  {
    if month == 12 then
      var found := FindIndex(FestivalDates, date);
      if found != -1 then found else 0
    else
      0
  }

  /** The table's initial filters: the found day, English only, three columns, no query. */
  function DefaultFilters(month: int, date: int): Filters
  {
    Filters(FoundDay(month, date), Languages(true, false, false), [Room, Title, Date], "")
  }

  /** The table's initial sorting: by date, ascending. */
  const DefaultSorting: Sorting := Sorting(Date, Asc)

  /** Initially the table lists the found day's English events, each once per occurrence, by ascending date. */
  lemma DefaultView(month: int, date: int, data: seq<ExtendedEvent>)
    ensures var r := PrepareData(DefaultFilters(month, date), DefaultSorting, data);
      && (forall x :: multiset(r)[x] ==
            if x.day == FoundDay(month, date) && x.event.language == Some("en") then multiset(data)[x] else 0)
      && Ascending(r, KeyOf(Date))
  {
  }
}
