/** The events list and the search / category filtering of the events page. */
module Events {
  import opened Text
  import opened Seqs

  /** One event card. `availableSeats` is a JavaScript number; only integers occur. */
  datatype Event = Event(
    id: string,
    title: string,
    category: string,
    date: string,
    location: string,
    availableSeats: int,
    featured: bool,
    image: string)

  /** The two filter inputs of the page: the search box and the category select. */
  datatype FilterState = FilterState(search: string, category: string)

  /** The select value that disables the category filter. */
  const AllCategories: string := "all"

  /** The filters the page starts with, and the ones "Clear Filters" restores. */
  const InitialFilters: FilterState := FilterState("", AllCategories)

  /** `eventsData`, the fixed list the page filters. */
  const SampleEvents: seq<Event> := [
    Event("1", "Tech Conference 2025", "Technology", "May 15-17, 2025", "San Francisco, CA",
          245, true, "/placeholder.svg?height=300&width=600"),
    Event("2", "Music Festival", "Entertainment", "June 10-12, 2025", "Austin, TX",
          578, false, "/placeholder.svg?height=300&width=600"),
    Event("3", "Design Summit", "Design", "July 5, 2025", "New York, NY",
          120, false, "/placeholder.svg?height=300&width=600"),
    Event("4", "Business Conference", "Business", "August 20-22, 2025", "Chicago, IL",
          350, false, "/placeholder.svg?height=300&width=600"),
    Event("5", "AI & Machine Learning Expo", "Technology", "September 15, 2025", "Seattle, WA",
          180, true, "/placeholder.svg?height=300&width=600"),
    Event("6", "Film Festival", "Entertainment", "October 5-10, 2025", "Los Angeles, CA",
          420, false, "/placeholder.svg?height=300&width=600")
  ]

  /** The search box matches an event when its lower-cased text occurs, lower-cased,
      in the event's title, location or category. */
  predicate MatchesSearch(e: Event, search: string)
    ensures MatchesSearch(e, search) <==>
      || IsSubstring(Lower(search), Lower(e.title))
      || IsSubstring(Lower(search), Lower(e.location))
      || IsSubstring(Lower(search), Lower(e.category))
  {
    var q := Lower(search);
    IncludesIffSubstring(Lower(e.title), q);
    IncludesIffSubstring(Lower(e.location), q);
    IncludesIffSubstring(Lower(e.category), q);
    Includes(Lower(e.title), q) || Includes(Lower(e.location), q) || Includes(Lower(e.category), q)
  }

  /** The category select matches an event when the two categories agree up to case. */
  predicate MatchesCategory(e: Event, category: string)
    ensures e.category == category ==> MatchesCategory(e, category)
    ensures MatchesCategory(e, category) ==> |e.category| == |category|
  {
    Lower(e.category) == Lower(category)
  }

  /** Two categories match exactly when they have the same length and agree letter by
      letter up to case. */
  lemma MatchesCategoryIgnoresCase(e: Event, category: string)
    ensures MatchesCategory(e, category) <==>
      && |e.category| == |category|
      && forall i :: 0 <= i < |category| ==> SameUpToCase(e.category[i], category[i])
  {
    var a, b := Lower(e.category), Lower(category);
    if MatchesCategory(e, category) {
      forall i | 0 <= i < |category|
        ensures SameUpToCase(e.category[i], category[i])
      {
        assert a[i] == b[i];
      }
    }
    if |e.category| == |category| && forall i :: 0 <= i < |category| ==> SameUpToCase(e.category[i], category[i]) {
      forall i | 0 <= i < |category|
        ensures a[i] == b[i]
      {
        assert SameUpToCase(e.category[i], category[i]);
      }
      assert a == b;
    }
  }

  /** The search step: an empty search string is falsy and filters nothing. */
  function SearchFilter(events: seq<Event>, search: string): (r: seq<Event>)
    ensures search == "" ==> r == events
    ensures search != "" ==> forall e :: multiset(r)[e] == if MatchesSearch(e, search) then multiset(events)[e] else 0
  {
    if search == "" then events else Filter(events, e => MatchesSearch(e, search))
  }

  /** The category step: skipped for an empty category and for exactly "all". */
  function CategoryFilter(events: seq<Event>, category: string): (r: seq<Event>)
    ensures category == "" || category == AllCategories ==> r == events
    ensures category != "" && category != AllCategories ==>
      forall e :: multiset(r)[e] == if MatchesCategory(e, category) then multiset(events)[e] else 0
  {
    if category == "" || category == AllCategories then events
    else Filter(events, e => MatchesCategory(e, category))
  }

  /** Whether an event passes both steps for the given filters. */
  predicate Admits(filters: FilterState, e: Event)
  {
    && (filters.search == "" || MatchesSearch(e, filters.search))
    && (filters.category == "" || filters.category == AllCategories || MatchesCategory(e, filters.category))
  }

  /** The filtering inside `fetchEvents`: search first, then category. Each event of the
      input survives, with all its copies, exactly when both steps admit it. */
  function FilterEvents(events: seq<Event>, filters: FilterState): (r: seq<Event>)
    ensures |r| <= |events|
    ensures forall e :: multiset(r)[e] == if Admits(filters, e) then multiset(events)[e] else 0
  {
    CategoryFilter(SearchFilter(events, filters.search), filters.category)
  }

  /** The two steps together are one filter by `Admits`. */
  lemma FilterEventsIsOneFilter(events: seq<Event>, filters: FilterState)
    ensures FilterEvents(events, filters) == Filter(events, e => Admits(filters, e))
  {
    var admits := e => Admits(filters, e);
    var bySearch := e => MatchesSearch(e, filters.search);
    var byCategory := e => MatchesCategory(e, filters.category);
    var noSearch := filters.search == "";
    var noCategory := filters.category == "" || filters.category == AllCategories;
    if noSearch && noCategory {
      FilterKeepsAll(events, admits);
    } else if noSearch {
      FilterCongruent(events, byCategory, admits);
    } else if noCategory {
      FilterCongruent(events, bySearch, admits);
    } else {
      FilterFuse(events, bySearch, byCategory, admits);
    }
  }

  /** With no search text and the "all" (or no) category the page lists every event,
      in the original order. */
  lemma FilterEventsUnfiltered(events: seq<Event>, filters: FilterState)
    requires filters.search == ""
    requires filters.category == "" || filters.category == AllCategories
    ensures FilterEvents(events, filters) == events
  {
  }

  /** The filtered list is an order-preserving subsequence of the input. */
  lemma FilterEventsIsSubsequence(events: seq<Event>, filters: FilterState)
    ensures IsSubsequence(FilterEvents(events, filters), events)
  {
    FilterEventsIsOneFilter(events, filters);
    FilterIsSubsequence(events, e => Admits(filters, e));
  }

  /** With a non-empty search an event is kept by the search step exactly when the
      lower-cased query is a substring of its lower-cased title, location or category. */
  lemma SearchFilterKeeps(events: seq<Event>, search: string, e: Event)
    requires search != ""
    ensures e in SearchFilter(events, search) <==>
      && e in events
      && (|| IsSubstring(Lower(search), Lower(e.title))
          || IsSubstring(Lower(search), Lower(e.location))
          || IsSubstring(Lower(search), Lower(e.category)))
  {
  }

  /** With a real category selected, every kept event has that category up to case, and
      no event of that category is dropped (nor any of its copies). */
  lemma CategoryFilterKeeps(events: seq<Event>, category: string)
    requires category != "" && category != AllCategories
    ensures forall e :: e in CategoryFilter(events, category) ==> Lower(e.category) == Lower(category)
    ensures forall e :: e in events && Lower(e.category) == Lower(category) ==>
      multiset(CategoryFilter(events, category))[e] == multiset(events)[e] > 0
  {
  }

  /** Membership in the page's list: an event is shown exactly when it is one of the
      input events and both filters admit it. */
  lemma FilterEventsMembership(events: seq<Event>, filters: FilterState, e: Event)
    ensures e in FilterEvents(events, filters) <==> e in events && Admits(filters, e)
  {
  }

  /** One step of the category filter: the head is kept exactly when it matches. */
  lemma CategoryFilterCons(events: seq<Event>, category: string)
    requires events != [] && category != "" && category != AllCategories
    ensures CategoryFilter(events, category) ==
      (if MatchesCategory(events[0], category) then [events[0]] else []) + CategoryFilter(events[1..], category)
  {
  }

  /** Of the sample events, only the first and the fifth have a category that is
      "technology" up to case. */
  lemma SampleCategories()
    ensures MatchesCategory(SampleEvents[0], "technology") && MatchesCategory(SampleEvents[4], "technology")
    ensures !MatchesCategory(SampleEvents[1], "technology") && !MatchesCategory(SampleEvents[5], "technology")
    ensures !MatchesCategory(SampleEvents[2], "technology") && !MatchesCategory(SampleEvents[3], "technology")
  {
  }

  /** Six events of which a category matches only the first and the fifth. */
  lemma CategoryPicksFirstAndFifth(s: seq<Event>, c: string)
    requires |s| == 6 && c != "" && c != AllCategories
    requires MatchesCategory(s[0], c) && MatchesCategory(s[4], c)
    requires !MatchesCategory(s[1], c) && !MatchesCategory(s[2], c)
    requires !MatchesCategory(s[3], c) && !MatchesCategory(s[5], c)
    ensures CategoryFilter(s, c) == [s[0], s[4]]
  {
    CategoryFilterCons(s[5..], c);
    CategoryFilterCons(s[4..], c);
    CategoryFilterCons(s[3..], c);
    CategoryFilterCons(s[2..], c);
    CategoryFilterCons(s[1..], c);
    CategoryFilterCons(s, c);
  }

  /** The select's lower-case value "technology" picks the two events whose category
      is written "Technology". */
  lemma SampleTechnology()
    ensures FilterEvents(SampleEvents, FilterState("", "technology")) == [SampleEvents[0], SampleEvents[4]]
  {
    SampleCategories();
    CategoryPicksFirstAndFifth(SampleEvents, "technology");
  }
}
