/** The state of the events page and its event handlers. */
module Browse {
  import opened Events
  import opened Pagination

  /** The page's React state: the filters, the filtered events and the current page.
      (`isLoading` only chooses what is drawn and is left out.) */
  class EventsPage {
    var filters: FilterState
    var events: seq<Event>
    var currentPage: int

    /** The initial state: no search, every category, no events loaded yet, page 1. */
    constructor ()
      ensures filters == InitialFilters
      ensures events == []
      ensures currentPage == 1
    {
      filters := InitialFilters;
      events := [];
      currentPage := 1;
    }

    /** `handleSearchChange`: new search text, same category, back to page 1. */
    method HandleSearchChange(value: string)
      modifies this`filters, this`currentPage
      ensures filters == FilterState(value, old(filters).category)
      ensures currentPage == 1
    {
      filters := filters.(search := value);
      currentPage := 1;
    }

    /** `handleCategoryChange`: new category, same search text, back to page 1. */
    method HandleCategoryChange(value: string)
      modifies this`filters, this`currentPage
      ensures filters == FilterState(old(filters).search, value)
      ensures currentPage == 1
    {
      filters := filters.(category := value);
      currentPage := 1;
    }

    /** `handlePageChange`, without the scroll to the top of the window. */
    method HandlePageChange(page: int)
      modifies this`currentPage
      ensures currentPage == page
    {
      currentPage := page;
    }

    /** The "Clear Filters" button: restores the initial filters; the page is kept. */
    method ClearFilters()
      modifies this`filters
      ensures filters == InitialFilters
    {
      filters := InitialFilters;
    }

    /** The completion of one run of `fetchEvents`. The run filters with the filters it
        captured when the effect started (`started`), which may no longer be the current
        `filters` if they changed during the delay. */
    method FetchEvents(started: FilterState)
      modifies this`events
      ensures events == FilterEvents(SampleEvents, started)
      ensures |events| <= |SampleEvents|
    {
      events := FilterEvents(SampleEvents, started);
    }

    /** `totalPages`: enough pages for every event, and no empty page at the end. */
    function PageCount(): (n: nat)
      reads this
      ensures n * EventsPerPage >= |events|
      ensures n == 0 || (n - 1) * EventsPerPage < |events|
    {
      TotalPages(|events|)
    }

    /** `paginatedEvents`: the events of the current page, at most six. */
    function PaginatedEvents(): (r: seq<Event>)
      reads this
      ensures |r| <= EventsPerPage
      ensures currentPage >= 1 ==>
        r == events[Min((currentPage - 1) * EventsPerPage, |events|)..Min(currentPage * EventsPerPage, |events|)]
    {
      PageContents(events, if currentPage >= 1 then currentPage else 1);
      PageSlice(events, currentPage)
    }

    /** The pagination buttons for the current state. */
    method PageButtons() returns (pages: seq<PageItem>)
      ensures pages == PageNumbers(PageCount(), currentPage)
    {
      pages := GetPageNumbers(PageCount(), currentPage);
    }
  }
}
