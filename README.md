# Events page: filtering, pagination and page buttons

This project models the one piece of real logic in the event-booking front end: the
"Browse Events" page (`app/events/page.tsx`). The page takes its fixed list of events,
keeps those that match the search box and the category select, cuts the result into
pages of six, and draws a row of page buttons. That row shows at most five page numbers
and uses ellipsis markers for the pages it hides.

Modules:

- `Text` (`text.dfy`): `toLowerCase` as an ASCII character map, and `includes` as a
  left-to-right scan. The scan is proved equal to the substring relation.
- `Seqs` (`seqs.dfy`): `Array.prototype.filter` as a function. It is specified by what it
  keeps, with multiplicities, and proved to be an order-preserving subsequence of its input.
- `Events` (`events.dfy`): the `Event` record, the `FilterState` of the page, the sample
  list `eventsData`, and the two filtering steps of `fetchEvents` with their properties.
- `Pagination` (`pagination.dfy`): `totalPages`, JavaScript `slice` with its treatment of
  negative bounds, `paginatedEvents`, and `getPageNumbers`. The source builds the button
  row in a loop, so `GetPageNumbers` is a loop method. It is proved equal to the
  specification function `PageNumbers`.
- `PageWindow` (`pagination.dfy`): properties of the button row.
- `Browse` (`browse.dfy`): the page's state (`filters`, `events`, `currentPage`) as a
  class whose methods are the event handlers.

A seat-reservation, hold-expiry, check-in and pricing engine appears in this repository
only inside comments (`lib/actions.ts`, `app/lib/db.ts`). No code implements it, so it is
not modelled.

## Model

| member | source | states |
|---|---|---|
| `Text.Lower` | app/events/page.tsx:133 | lower-casing keeps the length, turns every upper-case ASCII letter into its lower-case counterpart, changes no other character, and leaves no upper-case letter |
| `Text.Includes` | app/events/page.tsx:136-138 | `includes`: the empty needle is always included, a needle longer than the text never is, and a needle at the start of the text is found |
| `Text.IncludesIffSubstring` | app/events/page.tsx:136-138 | `hay.includes(needle)` holds exactly when `needle` occurs at some position of `hay` |
| `Seqs.Filter` | app/events/page.tsx:134-146 | `filter` keeps only elements that pass the test; each passing element keeps all its copies, and each failing element loses all of them |
| `Seqs.FilterIsSubsequence` | app/events/page.tsx:134-146 | the result of `filter` is the input with elements deleted, in the original order |
| `Events.MatchesSearch` | app/events/page.tsx:135-138 | an event matches the search exactly when the lower-cased query is a substring of its lower-cased title, location or category |
| `Events.MatchesCategory` | app/events/page.tsx:145 | an event whose category is exactly the selected value matches it, and a match always has the same length |
| `Events.MatchesCategoryIgnoresCase` | app/events/page.tsx:145 | two categories match exactly when they have the same length and, letter by letter, are equal or an upper-case ASCII letter and its lower-case counterpart (`Text.SameUpToCase`, stated without `Lower`) |
| `Events.SearchFilter` | app/events/page.tsx:132-140 | an empty search keeps the list as it is; otherwise an event survives, with all its copies, exactly when the search matches it |
| `Events.CategoryFilter` | app/events/page.tsx:143-147 | an empty category or exactly `"all"` keeps the list; otherwise an event survives, with all its copies, exactly when its category matches up to case |
| `Events.FilterEvents` | app/events/page.tsx:129-147 | the page's list is never longer than the input, and holds each input event, with all its copies, exactly when both filters admit it |
| `Events.FilterEventsIsOneFilter` | app/events/page.tsx:129-147 | the search step followed by the category step is a single filter by the conjunction of the two conditions |
| `Events.FilterEventsUnfiltered` | app/events/page.tsx:129-147 | with an empty search and the category `"all"` (or empty), the filtered list is the full list in its original order |
| `Events.FilterEventsIsSubsequence` | app/events/page.tsx:129-147 | the filtered list is an order-preserving subsequence of the input: the filters only remove events |
| `Events.SearchFilterKeeps` | app/events/page.tsx:132-140 | with a non-empty search, an event is kept exactly when it is in the input and the lower-cased query is a substring of its lower-cased title, location or category |
| `Events.CategoryFilterKeeps` | app/events/page.tsx:143-146 | with a real category, every kept event has that category up to case, and no event with that category is dropped |
| `Events.FilterEventsMembership` | app/events/page.tsx:129-147 | an event is listed exactly when it is an input event that both filters admit |
| `Events.SampleCategories` | app/events/page.tsx:34-95 | among the sample events, only the two "Technology" events match the select value "technology" |
| `Events.SampleTechnology` | app/events/page.tsx:34-104 | choosing "technology" in the select lists exactly the first and fifth sample events |
| `Pagination.TotalPages` | app/events/page.tsx:192 | `ceil(n / 6)`: the pages hold every event, the last page is not empty, and there are no pages exactly when there are no events |
| `Pagination.SliceBound` | app/events/page.tsx:193 | how `slice` reads a bound: an in-range bound is kept, a negative one counts from the end, and anything beyond either end is clamped to it |
| `Pagination.Slice` | app/events/page.tsx:193 | `slice(begin, end)` holds the `max(end' - begin', 0)` elements that start at the normalised `begin'`, in order |
| `Pagination.PageSlice` | app/events/page.tsx:193 | for any `currentPage`, following JavaScript `slice` semantics, a page holds at most six events |
| `Pagination.PageContents` | app/events/page.tsx:193 | page `p >= 1` holds exactly the events at positions `(p-1)*6 .. min(p*6, n)-1` |
| `Pagination.PageNonEmptyIffInRange` | app/events/page.tsx:192-193 | page `p >= 1` is non-empty exactly when `p <= totalPages` |
| `Pagination.PageOf` | app/events/page.tsx:192-193 | the event at position `i` is on page `i/6 + 1`, at position `i mod 6` |
| `Pagination.PagesPrefix` | app/events/page.tsx:192-193 | pages `1..k` joined together are the first `min(6k, n)` events |
| `Pagination.PagesReassemble` | app/events/page.tsx:192-193 | joining pages `1..totalPages` gives back the whole filtered list |
| `Pagination.WindowStart` | app/events/page.tsx:210-220 | the first middle page is never below 2 and never after `currentPage - 1` (or 2) |
| `Pagination.WindowEnd` | app/events/page.tsx:211-215 | the last middle page is never above `totalPages - 1` and never before `currentPage + 1` (or `totalPages - 1`) |
| `Pagination.PageNumbers` | app/events/page.tsx:196-245 | the button row has at least `min(totalPages, 5)` and at most seven buttons; its other properties are the `PageWindow` lemmas |
| `Pagination.GetPageNumbers` | app/events/page.tsx:196-245 | the two loops and the moving window bounds build exactly the button row `PageNumbers` |
| `PageWindow.WindowShape` | app/events/page.tsx:209-221 | with more than five pages, the middle window is always three consecutive pages, starting at 2 or later and ending at `totalPages-1` or earlier |
| `PageWindow.WideLayout` | app/events/page.tsx:205-241 | with more than five pages, the row is page 1, an optional "ellipsis-start", three window pages, an optional "ellipsis-end", and the last page |
| `PageWindow.PageNumbersFew` | app/events/page.tsx:200-204 | with at most five pages, the row is exactly `1, 2, ..., totalPages`, which is empty when there are no pages |
| `PageWindow.PageNumbersEnds` | app/events/page.tsx:206-241 | when there is at least one page, the first button is page 1 and the last is `totalPages` |
| `PageWindow.PageNumbersOrdered` | app/events/page.tsx:196-245 | the page numbers shown strictly increase, lie in `1..totalPages`, and there are `min(totalPages, 5)` of them |
| `PageWindow.PageNumbersShowCurrent` | app/events/page.tsx:209-221 | for `1 <= currentPage <= totalPages`, the current page and its neighbours always have a button |
| `PageWindow.PageNumbersEllipsisStart` | app/events/page.tsx:223-226 | "ellipsis-start" appears exactly when the window starts after page 2; it is then the second button and marks a gap after page 1 |
| `PageWindow.PageNumbersEllipsisEnd` | app/events/page.tsx:233-236 | "ellipsis-end" appears exactly when the window ends before `totalPages-1`; it is then the next-to-last button and marks a gap before the last page |
| `PageWindow.PageNumbersGaps` | app/events/page.tsx:223-236 | adjacent number buttons are adjacent pages, and every ellipsis sits between two number buttons with at least one page hidden between them |
| `PageWindow.NumbersMembership` | app/events/page.tsx:390-391 | a page has a number button exactly when it is among the numbers shown |
| `PageWindow.ShownPageNonEmpty` | app/events/page.tsx:390-401 | every number button leads to a page that holds between one and six events |
| `Browse.EventsPage.constructor` | app/events/page.tsx:108-116 | the page starts with no search, the category "all", no events and page 1 |
| `Browse.EventsPage.HandleSearchChange` | app/events/page.tsx:165-171 | the search text is replaced, the category is kept, and the current page goes back to 1 |
| `Browse.EventsPage.HandleCategoryChange` | app/events/page.tsx:174-180 | the category is replaced, the search text is kept, and the current page goes back to 1 |
| `Browse.EventsPage.HandlePageChange` | app/events/page.tsx:183-184 | the current page becomes the chosen page and nothing else changes |
| `Browse.EventsPage.ClearFilters` | app/events/page.tsx:323 | the filters go back to the initial ones; the current page and the list are unchanged |
| `Browse.EventsPage.FetchEvents` | app/events/page.tsx:121-162 | when a run of `fetchEvents` completes, the list shown becomes the sample list filtered by the filters that run captured when it started |
| `Browse.EventsPage.PageCount` | app/events/page.tsx:192 | the number of pages covers every listed event and ends with a non-empty page |
| `Browse.EventsPage.PaginatedEvents` | app/events/page.tsx:193 | the events of the current page are at most six, and are the events at positions `(p-1)*6 .. min(p*6, n)-1` |
| `Browse.EventsPage.PageButtons` | app/events/page.tsx:390 | the buttons drawn for the current state are `PageNumbers(totalPages, currentPage)` |

## Left out

- `toLowerCase` is modelled on the ASCII letters only. The Unicode case mapping, including mappings that change a string's length, is not modelled.
- `fetchEvents` is modelled as its filtering only. The 300 ms `setTimeout` delay, the `isLoading` flag, the `try`/`catch` that would empty the list on an exception, and the `useEffect` scheduling are left out. `FetchEvents` is the completion of one run, given the filters that run captured when it started. The model does not say which runs complete or in what order. When the filters change during the delay, an earlier run can show the list for the earlier filters until the last run completes.
- `eventsData` is the constant `Events.SampleEvents` (events.dfy), copied field by field. It is a value, not an operation, so it has no row. `Events.SampleCategories` and `Events.SampleTechnology` state which of its events the category "technology" keeps.
- `handlePageChange` does not model `window.scrollTo`, which only touches the browser window.
- JavaScript numbers are floating-point. The model treats `currentPage` and the page counts as exact integers, which is all the page ever stores in them.
- The JSX rendering, the Tailwind classes, the `FadeIn`/`ParallaxSection` animations and the canvas grid background are not modelled. They are display code.
- The entries of the category select are not modelled. Only the value `"all"`, which disables the category filter, matters to the logic.
- The other pages (`app/page.tsx`, `app/admin/page.tsx`, `app/dashboard/page.tsx` and the event detail and booking pages) are not modelled. They display hard-coded sample data.
- `lib/actions.ts` and the schema in `app/lib/db.ts` are not modelled. They exist only inside comments.
