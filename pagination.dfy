/** Fixed-size pagination of the filtered events and the row of page buttons. */
module Pagination {

  /** `eventsPerPage`. */
  const EventsPerPage: nat := 6

  /** `maxVisiblePages` of `getPageNumbers`. */
  const MaxVisiblePages: nat := 5

  function Min(a: int, b: int): int { if a <= b then a else b }
  function Max(a: int, b: int): int { if a >= b then a else b }

  /** `Math.ceil(n / eventsPerPage)`. */
  function TotalPages(n: nat): (r: nat)
    ensures r * EventsPerPage >= n
    ensures r == 0 || (r - 1) * EventsPerPage < n
    ensures r == 0 <==> n == 0
  {
    (n + EventsPerPage - 1) / EventsPerPage
  }

  /** How `Array.prototype.slice` reads one of its bounds: a negative bound counts from
      the end, and the result is clamped to `0..len`. */
  function SliceBound(i: int, len: nat): (r: nat)
    ensures r <= len
    ensures 0 <= i <= len ==> r == i
    ensures i < 0 && len + i >= 0 ==> r == len + i
    ensures i > len ==> r == len
    ensures len + i < 0 ==> r == 0
  {
    if i < 0 then Max(len + i, 0) else Min(i, len)
  }

  /** `s.slice(begin, end)`. */
  function Slice<T>(s: seq<T>, begin: int, end: int): (r: seq<T>)
    ensures |r| == Max(SliceBound(end, |s|) - SliceBound(begin, |s|), 0)
    ensures forall k :: 0 <= k < |r| ==> r[k] == s[SliceBound(begin, |s|) + k]
  {
    var lo, hi := SliceBound(begin, |s|), SliceBound(end, |s|);
    if lo < hi then s[lo..hi] else []
  }

  /** `paginatedEvents` for a given `currentPage`. */
  function PageSlice<T>(s: seq<T>, page: int): (r: seq<T>)
    ensures |r| <= EventsPerPage
  {
    Slice(s, (page - 1) * EventsPerPage, page * EventsPerPage)
  }

  /** Page `p` (counted from 1) holds exactly the elements at positions
      `(p-1)*6 .. min(p*6, n)-1`. */
  lemma PageContents<T>(s: seq<T>, page: int)
    requires page >= 1
    ensures PageSlice(s, page) == s[Min((page - 1) * EventsPerPage, |s|)..Min(page * EventsPerPage, |s|)]
  {
  }

  /** The pages that exist are not empty, and past the last one every page is. */
  lemma PageNonEmptyIffInRange<T>(s: seq<T>, page: int)
    requires page >= 1
    ensures PageSlice(s, page) != [] <==> page <= TotalPages(|s|)
  {
  }

  /** Every element is on page `i / 6 + 1`, at position `i % 6`. */
  lemma PageOf<T>(s: seq<T>, i: nat)
    requires i < |s|
    ensures i % EventsPerPage < |PageSlice(s, i / EventsPerPage + 1)|
    ensures PageSlice(s, i / EventsPerPage + 1)[i % EventsPerPage] == s[i]
  {
  }

  /** Pages `1..count`, in order. */
  function Pages<T>(s: seq<T>, count: nat): (r: seq<seq<T>>)
    ensures |r| == count
  {
    seq(count, i requires 0 <= i < count => PageSlice(s, i + 1))
  }

  /** All elements of all pages, in order. */
  function Flatten<T>(pages: seq<seq<T>>): seq<T>
  {
    if pages == [] then [] else Flatten(pages[..|pages| - 1]) + pages[|pages| - 1]
  }

  /** The first `count` pages together hold the first `min(count*6, n)` elements. */
  lemma {:induction false} PagesPrefix<T>(s: seq<T>, count: nat)
    ensures Flatten(Pages(s, count)) == s[..Min(count * EventsPerPage, |s|)]
  {
    if count > 0 {
      PagesPrefix(s, count - 1);
      assert Pages(s, count)[..count - 1] == Pages(s, count - 1);
      PageContents(s, count);
    }
  }

  /** Concatenating pages `1..TotalPages(n)` gives back the whole list. */
  lemma PagesReassemble<T>(s: seq<T>)
    ensures Flatten(Pages(s, TotalPages(|s|))) == s
  {
    PagesPrefix(s, TotalPages(|s|));
  }

  /** One button of the pagination row. */
  datatype PageItem = Num(page: nat) | EllipsisStart | EllipsisEnd

  /** Buttons for pages `lo..hi`; empty when `hi < lo`. */
  function Run(lo: nat, hi: int): (r: seq<PageItem>)
    ensures |r| == Max(hi - lo + 1, 0)
    ensures forall k :: 0 <= k < |r| ==> r[k] == Num(lo + k)
  {
    seq(Max(hi - lo + 1, 0), k requires 0 <= k => Num(lo + k))
  }

  /** Adding the button for page `hi + 1` extends `Run(lo, hi)`. */
  lemma RunExtend(lo: nat, hi: int)
    requires lo <= hi + 1
    ensures Run(lo, hi) + [Num(hi + 1)] == Run(lo, hi + 1)
  {
  }

  /** First middle page: `currentPage - 1`, moved to `totalPages - 3` near the end, never below 2. */
  function WindowStart(totalPages: int, currentPage: int): (start: int)
    ensures 2 <= start
    ensures start <= Max(2, currentPage - 1)
  {
    if currentPage >= totalPages - 1 then Max(2, totalPages - 3) else Max(2, currentPage - 1)
  }

  /** Last middle page: `currentPage + 1`, moved to 4 near the start, never above `totalPages - 1`. */
  function WindowEnd(totalPages: int, currentPage: int): (end: int)
    ensures end <= totalPages - 1
    ensures end >= Min(totalPages - 1, currentPage + 1)
  {
    if currentPage <= 2 then Min(totalPages - 1, 4) else Min(totalPages - 1, currentPage + 1)
  }

  /** The buttons `getPageNumbers` lays out. */
  function PageNumbers(totalPages: nat, currentPage: int): (r: seq<PageItem>)
    ensures Min(totalPages, MaxVisiblePages) <= |r| <= MaxVisiblePages + 2
  {
    if totalPages <= MaxVisiblePages then Run(1, totalPages)
    else
      var start, end := WindowStart(totalPages, currentPage), WindowEnd(totalPages, currentPage);
      [Num(1)]
      + (if start > 2 then [EllipsisStart] else [])
      + Run(start, end)
      + (if end < totalPages - 1 then [EllipsisEnd] else [])
      + (if totalPages > 1 then [Num(totalPages)] else [])
  }

  /** `getPageNumbers`: grows the list with two loops and moves the window bounds. */
  method GetPageNumbers(totalPages: nat, currentPage: int) returns (pages: seq<PageItem>)
    ensures pages == PageNumbers(totalPages, currentPage)
  {
    pages := [];
    if totalPages <= MaxVisiblePages {
      var i := 1;
      while i <= totalPages
        invariant 1 <= i <= totalPages + 1
        invariant pages == Run(1, i - 1)
      {
        RunExtend(1, i - 1);
        pages := pages + [Num(i)];
        i := i + 1;
      }
    } else {
      pages := pages + [Num(1)];
      var start := Max(2, currentPage - 1);
      var end := Min(totalPages - 1, currentPage + 1);
      if currentPage <= 2 {
        end := Min(totalPages - 1, 4);
      }
      if currentPage >= totalPages - 1 {
        start := Max(2, totalPages - 3);
      }
      assert start == WindowStart(totalPages, currentPage);
      assert end == WindowEnd(totalPages, currentPage);
      ghost var open: seq<PageItem> := if start > 2 then [EllipsisStart] else [];
      ghost var close: seq<PageItem> := if end < totalPages - 1 then [EllipsisEnd] else [];
      if start > 2 {
        pages := pages + [EllipsisStart];
      }
      assert pages == [Num(1)] + open;
      var i := start;
      while i <= end
        invariant start <= i <= Max(start, end + 1)
        invariant pages == [Num(1)] + open + Run(start, i - 1)
      {
        RunExtend(start, i - 1);
        pages := pages + [Num(i)];
        i := i + 1;
      }
      assert pages == [Num(1)] + open + Run(start, end);
      if end < totalPages - 1 {
        pages := pages + [EllipsisEnd];
      }
      assert pages == [Num(1)] + open + Run(start, end) + close;
      if totalPages > 1 {
        pages := pages + [Num(totalPages)];
      }
      assert pages == [Num(1)] + open + Run(start, end) + close + [Num(totalPages)];
    }
  }
}

module PageWindow {
  import opened Pagination

  /** The page numbers among the buttons, in order, ignoring the ellipses. */
  function Numbers(items: seq<PageItem>): (r: seq<nat>)
    ensures |r| <= |items|
  {
    if items == [] then [] else (if items[0].Num? then [items[0].page] else []) + Numbers(items[1..])
  }

  predicate StrictlyIncreasing(xs: seq<int>)
  {
    forall i, j :: 0 <= i < j < |xs| ==> xs[i] < xs[j]
  }

  lemma {:induction false} NumbersAppend(a: seq<PageItem>, b: seq<PageItem>)
    ensures Numbers(a + b) == Numbers(a) + Numbers(b)
  {
    if a != [] {
      NumbersAppend(a[1..], b);
      assert (a + b)[0] == a[0] && (a + b)[1..] == a[1..] + b;
      var head := if a[0].Num? then [a[0].page] else [];
      calc {
        Numbers(a + b);
        head + Numbers(a[1..] + b);
        head + (Numbers(a[1..]) + Numbers(b));
        (head + Numbers(a[1..])) + Numbers(b);
      }
    } else {
      assert a + b == b;
    }
  }

  /** A page has a button exactly when its number is among `Numbers`. */
  lemma {:induction false} NumbersMembership(items: seq<PageItem>, p: nat)
    ensures Num(p) in items <==> p in Numbers(items)
  {
    if items != [] {
      NumbersMembership(items[1..], p);
      assert items == [items[0]] + items[1..];
    }
  }

  lemma {:induction false} NumbersOfRun(lo: nat, hi: int)
    ensures Numbers(Run(lo, hi)) == seq(Max(hi - lo + 1, 0), k requires 0 <= k => lo + k)
    decreases hi - lo
  {
    if lo <= hi {
      assert Run(lo, hi) == [Num(lo)] + Run(lo + 1, hi);
      NumbersOfRun(lo + 1, hi);
    }
  }

  /** With more than five pages the middle window is always three consecutive pages
      strictly between the first and the last. */
  lemma WindowShape(totalPages: nat, currentPage: int)
    requires totalPages > MaxVisiblePages
    ensures 2 <= WindowStart(totalPages, currentPage)
    ensures WindowEnd(totalPages, currentPage) == WindowStart(totalPages, currentPage) + 2
    ensures WindowEnd(totalPages, currentPage) <= totalPages - 1
  {
  }

  /** The buttons for more than five pages, written out. */
  lemma WideLayout(totalPages: nat, currentPage: int)
    requires totalPages > MaxVisiblePages
    ensures var s := WindowStart(totalPages, currentPage);
      && 2 <= s && s + 2 <= totalPages - 1
      && PageNumbers(totalPages, currentPage) ==
           [Num(1)]
           + (if s > 2 then [EllipsisStart] else [])
           + [Num(s), Num(s + 1), Num(s + 2)]
           + (if s + 2 < totalPages - 1 then [EllipsisEnd] else [])
           + [Num(totalPages)]
      && Numbers(PageNumbers(totalPages, currentPage)) == [1, s, s + 1, s + 2, totalPages]
  {
    WindowShape(totalPages, currentPage);
    var s := WindowStart(totalPages, currentPage);
    var first: seq<PageItem> := [Num(1)];
    var open: seq<PageItem> := if s > 2 then [EllipsisStart] else [];
    var mid := Run(s, s + 2);
    var close: seq<PageItem> := if s + 2 < totalPages - 1 then [EllipsisEnd] else [];
    var last: seq<PageItem> := [Num(totalPages)];
    assert mid == [Num(s), Num(s + 1), Num(s + 2)];
    assert PageNumbers(totalPages, currentPage) == first + open + mid + close + last;
    NumbersOfRun(s, s + 2);
    assert Numbers(mid) == [s, s + 1, s + 2];
    assert Numbers(first) == [1];
    assert Numbers(last) == [totalPages];
    assert Numbers(open) == [] && Numbers(close) == [];
    NumbersAppend(first, open);
    NumbersAppend(first + open, mid);
    NumbersAppend(first + open + mid, close);
    NumbersAppend(first + open + mid + close, last);
    assert Numbers(first + open + mid + close + last) == [1] + [] + [s, s + 1, s + 2] + [] + [totalPages];
  }

  /** Up to five pages: one button per page, `1..totalPages`, no ellipsis. */
  lemma PageNumbersFew(totalPages: nat, currentPage: int)
    requires totalPages <= MaxVisiblePages
    ensures |PageNumbers(totalPages, currentPage)| == totalPages
    ensures forall k :: 0 <= k < totalPages ==> PageNumbers(totalPages, currentPage)[k] == Num(k + 1)
  {
  }

  /** The first button is page 1 and the last is the last page. */
  lemma PageNumbersEnds(totalPages: nat, currentPage: int)
    requires totalPages >= 1
    ensures var r := PageNumbers(totalPages, currentPage);
      |r| >= 1 && r[0] == Num(1) && r[|r| - 1] == Num(totalPages)
  {
  }

  /** The page numbers shown are strictly increasing, lie in `1..totalPages`, and there
      are `min(totalPages, 5)` of them. */
  lemma PageNumbersOrdered(totalPages: nat, currentPage: int)
    ensures var ns := Numbers(PageNumbers(totalPages, currentPage));
      && StrictlyIncreasing(ns)
      && (forall k :: 0 <= k < |ns| ==> 1 <= ns[k] <= totalPages)
      && |ns| == Min(totalPages, MaxVisiblePages)
  {
    if totalPages <= MaxVisiblePages {
      NumbersOfRun(1, totalPages);
    } else {
      WideLayout(totalPages, currentPage);
    }
  }

  /** The current page and its neighbours always have a button. */
  lemma PageNumbersShowCurrent(totalPages: nat, currentPage: int)
    requires 1 <= currentPage <= totalPages
    ensures forall p: nat :: 1 <= p <= totalPages && currentPage - 1 <= p <= currentPage + 1 ==>
      Num(p) in PageNumbers(totalPages, currentPage)
  {
    var r := PageNumbers(totalPages, currentPage);
    if totalPages <= MaxVisiblePages {
      forall p: nat | 1 <= p <= totalPages
        ensures Num(p) in r
      {
        assert r[p - 1] == Num(p);
      }
    } else {
      WideLayout(totalPages, currentPage);
      forall p: nat | 1 <= p <= totalPages && currentPage - 1 <= p <= currentPage + 1
        ensures Num(p) in r
      {
        NumbersMembership(r, p);
      }
    }
  }

  /** "ellipsis-start" appears exactly when the window starts after page 2, and then it is
      the second button, standing for the pages hidden between 1 and the window. */
  lemma PageNumbersEllipsisStart(totalPages: nat, currentPage: int)
    requires totalPages > MaxVisiblePages
    ensures var r, ns := PageNumbers(totalPages, currentPage), Numbers(PageNumbers(totalPages, currentPage));
      && |ns| == MaxVisiblePages
      && (EllipsisStart in r <==> WindowStart(totalPages, currentPage) > 2)
      && (EllipsisStart in r <==> r[1] == EllipsisStart)
      && (EllipsisStart in r <==> ns[1] > ns[0] + 1)
  {
    WideLayout(totalPages, currentPage);
  }

  /** "ellipsis-end" appears exactly when the window ends before `totalPages - 1`, and then
      it is the button before the last, standing for the pages hidden before the last one. */
  lemma PageNumbersEllipsisEnd(totalPages: nat, currentPage: int)
    requires totalPages > MaxVisiblePages
    ensures var r, ns := PageNumbers(totalPages, currentPage), Numbers(PageNumbers(totalPages, currentPage));
      && |ns| == MaxVisiblePages
      && (EllipsisEnd in r <==> WindowEnd(totalPages, currentPage) < totalPages - 1)
      && (EllipsisEnd in r <==> r[|r| - 2] == EllipsisEnd)
      && (EllipsisEnd in r <==> ns[4] > ns[3] + 1)
  {
    WideLayout(totalPages, currentPage);
  }

  /** Two adjacent number buttons are adjacent pages; an ellipsis sits between two number
      buttons and stands for at least one hidden page. */
  lemma PageNumbersGaps(totalPages: nat, currentPage: int)
    ensures var r := PageNumbers(totalPages, currentPage);
      && (forall k :: 0 <= k < |r| - 1 && r[k].Num? && r[k + 1].Num? ==> r[k + 1].page == r[k].page + 1)
      && (forall k :: 0 <= k < |r| && !r[k].Num? ==>
            0 < k < |r| - 1 && r[k - 1].Num? && r[k + 1].Num? && r[k + 1].page > r[k - 1].page + 1)
  {
  }

  /** Every page button leads to a page that holds at least one event. */
  lemma ShownPageNonEmpty<T>(s: seq<T>, currentPage: int, p: nat)
    requires Num(p) in PageNumbers(TotalPages(|s|), currentPage)
    ensures 1 <= |PageSlice(s, p)| <= EventsPerPage
  {
  }
}
