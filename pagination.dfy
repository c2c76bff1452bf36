/**
 * The pagination bar: the list of page buttons, with ellipses standing for
 * skipped pages, and the conditions that disable the previous and next arrows.
 * Pages are numbered from 0; the buttons show the number plus one.
 */
module Pagination {

  /** One entry of the bar: a page button, or `'...'`. */
  datatype PageItem = Page(index: int) | Ellipsis

  function Min(a: int, b: int): int
  {
    if a <= b then a else b
  }

  /** The buttons for pages `lo` up to but excluding `hi`. */
  function Run(lo: int, hi: int): (r: seq<PageItem>)
    requires lo <= hi
    ensures |r| == hi - lo
    ensures forall k | 0 <= k < |r| :: r[k] == Page(lo + k)
  {
    seq(hi - lo, k requires 0 <= k < hi - lo => Page(lo + k))
  }

  /** The entries the bar shows for `currentPage` out of `totalPages`; no bar at all is the empty list. */
  function PageList(currentPage: int, totalPages: int): seq<PageItem>
  {
    if totalPages <= 1 then []
    else if totalPages > 7 then
      if currentPage <= 3 then
        Run(0, Min(5, totalPages)) + (if totalPages > 5 then [Ellipsis, Page(totalPages - 1)] else [])
      else if currentPage >= totalPages - 3 then
        [Page(0), Ellipsis] + Run(totalPages - 5, totalPages)
      else
        [Page(0), Ellipsis] + Run(currentPage - 1, currentPage + 2) + [Ellipsis, Page(totalPages - 1)]
    else Run(0, totalPages)
  }

  /** Appending the next button to a run extends it by one page. */
  lemma RunSnoc(lo: int, hi: int)
    requires lo <= hi
    ensures Run(lo, hi) + [Page(hi)] == Run(lo, hi + 1)
  {
  }

  /** The component's construction of `pages`, with its four branches and their loops. */
  method Pages(currentPage: int, totalPages: int) returns (pages: seq<PageItem>)
    ensures pages == PageList(currentPage, totalPages)
  {
    if totalPages <= 1 {
      return [];
    }
    pages := [];
    var showEllipsis := totalPages > 7;
    if showEllipsis {
      if currentPage <= 3 {
        for i := 0 to Min(5, totalPages)
          invariant pages == Run(0, i)
        {
          RunSnoc(0, i);
          pages := pages + [Page(i)];
        }
        if totalPages > 5 {
          pages := pages + [Ellipsis];
          pages := pages + [Page(totalPages - 1)];
        }
      } else if currentPage >= totalPages - 3 {
        pages := pages + [Page(0)];
        pages := pages + [Ellipsis];
        ghost var head := pages;
        for i := totalPages - 5 to totalPages
          invariant pages == head + Run(totalPages - 5, i)
        {
          RunSnoc(totalPages - 5, i);
          pages := pages + [Page(i)];
        }
      } else {
        pages := pages + [Page(0)];
        pages := pages + [Ellipsis];
        ghost var head := pages;
        for i := currentPage - 1 to currentPage + 2
          invariant pages == head + Run(currentPage - 1, i)
        {
          RunSnoc(currentPage - 1, i);
          pages := pages + [Page(i)];
        }
        pages := pages + [Ellipsis];
        pages := pages + [Page(totalPages - 1)];
      }
    } else {
      for i := 0 to totalPages
        invariant pages == Run(0, i)
      {
        RunSnoc(0, i);
        pages := pages + [Page(i)];
      }
    }
  }

  // ---------------------------------------------------------------------------
  // What the bar promises
  // ---------------------------------------------------------------------------

  /** Page numbers grow strictly from left to right. */
  predicate Increasing(items: seq<PageItem>)
  {
    forall i, j | 0 <= i < j < |items| && items[i].Page? && items[j].Page? :: items[i].index < items[j].index
  }

  /** Every page shown exists. */
  predicate WithinPages(items: seq<PageItem>, totalPages: int)
  {
    forall i | 0 <= i < |items| && items[i].Page? :: 0 <= items[i].index < totalPages
  }

  /**
   * Neighbouring buttons show neighbouring pages, and an ellipsis sits between two
   * buttons whose pages are at least two apart: it always hides at least one page.
   */
  predicate GapsMarked(items: seq<PageItem>)
  {
    (forall i | 0 <= i < |items| - 1 && items[i].Page? && items[i + 1].Page? ::
      items[i + 1].index == items[i].index + 1)
    && (forall i | 0 <= i < |items| && items[i].Ellipsis? ::
      0 < i < |items| - 1 && items[i - 1].Page? && items[i + 1].Page?
      && items[i + 1].index >= items[i - 1].index + 2)
  }

  /** The shape every bar has for a current page within range. */
  predicate WellFormedBar(items: seq<PageItem>, currentPage: int, totalPages: int)
  {
    && 0 < |items| <= 7
    && items[0] == Page(0)
    && items[|items| - 1] == Page(totalPages - 1)
    && Page(currentPage) in items
    && Increasing(items)
    && WithinPages(items, totalPages)
    && GapsMarked(items)
  }

  /** Two to seven pages: every page, in order, without ellipsis. */
  lemma PlainBar(currentPage: int, totalPages: int)
    requires 0 <= currentPage < totalPages && 1 < totalPages <= 7
    ensures |PageList(currentPage, totalPages)| == totalPages
    ensures forall k | 0 <= k < totalPages :: PageList(currentPage, totalPages)[k] == Page(k)
    ensures WellFormedBar(PageList(currentPage, totalPages), currentPage, totalPages)
  {
    var items := PageList(currentPage, totalPages);
    assert items[currentPage] == Page(currentPage);
  }

  /** More than seven pages, current page among the first four: the first five pages, an ellipsis, the last page. */
  lemma LeadingBar(currentPage: int, totalPages: int)
    requires 0 <= currentPage <= 3 && 7 < totalPages
    ensures PageList(currentPage, totalPages) == [Page(0), Page(1), Page(2), Page(3), Page(4), Ellipsis, Page(totalPages - 1)]
    ensures WellFormedBar(PageList(currentPage, totalPages), currentPage, totalPages)
  {
    var items := [Page(0), Page(1), Page(2), Page(3), Page(4), Ellipsis, Page(totalPages - 1)];
    assert PageList(currentPage, totalPages) == items;
    LeadingShape(currentPage, totalPages);
  }

  /** The leading bar's shape is well formed. */
  lemma LeadingShape(c: int, t: int)
    requires 0 <= c <= 3 && 7 < t
    ensures WellFormedBar([Page(0), Page(1), Page(2), Page(3), Page(4), Ellipsis, Page(t - 1)], c, t)
  {
    var items := [Page(0), Page(1), Page(2), Page(3), Page(4), Ellipsis, Page(t - 1)];
    assert items[c] == Page(c);
  }

  /** More than seven pages, current page among the last four but not the first four: the first page, an ellipsis, the last five pages. */
  lemma TrailingBar(currentPage: int, totalPages: int)
    requires 3 < currentPage < totalPages && 7 < totalPages && currentPage >= totalPages - 3
    ensures var t := totalPages;
      PageList(currentPage, t) == [Page(0), Ellipsis, Page(t - 5), Page(t - 4), Page(t - 3), Page(t - 2), Page(t - 1)]
    ensures WellFormedBar(PageList(currentPage, totalPages), currentPage, totalPages)
  {
    var t := totalPages;
    var items := [Page(0), Ellipsis, Page(t - 5), Page(t - 4), Page(t - 3), Page(t - 2), Page(t - 1)];
    assert PageList(currentPage, t) == items;
    TrailingShape(currentPage, t);
  }

  /** The trailing bar's shape is well formed. */
  lemma TrailingShape(c: int, t: int)
    requires 3 < c < t && 7 < t && c >= t - 3
    ensures WellFormedBar([Page(0), Ellipsis, Page(t - 5), Page(t - 4), Page(t - 3), Page(t - 2), Page(t - 1)], c, t)
  {
    var items := [Page(0), Ellipsis, Page(t - 5), Page(t - 4), Page(t - 3), Page(t - 2), Page(t - 1)];
    assert items[c - t + 7] == Page(c);
  }

  /** More than seven pages, current page in between: the first page, the current page and its two neighbours between ellipses, the last page. */
  lemma MiddleBar(currentPage: int, totalPages: int)
    requires 3 < currentPage < totalPages - 3 && 7 < totalPages
    ensures var c := currentPage;
      PageList(c, totalPages) == [Page(0), Ellipsis, Page(c - 1), Page(c), Page(c + 1), Ellipsis, Page(totalPages - 1)]
    ensures WellFormedBar(PageList(currentPage, totalPages), currentPage, totalPages)
  {
    var c := currentPage;
    var items := [Page(0), Ellipsis, Page(c - 1), Page(c), Page(c + 1), Ellipsis, Page(totalPages - 1)];
    assert PageList(c, totalPages) == items;
    MiddleShape(c, totalPages);
  }

  /** The middle bar's shape is well formed. */
  lemma MiddleShape(c: int, t: int)
    requires 3 < c < t - 3
    ensures WellFormedBar([Page(0), Ellipsis, Page(c - 1), Page(c), Page(c + 1), Ellipsis, Page(t - 1)], c, t)
  {
    var items := [Page(0), Ellipsis, Page(c - 1), Page(c), Page(c + 1), Ellipsis, Page(t - 1)];
    assert items[3] == Page(c);
  }

  /**
   * For a current page within range, the bar starts at the first page and ends at
   * the last, shows the current page, has increasing page numbers within range, at
   * most seven entries, and an ellipsis exactly where pages are skipped.
   */
  lemma WindowProperties(currentPage: int, totalPages: int)
    requires 0 <= currentPage < totalPages && totalPages > 1
    ensures WellFormedBar(PageList(currentPage, totalPages), currentPage, totalPages)
  {
    if totalPages <= 7 {
      PlainBar(currentPage, totalPages);
    } else if currentPage <= 3 {
      LeadingBar(currentPage, totalPages);
    } else if currentPage >= totalPages - 3 {
      TrailingBar(currentPage, totalPages);
    } else {
      MiddleBar(currentPage, totalPages);
    }
  }

  /** With one page or none, there is no bar. */
  lemma NoBarForOnePage(currentPage: int, totalPages: int)
    ensures PageList(currentPage, totalPages) == [] <==> totalPages <= 1
  {
    if totalPages > 1 {
      if totalPages <= 7 {
        assert |PageList(currentPage, totalPages)| == totalPages;
      } else if currentPage <= 3 {
        assert |PageList(currentPage, totalPages)| == 7;
      } else if currentPage >= totalPages - 3 {
        assert |PageList(currentPage, totalPages)| == 7;
      } else {
        assert |PageList(currentPage, totalPages)| == 7;
      }
    }
  }

  /** `disabled={currentPage === 0}` on the previous arrow. */
  predicate PrevDisabled(currentPage: int)
  {
    currentPage == 0
  }

  /** `disabled={currentPage === totalPages - 1}` on the next arrow. */
  predicate NextDisabled(currentPage: int, totalPages: int)
  {
    currentPage == totalPages - 1
  }

  /**
   * On a shown bar with the current page in range, an arrow is disabled exactly when
   * the page it leads to does not exist, which is when the current page is the bar's
   * first (previous) or last (next) entry.
   */
  lemma ArrowsDisabledAtEnds(currentPage: int, totalPages: int)
    requires 0 <= currentPage < totalPages && totalPages > 1
    ensures PrevDisabled(currentPage) <==> !(0 <= currentPage - 1 < totalPages)
    ensures NextDisabled(currentPage, totalPages) <==> !(0 <= currentPage + 1 < totalPages)
    ensures var items := PageList(currentPage, totalPages);
      (PrevDisabled(currentPage) <==> items[0] == Page(currentPage))
      && (NextDisabled(currentPage, totalPages) <==> items[|items| - 1] == Page(currentPage))
  {
    WindowProperties(currentPage, totalPages);
  }
}
