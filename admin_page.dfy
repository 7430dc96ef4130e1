/** Two helpers of the admin page: the window of page links under the users
    table, and the column-sort transition. */
module AdminPage {
  /** One entry of the pagination bar: a page link or an ellipsis. */
  datatype PageItem = Page(n: int) | Ellipsis

  /** The window the pagination bar shows, written out case by case: every
      page when there are at most seven; otherwise seven entries with the
      first and last page, an ellipsis for each skipped run, and either the
      first five pages, the last five, or the current page with its two
      neighbours. */
  function PageWindow(currentPage: int, totalPages: nat): (pages: seq<PageItem>)
  {
    if totalPages <= 7 then seq(totalPages, i => Page(i + 1))
    else if currentPage <= 4 then
      [Page(1), Page(2), Page(3), Page(4), Page(5), Ellipsis, Page(totalPages)]
    else if currentPage >= totalPages - 3 then
      [Page(1), Ellipsis, Page(totalPages - 4), Page(totalPages - 3), Page(totalPages - 2),
       Page(totalPages - 1), Page(totalPages)]
    else
      [Page(1), Ellipsis, Page(currentPage - 1), Page(currentPage), Page(currentPage + 1),
       Ellipsis, Page(totalPages)]
  }

  /** `getPageNumbers`: builds the window by pushing entries one at a time,
      with loops for the runs of five consecutive pages. */
  method GetPageNumbers(currentPage: int, totalPages: nat) returns (pages: seq<PageItem>)
    ensures pages == PageWindow(currentPage, totalPages)
  {
    if totalPages <= 7 {
      pages := seq(totalPages, i => Page(i + 1));
      return;
    }
    pages := [];
    if currentPage <= 4 {
      for i := 1 to 6
        invariant pages == seq(i - 1, k => Page(k + 1))
      {
        pages := pages + [Page(i)];
      }
      pages := pages + [Ellipsis];
      pages := pages + [Page(totalPages)];
    } else if currentPage >= totalPages - 3 {
      pages := pages + [Page(1)];
      pages := pages + [Ellipsis];
      for i := totalPages - 4 to totalPages + 1
        invariant pages == [Page(1), Ellipsis] + seq(i - (totalPages - 4), k => Page(totalPages - 4 + k))
      {
        pages := pages + [Page(i)];
      }
    } else {
      pages := pages + [Page(1)];
      pages := pages + [Ellipsis];
      pages := pages + [Page(currentPage - 1)];
      pages := pages + [Page(currentPage)];
      pages := pages + [Page(currentPage + 1)];
      pages := pages + [Ellipsis];
      pages := pages + [Page(totalPages)];
    }
  }

  /** Page numbers grow strictly from left to right. */
  predicate StrictlyIncreasing(pages: seq<PageItem>)
  {
    forall i, j | 0 <= i < j < |pages| && pages[i].Page? && pages[j].Page? :: pages[i].n < pages[j].n
  }

  /** Every ellipsis sits between two page links and stands for at least
      one page; two page links side by side are consecutive pages. So an
      ellipsis is never first, never last, never next to another, and no
      page is skipped silently. */
  predicate GapsMarked(pages: seq<PageItem>)
  {
    && (forall i | 0 <= i < |pages| && pages[i].Ellipsis? ::
          0 < i < |pages| - 1 && pages[i - 1].Page? && pages[i + 1].Page?
          && pages[i - 1].n + 1 < pages[i + 1].n)
    && (forall i | 0 <= i < |pages| - 1 && pages[i].Page? && pages[i + 1].Page? ::
          pages[i + 1].n == pages[i].n + 1)
  }

  /** Up to seven pages are all listed; beyond that the bar has seven
      entries, runs from page 1 to the last page, numbers increase, gaps are
      marked by ellipses, and the current page (when it exists) is shown. */
  lemma PageWindowShape(currentPage: int, totalPages: nat)
    ensures var pages := PageWindow(currentPage, totalPages);
      totalPages <= 7 ==> |pages| == totalPages && forall i | 0 <= i < totalPages :: pages[i] == Page(i + 1)
    ensures var pages := PageWindow(currentPage, totalPages);
      totalPages > 7 ==> |pages| == 7 && pages[0] == Page(1) && pages[6] == Page(totalPages)
    ensures StrictlyIncreasing(PageWindow(currentPage, totalPages))
    ensures GapsMarked(PageWindow(currentPage, totalPages))
    ensures 1 <= currentPage <= totalPages ==> Page(currentPage) in PageWindow(currentPage, totalPages)
  {
    var pages := PageWindow(currentPage, totalPages);
    WindowGapsMarked(currentPage, totalPages);
    GapsMarkedIncreasing(pages);
    if totalPages > 7 && 1 <= currentPage <= totalPages {
      if currentPage <= 4 {
        assert pages[currentPage - 1] == Page(currentPage);
      } else if currentPage >= totalPages - 3 {
        assert pages[currentPage - totalPages + 6] == Page(currentPage);
      } else {
        assert pages[3] == Page(currentPage);
      }
    } else if 1 <= currentPage <= totalPages {
      assert pages[currentPage - 1] == Page(currentPage);
    }
  }

  lemma WindowGapsMarked(currentPage: int, totalPages: nat)
    ensures GapsMarked(PageWindow(currentPage, totalPages))
  {
    var pages := PageWindow(currentPage, totalPages);
    if totalPages <= 7 {
      assert forall i | 0 <= i < |pages| :: pages[i] == Page(i + 1);
    } else if currentPage <= 4 {
      assert pages == [Page(1), Page(2), Page(3), Page(4), Page(5), Ellipsis, Page(totalPages)];
    } else if currentPage >= totalPages - 3 {
      TailWindowGapsMarked(totalPages);
    } else {
      MiddleWindowGapsMarked(currentPage, totalPages);
    }
  }

  lemma TailWindowGapsMarked(totalPages: nat)
    requires totalPages > 7
    ensures GapsMarked([Page(1), Ellipsis, Page(totalPages - 4), Page(totalPages - 3), Page(totalPages - 2),
                        Page(totalPages - 1), Page(totalPages)])
  {
  }

  lemma MiddleWindowGapsMarked(currentPage: int, totalPages: nat)
    requires 4 < currentPage < totalPages - 3
    ensures GapsMarked([Page(1), Ellipsis, Page(currentPage - 1), Page(currentPage), Page(currentPage + 1),
                        Ellipsis, Page(totalPages)])
  {
  }

  /** Marked gaps make the page numbers increase: between two page links
      every step is either the next page or an ellipsis over a real gap. */
  lemma GapsMarkedIncreasing(pages: seq<PageItem>)
    requires GapsMarked(pages)
    ensures StrictlyIncreasing(pages)
  {
    forall i, j | 0 <= i < j < |pages| && pages[i].Page? && pages[j].Page?
      ensures pages[i].n < pages[j].n
    {
      IncreasingFrom(pages, i, j);
    }
  }

  lemma {:induction false} IncreasingFrom(pages: seq<PageItem>, i: nat, j: nat)
    requires GapsMarked(pages)
    requires i < j < |pages| && pages[i].Page? && pages[j].Page?
    ensures pages[i].n < pages[j].n
    decreases j - i
  {
    if j > i + 1 {
      if pages[i + 1].Page? {
        IncreasingFrom(pages, i + 1, j);
      } else if j > i + 2 {
        IncreasingFrom(pages, i + 2, j);
      }
    }
  }

  /** Every page from 1 to the last is either listed or lies inside the
      range an ellipsis stands for. */
  lemma PageWindowCoversAllPages(currentPage: int, totalPages: nat, p: int)
    requires 1 <= p <= totalPages
    ensures var pages := PageWindow(currentPage, totalPages);
      Page(p) in pages
      || exists i | 0 < i < |pages| - 1 && pages[i].Ellipsis? :: pages[i - 1].n < p < pages[i + 1].n
  {
    var pages := PageWindow(currentPage, totalPages);
    if totalPages <= 7 {
      assert pages[p - 1] == Page(p);
    } else if currentPage <= 4 {
      if p <= 5 { assert pages[p - 1] == Page(p); }
      else if p == totalPages { assert pages[6] == Page(p); }
      else { assert pages[5].Ellipsis? && pages[4].n < p < pages[6].n; }
    } else if currentPage >= totalPages - 3 {
      if p == 1 { assert pages[0] == Page(p); }
      else if p >= totalPages - 4 { assert pages[p - totalPages + 6] == Page(p); }
      else { assert pages[1].Ellipsis? && pages[0].n < p < pages[2].n; }
    } else {
      if p == 1 { assert pages[0] == Page(p); }
      else if p < currentPage - 1 { assert pages[1].Ellipsis? && pages[0].n < p < pages[2].n; }
      else if p <= currentPage + 1 { assert pages[p - currentPage + 3] == Page(p); }
      else if p < totalPages { assert pages[5].Ellipsis? && pages[4].n < p < pages[6].n; }
      else { assert pages[6] == Page(p); }
    }
  }

  datatype SortField = Name | ApartmentNumber | CreatedAt | ApprovalDate
  datatype SortOrder = Asc | Desc

  /** The users table's sort column, direction and current page. */
  datatype SortState = SortState(field: SortField, order: SortOrder, page: int)

  function Flip(o: SortOrder): SortOrder
  {
    if o == Asc then Desc else Asc
  }

  /** `handleSort`: clicking the sorted column flips the direction; another
      column becomes the sort column, descending for the creation date and
      ascending otherwise; either way the table returns to page 1. */
  function HandleSort(s: SortState, field: SortField): (t: SortState)
    ensures t.page == 1 && t.field == field
    ensures field == s.field ==> t.order != s.order
    ensures field != s.field ==> (t.order == Desc <==> field == CreatedAt)
  {
    if s.field == field then s.(order := Flip(s.order), page := 1)
    else SortState(field, if field == CreatedAt then Desc else Asc, 1)
  }

  /** Clicking the same column twice restores the direction; the page
      stays 1. */
  lemma SortTwiceRestoresOrder(s: SortState, field: SortField)
    ensures field == s.field ==> HandleSort(HandleSort(s, field), field) == s.(page := 1)
    ensures HandleSort(HandleSort(s, field), field).order == Flip(HandleSort(s, field).order)
  {
  }
}
