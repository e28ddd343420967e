/** The page bar and the row numbers of the artists and exhibitions lists
    (MuseumAPI-frontend/src/components/artists/AllArtists.tsx and
    MuseumAPI-frontend/src/components/exhibitions/AllExhibitions.tsx). Both
    lists keep a 0-based `pageIndex`, a `pageSize` and the `totalPages` the
    server reports; the bar shows a window of 1-based page buttons, a
    "1 ..." shortcut before it, a "... N" shortcut after it, and previous
    and next buttons. */
module Pager {
  import opened Common

  const DisplayedPages: int := 9

  /** The page size a list uses when the account gives none. */
  const DefaultPageSize: int := 5

  /** The first and last numbered page button. */
  datatype PageWindow = PageWindow(startPage: int, endPage: int)

  /** startPage/endPage of the page bar, as both lists compute them: a
      window around the current page, pinned to 1..8 near the start and to
      the last pages near the end. */
  function Window(pageIndex: int, totalPages: int): (w: PageWindow)
    ensures pageIndex <= 4 ==> w == PageWindow(1, 8)
    ensures pageIndex > 4 && pageIndex + 4 < totalPages - 1 ==> w == PageWindow(pageIndex - 2, pageIndex + 4)
    ensures pageIndex > 4 && pageIndex + 4 >= totalPages - 1 ==> w == PageWindow(totalPages - 7, totalPages)
  {
    var startPage := pageIndex - (DisplayedPages - 3) / 2 + 1;
    var endPage := startPage + DisplayedPages - 3;
    if startPage <= 2 then PageWindow(1, DisplayedPages - 1)
    else if endPage >= totalPages - 1 then PageWindow(totalPages - DisplayedPages + 2, totalPages)
    else PageWindow(startPage, endPage)
  }

  /** The numbered buttons: Array.from with length endPage - startPage + 1
      (a negative length gives no buttons), the i-th showing startPage + i. */
  function Buttons(w: PageWindow): (r: seq<int>)
    ensures forall i :: 0 < i < |r| ==> r[i] == r[i - 1] + 1
    ensures |r| > 0 ==> r[0] == w.startPage && r[|r| - 1] == w.endPage
    ensures w.endPage < w.startPage ==> r == []
  {
    var count := if w.endPage < w.startPage then 0 else w.endPage - w.startPage + 1;
    seq(count, i requires 0 <= i < count => w.startPage + i)
  }

  /** A page has a button exactly when it lies between startPage and endPage. */
  lemma {:induction false} ButtonsAreTheRange(w: PageWindow)
    ensures forall n :: n in Buttons(w) <==> w.startPage <= n <= w.endPage
  {
    var r := Buttons(w);
    forall n | w.startPage <= n <= w.endPage ensures n in r {
      ButtonAt(w, n - w.startPage);
    }
    forall n | n in r ensures w.startPage <= n <= w.endPage {
      var i :| 0 <= i < |r| && r[i] == n;
      ButtonAt(w, i);
    }
  }

  /** The i-th button shows startPage + i. */
  lemma ButtonAt(w: PageWindow, i: int)
    requires 0 <= i <= w.endPage - w.startPage
    ensures i < |Buttons(w)| && Buttons(w)[i] == w.startPage + i
  {
  }

  /** The "1 ..." shortcut is rendered. */
  predicate ShowsFirstShortcut(w: PageWindow) {
    w.startPage > 1
  }

  /** The "... N" shortcut is rendered, N being the last page. */
  predicate ShowsLastShortcut(w: PageWindow, totalPages: int) {
    w.endPage < totalPages
  }

  /** Whatever page is current, the bar holds the current page as a
      numbered button. */
  lemma WindowContainsCurrentPage(pageIndex: int, totalPages: int)
    ensures 0 <= pageIndex < totalPages ==> pageIndex + 1 in Buttons(Window(pageIndex, totalPages))
  {
    ButtonsAreTheRange(Window(pageIndex, totalPages));
  }

  /** In the middle case the window has 7 buttons, the current page fourth
      with 3 on either side; at the start and near the end it has 8. */
  lemma WindowSize(pageIndex: int, totalPages: int)
    ensures var w := Window(pageIndex, totalPages);
      && (pageIndex <= 4 ==> |Buttons(w)| == 8)
      && (pageIndex > 4 && pageIndex + 4 < totalPages - 1 ==>
            |Buttons(w)| == 7 && Buttons(w)[3] == pageIndex + 1)
      && (pageIndex > 4 && pageIndex + 4 >= totalPages - 1 ==> |Buttons(w)| == 8)
  {
  }

  /** Page 1 can always be reached from the bar, and exactly once: by the
      "1 ..." shortcut when the window starts later, by a numbered button
      otherwise. */
  lemma FirstPageShownOnce(pageIndex: int, totalPages: int)
    requires totalPages >= 1
    ensures var w := Window(pageIndex, totalPages);
      ShowsFirstShortcut(w) <==> 1 !in Buttons(w)
  {
    ButtonsAreTheRange(Window(pageIndex, totalPages));
  }

  /** The last page can always be reached from the bar, and exactly once:
      by the "... N" shortcut when the window ends earlier, by a numbered
      button otherwise. */
  lemma LastPageShownOnce(pageIndex: int, totalPages: int)
    requires 0 <= pageIndex < totalPages
    ensures var w := Window(pageIndex, totalPages);
      ShowsLastShortcut(w, totalPages) <==> totalPages !in Buttons(w)
  {
    ButtonsAreTheRange(Window(pageIndex, totalPages));
  }

  /** As written, a list with 6 pages open on page 6 shows buttons -1 and 0,
      and a list with 3 pages shows buttons up to 8: the window is not cut
      at the ends when there are fewer than 8 pages. Clicking -1 moves to
      page index -2. */
  lemma WindowShowsInvalidPages()
    ensures Window(5, 6) == PageWindow(-1, 6) && -1 in Buttons(Window(5, 6)) && 0 in Buttons(Window(5, 6))
    ensures Window(5, 7) == PageWindow(0, 7) && 0 in Buttons(Window(5, 7))
    ensures Window(0, 3) == PageWindow(1, 8) && 8 in Buttons(Window(0, 3))
  {
    ButtonsAreTheRange(Window(5, 6));
    ButtonsAreTheRange(Window(5, 7));
    ButtonsAreTheRange(Window(0, 3));
  }

  /** The window cut to the pages that exist. */
  function ClampedWindow(pageIndex: int, totalPages: int): (w: PageWindow)
    ensures w.startPage >= 1 && w.endPage <= totalPages
  {
    var v := Window(pageIndex, totalPages);
    PageWindow(if v.startPage < 1 then 1 else v.startPage,
               if v.endPage > totalPages then totalPages else v.endPage)
  }

  /** Every button of the cut window is a page of the list, the current
      page among them, and with 8 pages or more it is the window as written. */
  lemma ClampedWindowIsValid(pageIndex: int, totalPages: int)
    requires 0 <= pageIndex < totalPages
    ensures forall n :: n in Buttons(ClampedWindow(pageIndex, totalPages)) ==> 1 <= n <= totalPages
    ensures pageIndex + 1 in Buttons(ClampedWindow(pageIndex, totalPages))
    ensures totalPages >= 8 ==> ClampedWindow(pageIndex, totalPages) == Window(pageIndex, totalPages)
  {
    ButtonsAreTheRange(ClampedWindow(pageIndex, totalPages));
  }

  /** With the window cut, page 1 and the last page are still reachable
      exactly once. */
  lemma ClampedWindowEndsShownOnce(pageIndex: int, totalPages: int)
    requires 0 <= pageIndex < totalPages
    ensures var w := ClampedWindow(pageIndex, totalPages);
      && (ShowsFirstShortcut(w) <==> 1 !in Buttons(w))
      && (ShowsLastShortcut(w, totalPages) <==> totalPages !in Buttons(w))
  {
    ButtonsAreTheRange(ClampedWindow(pageIndex, totalPages));
  }

  // ---------------------------------------------------------------------
  // Row numbers
  // ---------------------------------------------------------------------

  /** The number in the "#" column of row `index` of page `pageIndex`. */
  function RowNumber(pageIndex: int, pageSize: int, index: int): int {
    pageIndex * pageSize + index + 1
  }

  /** When the server returns page `pageIndex` as Skip/Take over the table,
      the row numbered k is the k-th row of the table (counting from 1). */
  lemma RowNumberIsTablePosition<T>(table: seq<T>, pageIndex: nat, pageSize: nat, index: nat)
    requires index < |Page(table, pageIndex, pageSize)|
    ensures 1 <= RowNumber(pageIndex, pageSize, index) <= |table|
    ensures Page(table, pageIndex, pageSize)[index] == table[RowNumber(pageIndex, pageSize, index) - 1]
  {
    var lo := pageIndex * pageSize;
    PageIsSlice(table, pageIndex, pageSize);
    var page := Page(table, pageIndex, pageSize);
    assert lo < |table|;
    assert page == table[lo..Min(lo + pageSize, |table|)];
    assert page[index] == table[lo + index];
  }

  /** Numbering runs on across pages: the first row of a page follows the
      last row of the page before it, and rows of different pages never
      share a number. */
  lemma {:induction false} RowNumbersConsecutive(pageIndex: int, pageSize: int)
    requires pageSize > 0
    ensures RowNumber(pageIndex + 1, pageSize, 0) == RowNumber(pageIndex, pageSize, pageSize - 1) + 1
    ensures forall p, q, i, j :: 0 <= i < pageSize && 0 <= j < pageSize && (p, i) != (q, j) ==>
      RowNumber(p, pageSize, i) != RowNumber(q, pageSize, j)
  {
    forall p, q, i, j | 0 <= i < pageSize && 0 <= j < pageSize && (p, i) != (q, j)
      ensures RowNumber(p, pageSize, i) != RowNumber(q, pageSize, j)
    {
      if p == q {
      } else if p < q {
        MulMonotone(p + 1, q, pageSize);
        MulStep2(p, pageSize);
      } else {
        MulMonotone(q + 1, p, pageSize);
        MulStep2(q, pageSize);
      }
    }
  }

  lemma MulMonotone(a: int, b: int, c: int)
    requires a <= b && c >= 0
    ensures a * c <= b * c
  {
  }

  lemma MulStep2(a: int, c: int)
    ensures (a + 1) * c == a * c + c
  {
  }

  // ---------------------------------------------------------------------
  // The list's state and its handlers
  // ---------------------------------------------------------------------

  /** What the list reads from the signed-in account. */
  datatype ProfileView = ProfileView(pagePreference: Option<int>)
  datatype Account = Account(userProfile: Option<ProfileView>)

  /** `getAccount()?.userProfile?.pagePreference ?? 5`. */
  function PreferredPageSize(account: Option<Account>): (r: int)
    ensures (account.None? || account.value.userProfile.None?
             || account.value.userProfile.value.pagePreference.None?) ==> r == DefaultPageSize
    ensures account.Some? && account.value.userProfile.Some?
            && account.value.userProfile.value.pagePreference.Some? ==>
              r == account.value.userProfile.value.pagePreference.value
  {
    match account
    case None => DefaultPageSize
    case Some(a) =>
      match a.userProfile
      case None => DefaultPageSize
      case Some(p) => p.pagePreference.GetOr(DefaultPageSize)
  }

  class ListView {
    var pageIndex: int
    var pageSize: int
    var totalPages: int

    /** The current page is one of the list's pages. */
    ghost predicate InRange()
      reads this
    {
      0 <= pageIndex < totalPages
    }

    /** The artists list: page 0, the account's page size, and a page count
      of 999999 until the server answers. */
    constructor ForArtists(account: Option<Account>)
      ensures pageIndex == 0 && totalPages == 999999
      ensures pageSize == PreferredPageSize(account)
      ensures InRange()
    {
      pageIndex := 0;
      pageSize := PreferredPageSize(account);
      totalPages := 999999;
    }

    /** The exhibitions list: page 0, page size 5 and a page count of
      9999999 until the account and the server are read. */
    constructor ForExhibitions()
      ensures pageIndex == 0 && pageSize == DefaultPageSize && totalPages == 9999999
      ensures InRange()
    {
      pageIndex := 0;
      pageSize := DefaultPageSize;
      totalPages := 9999999;
    }

    /** The exhibitions list's first effect: with an account that has a
      profile, the page size becomes its preference (5 when it has none);
      otherwise the page size stays. Either way the page size ends up what
      the artists list starts with, when starting from 5. */
    method ApplyAccountPreference(account: Option<Account>)
      modifies this`pageSize
      ensures account.Some? && account.value.userProfile.Some? ==>
        pageSize == account.value.userProfile.value.pagePreference.GetOr(DefaultPageSize)
      ensures !(account.Some? && account.value.userProfile.Some?) ==> pageSize == old(pageSize)
      ensures old(pageSize) == DefaultPageSize ==> pageSize == PreferredPageSize(account)
    {
      if account.Some? && account.value.userProfile.Some? {
        pageSize := account.value.userProfile.value.pagePreference.GetOr(DefaultPageSize);
      }
    }

    /** The page count fetched from the server. */
    method SetTotalPages(count: int)
      modifies this`totalPages
      ensures totalPages == count
    {
      totalPages := count;
    }

    /** handlePageClick: clicking the button of page n (1-based). */
    method ClickPage(n: int)
      modifies this`pageIndex
      ensures pageIndex == n - 1
      ensures 1 <= n <= totalPages ==> InRange()
    {
      pageIndex := n - 1;
    }

    /** The previous button: one page back, never below page 0. */
    method Previous()
      modifies this`pageIndex
      ensures pageIndex == if old(pageIndex) - 1 > 0 then old(pageIndex) - 1 else 0
      ensures pageIndex >= 0
      ensures old(InRange()) ==> InRange()
    {
      pageIndex := if pageIndex - 1 > 0 then pageIndex - 1 else 0;
    }

    /** The next button: one page on; it is disabled on the last page (and
      beyond), where a click does nothing. */
    method Next()
      modifies this`pageIndex
      ensures old(pageIndex) + 1 < totalPages ==> pageIndex == old(pageIndex) + 1
      ensures old(pageIndex) + 1 >= totalPages ==> pageIndex == old(pageIndex)
      ensures old(InRange()) ==> InRange()
    {
      if pageIndex + 1 < totalPages {
        pageIndex := pageIndex + 1;
      }
    }

    /** The bar as the list renders it now. */
    function Bar(): (w: PageWindow)
      reads this
      ensures InRange() ==> pageIndex + 1 in Buttons(w)
    {
      WindowContainsCurrentPage(pageIndex, totalPages);
      Window(pageIndex, totalPages)
    }
  }
}
