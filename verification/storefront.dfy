/** The landing page from `landing.js`: the list state, the handlers that change it, the
    rendering of one page of the filtered and sorted catalog with its pagination bar,
    and the page's own add-to-cart button. */
module Storefront {

  import opened Base
  import opened Seqs
  import opened Text
  import opened Sorting
  import opened Catalog
  import opened Pagination
  import ShoppingCart

  /** Books per page. */
  const StorePerPage: nat := 8
  const DefaultSort: string := "title-asc"

  /** The page's list state: the search text, the genre and sort drop-downs, and the
      pagination record. */
  datatype StoreView = StoreView(
    query: string,
    genre: string,
    sortOption: string,
    currentPage: int,
    totalItems: nat,
    totalPages: nat)

  function InitialView(): StoreView {
    StoreView("", "", DefaultSort, 1, 0, 0)
  }

  /** `handleSearch`: the trimmed text becomes the query, back to page 1. */
  function OnSearch(v: StoreView, text: string): StoreView {
    v.(query := Trim(text), currentPage := 1)
  }

  /** `handleGenreFilter`. */
  function OnGenreChange(v: StoreView, genre: string): StoreView {
    v.(genre := genre, currentPage := 1)
  }

  /** `handleSortFilter`. */
  function OnSortChange(v: StoreView, option: string): StoreView {
    v.(sortOption := option, currentPage := 1)
  }

  /** `clearFilters`: no query, no genre, title order, page 1. */
  function OnClearFilters(v: StoreView): (r: StoreView)
    ensures r.query == "" && r.genre == "" && r.sortOption == DefaultSort && r.currentPage == 1
  {
    v.(query := "", genre := "", sortOption := DefaultSort, currentPage := 1)
  }

  /** `goToStorePage`. */
  function OnGoToPage(v: StoreView, page: int): StoreView {
    v.(currentPage := page)
  }

  /** The previous-page button moves back only from a page after the first. */
  function OnPrev(v: StoreView): StoreView {
    if v.currentPage > 1 then v.(currentPage := v.currentPage - 1) else v
  }

  /** The next-page button moves on only from a page before the last. */
  function OnNext(v: StoreView): StoreView {
    if v.currentPage < v.totalPages then v.(currentPage := v.currentPage + 1) else v
  }

  /** The prev and next buttons never leave the range 1..max(1, totalPages). */
  lemma PrevNextStayInRange(v: StoreView)
    requires 1 <= v.currentPage <= Max(1, v.totalPages)
    ensures 1 <= OnPrev(v).currentPage <= Max(1, v.totalPages)
    ensures 1 <= OnNext(v).currentPage <= Max(1, v.totalPages)
    ensures OnPrev(v).currentPage != v.currentPage <==> v.currentPage > 1
    ensures OnNext(v).currentPage != v.currentPage <==> v.currentPage < v.totalPages
  {
  }

  /** Going forward and then back again returns to the same page. */
  lemma NextThenPrev(v: StoreView)
    requires 1 <= v.currentPage < v.totalPages
    ensures OnPrev(OnNext(v)) == v
  {
  }

  /** The list the page paginates: the filtered catalog, sorted. */
  function Listing(catalog: seq<Book>, v: StoreView, titleLeq: (string, string) -> bool): seq<Book> {
    SortBooks(FilterBooks(catalog, v.query, v.genre), ParseSortOption(v.sortOption), titleLeq)
  }

  /** The outcome of `renderBooks`: the updated state and the books on the grid. */
  datatype Rendered = Rendered(view: StoreView, shown: seq<Book>)

  /** `renderBooks`: recount the pages, pull a current page past the end back to the last
      page (or page 1 when nothing matches), and show that page's slice. */
  function Render(v: StoreView, catalog: seq<Book>, titleLeq: (string, string) -> bool): (r: Rendered)
    ensures var list := Listing(catalog, v, titleLeq);
      && r.view.totalItems == |list|
      && r.view.totalPages == TotalPages(|list|, StorePerPage)
      && r.view.currentPage == ClampPage(v.currentPage, r.view.totalPages)
      && r.view == v.(currentPage := r.view.currentPage, totalItems := |list|, totalPages := r.view.totalPages)
      && |r.shown| <= StorePerPage
      && (|list| == 0 ==> r.shown == [])
      && (|list| > 0 ==> r.shown == PageSlice(list, r.view.currentPage, StorePerPage))
  {
    var list := Listing(catalog, v, titleLeq);
    var totalPages := TotalPages(|list|, StorePerPage);
    var page := if v.currentPage > totalPages then Max(1, totalPages) else v.currentPage;
    var view := v.(currentPage := page, totalItems := |list|, totalPages := totalPages);
    if |list| == 0 then Rendered(view, [])
    else Rendered(view, PageSlice(list, page, StorePerPage))
  }

  /** For a page number of at least 1, the grid shows a non-empty run of the listing,
      the one that starts at (page - 1) * 8, whenever anything matches; the rendered
      page is then a real page. */
  lemma RenderShowsPage(v: StoreView, catalog: seq<Book>, titleLeq: (string, string) -> bool)
    requires 1 <= v.currentPage
    ensures var list := Listing(catalog, v, titleLeq);
      var r := Render(v, catalog, titleLeq);
      var start := (r.view.currentPage - 1) * StorePerPage;
      |list| > 0 ==>
        && 1 <= r.view.currentPage <= r.view.totalPages
        && 0 <= start < |list|
        && r.shown == list[start..Min(start + StorePerPage, |list|)]
        && 0 < |r.shown|
  {
    var list := Listing(catalog, v, titleLeq);
    var r := Render(v, catalog, titleLeq);
    if |list| > 0 {
      PagesAreNonEmpty(list, StorePerPage, r.view.currentPage);
      var n := r.view.totalPages;
      var p := r.view.currentPage;
      MulMonotone(p - 1, n - 1, StorePerPage);
    }
  }

  /** A page button for a real page shows that page: the listing is unchanged, the page
      is kept, and the grid holds its non-empty slice. */
  lemma GoToPageShowsPage(v: StoreView, catalog: seq<Book>, titleLeq: (string, string) -> bool, page: int)
    ensures var list := Listing(catalog, v, titleLeq);
      var r := Render(OnGoToPage(v, page), catalog, titleLeq);
      1 <= page <= TotalPages(|list|, StorePerPage) ==>
        && Listing(catalog, OnGoToPage(v, page), titleLeq) == list
        && r.view.currentPage == page
        && r.shown == PageSlice(list, page, StorePerPage)
        && 0 < |r.shown|
  {
    var list := Listing(catalog, v, titleLeq);
    assert Listing(catalog, OnGoToPage(v, page), titleLeq) == list;
    if 1 <= page <= TotalPages(|list|, StorePerPage) {
      PagesAreNonEmpty(list, StorePerPage, page);
    }
  }

  /** Every search, genre, sort or clear lands on the first page of the new listing. */
  lemma ResetShowsFirstPage(v: StoreView, catalog: seq<Book>, titleLeq: (string, string) -> bool, text: string, genre: string, option: string)
    ensures forall w :: w in [OnSearch(v, text), OnGenreChange(v, genre), OnSortChange(v, option), OnClearFilters(v)] ==>
      && Render(w, catalog, titleLeq).view.currentPage == 1
      && Render(w, catalog, titleLeq).shown == Listing(catalog, w, titleLeq)[..Min(StorePerPage, |Listing(catalog, w, titleLeq)|)]
  {
    forall w | w in [OnSearch(v, text), OnGenreChange(v, genre), OnSortChange(v, option), OnClearFilters(v)]
      ensures Render(w, catalog, titleLeq).view.currentPage == 1
      ensures Render(w, catalog, titleLeq).shown == Listing(catalog, w, titleLeq)[..Min(StorePerPage, |Listing(catalog, w, titleLeq)|)]
    {
      assert w.currentPage == 1;
    }
  }

  /** Stepping through the pages with the next button from page 1 shows every listed
      book once, in listing order. */
  lemma PagesShowListingOnce(v: StoreView, catalog: seq<Book>, titleLeq: (string, string) -> bool)
    ensures var list := Listing(catalog, v, titleLeq);
      PagesUpTo(list, StorePerPage, TotalPages(|list|, StorePerPage)) == list
  {
    PagesPartitionListing(Listing(catalog, v, titleLeq), StorePerPage);
  }

  /** The pagination bar: hidden for one page or none; otherwise the "start-end of n"
      text, the two buttons' disabled flags, and the page tokens. */
  datatype Bar = Bar(rangeStart: int, rangeEnd: int, total: int, prevDisabled: bool, nextDisabled: bool, tokens: seq<PageToken>)

  function PaginationBar(view: StoreView): (r: Option<Bar>)
    ensures r.None? <==> view.totalPages <= 1
    ensures r.Some? ==> r.value.tokens == PageNumbers(view.currentPage, view.totalPages)
    ensures r.Some? ==> (r.value.prevDisabled <==> view.currentPage == 1)
    ensures r.Some? ==> (r.value.nextDisabled <==> view.currentPage == view.totalPages)
  {
    if view.totalPages <= 1 then None
    else
      var p := view.currentPage;
      Some(Bar((p - 1) * StorePerPage + 1, Min(p * StorePerPage, view.totalItems), view.totalItems,
               p == 1, p == view.totalPages, PageNumbers(p, view.totalPages)))
  }

  /** Once rendered with more than one page, the range text counts exactly the books on
      the grid, and the bar starts with page 1, ends with the last page, and shows the
      current page. */
  lemma PaginationBarMatchesGrid(v: StoreView, catalog: seq<Book>, titleLeq: (string, string) -> bool)
    requires 1 <= v.currentPage
    ensures var r := Render(v, catalog, titleLeq);
      var bar := PaginationBar(r.view);
      bar.Some? ==>
        && bar.value.rangeEnd - bar.value.rangeStart + 1 == |r.shown|
        && bar.value.rangeStart == (r.view.currentPage - 1) * StorePerPage + 1
        && bar.value.total == |Listing(catalog, v, titleLeq)|
        && bar.value.tokens[0] == Page(1)
        && bar.value.tokens[|bar.value.tokens| - 1] == Page(r.view.totalPages)
        && Page(r.view.currentPage) in bar.value.tokens
  {
    var r := Render(v, catalog, titleLeq);
    var list := Listing(catalog, v, titleLeq);
    if r.view.totalPages > 1 {
      RenderShowsPage(v, catalog, titleLeq);
      var p := r.view.currentPage;
      var n := r.view.totalPages;
      MulStep(p, StorePerPage);
      BarShowsEndsAndCurrent(p, n);
    }
  }

  /** For two pages or more, the tokens start with page 1, end with the last page and
      include the current page. */
  lemma BarShowsEndsAndCurrent(p: int, n: int)
    requires 1 <= p <= n && 1 < n
    ensures var t := PageNumbers(p, n);
      |t| > 0 && t[0] == Page(1) && t[|t| - 1] == Page(n) && Page(p) in t
  {
    if n <= MaxVisible {
      PageNumbersFew(p, n);
      assert PageNumbers(p, n)[p - 1] == Page(p);
    } else {
      PageNumbersEnds(p, n);
      PageNumbersShowsWindow(p, n);
    }
  }

  /** `addToCart(bookId)` of the landing page. `found` is what `getBookById(bookId)`
      returned (outside this model). An unknown id changes nothing; a book already in
      the cart gains one copy with no upper limit; otherwise one line of quantity 1 is
      appended. */
  function AddToCart(c: ShoppingCart.Cart, bookId: int, found: Option<Book>): (r: ShoppingCart.Cart)
    ensures found.None? ==> r == c
    ensures found.Some? && ShoppingCart.HasBook(c, bookId) ==>
      var i := ShoppingCart.FindIndex(c, bookId).value;
      r == ShoppingCart.WithQuantity(c, i, c[i].quantity + 1)
    ensures found.Some? && !ShoppingCart.HasBook(c, bookId) ==> r == c + [ShoppingCart.LineFor(found.value, 1)]
  {
    match found
    case None => c
    case Some(book) =>
      match ShoppingCart.FindIndex(c, bookId)
      case Some(i) => ShoppingCart.WithQuantity(c, i, c[i].quantity + 1)
      case None => c + [ShoppingCart.LineFor(book, 1)]
  }

  /** When the lookup returns the book with the id asked for, the landing add never
      creates a second line for a book, and it adds exactly one copy. */
  lemma AddToCartKeepsIdsDistinct(c: ShoppingCart.Cart, bookId: int, found: Option<Book>)
    requires ShoppingCart.DistinctIds(c)
    requires found.Some? ==> found.value.id == bookId
    ensures ShoppingCart.DistinctIds(AddToCart(c, bookId, found))
    ensures found.Some? ==> ShoppingCart.ItemCount(AddToCart(c, bookId, found)) == ShoppingCart.ItemCount(c) + 1
  {
    if found.Some? {
      match ShoppingCart.FindIndex(c, bookId) {
        case Some(i) =>
          ShoppingCart.SumsWithQuantity(c, i, c[i].quantity + 1);
        case None =>
          ShoppingCart.SumsAppend(c, [ShoppingCart.LineFor(found.value, 1)]);
          assert [ShoppingCart.LineFor(found.value, 1)][1..] == [];
      }
    }
  }

  /** As written, the landing add pushes a line past the cart's limit of 99: a cart
      holding 99 copies of a book holds 100 after one more click. */
  lemma AddToCartExceedsCap(book: Book, line: ShoppingCart.CartLine)
    requires line.bookId == book.id && line.quantity == ShoppingCart.MaxQuantity
    ensures ShoppingCart.Valid([line])
    ensures AddToCart([line], book.id, Some(book)) == [line.(quantity := 100)]
    ensures !ShoppingCart.Valid(AddToCart([line], book.id, Some(book)))
  {
    assert AddToCart([line], book.id, Some(book))[0].quantity == 100;
  }

  /** The overflow then shows on the cart page: after two more landing clicks a line of
      99 holds 101, and one press of the decrease button takes it to 99, two copies
      fewer, because the decrease writes 100 through the 1..99 clamp. */
  lemma DecreaseAfterOverflow(book: Book, line: ShoppingCart.CartLine, confirmed: bool)
    requires line.bookId == book.id && line.quantity == ShoppingCart.MaxQuantity
    ensures AddToCart(AddToCart([line], book.id, Some(book)), book.id, Some(book)) == [line.(quantity := 101)]
    ensures ShoppingCart.DecreaseQuantity([line.(quantity := 101)], book.id, confirmed) == [line.(quantity := 99)]
  {
    AddToCartExceedsCap(book, line);
    var c := [line.(quantity := 101)];
    assert ShoppingCart.FindIndex(c, book.id) == Some(0);
    assert ShoppingCart.UpdateItemQuantity(c, book.id, Some(100))[0] == line.(quantity := 99);
  }

  /** The landing add with the existing line capped at 99, as the cart page's own
      increase button does. */
  function AddToCartCapped(c: ShoppingCart.Cart, bookId: int, found: Option<Book>): (r: ShoppingCart.Cart)
    ensures found.None? ==> r == c
    ensures found.Some? && ShoppingCart.HasBook(c, bookId) ==>
      var i := ShoppingCart.FindIndex(c, bookId).value;
      r == ShoppingCart.WithQuantity(c, i, Min(c[i].quantity + 1, ShoppingCart.MaxQuantity))
    ensures found.Some? && !ShoppingCart.HasBook(c, bookId) ==> r == AddToCart(c, bookId, found)
  {
    match found
    case None => c
    case Some(book) =>
      match ShoppingCart.FindIndex(c, bookId)
      case Some(i) => ShoppingCart.WithQuantity(c, i, Min(c[i].quantity + 1, ShoppingCart.MaxQuantity))
      case None => c + [ShoppingCart.LineFor(book, 1)]
  }

  /** With the cap, any number of clicks keeps the cart invariant: one line per book and
      every quantity in 1..99. */
  lemma AddToCartCappedPreservesValid(c: ShoppingCart.Cart, bookId: int, found: Option<Book>)
    requires ShoppingCart.Valid(c)
    requires found.Some? ==> found.value.id == bookId
    ensures ShoppingCart.Valid(AddToCartCapped(c, bookId, found))
  {
  }
}
