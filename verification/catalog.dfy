/** Book records and the catalog operations of the landing page: the stock badge,
    the search-and-genre filter and the sort options. */
module Catalog {

  import opened Base
  import opened Seqs
  import opened Text
  import opened Sorting

  /** A catalog entry. `price` is in sen and `rating` in tenths of a star. */
  datatype Book = Book(
    id: int,
    title: string,
    author: string,
    genre: string,
    price: int,
    stock: int,
    rating: int,
    reviews: int,
    image: string,
    description: string)

  const LowStockLimit: int := 10

  /** The stock badge on a book card. */
  datatype StockStatus = OutOfStock | LowStock(left: int) | InStock(count: int) {
    function CssClass(): string {
      match this
      case OutOfStock => "out-of-stock"
      case LowStock(_) => "low-stock"
      case InStock(_) => ""
    }
  }

  /** `getStockStatus`: sold out at exactly 0, "only n left" up to 10 (negative counts
      included), "n in stock" above. */
  function GetStockStatus(stock: int): (r: StockStatus)
    ensures r.OutOfStock? <==> stock == 0
    ensures r.LowStock? <==> stock != 0 && stock <= LowStockLimit
    ensures r.InStock? <==> stock > LowStockLimit
    ensures r.LowStock? ==> r.left == stock
    ensures r.InStock? ==> r.count == stock
  {
    if stock == 0 then OutOfStock
    else if stock <= LowStockLimit then LowStock(stock)
    else InStock(stock)
  }

  /** The lower-cased query occurs in the lower-cased title, author, genre or description. */
  predicate MatchesQuery(b: Book, query: string) {
    var q := ToLower(query);
    Contains(ToLower(b.title), q) || Contains(ToLower(b.author), q)
    || Contains(ToLower(b.genre), q) || Contains(ToLower(b.description), q)
  }

  /** The search ignores the case of the query, and the empty query matches every book. */
  lemma MatchesQueryIgnoresCase(b: Book, query: string)
    ensures MatchesQuery(b, ToLower(query)) == MatchesQuery(b, query)
    ensures MatchesQuery(b, "")
  {
    ToLowerIdempotent(query);
    assert ToLower("") == "";
    assert OccursAt(ToLower(b.title), "", 0);
  }

  /** `filterBooks`: the search filter (skipped for an empty query), then the exact
      genre filter (skipped for an empty genre). */
  function FilterBooks(books: seq<Book>, query: string, genre: string): seq<Book> {
    var searched := if query != "" then Filter(books, b => MatchesQuery(b, query)) else books;
    if genre != "" then Filter(searched, (b: Book) => b.genre == genre) else searched
  }

  /** What `FilterBooks` keeps, as a single condition on a book. */
  predicate Selected(b: Book, query: string, genre: string) {
    (query == "" || MatchesQuery(b, query)) && (genre == "" || b.genre == genre)
  }

  /** The two filter stages keep exactly the books that satisfy both conditions, in
      catalog order; empty criteria leave the list as it is. */
  lemma FilterBooksSpec(books: seq<Book>, query: string, genre: string)
    ensures FilterBooks(books, query, genre) == Filter(books, b => Selected(b, query, genre))
    ensures forall b :: b in FilterBooks(books, query, genre) <==> b in books && Selected(b, query, genre)
    ensures IsSubsequence(FilterBooks(books, query, genre), books)
    ensures query == "" && genre == "" ==> FilterBooks(books, query, genre) == books
  {
    var sel := (b: Book) => Selected(b, query, genre);
    var bySearch := (b: Book) => MatchesQuery(b, query);
    var byGenre := (b: Book) => b.genre == genre;
    if query != "" && genre != "" {
      FilterTwice(books, bySearch, byGenre, sel);
    } else if query != "" {
      FilterTwice(books, bySearch, _ => true, sel);
      FilterKeepsAll(Filter(books, bySearch), _ => true);
    } else if genre != "" {
      FilterTwice(books, _ => true, byGenre, sel);
      FilterKeepsAll(books, _ => true);
    } else {
      FilterKeepsAll(books, sel);
    }
    forall b
      ensures b in FilterBooks(books, query, genre) <==> b in books && Selected(b, query, genre)
    {
      FilterMembership(books, sel, b);
    }
    FilterIsSubsequence(books, sel);
  }

  /** The values of the sort drop-down; any other value leaves the order alone. */
  datatype SortOption = TitleAsc | TitleDesc | PriceAsc | PriceDesc | RatingDesc | Unrecognised

  function ParseSortOption(value: string): (r: SortOption)
    ensures r == TitleAsc <==> value == "title-asc"
    ensures r == TitleDesc <==> value == "title-desc"
    ensures r == PriceAsc <==> value == "price-asc"
    ensures r == PriceDesc <==> value == "price-desc"
    ensures r == RatingDesc <==> value == "rating-desc"
    ensures r == Unrecognised <==> value !in ["title-asc", "title-desc", "price-asc", "price-desc", "rating-desc"]
  {
    if value == "title-asc" then TitleAsc
    else if value == "title-desc" then TitleDesc
    else if value == "price-asc" then PriceAsc
    else if value == "price-desc" then PriceDesc
    else if value == "rating-desc" then RatingDesc
    else Unrecognised
  }

  /** The comparator of a sort option, as "may come first": `titleLeq(x, y)` stands for
      `x.localeCompare(y) <= 0`. */
  function BookOrder(option: SortOption, titleLeq: (string, string) -> bool): (Book, Book) -> bool {
    match option
    case TitleAsc => (a: Book, b: Book) => titleLeq(a.title, b.title)
    case TitleDesc => (a: Book, b: Book) => titleLeq(b.title, a.title)
    case PriceAsc => (a: Book, b: Book) => a.price <= b.price
    case PriceDesc => (a: Book, b: Book) => b.price <= a.price
    case RatingDesc => (a: Book, b: Book) => b.rating <= a.rating
    case Unrecognised => (a: Book, b: Book) => true
  }

  /** `sortBooks`: a sorted copy for a known option, the input order otherwise. */
  function SortBooks(books: seq<Book>, option: SortOption, titleLeq: (string, string) -> bool): seq<Book> {
    if option == Unrecognised then books else InsertionSort(books, BookOrder(option, titleLeq))
  }

  lemma BookOrderIsTotalPreorder(option: SortOption, titleLeq: (string, string) -> bool)
    requires TotalPreorder(titleLeq)
    ensures TotalPreorder(BookOrder(option, titleLeq))
  {
    var leq := BookOrder(option, titleLeq);
    forall a: Book, b: Book, c: Book
      ensures leq(a, b) || leq(b, a)
      ensures leq(a, b) && leq(b, c) ==> leq(a, c)
    {
      match option {
        case TitleAsc =>
          Transitive(titleLeq, a.title, b.title, c.title);
        case TitleDesc =>
          Transitive(titleLeq, c.title, b.title, a.title);
        case _ =>
      }
    }
  }

  /** The sorted list holds the same books, ordered by the chosen comparator, with
      equal-comparing books kept in their input order; an unknown option changes nothing. */
  lemma SortBooksSpec(books: seq<Book>, option: SortOption, titleLeq: (string, string) -> bool)
    requires TotalPreorder(titleLeq)
    ensures multiset(SortBooks(books, option, titleLeq)) == multiset(books)
    ensures option != Unrecognised ==> Sorted(SortBooks(books, option, titleLeq), BookOrder(option, titleLeq))
    ensures option == Unrecognised ==> SortBooks(books, option, titleLeq) == books
  {
    if option != Unrecognised {
      BookOrderIsTotalPreorder(option, titleLeq);
      InsertionSortSorted(books, BookOrder(option, titleLeq));
    }
  }

  /** Stability of `sortBooks`: books the comparator cannot tell apart from `rep`
      appear in the same relative order before and after sorting. */
  lemma SortBooksStable(books: seq<Book>, option: SortOption, titleLeq: (string, string) -> bool, rep: Book, tied: Book -> bool)
    requires TotalPreorder(titleLeq)
    requires forall b :: tied(b) == Equivalent(BookOrder(option, titleLeq), rep, b)
    ensures Filter(SortBooks(books, option, titleLeq), tied) == Filter(books, tied)
  {
    if option != Unrecognised {
      BookOrderIsTotalPreorder(option, titleLeq);
      InsertionSortStable(books, BookOrder(option, titleLeq), rep, tied);
    }
  }

  /** Each drop-down value orders the books as its name says: by title A-Z or Z-A, by
      price low to high or high to low, by rating best first. */
  lemma SortOptionsOrderAsNamed(books: seq<Book>, titleLeq: (string, string) -> bool)
    requires TotalPreorder(titleLeq)
    ensures var r := SortBooks(books, ParseSortOption("title-asc"), titleLeq);
      forall i, j :: 0 <= i < j < |r| ==> titleLeq(r[i].title, r[j].title)
    ensures var r := SortBooks(books, ParseSortOption("title-desc"), titleLeq);
      forall i, j :: 0 <= i < j < |r| ==> titleLeq(r[j].title, r[i].title)
    ensures var r := SortBooks(books, ParseSortOption("price-asc"), titleLeq);
      forall i, j :: 0 <= i < j < |r| ==> r[i].price <= r[j].price
    ensures var r := SortBooks(books, ParseSortOption("price-desc"), titleLeq);
      forall i, j :: 0 <= i < j < |r| ==> r[i].price >= r[j].price
    ensures var r := SortBooks(books, ParseSortOption("rating-desc"), titleLeq);
      forall i, j :: 0 <= i < j < |r| ==> r[i].rating >= r[j].rating
  {
    SortBooksSpec(books, TitleAsc, titleLeq);
    SortBooksSpec(books, TitleDesc, titleLeq);
    SortBooksSpec(books, PriceAsc, titleLeq);
    SortBooksSpec(books, PriceDesc, titleLeq);
    SortBooksSpec(books, RatingDesc, titleLeq);
  }
}
