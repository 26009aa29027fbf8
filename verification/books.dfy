/** The books page: each fetched book becomes a view model (first genre as its
    category, an availability flag, a cover colour chosen by id); the category menu
    lists each category once; the grid shows the selected category. */
module Books {
  import opened Wrappers
  import opened Seqs
  import opened Text
  import JsNumber

  /** The fields of a fetched book that the view model uses. */
  datatype BookDto = BookDto(
    id: int, title: string, author: string, genres: string, isbn: string,
    description: string, totalCopies: int, availableCopies: int)

  /** The page's book view model. `rating` is in tenths. */
  datatype Book = Book(
    id: int, title: string, author: string, category: string, rating: nat,
    available: bool, coverImage: string, coverColor: Option<string>, isbn: string,
    description: string, totalCopies: int, availableCopies: int)

  const CoverColors: seq<string> := [
    "from-blue-500 to-blue-700", "from-purple-500 to-purple-700", "from-green-500 to-green-700",
    "from-amber-500 to-amber-700", "from-red-500 to-red-700"]

  const PlaceholderCover: string := "https://placehold.co/600x800/6366f1/ffffff?text=Book"

  /** The default rating, 4.5, in tenths. */
  const DefaultRating: nat := 45

  /** `dto.genres.split(',')[0] || 'General'`. */
  function CategoryOf(genres: string): string
  {
    FirstSegmentOr(genres, ',', "General")
  }

  /** `colors[dto.id % colors.length]`: JavaScript's `%` keeps the sign of the id, and
      a negative index reads `undefined`. */
  function CoverColor(id: int): Option<string>
  {
    var i := JsNumber.TruncRem(id, |CoverColors|);
    if i >= 0 then Some(CoverColors[i]) else None
  }

  /** `mapDtoToBook`, without the publication year. */
  function MapDtoToBook(dto: BookDto): Book
  {
    Book(dto.id, dto.title, dto.author, CategoryOf(dto.genres), DefaultRating,
         dto.availableCopies > 0, PlaceholderCover, CoverColor(dto.id), dto.isbn,
         dto.description, dto.totalCopies, dto.availableCopies)
  }

  function CategoryList(books: seq<Book>): seq<string>
  {
    seq(|books|, i requires 0 <= i < |books| => books[i].category)
  }

  /** `categories`: "all", then every book category once, in order of first appearance. */
  function Categories(books: seq<Book>): seq<string>
  {
    ["all"] + Dedup(CategoryList(books))
  }

  /** `filteredBooks`. */
  function FilteredBooks(books: seq<Book>, selectedCategory: string): seq<Book>
  {
    Filter(books, (b: Book) => selectedCategory == "all" || b.category == selectedCategory)
  }

  // ---------------------------------------------------------------------------
  // Properties
  // ---------------------------------------------------------------------------

  /** The view model is available exactly when a copy is, carries the first genre (or
      "General"), the cover colour chosen by id and the placeholder image, and copies
      the identifying, descriptive and count fields. */
  lemma MapDtoToBookSpec(dto: BookDto)
    ensures var b := MapDtoToBook(dto);
      && (b.available <==> dto.availableCopies > 0)
      && b.category == CategoryOf(dto.genres)
      && b.id == dto.id && b.title == dto.title && b.author == dto.author && b.isbn == dto.isbn
      && b.totalCopies == dto.totalCopies && b.availableCopies == dto.availableCopies
      && b.rating == 45
      && b.coverColor == CoverColor(dto.id) && b.coverImage == PlaceholderCover
      && b.description == dto.description
  {
  }

  /** The category is the genre text up to the first comma, or "General" when that
      is empty. */
  lemma CategoryOfSpec(genres: string)
    ensures CategoryOf(genres) != "" && ',' !in CategoryOf(genres)
    ensures genres == "" || genres[0] == ',' ==> CategoryOf(genres) == "General"
    ensures genres != "" && genres[0] != ',' ==>
      var c := CategoryOf(genres);
      |c| <= |genres| && c == genres[..|c|] && (|c| == |genres| || genres[|c|] == ',')
  {
  }

  /** A non-negative id picks colour `id mod 5`; a negative id that is not a multiple
      of five picks none; a negative multiple of five picks the first colour. */
  lemma CoverColorSpec(id: int)
    ensures id >= 0 ==> CoverColor(id) == Some(CoverColors[id % 5])
    ensures id < 0 && id % 5 != 0 ==> CoverColor(id) == None
    ensures id < 0 && id % 5 == 0 ==> CoverColor(id) == Some(CoverColors[0])
  {
    var r := JsNumber.TruncRem(id, 5);
    if id < 0 {
      assert -id == 5 * ((-id) / 5) + (-id) % 5;
      assert id == 5 * (id / 5) + id % 5;
      if id % 5 == 0 {
        assert (-id) % 5 == 0;
      } else {
        assert (-id) % 5 != 0;
      }
    }
  }

  /** The menu starts with "all" and then lists each book category exactly once, in the
      order in which the categories first appear among the books. */
  lemma CategoriesSpec(books: seq<Book>)
    ensures var cs := Categories(books);
      && cs[0] == "all"
      && Distinct(cs[1..])
      && (forall c :: c in cs[1..] <==> exists b :: b in books && b.category == c)
      && (forall c :: c in cs[1..] <==> c in CategoryList(books))
      && (forall i, j :: 1 <= i < j < |cs| ==>
            FirstIndex(CategoryList(books), cs[i]) < FirstIndex(CategoryList(books), cs[j]))
  {
    var cl := CategoryList(books);
    var cs := Categories(books);
    DedupSpec(cl);
    assert cs[1..] == Dedup(cl);
    forall c | c in cs[1..]
      ensures exists b :: b in books && b.category == c
    {
      var k :| 0 <= k < |cl| && cl[k] == c;
      assert books[k] in books;
    }
    forall c | exists b :: b in books && b.category == c
      ensures c in cs[1..]
    {
      var b :| b in books && b.category == c;
      var k :| 0 <= k < |books| && books[k] == b;
      assert cl[k] == c;
    }
  }

  /** "all" shows every book; any other category shows exactly the books of that
      category, in their original order. */
  lemma FilteredBooksSpec(books: seq<Book>, selectedCategory: string)
    ensures selectedCategory == "all" ==> FilteredBooks(books, selectedCategory) == books
    ensures IsSubsequence(FilteredBooks(books, selectedCategory), books)
    ensures selectedCategory != "all" ==> forall b :: b in FilteredBooks(books, selectedCategory) <==>
              b in books && b.category == selectedCategory
  {
    var p := (b: Book) => selectedCategory == "all" || b.category == selectedCategory;
    FilterIsSubsequence(books, p);
    if selectedCategory == "all" { FilterAll(books, p); }
  }
}
