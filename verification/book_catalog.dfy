/** The catalogue section of the landing page: six fixed books, category pills and
    favourites. The favourites update is `Favorites.ToggleFavorite`. */
module BookCatalog {
  import opened Wrappers
  import opened Seqs

  /** A catalogue book. `rating` is in tenths; the cover image is a bundled asset name. */
  datatype CatalogBook = CatalogBook(
    id: int, title: string, author: string, category: string, rating: nat,
    available: bool, publishYear: int, coverImage: Option<string>, coverColor: string, isbn: string)

  /** The category pills. */
  const Categories: seq<string> := ["all", "Fiction", "Non-Fiction", "Science", "History", "Technology", "Art", "Biography"]

  /** The fixed catalogue. */
  const CatalogBooks: seq<CatalogBook> := [
    CatalogBook(1, "The Digital Revolution", "Sarah Johnson", "Technology", 48, true, 2023,
                Some("digital-revolution.jpg"), "from-blue-400 to-blue-600", "978-0-123456-78-9"),
    CatalogBook(2, "Modern Art Movements", "Robert Chen", "Art", 46, false, 2022,
                Some("modern-art.jpg"), "from-purple-400 to-purple-600", "978-0-987654-32-1"),
    CatalogBook(3, "Climate Change Solutions", "Dr. Maria Garcia", "Science", 49, true, 2024,
                Some("climate-solutions.jpg"), "from-green-400 to-green-600", "978-0-456789-12-3"),
    CatalogBook(4, "Ancient Civilizations", "Professor William Lee", "History", 47, true, 2023,
                Some("ancient-civilizations.jpg"), "from-amber-400 to-amber-600", "978-0-234567-89-0"),
    CatalogBook(5, "The Future of AI", "Alex Thompson", "Technology", 45, true, 2024,
                None, "from-indigo-400 to-indigo-600", "978-0-345678-90-1"),
    CatalogBook(6, "Psychology Today", "Dr. Emily Watson", "Non-Fiction", 44, false, 2023,
                None, "from-pink-400 to-pink-600", "978-0-567890-12-4")
  ]

  /** `filteredBooks` for the selected pill. */
  function FilteredBooks(selectedCategory: string): seq<CatalogBook>
  {
    if selectedCategory == "all" then CatalogBooks
    else Filter(CatalogBooks, (b: CatalogBook) => b.category == selectedCategory)
  }

  /** "all" shows the six books unchanged; any other pill shows exactly the books of
      that category, in catalogue order. */
  lemma FilteredBooksSpec(selectedCategory: string)
    ensures selectedCategory == "all" ==> FilteredBooks(selectedCategory) == CatalogBooks && |FilteredBooks(selectedCategory)| == 6
    ensures IsSubsequence(FilteredBooks(selectedCategory), CatalogBooks)
    ensures selectedCategory != "all" ==> forall b :: b in FilteredBooks(selectedCategory) <==>
              b in CatalogBooks && b.category == selectedCategory
  {
    if selectedCategory != "all" {
      FilterIsSubsequence(CatalogBooks, (b: CatalogBook) => b.category == selectedCategory);
    } else {
      SubsequenceRefl(CatalogBooks);
    }
  }

  /** The "Fiction" and "Biography" pills show nothing: no catalogue book has them. */
  lemma EmptyPills()
    ensures Categories[1] == "Fiction" && FilteredBooks(Categories[1]) == []
    ensures Categories[7] == "Biography" && FilteredBooks(Categories[7]) == []
  {
    assert Categories[1] == "Fiction" && Categories[7] == "Biography";
    CatalogCategories();
    PillWithoutBooks("Fiction");
    PillWithoutBooks("Biography");
  }

  /** The categories the catalogue books have. */
  lemma CatalogCategories()
    ensures forall b :: b in CatalogBooks ==> b.category in {"Technology", "Art", "Science", "History", "Non-Fiction"}
  {
  }

  /** A pill that names no catalogue category shows nothing. */
  lemma PillWithoutBooks(category: string)
    requires category != "all"
    requires forall b :: b in CatalogBooks ==> b.category != category
    ensures FilteredBooks(category) == []
  {
    FilterNone(CatalogBooks, (b: CatalogBook) => b.category == category);
  }

  /** The "Technology" pill shows the first and the fifth book. */
  lemma TechnologyPill(pill: string)
    requires pill == Categories[5]
    ensures pill == "Technology"
    ensures FilteredBooks(pill) == [CatalogBooks[0], CatalogBooks[4]]
  {
    CategoryOfFirstAndFifth(CatalogBooks, pill);
  }

  /** In six books where only the first and the fifth have `category`, the filter keeps
      those two. */
  lemma CategoryOfFirstAndFifth(xs: seq<CatalogBook>, category: string)
    requires |xs| == 6 && xs[0].category == category && xs[4].category == category
    requires xs[1].category != category && xs[2].category != category
    requires xs[3].category != category && xs[5].category != category
    ensures Filter(xs, (b: CatalogBook) => b.category == category) == [xs[0], xs[4]]
  {
    var p := (b: CatalogBook) => b.category == category;
    assert xs == [xs[0]] + xs[1..4] + ([xs[4]] + xs[5..]);
    FilterAppend([xs[0]] + xs[1..4], [xs[4]] + xs[5..], p);
    FilterAppend([xs[0]], xs[1..4], p);
    FilterAppend([xs[4]], xs[5..], p);
    FilterNone(xs[1..4], p);
    FilterNone(xs[5..], p);
  }

  /** Every catalogue book's category has a pill, so every book is reachable from one. */
  lemma CatalogCategoriesHavePills()
    ensures forall b :: b in CatalogBooks ==> b.category in Categories[1..]
  {
  }
}
