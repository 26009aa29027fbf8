/** `toggleFavorite`, the same update on the books page and in the catalogue: a
    favourite id is removed (every copy of it), any other id is appended. */
module Favorites {
  import opened Seqs

  function ToggleFavorite(favorites: seq<int>, bookId: int): seq<int>
  {
    if bookId in favorites then Filter(favorites, (id: int) => id != bookId) else favorites + [bookId]
  }

  /** After a toggle the id is a favourite exactly when it was not one before; an absent
      id goes to the end; the other ids keep their order. */
  lemma {:induction false} ToggleFavoriteSpec(favorites: seq<int>, bookId: int)
    ensures bookId in ToggleFavorite(favorites, bookId) <==> bookId !in favorites
    ensures bookId !in favorites ==> ToggleFavorite(favorites, bookId) == favorites + [bookId]
    ensures Filter(ToggleFavorite(favorites, bookId), (id: int) => id != bookId) == Filter(favorites, (id: int) => id != bookId)
  {
    var others := (id: int) => id != bookId;
    if bookId in favorites {
      FilterFilter(favorites, others, others, others);
    } else {
      FilterAppend(favorites, [bookId], others);
    }
  }

  /** Toggling an id that is not a favourite twice restores the list. */
  lemma {:induction false} ToggleTwiceRestores(favorites: seq<int>, bookId: int)
    requires bookId !in favorites
    ensures ToggleFavorite(ToggleFavorite(favorites, bookId), bookId) == favorites
  {
    var others := (id: int) => id != bookId;
    FilterAppend(favorites, [bookId], others);
    FilterAll(favorites, others);
  }

  /** Toggling a favourite twice moves it to the end: [1, 2] becomes [2, 1]. */
  lemma ToggleTwiceReorders()
    ensures ToggleFavorite(ToggleFavorite([1, 2], 1), 1) == [2, 1]
  {
    assert ToggleFavorite([1, 2], 1) == [2];
  }
}
