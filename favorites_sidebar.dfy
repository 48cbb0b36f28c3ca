/**
 * `FavoritesSidebar`: the list of favorites sorted by number in the chosen
 * direction, the arrow that flips the direction, and the two rules that keep
 * the sidebar's selection and the comic store's selection in step.
 */
module FavoritesSidebars {
  import opened Wrappers
  import opened Comics
  import opened FavoritesEntries
  import opened ComicStores
  import opened FavoritesStores

  /** Whether `a` may come before `b` in the list. */
  predicate InOrder(a: FavoritesEntry, b: FavoritesEntry, ascending: bool) {
    if ascending then a.number <= b.number else a.number >= b.number
  }

  /** `e` may come first among the entries of `s`. */
  predicate IsFirst(e: FavoritesEntry, s: set<FavoritesEntry>, ascending: bool) {
    forall x :: x in s ==> InOrder(e, x, ascending)
  }

  /** A finite, non-empty set of entries has a smallest (or largest) number. */
  lemma {:induction false} FirstExists(s: set<FavoritesEntry>, ascending: bool)
    requires s != {}
    ensures exists e :: e in s && IsFirst(e, s, ascending)
    decreases |s|
  {
    var x :| x in s;
    if s != {x} {
      var rest := s - {x};
      FirstExists(rest, ascending);
      var e :| e in rest && IsFirst(e, rest, ascending);
      if InOrder(e, x, ascending) {
        assert IsFirst(e, s, ascending);
      } else {
        forall y | y in s ensures InOrder(x, y, ascending) {
          if y != x {
            assert InOrder(e, y, ascending);
          }
        }
      }
    }
  }

  /**
   * `sortedFavorites`: every favorite exactly once, ordered by number,
   * ascending or descending; the order among equal numbers is unspecified.
   */
  ghost function SortedFavorites(favorites: set<FavoritesEntry>, ascending: bool): (r: seq<FavoritesEntry>)
    ensures |r| == |favorites|
    ensures forall e :: e in r <==> e in favorites
    ensures forall i, j :: 0 <= i < j < |r| ==> r[i] != r[j]
    ensures forall i, j :: 0 <= i < j < |r| ==> InOrder(r[i], r[j], ascending)
    decreases |favorites|
  {
    if favorites == {} then []
    else
      FirstExists(favorites, ascending);
      var first :| first in favorites && IsFirst(first, favorites, ascending);
      var rest := SortedFavorites(favorites - {first}, ascending);
      Prepend(first, rest, favorites, ascending);
      [first] + rest
  }

  /** Putting a first entry in front of the sorted remaining entries sorts them all. */
  lemma Prepend(first: FavoritesEntry, rest: seq<FavoritesEntry>, favorites: set<FavoritesEntry>, ascending: bool)
    requires first in favorites && IsFirst(first, favorites, ascending)
    requires |rest| == |favorites - {first}|
    requires forall e :: e in rest <==> e in favorites - {first}
    requires forall i, j :: 0 <= i < j < |rest| ==> rest[i] != rest[j]
    requires forall i, j :: 0 <= i < j < |rest| ==> InOrder(rest[i], rest[j], ascending)
    ensures var r := [first] + rest;
      && |r| == |favorites|
      && (forall e :: e in r <==> e in favorites)
      && (forall i, j :: 0 <= i < j < |r| ==> r[i] != r[j])
      && (forall i, j :: 0 <= i < j < |r| ==> InOrder(r[i], r[j], ascending))
  {
    var r := [first] + rest;
    forall i, j | 0 <= i < j < |r|
      ensures r[i] != r[j] && InOrder(r[i], r[j], ascending)
    {
      assert r[j] == rest[j - 1] && r[j] in rest;
      if i > 0 {
        assert r[i] == rest[i - 1];
      }
    }
  }

  class FavoritesSidebar {
    /** The persisted `SortFavoritesAscending` setting. */
    var sortFavoritesAscending: bool
    const comicStore: ComicStore
    const favoritesStore: FavoritesStore

    constructor (comicStore: ComicStore, favoritesStore: FavoritesStore, sortFavoritesAscending: bool)
      ensures this.comicStore == comicStore && this.favoritesStore == favoritesStore
      ensures this.sortFavoritesAscending == sortFavoritesAscending
    {
      this.comicStore := comicStore;
      this.favoritesStore := favoritesStore;
      this.sortFavoritesAscending := sortFavoritesAscending;
    }

    /**
     * The list the sidebar shows: every favorite exactly once, ordered by
     * comic number in the direction of the setting.
     */
    ghost function Shown(): (shown: seq<FavoritesEntry>)
      reads this, favoritesStore
      ensures |shown| == |favoritesStore.favorites|
      ensures forall e :: e in shown <==> e in favoritesStore.favorites
      ensures forall i, j :: 0 <= i < j < |shown| ==> InOrder(shown[i], shown[j], sortFavoritesAscending)
    {
      SortedFavorites(favoritesStore.favorites, sortFavoritesAscending)
    }

    /** Tapping the arrow flips the sort direction. */
    method TapSortArrow()
      modifies this`sortFavoritesAscending
      ensures sortFavoritesAscending == !old(sortFavoritesAscending)
    {
      sortFavoritesAscending := !sortFavoritesAscending;
    }

    /**
     * `onChange(of: selectedFavorite)`: a selected favorite is forwarded to
     * `selectSpecific`; clearing the selection does nothing. The number
     * requirement is the `precondition` of `loadComic(_:)`, which traps on a
     * number outside `1...lastComicNumber`: favorites read back from the file
     * are not checked against that range.
     */
    method OnSelectedFavoriteChange()
      requires comicStore.Valid()
      requires favoritesStore.selectedFavorite.Some? ==>
        1 <= favoritesStore.selectedFavorite.value.number <= comicStore.lastComicNumber
      modifies comicStore
      ensures comicStore.Valid()
      ensures favoritesStore.selectedFavorite.None? ==> unchanged(comicStore)
      ensures favoritesStore.selectedFavorite.Some? ==>
        comicStore.Loaded(favoritesStore.selectedFavorite.value.number)
    {
      if favoritesStore.selectedFavorite.Some? {
        comicStore.SelectSpecific(favoritesStore.selectedFavorite.value.number);
      }
    }

    /**
     * `onChange(of: selectedComic)`: a newly selected comic whose number
     * differs from the selected favorite's clears the favorite selection; the
     * transition to no comic while loading is ignored.
     */
    method OnSelectedComicChange()
      modifies favoritesStore`selectedFavorite
      ensures var comic := comicStore.selectedComic;
        var favorite := old(favoritesStore.selectedFavorite);
        favoritesStore.selectedFavorite ==
          if comic.Some? && (favorite.None? || favorite.value.number != comic.value.number) then None
          else favorite
      ensures comicStore.selectedComic.Some? && favoritesStore.selectedFavorite.Some? ==>
        favoritesStore.selectedFavorite.value.number == comicStore.selectedComic.value.number
    {
      if comicStore.selectedComic.Some? {
        var number := comicStore.selectedComic.value.number;
        if favoritesStore.selectedFavorite.None? || number != favoritesStore.selectedFavorite.value.number {
          favoritesStore.selectedFavorite := None;
        }
      }
    }
  }
}
