/**
 * `FavoritesStore`: the set of favorite comics, the entry selected in the
 * sidebar, and persistence to a file unless the store is in memory only.
 *
 * The file is modelled by its content: the initializer receives what the
 * file holds (`None` when it is missing or unreadable), and `savedFavorites`
 * is a ghost record of what the last successful save wrote. Whether a write
 * succeeds is a ghost parameter; a failure is logged and not propagated.
 */
module FavoritesStores {
  import opened Wrappers
  import opened Comics
  import opened FavoritesEntries
  import opened Repositories

  class FavoritesStore {
    var favorites: set<FavoritesEntry>
    var selectedFavorite: Option<FavoritesEntry>
    const inMemoryOnly: bool
    /** The content of the favorites file as far as this store wrote or read it. */
    ghost var savedFavorites: Option<set<FavoritesEntry>>

    /**
     * `init(inMemoryOnly:)`: starts empty and, unless in memory only, loads
     * the file; a failed load leaves the set empty.
     */
    constructor (inMemoryOnly: bool, stored: Option<set<FavoritesEntry>>)
      ensures this.inMemoryOnly == inMemoryOnly
      ensures favorites == if !inMemoryOnly && stored.Some? then stored.value else {}
      ensures selectedFavorite.None?
      ensures savedFavorites == if inMemoryOnly then None else stored
    {
      this.inMemoryOnly := inMemoryOnly;
      favorites := {};
      selectedFavorite := None;
      savedFavorites := None;
      new;
      if !inMemoryOnly {
        LoadFavorites(stored);
      }
    }

    /** `contains(_:)`. */
    predicate Contains(comic: Option<Comic>)
      reads this
    {
      match comic
      case Some(c) => EntryFor(c) in favorites
      case None => false
    }

    /** `add(_:)`: inserts the comic's entry, then saves unless in memory only. */
    method Add(comic: Comic, ghost writeSucceeds: bool)
      modifies this`favorites, this`savedFavorites
      ensures favorites == old(favorites) + {EntryFor(comic)}
      ensures Contains(Some(comic))
      ensures old(Contains(Some(comic))) ==> favorites == old(favorites)
      ensures forall e :: e != EntryFor(comic) ==> (e in favorites <==> e in old(favorites))
      ensures savedFavorites == if !inMemoryOnly && writeSucceeds then Some(favorites) else old(savedFavorites)
    {
      favorites := favorites + {EntryFor(comic)};
      if !inMemoryOnly {
        SaveFavorites(writeSucceeds);
      }
    }

    /** `remove(_:)`: removes the comic's entry, then saves unless in memory only. */
    method Remove(comic: Comic, ghost writeSucceeds: bool)
      modifies this`favorites, this`savedFavorites
      ensures favorites == old(favorites) - {EntryFor(comic)}
      ensures !Contains(Some(comic))
      ensures !old(Contains(Some(comic))) ==> favorites == old(favorites)
      ensures forall e :: e != EntryFor(comic) ==> (e in favorites <==> e in old(favorites))
      ensures savedFavorites == if !inMemoryOnly && writeSucceeds then Some(favorites) else old(savedFavorites)
    {
      favorites := favorites - {EntryFor(comic)};
      if !inMemoryOnly {
        SaveFavorites(writeSucceeds);
      }
    }

    /** `loadFavorites()`: replaces the set with the file's content when it can be read. */
    method LoadFavorites(stored: Option<set<FavoritesEntry>>)
      modifies this`favorites, this`savedFavorites
      ensures favorites == if stored.Some? then stored.value else old(favorites)
      ensures savedFavorites == stored
    {
      savedFavorites := stored;
      if stored.Some? {
        favorites := stored.value;
      }
    }

    /** `saveFavorites()`: writes the current set; a failed write changes nothing. */
    ghost method SaveFavorites(writeSucceeds: bool)
      modifies this`savedFavorites
      ensures savedFavorites == if writeSucceeds then Some(favorites) else old(savedFavorites)
    {
      if writeSucceeds {
        savedFavorites := Some(favorites);
      }
    }
  }

  /**
   * `FavoritesStore.example()`: an in-memory store holding the entries for
   * the fixture's comics 1 and 3.
   */
  method Example(fixture: ExampleComicRepository) returns (store: FavoritesStore)
    requires 3 <= |fixture.comics|
    ensures fresh(store) && store.inMemoryOnly
    ensures store.favorites == {EntryFor(fixture.FetchComic(1)), EntryFor(fixture.FetchComic(3))}
    ensures store.selectedFavorite.None? && store.savedFavorites.None?
  {
    store := new FavoritesStore(true, None);
    store.Add(fixture.FetchComic(1), false);
    store.Add(fixture.FetchComic(3), false);
  }

  /** `contains(nil)` is false; for a comic it is membership of the comic's entry. */
  lemma ContainsCases(store: FavoritesStore, comic: Comic)
    ensures !store.Contains(None)
    ensures store.Contains(Some(comic)) <==> EntryFor(comic) in store.favorites
  {
  }

  /** Removing a comic just added restores the favorites when it was not one before. */
  method RemoveUndoesAdd(store: FavoritesStore, comic: Comic, ghost writeSucceeds: bool)
    requires !store.Contains(Some(comic))
    modifies store
    ensures store.favorites == old(store.favorites)
    ensures store.selectedFavorite == old(store.selectedFavorite)
  {
    store.Add(comic, writeSucceeds);
    store.Remove(comic, writeSucceeds);
  }
}
