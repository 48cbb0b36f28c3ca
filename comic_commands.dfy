/**
 * `ComicCommands`: the Comic menu. Toggle Favorite, the three zoom items and
 * Save act on whichever stores the focused window provides; a missing store
 * (`null`) makes the item do nothing.
 *
 * Saving is modelled by its outcome: the save dialog's answer (`None` when
 * cancelled) and whether encoding and writing the PNG file succeed.
 */
module ComicCommandMenu {
  import opened Wrappers
  import opened Comics
  import opened FavoritesEntries
  import opened ComicStores
  import opened FavoritesStores

  const SaveFailureMessage: string := "An error occurred while saving this file."

  /**
   * Toggle Favorite: with both stores and a selected comic, removes the comic
   * from the favorites if it is there and adds it otherwise; else nothing.
   */
  method ToggleFavorite(favoritesStore: FavoritesStore?, comicStore: ComicStore?, ghost writeSucceeds: bool)
    modifies favoritesStore
    ensures favoritesStore == null || comicStore == null || comicStore.selectedComic.None? ==>
      favoritesStore == null || unchanged(favoritesStore)
    ensures favoritesStore != null && comicStore != null && comicStore.selectedComic.Some? ==>
      var comic := comicStore.selectedComic.value;
      && favoritesStore.Contains(Some(comic)) == !old(favoritesStore.Contains(Some(comic)))
      && favoritesStore.favorites == old(favoritesStore.favorites) - {EntryFor(comic)}
           + (if old(favoritesStore.Contains(Some(comic))) then {} else {EntryFor(comic)})
      && favoritesStore.selectedFavorite == old(favoritesStore.selectedFavorite)
      && favoritesStore.savedFavorites ==
           if !favoritesStore.inMemoryOnly && writeSucceeds then Some(favoritesStore.favorites)
           else old(favoritesStore.savedFavorites)
  {
    if favoritesStore == null || comicStore == null || comicStore.selectedComic.None? {
      return;
    }
    var comic := comicStore.selectedComic.value;
    if favoritesStore.Contains(Some(comic)) {
      favoritesStore.Remove(comic, writeSucceeds);
    } else {
      favoritesStore.Add(comic, writeSucceeds);
    }
  }

  /** Actual Size. */
  method ActualSize(comicStore: ComicStore?)
    modifies comicStore
    ensures comicStore != null ==> comicStore.zoomLevel == 1.0
    ensures comicStore != null ==> unchanged(comicStore`selectedComic, comicStore`imageForSelectedComic,
      comicStore`isShowingError, comicStore`errorMessage, comicStore`isShowingGoToSheet)
  {
    if comicStore != null {
      comicStore.ZoomActual();
    }
  }

  /** Zoom In. */
  method ZoomIn(comicStore: ComicStore?)
    modifies comicStore
    ensures comicStore != null ==> comicStore.zoomLevel == old(comicStore.zoomLevel) + 0.2
    ensures comicStore != null ==> unchanged(comicStore`selectedComic, comicStore`imageForSelectedComic,
      comicStore`isShowingError, comicStore`errorMessage, comicStore`isShowingGoToSheet)
  {
    if comicStore != null {
      comicStore.ZoomIn();
    }
  }

  /** Zoom Out. */
  method ZoomOut(comicStore: ComicStore?)
    modifies comicStore
    ensures comicStore != null ==> comicStore.zoomLevel == old(comicStore.zoomLevel) - 0.2
    ensures comicStore != null ==> unchanged(comicStore`selectedComic, comicStore`imageForSelectedComic,
      comicStore`isShowingError, comicStore`errorMessage, comicStore`isShowingGoToSheet)
  {
    if comicStore != null {
      comicStore.ZoomOut();
    }
  }

  /**
   * Save: without a store or an image for the selected comic, or when the
   * dialog is cancelled, nothing happens; a failed write raises the error
   * alert; a successful one changes nothing in the store.
   */
  method Save(comicStore: ComicStore?, dialogAnswer: Option<string>, writeSucceeds: bool)
    modifies comicStore
    ensures comicStore != null ==>
      var fails := old(comicStore.imageForSelectedComic).Some? && dialogAnswer.Some? && !writeSucceeds;
      && comicStore.isShowingError == (fails || old(comicStore.isShowingError))
      && comicStore.errorMessage == (if fails then Some(SaveFailureMessage) else old(comicStore.errorMessage))
      && unchanged(comicStore`selectedComic, comicStore`imageForSelectedComic,
                   comicStore`zoomLevel, comicStore`isShowingGoToSheet)
  {
    if comicStore == null || comicStore.imageForSelectedComic.None? {
      return;
    }
    if dialogAnswer.None? {
      return;
    }
    if !writeSucceeds {
      comicStore.isShowingError := true;
      comicStore.errorMessage := Some(SaveFailureMessage);
    }
  }

  /** Toggle Favorite twice on the same selection restores the favorites. */
  method ToggleTwice(favoritesStore: FavoritesStore?, comicStore: ComicStore?, ghost writeSucceeds: bool)
    modifies favoritesStore
    ensures favoritesStore != null ==> favoritesStore.favorites == old(favoritesStore.favorites)
  {
    ToggleFavorite(favoritesStore, comicStore, writeSucceeds);
    ToggleFavorite(favoritesStore, comicStore, writeSucceeds);
  }
}
