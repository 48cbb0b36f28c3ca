/**
 * `ComicStore`: the selected comic and its image, navigation between comics,
 * the zoom level and the alert and sheet flags.
 *
 * Each operation is one sequential step; the `async` suspension points and
 * overlapping loads are not modelled. Random choices are supplied by the
 * caller as draws from `1...lastComicNumber`.
 */
module ComicStores {
  import opened Wrappers
  import opened SwiftInt
  import opened Comics
  import opened Images
  import opened Repositories

  /** `AppSettings.InitialSelection`. */
  datatype InitialSelection = Latest | Random

  /**
   * The alert text after comic `number` failed to load: the number appears in
   * it in canonical decimal, with no `+` and no leading zero.
   */
  function LoadFailureMessage(number: Int): (message: string)
    ensures |message| > 22
    ensures message[..6] == "Comic " && message[|message| - 16..] == " failed to load."
    ensures ParseInt(message[6..|message| - 16]) == Some(number)
    ensures message[6] != '+' && (message[6] == '0' ==> message[6..|message| - 16] == "0")
    ensures message[6] == '-' ==> message[7] != '0'
  {
    var digits := ToDecimal(number);
    ParseRendered(number);
    var message := "Comic " + digits + " failed to load.";
    assert message[6..|message| - 16] == digits;
    message
  }

  /** The index of the first draw that differs from `current`, if there is one. */
  function FirstNewDraw(draws: seq<Int>, current: int): (i: nat)
    requires exists k :: 0 <= k < |draws| && draws[k] != current
    ensures i < |draws| && draws[i] != current
    ensures forall k :: 0 <= k < i ==> draws[k] == current
  {
    if draws[0] != current then 0
    else
      assert exists k :: 0 <= k < |draws[1..]| && draws[1..][k] != current by {
        var k :| 0 <= k < |draws| && draws[k] != current;
        assert draws[1..][k - 1] == draws[k];
      }
      1 + FirstNewDraw(draws[1..], current)
  }

  /** The number `selectRandom` loads: the first draw that is not the selected comic's number. */
  function RandomTarget(draws: seq<Int>, selected: Option<Comic>): (n: Int)
    requires draws != []
    requires selected.Some? ==> exists k :: 0 <= k < |draws| && draws[k] != selected.value.number
    ensures n in draws
    ensures selected.Some? ==> n != selected.value.number
  {
    if selected.None? then draws[0] else draws[FirstNewDraw(draws, selected.value.number)]
  }

  class ComicStore {
    const repository: ComicRepository
    const lastComicNumber: Int
    var isShowingGoToSheet: bool
    var isShowingError: bool
    var errorMessage: Option<string>
    var selectedComic: Option<Comic>
    var imageForSelectedComic: Option<Image>
    var zoomLevel: real

    /**
     * The comic numbers start at 1; the selection, when there is one, is in
     * range and its image is the one the repository returns for it.
     */
    ghost predicate Valid()
      reads this
    {
      && 1 <= lastComicNumber
      && FetchesInRange(repository, lastComicNumber)
      && (selectedComic.Some? ==> 1 <= selectedComic.value.number <= lastComicNumber)
      && (imageForSelectedComic.Some? <==> selectedComic.Some?)
      && (imageForSelectedComic.Some? ==>
            repository.fetchImage(selectedComic.value) == Success(imageForSelectedComic.value))
    }

    /** The state shared by both initializers before any comic is selected. */
    constructor Empty(repository: ComicRepository, lastComicNumber: Int)
      ensures this.repository == repository && this.lastComicNumber == lastComicNumber
      ensures !isShowingGoToSheet && !isShowingError && errorMessage.None?
      ensures selectedComic.None? && imageForSelectedComic.None? && zoomLevel == 1.0
    {
      this.repository := repository;
      this.lastComicNumber := lastComicNumber;
      isShowingGoToSheet := false;
      isShowingError := false;
      errorMessage := None;
      selectedComic := None;
      imageForSelectedComic := None;
      zoomLevel := 1.0;
    }

    /** `hasPrevious`. */
    predicate HasPrevious()
      reads this
    {
      match selectedComic
      case Some(comic) => comic.number > 1
      case None => false
    }

    /** `hasNext`. */
    predicate HasNext()
      reads this
    {
      match selectedComic
      case Some(comic) => comic.number < lastComicNumber
      case None => false
    }

    /**
     * What `loadComic(number)` does to the store: nothing when `number` is
     * already selected; otherwise the zoom is reset, and the store holds the
     * fetched comic and image, or, when either fetch fails, no selection and
     * the error alert for `number`. The go-to sheet flag is never touched, and
     * the error flag and message only on failure.
     */
    twostate predicate Loaded(number: Int)
      reads this
    {
      if old(selectedComic).Some? && old(selectedComic).value.number == number then
        && selectedComic == old(selectedComic)
        && imageForSelectedComic == old(imageForSelectedComic)
        && zoomLevel == old(zoomLevel)
        && isShowingError == old(isShowingError)
        && errorMessage == old(errorMessage)
        && isShowingGoToSheet == old(isShowingGoToSheet)
      else
        && zoomLevel == 1.0
        && isShowingGoToSheet == old(isShowingGoToSheet)
        && match LoadOutcome(repository, number)
           case Success((comic, image)) =>
             && selectedComic == Some(comic)
             && imageForSelectedComic == Some(image)
             && isShowingError == old(isShowingError)
             && errorMessage == old(errorMessage)
           case Failure(_) =>
             && selectedComic.None?
             && imageForSelectedComic.None?
             && isShowingError
             && errorMessage == Some(LoadFailureMessage(number))
    }

    /** `loadComic(_:)`: the caller must pass a number in `1...lastComicNumber`. */
    method LoadComic(number: Int)
      requires Valid() && 1 <= number <= lastComicNumber
      modifies this
      ensures Valid() && Loaded(number)
    {
      if selectedComic.Some? && selectedComic.value.number == number {
        return;
      }
      selectedComic := None;
      imageForSelectedComic := None;
      zoomLevel := 1.0;
      var comic := repository.fetchComic(number);
      if comic.Failure? {
        selectedComic := None;
        isShowingError := true;
        errorMessage := Some(LoadFailureMessage(number));
        return;
      }
      selectedComic := Some(comic.value);
      var image := repository.fetchImage(comic.value);
      if image.Failure? {
        selectedComic := None;
        isShowingError := true;
        errorMessage := Some(LoadFailureMessage(number));
        return;
      }
      imageForSelectedComic := Some(image.value);
    }

    /** `selectFirst()`. */
    method SelectFirst()
      requires Valid()
      modifies this
      ensures Valid() && Loaded(1)
    {
      LoadComic(1);
    }

    /** `selectPrevious()`: a no-op without a previous comic. */
    method SelectPrevious()
      requires Valid()
      modifies this
      ensures Valid()
      ensures old(HasPrevious()) ==> Loaded(old(selectedComic).value.number - 1)
      ensures !old(HasPrevious()) ==> unchanged(this)
    {
      if selectedComic.None? || !HasPrevious() {
        return;
      }
      LoadComic(selectedComic.value.number - 1);
    }

    /**
     * `selectRandom()`: draws until the number differs from the selected
     * comic's. `draws` are the successive random numbers; the loop ends only
     * if one of them differs.
     */
    method SelectRandom(draws: seq<Int>)
      requires Valid()
      requires draws != [] && forall k :: 0 <= k < |draws| ==> 1 <= draws[k] <= lastComicNumber
      requires selectedComic.Some? ==> exists k :: 0 <= k < |draws| && draws[k] != selectedComic.value.number
      modifies this
      ensures Valid() && Loaded(old(RandomTarget(draws, selectedComic)))
    {
      var i := 0;
      var random := draws[0];
      while selectedComic.Some? && random == selectedComic.value.number
        invariant 0 <= i < |draws| && random == draws[i]
        invariant selectedComic.None? ==> i == 0
        invariant selectedComic.Some? ==> forall k :: 0 <= k < i ==> draws[k] == selectedComic.value.number
        decreases |draws| - i
      {
        if i == |draws| - 1 {
          var k :| 0 <= k < |draws| && draws[k] != selectedComic.value.number;
          assert false;
        }
        i := i + 1;
        random := draws[i];
      }
      assert random == RandomTarget(draws, selectedComic);
      LoadComic(random);
    }

    /** `selectNext()`: a no-op without a next comic. */
    method SelectNext()
      requires Valid()
      modifies this
      ensures Valid()
      ensures old(HasNext()) ==> Loaded(old(selectedComic).value.number + 1)
      ensures !old(HasNext()) ==> unchanged(this)
    {
      if selectedComic.None? || !HasNext() {
        return;
      }
      LoadComic(selectedComic.value.number + 1);
    }

    /** `selectLast()`. */
    method SelectLast()
      requires Valid()
      modifies this
      ensures Valid() && Loaded(lastComicNumber)
    {
      LoadComic(lastComicNumber);
    }

    /** `selectSpecific(number:)`: the number must be in range, as for `loadComic`. */
    method SelectSpecific(number: Int)
      requires Valid() && 1 <= number <= lastComicNumber
      modifies this
      ensures Valid() && Loaded(number)
    {
      LoadComic(number);
    }

    /** `zoomActual()`. */
    method ZoomActual()
      modifies this`zoomLevel
      ensures zoomLevel == 1.0
    {
      zoomLevel := 1.0;
    }

    /** `zoomIn()`: one step of 0.2, without an upper bound. */
    method ZoomIn()
      modifies this`zoomLevel
      ensures zoomLevel == old(zoomLevel) + 0.2
    {
      zoomLevel := zoomLevel + 0.2;
    }

    /** `zoomOut()`: one step of 0.2, without a lower bound. */
    method ZoomOut()
      modifies this`zoomLevel
      ensures zoomLevel == old(zoomLevel) - 0.2
    {
      zoomLevel := zoomLevel - 0.2;
    }
  }

  /**
   * The online initializer: fails exactly when the latest number cannot be
   * fetched; otherwise loads the latest comic, or the random `draw`, into a
   * fresh store. A latest number below 1 traps in the app.
   */
  method Online(initialSelection: InitialSelection, repository: ComicRepository, draw: Int)
    returns (r: Result<ComicStore, FetchError>)
    requires repository.latestComicNumber.Success? ==>
      var last := repository.latestComicNumber.value;
      1 <= last && FetchesInRange(repository, last) && 1 <= draw <= last
    ensures r.Failure? <==> repository.latestComicNumber.Failure?
    ensures r.Failure? ==> r.error == repository.latestComicNumber.error
    ensures r.Success? ==>
      var store := r.value;
      var number := if initialSelection == Latest then store.lastComicNumber else draw;
      && fresh(store) && store.Valid()
      && store.repository == repository
      && store.lastComicNumber == repository.latestComicNumber.value
      && store.zoomLevel == 1.0 && !store.isShowingGoToSheet
      && match LoadOutcome(repository, number)
         case Success((comic, image)) =>
           store.selectedComic == Some(comic) && store.imageForSelectedComic == Some(image)
           && !store.isShowingError && store.errorMessage.None?
         case Failure(_) =>
           store.selectedComic.None? && store.imageForSelectedComic.None?
           && store.isShowingError && store.errorMessage == Some(LoadFailureMessage(number))
  {
    if repository.latestComicNumber.Failure? {
      return Failure(repository.latestComicNumber.error);
    }
    var store := new ComicStore.Empty(repository, repository.latestComicNumber.value);
    match initialSelection {
      case Latest =>
        store.LoadComic(store.lastComicNumber);
      case Random =>
        store.LoadComic(draw);
    }
    return Success(store);
  }

  /**
   * The fixture initializer (`ComicStore.example(initialSelection:)`): sets the
   * selection and its image directly from the fixture, without `loadComic`.
   */
  method Example(initialSelection: InitialSelection, fixture: ExampleComicRepository, draw: Int)
    returns (store: ComicStore)
    requires 1 <= |fixture.comics| <= IntMax && 1 <= draw <= |fixture.comics|
    requires FetchesInRange(fixture.AsRepository(), |fixture.comics|)
    ensures fresh(store) && store.Valid()
    ensures store.repository == fixture.AsRepository()
    ensures store.lastComicNumber == |fixture.comics|
    ensures var number := if initialSelection == Latest then |fixture.comics| else draw;
      && store.selectedComic == Some(fixture.FetchComic(number))
      && store.imageForSelectedComic == Some(fixture.FetchImage(fixture.FetchComic(number)))
    ensures store.zoomLevel == 1.0 && !store.isShowingError && store.errorMessage.None?
    ensures !store.isShowingGoToSheet
  {
    store := new ComicStore.Empty(fixture.AsRepository(), fixture.FetchLatestComicNumber());
    var number := if initialSelection == Latest then store.lastComicNumber else draw;
    var comic := fixture.FetchComic(number);
    assert store.repository.fetchComic(number) == Success(comic);
    store.selectedComic := Some(comic);
    store.imageForSelectedComic := Some(fixture.FetchImage(comic));
  }

  /**
   * The navigation targets respect `loadComic`'s precondition: with a
   * selection in range, the previous and next numbers are in range whenever
   * `hasPrevious` / `hasNext` hold, and without a selection neither holds.
   */
  lemma NeighboursInRange(store: ComicStore)
    requires store.Valid()
    ensures store.HasPrevious() <==> store.selectedComic.Some? && store.selectedComic.value.number > 1
    ensures store.HasNext() <==> store.selectedComic.Some? && store.selectedComic.value.number < store.lastComicNumber
    ensures store.HasPrevious() ==> 1 <= store.selectedComic.value.number - 1 <= store.lastComicNumber
    ensures store.HasNext() ==> 1 <= store.selectedComic.value.number + 1 <= store.lastComicNumber
    ensures store.selectedComic.None? ==> !store.HasPrevious() && !store.HasNext()
    ensures store.lastComicNumber == 1 ==> !store.HasPrevious() && !store.HasNext()
  {
  }

  /**
   * `selectRandom` cannot leave comic 1 when it is the only comic: every
   * draw from `1...1` equals the selected number, so no draw sequence meets
   * the loop's exit condition.
   */
  lemma SelectRandomSpinsOnSingleComic(draws: seq<Int>, selected: Comic)
    requires selected.number == 1
    requires forall k :: 0 <= k < |draws| ==> 1 <= draws[k] <= 1
    ensures !exists k :: 0 <= k < |draws| && draws[k] != selected.number
  {
  }

  /** With two or more comics, a draw sequence that leaves the selection exists. */
  lemma SelectRandomCanLeave(last: Int, selected: Comic)
    requires 2 <= last && 1 <= selected.number <= last
    ensures var draws := [if selected.number == 1 then 2 else 1];
      && (forall k :: 0 <= k < |draws| ==> 1 <= draws[k] <= last)
      && draws[0] != selected.number
      && RandomTarget(draws, Some(selected)) == draws[0]
  {
  }
}
