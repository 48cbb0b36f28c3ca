# ComicViewer, modelled in Dafny

ComicViewer is a desktop viewer for XKCD comics. This project models its core:

- **The comic store.** It navigates between comic numbers, loads a comic and its image through a repository, and holds the zoom level and the error alert.
- **The favorites.** This covers the favorites store with its entries, the sidebar's sorted list and its selection rules, and the Comic menu's Toggle Favorite.
- **The validators and arithmetic.** This covers:
  - the XKCD JSON decoder for a comic;
  - the go-to prompt's number check;
  - the scale-to-fit computation for comic images.

Modules follow the source files:

| file | module | models |
|---|---|---|
| `wrappers.dfy` | `Wrappers` | `Option` and `Result` |
| `swift_int.dfy` | `SwiftInt` | Swift's 64-bit `Int`, `Int(String)` and `"\(n)"` |
| `comic.dfy` | `Comics` | `Comic` and `Comic.init(from:)` |
| `favorites_entry.dfy` | `FavoritesEntries` | `FavoritesEntry` and `entry(for:)` |
| `comic_image.dfy` | `ComicImages` | `ComicImage.scaleToFit` |
| `image.dfy` | `Images` | the `Image.scaleToFit` extension |
| `repository.dfy` | `Repositories` | the `ComicRepository` protocol and `ExampleComicRepository` |
| `comic_store.dfy` | `ComicStores` | the `ComicStore` class |
| `favorites_store.dfy` | `FavoritesStores` | the `FavoritesStore` class |
| `go_to_sheet.dfy` | `GoToSheets` | `GoToSheet`'s `isValid`, initial input and Go button |
| `favorites_sidebar.dfy` | `FavoritesSidebars` | `FavoritesSidebar`'s sorted list, sort arrow and `onChange` rules |
| `comic_commands.dfy` | `ComicCommandMenu` | the Comic menu's actions |

The repository protocol is a value with three functions: the latest number, `fetchComic` and `fetchImage`. Each returns success or a `FetchError`. The store never checks that a fetched comic carries the number it asked for. So the range invariant on the selection rests on an explicit assumption, `FetchesInRange`, about the repository. `ExampleFetchesRequested` discharges that assumption for the fixture repository when its catalogue is complete.

Randomness is a sequence of draws. A failing write is a parameter. What the favorites file holds is a ghost record.

### Where the code and its documentation differ

The model follows the code in each case below.

- **Upscaling a large enough image.** One might expect `scaleToFit` to return 1 for an image that is at least `minSize` and already fits. The code grows it to fill the available space, up to `upScaleLimit`. `FittingImageGrows` states that such an image is scaled by the fit ratio, clamped to `upScaleLimit`, and so ends above 1 whenever it has room on both sides and the limit exceeds 1.
- **`minSize` against `upScaleLimit`.** The doc comments say the image reaches `minSize` "regardless of `upScaleLimit`" and "will never scale below `minSize`" (`Sources/ComicViewer/Models/ComicImage.swift:26-28`, `Sources/ComicViewer/Extensions/Image.swift:11-13`).
  - This holds in the overflow branch (`ComicImages.ComicImage.ScaleToFit`).
  - It fails in the fit branch, because the upscale clamp comes after the floor. `UpScaleLimitCanUndercutMinSize` states that it fails for every grown image that fits with a limit below the grown scale. `DefaultUpScaleLimitUndercutsMinSize` gives an instance that uses the default parameters: a 50×50 image in 1000×1000 ends at scale 4, so 200 points, below 250.
- **The error flag.** A successful load does not clear `isShowingError` or `errorMessage`. `loadComic` only ever sets them, and `ComicStore.Loaded` states that both are left untouched on success.

## Model

| member | source | states |
|---|---|---|
| SwiftInt.ParseInt | Sources/ComicViewer/Views/GoToSheet.swift:16 | `Int(text)` never accepts the empty string or a lone sign |
| SwiftInt.ToDecimal | Sources/ComicViewer/Views/GoToSheet.swift:12 | `"\(n)"` is a minus sign exactly for negative `n`, followed by decimal digits whose value is the magnitude of `n` |
| SwiftInt.ParseRendered | Sources/ComicViewer/Views/GoToSheet.swift:12-16 | parsing the decimal rendering of any `Int` gives that `Int` back |
| Comics.IsValidDateCases | Sources/ComicViewer/Models/Comic.swift:79-86 | a date is valid exactly when the month is 1 to 12, the day is 1 to 31, February 29 falls in a leap year, February has no 30th, and only the seven long months have a 31st |
| Comics.DaysInMonth | Sources/ComicViewer/Models/Comic.swift:79-86 | the Gregorian month length used for date validity lies between 28 and 31 |
| Comics.DecodeInt | Sources/ComicViewer/Models/Comic.swift:42 | decoding `num` succeeds exactly when the key holds a whole JSON number within `Int`'s range, and then returns that number |
| Comics.DecodeString | Sources/ComicViewer/Models/Comic.swift:43-48 | decoding a string key succeeds exactly when the key holds a JSON string, and then returns that string |
| Comics.Decode | Sources/ComicViewer/Models/Comic.swift:40-108 | a decoded comic has a real calendar date and a parseable image URL; `num`, `title`, `img` and `alt` are copied verbatim; the date's day, month and year are what the three strings parse to |
| Comics.DecodeToJson | Sources/ComicViewer/Models/Comic.swift:40-108 | decoding the served JSON of a comic with a valid date and URL gives that comic back |
| Comics.DecodeSucceedsIff | Sources/ComicViewer/Models/Comic.swift:40-102 | decoding succeeds exactly when all seven keys are well typed, day, month and year parse as integers, they form a valid date, and the URL parses |
| Comics.MissingKeyFails | Sources/ComicViewer/Models/Comic.swift:41-48 | any missing key makes decoding fail |
| Comics.FirstBadDateFieldReported | Sources/ComicViewer/Models/Comic.swift:50-77 | a non-integer day, month or year raises `typeMismatch` at that key, checked in the order day, month, year |
| Comics.InvalidDateReported | Sources/ComicViewer/Models/Comic.swift:78-93 | well-typed fields whose date strings parse but form no calendar date raise `dataCorrupted` at `[day, month, year]` |
| Comics.BadUrlReported | Sources/ComicViewer/Models/Comic.swift:94-102 | well-typed fields with a valid date and an image URL that does not parse raise `dataCorrupted` at `[img]` |
| Comics.BadUrlReportedAfterDate | Sources/ComicViewer/Models/Comic.swift:94-102 | `dataCorrupted` at `[image]` is raised only when the date is valid and the URL does not parse |
| FavoritesEntries.EntryFor | Sources/ComicViewer/Models/FavoritesEntry.swift:21-23 | the entry copies the comic's number, title and date |
| FavoritesEntries.EntryForEqualIff | Sources/ComicViewer/Models/FavoritesEntry.swift:7-23 | two comics give equal entries exactly when their number, title and date agree |
| FavoritesEntries.EntryIgnoresImageAndDescription | Sources/ComicViewer/Models/FavoritesEntry.swift:20-23 | comics differing only in image and description give the same entry |
| FavoritesEntries.SameNumberDistinctEntries | Sources/ComicViewer/Models/FavoritesEntry.swift:7-18 | entry equality is structural: the same number with a different title or date is a different entry |
| ComicImages.PreFitScale | Sources/ComicViewer/Models/ComicImage.swift:37-41 | the scale after the minimum-size step is positive |
| ComicImages.PreFitScaleTouchesMinSize | Sources/ComicViewer/Models/ComicImage.swift:38-41 | when the first step grows the image, the side that sets the scale ends exactly at `minSize` |
| ComicImages.PreFitScaleReachesMinSize | Sources/ComicViewer/Models/ComicImage.swift:38-41 | an image below `minSize` on one side gets scale max(minSize/w, minSize/h) > 1, and both sides then reach `minSize` |
| ComicImages.PreFitScaleAtLeastMinSize | Sources/ComicViewer/Models/ComicImage.swift:37-41 | after the minimum-size step both sides are at least `minSize` |
| ComicImages.OverflowBranch | Sources/ComicViewer/Models/ComicImage.swift:42-52 | when the image overflows, the downscale is applied exactly when it is at least `downScaleLimit` and keeps both sides at least `minSize`; an applied downscale strictly shrinks the scale and makes the image fit; both sides stay at least `minSize` |
| ComicImages.FitBranch | Sources/ComicViewer/Models/ComicImage.swift:53-63 | when the image fits, the fit ratio is at least 1; the result is the grown scale clamped to `upScaleLimit`, is at most `upScaleLimit`, and still fits |
| ComicImages.FitFromScale | Sources/ComicViewer/Models/ComicImage.swift:42-63 | in the fit branch the result never exceeds a bounded `upScaleLimit`; in the overflow branch, a changed scale is the old scale times the fit ratio and leaves both sides at least `minSize` |
| ComicImages.FitFromScaleBounds | Sources/ComicViewer/Models/ComicImage.swift:42-63 | from any scale at which both sides reach `minSize`: an overflowing image keeps both sides at least `minSize`, and a changed scale is smaller and fits; an image that fits still fits afterwards and stays within a bounded `upScaleLimit` |
| ComicImages.ComicImage.ScaleToFit | Sources/ComicViewer/Models/ComicImage.swift:30-65 | if the image overflows after the minimum-size step, both final sides are at least `minSize`, and a changed scale is smaller and makes the image fit; if it fits, it still fits and the scale is at most a bounded `upScaleLimit` |
| ComicImages.UpScaleLimitCanUndercutMinSize | Sources/ComicViewer/Models/ComicImage.swift:26-62 | for every image grown by the first step that then fits, a bounded `upScaleLimit` below the grown scale gives a smaller final scale and leaves a side under `minSize` |
| ComicImages.DefaultUpScaleLimitUndercutsMinSize | Sources/ComicViewer/Models/ComicImage.swift:33-62 | with the default parameters, a 50×50 image in 1000×1000 ends at scale 4 and stays below `minSize` |
| ComicImages.FittingImageGrows | Sources/ComicViewer/Models/ComicImage.swift:53-63 | for an image that already meets `minSize` and fits, the fit ratio is at least 1 and the result is that ratio clamped to `upScaleLimit`; it is above 1 when the image has room on both sides and the limit exceeds 1 |
| ComicImages.ResizingTests | Sources/ComicViewerTests/ImageResizingTests.swift:7-83 | the unit tests' expected scales, an infinite `upScaleLimit` written as `Unbounded` |
| Images.MinimumSizeScale | Sources/ComicViewer/Extensions/Image.swift:22-28 | the extension's minimum-size step on the converted dimensions gives the same scale as `ComicImage`'s |
| Images.FitFromAgrees | Sources/ComicViewer/Extensions/Image.swift:29-50 | the extension's overflow and fit branches, from any positive scale, give the same result as `ComicImage`'s |
| Images.FittingAgrees | Sources/ComicViewer/Extensions/Image.swift:15-52 | the extension's whole computation on real dimensions equals `ComicImage.scaleToFit`, so the two copies of the code cannot drift apart |
| Images.Image.ScaleToFit | Sources/ComicViewer/Extensions/Image.swift:15-52 | the integer-dimension version equals `ComicImage.scaleToFit` on the dimensions converted to reals, so every property proved there holds for it |
| Images.DefaultsAgree | Sources/ComicViewer/Extensions/Image.swift:18-20 | the defaults 250, 0.70 and 4 agree with `ComicImage`'s |
| Repositories.LoadOutcome | Sources/ComicViewer/Stores/ComicStore.swift:150-152 | loading succeeds exactly when both fetches succeed; the image is fetched for the fetched comic; on failure the error is the comic fetch's if that failed, else the image fetch's |
| Repositories.Insert | Sources/ComicViewer/Repositories/ExampleComicRepository.swift:17 | inserting into a sorted list keeps it sorted by number and adds exactly the one comic |
| Repositories.SortByNumber | Sources/ComicViewer/Repositories/ExampleComicRepository.swift:17 | the result is sorted by number and is a permutation of the input |
| Repositories.SortStrict | Sources/ComicViewer/Repositories/ExampleComicRepository.swift:17 | sorting comics with distinct numbers gives strictly increasing numbers |
| Repositories.StrictlyIncreasingInRange | Sources/ComicViewer/Repositories/ExampleComicRepository.swift:24-26 | strictly increasing numbers 1 through the count put comic n at index n-1 |
| Repositories.ExampleComicRepository.FetchLatestComicNumber | Sources/ComicViewer/Repositories/ExampleComicRepository.swift:20-22 | the latest number is the count of comics |
| Repositories.ExampleComicRepository.FetchComic | Sources/ComicViewer/Repositories/ExampleComicRepository.swift:24-26 | `fetchComic(n)` is `comics[n-1]`, defined only for 1 ≤ n ≤ count |
| Repositories.ExampleComicRepository.AsRepository | Sources/ComicViewer/Repositories/ExampleComicRepository.swift:9-34 | as a repository, the fixture reports the count and serves `comics[n-1]` for 1 ≤ n ≤ count, and the image for any comic; any other number gives `OutOfRange`, where the app traps on the array index |
| Repositories.LoadExample | Sources/ComicViewer/Repositories/ExampleComicRepository.swift:13-18 | the fixture holds the decoded comics sorted by number, as a permutation |
| Repositories.ExampleFetchesRequested | Sources/ComicViewer/Repositories/ExampleComicRepository.swift:13-26 | for a complete catalogue, `fetchComic(n)` returns the comic numbered n, so the fixture fetches in range |
| ComicStores.LoadFailureMessage | Sources/ComicViewer/Stores/ComicStore.swift:161 | the alert reads "Comic ", the number in decimal, then " failed to load.", and the number parses back out of it |
| ComicStores.FirstNewDraw | Sources/ComicViewer/Stores/ComicStore.swift:112-115 | the resampling loop stops at the first draw that differs from the selected number |
| ComicStores.RandomTarget | Sources/ComicViewer/Stores/ComicStore.swift:111-117 | the random target is one of the draws and differs from the selected number |
| ComicStores.ComicStore.LoadComic | Sources/ComicViewer/Stores/ComicStore.swift:143-163 | requires 1 ≤ n ≤ last. Selecting the selected number is a no-op. Otherwise zoom is 1 and the store holds the fetched comic and image. On failure it holds no selection and shows "Comic n failed to load.". The sheet flag is never touched |
| ComicStores.ComicStore.SelectFirst | Sources/ComicViewer/Stores/ComicStore.swift:95-97 | loads comic 1 |
| ComicStores.ComicStore.SelectPrevious | Sources/ComicViewer/Stores/ComicStore.swift:100-108 | loads the selected number minus 1 when `hasPrevious`, else changes nothing |
| ComicStores.ComicStore.SelectRandom | Sources/ComicViewer/Stores/ComicStore.swift:111-117 | loads the first draw that differs from the selection |
| ComicStores.ComicStore.SelectNext | Sources/ComicViewer/Stores/ComicStore.swift:120-128 | loads the selected number plus 1 when `hasNext`, else changes nothing |
| ComicStores.ComicStore.SelectLast | Sources/ComicViewer/Stores/ComicStore.swift:131-133 | loads `lastComicNumber` |
| ComicStores.ComicStore.SelectSpecific | Sources/ComicViewer/Stores/ComicStore.swift:136-138 | loads the given number |
| ComicStores.ComicStore.ZoomActual | Sources/ComicViewer/Stores/ComicStore.swift:174-176 | zoom becomes 1 and nothing else changes |
| ComicStores.ComicStore.ZoomIn | Sources/ComicViewer/Stores/ComicStore.swift:179-181 | zoom grows by 0.2, unclamped |
| ComicStores.ComicStore.ZoomOut | Sources/ComicViewer/Stores/ComicStore.swift:184-186 | zoom shrinks by 0.2, unclamped |
| ComicStores.ComicStore.Empty | Sources/ComicViewer/Stores/ComicStore.swift:46-71 | a new store has no selection, no image, zoom 1 and no alert or sheet |
| ComicStores.Online | Sources/ComicViewer/Stores/ComicStore.swift:11-24 | fails exactly when the latest number cannot be fetched; otherwise loads the latest or the drawn comic into a fresh store |
| ComicStores.Example | Sources/ComicViewer/Stores/ComicStore.swift:29-44 | the fixture store holds the latest or the drawn fixture comic and its image directly, with zoom 1 and no alert |
| ComicStores.NeighboursInRange | Sources/ComicViewer/Stores/ComicStore.swift:75-92 | `hasPrevious` and `hasNext` hold exactly when a comic is selected and is not the first or the last; both are false without a selection; the neighbours are then within `loadComic`'s range |
| ComicStores.SelectRandomSpinsOnSingleComic | Sources/ComicViewer/Stores/ComicStore.swift:111-117 | with one comic selected out of one, no draw ever ends the loop |
| ComicStores.SelectRandomCanLeave | Sources/ComicViewer/Stores/ComicStore.swift:111-117 | with two or more comics, a single draw ends the loop |
| FavoritesStores.FavoritesStore.constructor | Sources/ComicViewer/Stores/FavoritesStore.swift:32-38 | starts from the file's content unless in memory only or unreadable, else empty; nothing selected |
| FavoritesStores.FavoritesStore.Add | Sources/ComicViewer/Stores/FavoritesStore.swift:50-55 | the set gains exactly the comic's entry; adding a present comic changes nothing; a successful save records the new set, unless in memory only |
| FavoritesStores.FavoritesStore.Remove | Sources/ComicViewer/Stores/FavoritesStore.swift:58-63 | the set loses exactly the comic's entry; removing an absent comic changes nothing; a successful save records the new set, unless in memory only |
| FavoritesStores.FavoritesStore.LoadFavorites | Sources/ComicViewer/Stores/FavoritesStore.swift:69-78 | a readable file replaces the set, and an unreadable one leaves it |
| FavoritesStores.FavoritesStore.SaveFavorites | Sources/ComicViewer/Stores/FavoritesStore.swift:81-91 | a successful write records the current set; a failed one changes nothing |
| FavoritesStores.Example | Sources/ComicViewer/Stores/FavoritesStore.swift:99-105 | the example store is in memory only and holds exactly the entries of fixture comics 1 and 3 |
| FavoritesStores.ContainsCases | Sources/ComicViewer/Stores/FavoritesStore.swift:41-47 | `contains(nil)` is false; `contains(c)` is membership of `c`'s entry |
| FavoritesStores.RemoveUndoesAdd | Sources/ComicViewer/Stores/FavoritesStore.swift:50-63 | calling `add` then `remove` on a comic that was not a favorite leaves the set and the selection as they were |
| GoToSheets.InitialInputValid | Sources/ComicViewer/Views/GoToSheet.swift:12-20 | the initial text parses back to the selected number, so the prompt opens valid for an in-range selection |
| GoToSheets.IsValidCases | Sources/ComicViewer/Views/GoToSheet.swift:15-32 | text that does not parse is invalid; a parsed number is valid exactly when it is in range |
| GoToSheets.NonNumbersInvalid | Sources/ComicViewer/Views/GoToSheet.swift:15-18 | the empty text and a lone sign are invalid |
| GoToSheets.Go | Sources/ComicViewer/Views/GoToSheet.swift:37-41 | a Go button enabled by valid input parses the input and loads that number within `loadComic`'s precondition |
| FavoritesSidebars.FirstExists | Sources/ComicViewer/Views/FavoritesSidebar.swift:16-23 | a non-empty set of entries has one that may come first |
| FavoritesSidebars.SortedFavorites | Sources/ComicViewer/Views/FavoritesSidebar.swift:16-24 | the list holds every favorite exactly once, ordered by number ascending or descending |
| FavoritesSidebars.FavoritesSidebar.Shown | Sources/ComicViewer/Views/FavoritesSidebar.swift:16-24 | the sidebar lists every favorite exactly once, ordered by number in the direction of the setting |
| FavoritesSidebars.FavoritesSidebar.constructor | Sources/ComicViewer/Views/FavoritesSidebar.swift:11-14 | the sidebar shares the two stores |
| FavoritesSidebars.FavoritesSidebar.TapSortArrow | Sources/ComicViewer/Views/FavoritesSidebar.swift:35-37 | the sort direction flips |
| FavoritesSidebars.FavoritesSidebar.OnSelectedFavoriteChange | Sources/ComicViewer/Views/FavoritesSidebar.swift:52-56 | a selected favorite loads its number; a cleared one changes nothing |
| FavoritesSidebars.FavoritesSidebar.OnSelectedComicChange | Sources/ComicViewer/Views/FavoritesSidebar.swift:58-66 | a new comic with a different number clears the selected favorite; no comic, or a matching number, leaves it |
| ComicCommandMenu.ToggleFavorite | Sources/ComicViewer/Commands/ComicCommands.swift:17-27 | without a store or a selection nothing changes; otherwise membership of the comic flips, nothing else in the set changes, and a successful save records the new set unless in memory only |
| ComicCommandMenu.ToggleTwice | Sources/ComicViewer/Commands/ComicCommands.swift:22-26 | choosing Toggle Favorite twice on the same selection leaves the favorites as they were |
| ComicCommandMenu.ActualSize | Sources/ComicViewer/Commands/ComicCommands.swift:31-33 | with a store, zoom becomes 1 and the selection and alerts are untouched |
| ComicCommandMenu.ZoomIn | Sources/ComicViewer/Commands/ComicCommands.swift:34-36 | with a store, zoom grows by 0.2 and the selection and alerts are untouched |
| ComicCommandMenu.ZoomOut | Sources/ComicViewer/Commands/ComicCommands.swift:37-39 | with a store, zoom shrinks by 0.2 and the selection and alerts are untouched |
| ComicCommandMenu.Save | Sources/ComicViewer/Commands/ComicCommands.swift:49-73 | without a store or image, or on cancel, nothing changes; a failed write shows "An error occurred while saving this file."; a success changes nothing |

## Left out

- **Networking.** `OnlineComicRepository` is not part of this model. It appears only as the repository functions, whose failures include `invalidImage`.
- ComicStores.ComicStore.LoadComic: the repository is one fixed value for the store's lifetime, so each fetch's outcome is fixed per number and comic. A failed load that the network would later let succeed cannot be represented: retrying it fails the same way. The `Valid()` conjunct that the held image is the one `fetchImage` returns relies on this too.
- **Concurrency.** `async`/`await`, overlapping loads, `Task` launches and `@Published` notifications are left out. Each operation is one sequential step, so the transient "nil while loading" state is not observable.
- **File I/O.**
  - The favorites JSON file, the atomic write and `createDirectoryIfNotExists` are left out.
  - Bundle loading for the fixture is left out: its decoded comics and image function are parameters.
  - `Comic.example()` and `ComicImage.example()` are left out, since they only load bundle files.
- **Logging** is left out.
- **Randomness.** `randomElement()` becomes a sequence of draws.
- ComicStores.ComicStore.SelectRandom: requires that some draw differs from the selection. The infinite loop for a single comic is stated by `SelectRandomSpinsOnSingleComic` rather than modelled.
- **Floating point.** Swift `Double` is `real`, so rounding is not modelled.
  - An infinite `upScaleLimit` is `Unbounded`.
  - An infinite viewport, zero image dimensions (a division by zero) and `ComicView`'s conversion to integers are left out.
- ComicImages.ComicImage.ScaleToFit: states the fit and the floor through the predicates `Overflows`, `FitsIn` and `ReachesMinSize`. The exact value in each branch is stated by `OverflowBranch` and `FitBranch` at an arbitrary scale that satisfies the floor.
- **Calendar.** `Calendar.current` with `DateComponents` becomes the proleptic Gregorian calendar. A `Date` is its (year, month, day) triple.
- **URL parsing.** `URL(string:)` is a parameter, `urlParses`.
- **JSON decoding.** `JSONDecoder`'s number handling is approximated: an `Int` field accepts a JSON number that is whole and within range.
- **Saving an image.** The PNG encoding and the path-extension rewrite in `save()` are left out. Encoding and writing together become one success flag.
- **Views.** The view code of the sidebar and the go-to sheet is left out: layout, `dismiss()`, the text-field binding and number and date formatting. So are the other rendering-only files, `NavigationCommands` and `HelpCommands`.
- FavoritesSidebars.SortedFavorites: is a ghost specification of Swift's `sorted`. Ties between equal numbers may come in any order, as `sorted` does not promise stability. The sidebar's own list is not computed by an executable sort.
- **Derived predicates without contracts.** `ComicStore.HasPrevious`, `ComicStore.HasNext`, `FavoritesStore.Contains` and `GoToSheets.IsValid` are plain predicates. Their meaning is stated by `NeighboursInRange`, `ContainsCases` and `IsValidCases`. `GoToSheets.IsValid` also stands for the range hint, which shows when it fails, and for the Go button, which is enabled when it holds.
- FavoritesSidebars.FavoritesSidebar.OnSelectedFavoriteChange: requires the selected favorite's number to be within `1...lastComicNumber`. This is `loadComic(_:)`'s `precondition`, which traps otherwise. Favorites read back from the file are not range-checked, so a stale favorite beyond the latest comic would trap in the app.
