/**
 * The `ComicRepository` protocol and the fixture `ExampleComicRepository`.
 *
 * A repository is modelled as a deterministic oracle: the latest number it
 * reports, and for each request the comic or image it returns or the error it
 * throws. The network behind the online repository is not modelled; its
 * failures are the `Transport`, `Decoding` and `InvalidImage` errors.
 */
module Repositories {
  import opened Wrappers
  import opened SwiftInt
  import opened Comics
  import opened Images

  datatype FetchError =
    | Transport                      // the request itself failed
    | Decoding(error: DecodingError) // the metadata did not decode as a `Comic`
    | InvalidImage                   // `ComicRepositoryError.invalidImage`
    | OutOfRange                     // a fixture index outside the array, which traps in the app

  /** `fetchLatestComicNumber`, `fetchComic(_:)` and `fetchImage(for:)`. */
  datatype ComicRepository = ComicRepository(
    latestComicNumber: Result<Int, FetchError>,
    fetchComic: Int -> Result<Comic, FetchError>,
    fetchImage: Comic -> Result<Image, FetchError>)

  /**
   * The store never compares a fetched comic's number with the requested one,
   * so keeping its selection in range is an assumption on the repository:
   * every comic it returns for a number in range is numbered in range.
   */
  ghost predicate FetchesInRange(repository: ComicRepository, last: int) {
    forall n: Int {:trigger repository.fetchComic(n)} :: 1 <= n <= last && repository.fetchComic(n).Success?
      ==> 1 <= repository.fetchComic(n).value.number <= last
  }

  /** Loading comic `n`: its metadata, then the image for the comic returned. */
  function LoadOutcome(repository: ComicRepository, n: Int): (r: Result<(Comic, Image), FetchError>)
    ensures r.Success? <==> repository.fetchComic(n).Success?
                            && repository.fetchImage(repository.fetchComic(n).value).Success?
    ensures r.Success? ==> r.value.0 == repository.fetchComic(n).value
                           && r.value.1 == repository.fetchImage(r.value.0).value
    ensures r.Failure? ==> r.error == if repository.fetchComic(n).Failure? then repository.fetchComic(n).error
                                      else repository.fetchImage(repository.fetchComic(n).value).error
  {
    var comic :- repository.fetchComic(n);
    var image :- repository.fetchImage(comic);
    Success((comic, image))
  }

  // ---------------------------------------------------------------- fixture

  predicate SortedByNumber(s: seq<Comic>) {
    forall i, j :: 0 <= i < j < |s| ==> s[i].number <= s[j].number
  }

  predicate StrictlyIncreasing(s: seq<Comic>) {
    forall i, j :: 0 <= i < j < |s| ==> s[i].number < s[j].number
  }

  /** No two positions of `s` hold comics with the same number. */
  predicate DistinctNumbers(s: seq<Comic>) {
    forall i, j :: 0 <= i < |s| && 0 <= j < |s| && i != j ==> s[i].number != s[j].number
  }

  /** Places `c` in the sorted `s`, before the first comic whose number is not smaller than its own. */
  function Insert(c: Comic, s: seq<Comic>): (r: seq<Comic>)
    requires SortedByNumber(s)
    ensures SortedByNumber(r)
    ensures multiset(r) == multiset(s) + multiset{c}
    ensures forall x :: x in r ==> x == c || x in s
  {
    if s == [] then [c]
    else if c.number <= s[0].number then [c] + s
    else
      var rest := Insert(c, s[1..]);
      assert s == [s[0]] + s[1..];
      assert forall x :: x in rest ==> s[0].number <= x.number by {
        forall x | x in rest ensures s[0].number <= x.number {
          if x != c {
            var k :| 0 <= k < |s[1..]| && s[1..][k] == x;
            assert s[k + 1] == x;
          }
        }
      }
      ConsSorted(s[0], rest);
      [s[0]] + rest
  }

  lemma ConsSorted(head: Comic, s: seq<Comic>)
    requires SortedByNumber(s)
    requires forall x :: x in s ==> head.number <= x.number
    ensures SortedByNumber([head] + s)
  {
    var r := [head] + s;
    forall i, j | 0 <= i < j < |r| ensures r[i].number <= r[j].number {
      assert r[j] == s[j - 1];
      if i > 0 {
        assert r[i] == s[i - 1];
      }
    }
  }

  /** `comics.sorted { $0.number < $1.number }`: ascending by number, a permutation of the input. */
  function SortByNumber(s: seq<Comic>): (r: seq<Comic>)
    ensures SortedByNumber(r)
    ensures multiset(r) == multiset(s)
    ensures |r| == |s|
  {
    if s == [] then []
    else
      assert s == [s[0]] + s[1..];
      Insert(s[0], SortByNumber(s[1..]))
  }

  /** Inserting a comic whose number is new into a strictly increasing list keeps it strictly increasing. */
  lemma {:induction false} InsertStrict(c: Comic, s: seq<Comic>)
    requires StrictlyIncreasing(s)
    requires forall x :: x in s ==> x.number != c.number
    ensures StrictlyIncreasing(Insert(c, s))
  {
    if s != [] && c.number > s[0].number {
      InsertStrict(c, s[1..]);
      var rest := Insert(c, s[1..]);
      forall x | x in rest ensures s[0].number < x.number {
        if x != c {
          var k :| 0 <= k < |s[1..]| && s[1..][k] == x;
          assert s[k + 1] == x;
        }
      }
    }
  }

  /** Sorting a list whose numbers are distinct gives strictly increasing numbers. */
  lemma {:induction false} SortStrict(s: seq<Comic>)
    requires DistinctNumbers(s)
    ensures StrictlyIncreasing(SortByNumber(s))
  {
    if s != [] {
      var tail := s[1..];
      assert DistinctNumbers(tail) by {
        forall i, j | 0 <= i < |tail| && 0 <= j < |tail| && i != j
          ensures tail[i].number != tail[j].number
        {
          assert tail[i] == s[i + 1] && tail[j] == s[j + 1];
        }
      }
      SortStrict(tail);
      var sorted := SortByNumber(tail);
      forall x | x in sorted ensures x.number != s[0].number {
        assert x in multiset(sorted);
        var k :| 0 <= k < |tail| && tail[k] == x;
        assert s[k + 1] == x;
      }
      InsertStrict(s[0], sorted);
    }
  }

  /** A strictly increasing list of `N` comics numbered within 1 to `N` is numbered 1, 2, ..., `N`. */
  lemma {:induction false} StrictlyIncreasingInRange(s: seq<Comic>)
    requires StrictlyIncreasing(s)
    requires forall i :: 0 <= i < |s| ==> 1 <= s[i].number <= |s|
    ensures forall i :: 0 <= i < |s| ==> s[i].number == i + 1
  {
    forall i | 0 <= i < |s| ensures s[i].number == i + 1 {
      AtLeastPosition(s, i);
      AtMostPosition(s, i);
    }
  }

  lemma {:induction false} AtLeastPosition(s: seq<Comic>, i: nat)
    requires StrictlyIncreasing(s)
    requires forall k :: 0 <= k < |s| ==> 1 <= s[k].number
    requires i < |s|
    ensures s[i].number >= i + 1
  {
    if i > 0 {
      AtLeastPosition(s, i - 1);
    }
  }

  lemma {:induction false} AtMostPosition(s: seq<Comic>, i: nat)
    requires StrictlyIncreasing(s)
    requires forall k :: 0 <= k < |s| ==> s[k].number <= |s|
    requires i < |s|
    ensures s[i].number <= i + 1
    decreases |s| - i
  {
    if i < |s| - 1 {
      AtMostPosition(s, i + 1);
    }
  }

  /** The fixture repository: the bundled comics, sorted by number, and their bundled images. */
  datatype ExampleComicRepository = ExampleComicRepository(comics: seq<Comic>, images: Comic -> Image) {

    /** `fetchLatestComicNumber`: the number of bundled comics. */
    function FetchLatestComicNumber(): (n: Int)
      requires |comics| <= IntMax
      ensures n == |comics|
    {
      |comics|
    }

    /** `fetchComic(_:)`: the comic at position `number - 1`; any other number traps. */
    function FetchComic(number: Int): (c: Comic)
      requires 1 <= number <= |comics|
      ensures c == comics[number - 1]
    {
      comics[number - 1]
    }

    /** `fetchImage(for:)`: the bundled image; a missing file traps. */
    function FetchImage(comic: Comic): Image {
      images(comic)
    }

    /**
     * The fixture as a `ComicRepository`; it never throws for a number in
     * range, and a number outside it, where the array index traps, is `OutOfRange`.
     */
    function AsRepository(): (r: ComicRepository)
      requires |comics| <= IntMax
      ensures r.latestComicNumber == Success(|comics| as Int)
      ensures forall n: Int :: 1 <= n <= |comics| ==> r.fetchComic(n) == Success(comics[n - 1])
      ensures forall n: Int :: !(1 <= n <= |comics|) ==> r.fetchComic(n) == Failure(OutOfRange)
      ensures forall c :: r.fetchImage(c) == Success(images(c))
    {
      var comics := comics;
      var images := images;
      ComicRepository(
        Success(|comics|),
        (n: Int) => if 1 <= n <= |comics| then Success(comics[n - 1]) else Failure(OutOfRange),
        (c: Comic) => Success(images(c)))
    }
  }

  /** `ExampleComicRepository.init`: sorts the decoded comics by number. */
  function LoadExample(decoded: seq<Comic>, images: Comic -> Image): (r: ExampleComicRepository)
    ensures SortedByNumber(r.comics)
    ensures multiset(r.comics) == multiset(decoded)
    ensures r.images == images
  {
    ExampleComicRepository(SortByNumber(decoded), images)
  }

  /** The bundled comics are numbered 1 to `N` without gaps or repeats. */
  predicate CompleteCatalogue(decoded: seq<Comic>) {
    DistinctNumbers(decoded) && forall i :: 0 <= i < |decoded| ==> 1 <= decoded[i].number <= |decoded|
  }

  /**
   * For a complete catalogue, `fetchComic(n)` returns comic number `n`, so the
   * fixture meets the store's range assumption.
   */
  lemma ExampleFetchesRequested(decoded: seq<Comic>, images: Comic -> Image)
    requires CompleteCatalogue(decoded) && |decoded| <= IntMax
    ensures var repo := LoadExample(decoded, images);
      forall n: Int :: 1 <= n <= |decoded| ==> repo.FetchComic(n).number == n
    ensures FetchesInRange(LoadExample(decoded, images).AsRepository(), |decoded|)
  {
    var sorted := LoadExample(decoded, images).comics;
    SortStrict(decoded);
    forall i | 0 <= i < |sorted| ensures 1 <= sorted[i].number <= |sorted| {
      assert sorted[i] in multiset(decoded);
      var k :| 0 <= k < |decoded| && decoded[k] == sorted[i];
    }
    StrictlyIncreasingInRange(sorted);
  }
}
