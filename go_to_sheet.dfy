/**
 * `GoToSheet`: the prompt that asks for a comic number. Its text field starts
 * with the selected number, the Go button is enabled only for a number in
 * range, and the range hint is shown otherwise.
 */
module GoToSheets {
  import opened Wrappers
  import opened SwiftInt
  import opened ComicStores

  /** The text field's initial content, `"\(selectedNumber)"`. */
  function InitialInput(selectedNumber: Int): string {
    ToDecimal(selectedNumber)
  }

  /**
   * `isValid`: the input parses as an `Int` in `1...lastComicNumber`. The
   * range hint is shown exactly when it fails, and the Go button is enabled
   * exactly when it holds.
   */
  predicate IsValid(input: string, lastComicNumber: Int) {
    match ParseInt(input)
    case None => false
    case Some(number) => 1 <= number <= lastComicNumber
  }

  /**
   * The prompt opens valid for a selection in range: the initial text parses
   * back to the selected number.
   */
  lemma InitialInputValid(selectedNumber: Int, lastComicNumber: Int)
    requires 1 <= selectedNumber <= lastComicNumber
    ensures ParseInt(InitialInput(selectedNumber)) == Some(selectedNumber)
    ensures IsValid(InitialInput(selectedNumber), lastComicNumber)
  {
    ParseRendered(selectedNumber);
  }

  /** Text that is not an integer is never valid, and an integer is valid exactly when it is in range. */
  lemma IsValidCases(input: string, lastComicNumber: Int)
    ensures ParseInt(input).None? ==> !IsValid(input, lastComicNumber)
    ensures ParseInt(input).Some? ==>
      (IsValid(input, lastComicNumber) <==> 1 <= ParseInt(input).value <= lastComicNumber)
  {
  }

  /** Text that is empty or only a sign is never valid. */
  lemma NonNumbersInvalid(lastComicNumber: Int)
    ensures !IsValid("", lastComicNumber) && !IsValid("+", lastComicNumber) && !IsValid("-", lastComicNumber)
  {
  }

  /**
   * The Go button: `selectSpecific(number: Int(input)!)`. It can only be
   * pressed when enabled, which is what puts the number within
   * `loadComic`'s precondition.
   */
  method Go(store: ComicStore, input: string)
    requires store.Valid() && IsValid(input, store.lastComicNumber)
    modifies store
    ensures ParseInt(input).Some?
    ensures store.Valid() && store.Loaded(ParseInt(input).value)
  {
    var number := ParseInt(input).value;
    store.SelectSpecific(number);
  }
}
