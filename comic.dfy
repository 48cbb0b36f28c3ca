/**
 * A comic and its validating decoder for the XKCD API's JSON metadata
 * (`Comic.init(from:)`): seven keyed fields, then a chain of guards that parse
 * the date strings, check the calendar date and check the image URL, each
 * failure throwing its own `DecodingError`.
 */
module Comics {
  import opened Wrappers
  import opened SwiftInt

  /** A calendar day in the proleptic Gregorian calendar. */
  datatype Date = Date(year: Int, month: Int, day: Int)

  predicate IsLeapYear(year: int) {
    (year % 4 == 0 && year % 100 != 0) || year % 400 == 0
  }

  function DaysInMonth(year: int, month: int): (days: int)
    requires 1 <= month <= 12
    ensures 28 <= days <= 31
  {
    if month == 2 then (if IsLeapYear(year) then 29 else 28)
    else if month == 4 || month == 6 || month == 9 || month == 11 then 30
    else 31
  }

  /** `DateComponents.isValidDate` for a year, month and day. */
  predicate IsValidDate(year: int, month: int, day: int) {
    1 <= month <= 12 && 1 <= day <= DaysInMonth(year, month)
  }

  /**
   * The calendar rules spelled out: every month has days 1 to 28, every month
   * but February has 29 and 30, February 29 exists only in leap years, and
   * only January, March, May, July, August, October and December have a 31st.
   */
  lemma IsValidDateCases(year: int, month: int, day: int)
    ensures IsValidDate(year, month, day) <==>
      && 1 <= month <= 12
      && 1 <= day <= 31
      && (day == 29 && month == 2 ==> IsLeapYear(year))
      && (day == 30 ==> month != 2)
      && (day == 31 ==> month in {1, 3, 5, 7, 8, 10, 12})
  {
  }

  /** A parsed URL; its text is what `URL(string:)` accepted. */
  datatype Url = Url(text: string)

  datatype Comic = Comic(number: Int, title: string, date: Date, image: Url, description: string)

  /** The decoding keys, in the order the decoder reads them. */
  datatype CodingKey = Number | Title | Day | Month | Year | Image | Description

  /** The JSON name of each key. */
  function KeyName(key: CodingKey): string {
    match key
    case Number => "num"
    case Title => "title"
    case Day => "day"
    case Month => "month"
    case Year => "year"
    case Image => "img"
    case Description => "alt"
  }

  /** A JSON value as far as the decoder distinguishes it. */
  datatype Json = JNull | JBool(b: bool) | JNumber(n: real) | JString(s: string) | JArray(items: seq<Json>)

  type JsonObject = map<string, Json>

  datatype ValueType = IntType | StringType

  datatype DecodingError =
    | KeyNotFound(key: CodingKey)
    | ValueNotFound(expected: ValueType, key: CodingKey)
    | TypeMismatch(expected: ValueType, path: seq<CodingKey>)
    | DataCorrupted(path: seq<CodingKey>)

  /** A JSON number that is a whole number within `Int`'s range. */
  predicate IsIntValue(n: real) {
    n == n.Floor as real && IntMin <= n.Floor <= IntMax
  }

  /** `values.decode(Int.self, forKey: key)`. */
  function DecodeInt(values: JsonObject, key: CodingKey): (r: Result<Int, DecodingError>)
    ensures r.Success? <==> KeyName(key) in values && values[KeyName(key)].JNumber?
                            && IsIntValue(values[KeyName(key)].n)
    ensures r.Success? ==> values[KeyName(key)] == JNumber(r.value as real)
  {
    var name := KeyName(key);
    if name !in values then Failure(KeyNotFound(key))
    else match values[name]
      case JNull => Failure(ValueNotFound(IntType, key))
      case JNumber(n) =>
        if IsIntValue(n) then Success(n.Floor)
        else Failure(DataCorrupted([key]))
      case _ => Failure(TypeMismatch(IntType, [key]))
  }

  /** `values.decode(String.self, forKey: key)`. */
  function DecodeString(values: JsonObject, key: CodingKey): (r: Result<string, DecodingError>)
    ensures r.Success? <==> KeyName(key) in values && values[KeyName(key)].JString?
    ensures r.Success? ==> values[KeyName(key)] == JString(r.value)
  {
    var name := KeyName(key);
    if name !in values then Failure(KeyNotFound(key))
    else match values[name]
      case JNull => Failure(ValueNotFound(StringType, key))
      case JString(s) => Success(s)
      case _ => Failure(TypeMismatch(StringType, [key]))
  }

  /**
   * `Comic.init(from:)`. URL parsing belongs to Foundation and is a parameter:
   * `urlParses(text)` holds when `URL(string: text)` is not `nil`.
   */
  function Decode(values: JsonObject, urlParses: string -> bool): (r: Result<Comic, DecodingError>)
    ensures r.Success? ==> IsValidDate(r.value.date.year, r.value.date.month, r.value.date.day)
    ensures r.Success? ==> urlParses(r.value.image.text)
    ensures r.Success? ==> KeyName(Number) in values && KeyName(Title) in values
                           && KeyName(Image) in values && KeyName(Description) in values
    ensures r.Success? ==> values[KeyName(Number)] == JNumber(r.value.number as real)
                           && values[KeyName(Title)] == JString(r.value.title)
                           && values[KeyName(Image)] == JString(r.value.image.text)
                           && values[KeyName(Description)] == JString(r.value.description)
    ensures r.Success? ==> ParseInt(Text(values, Day)) == Some(r.value.date.day)
                           && ParseInt(Text(values, Month)) == Some(r.value.date.month)
                           && ParseInt(Text(values, Year)) == Some(r.value.date.year)
  {
    var number :- DecodeInt(values, Number);
    var title :- DecodeString(values, Title);
    var dayText :- DecodeString(values, Day);
    var monthText :- DecodeString(values, Month);
    var yearText :- DecodeString(values, Year);
    var imageText :- DecodeString(values, Image);
    var description :- DecodeString(values, Description);
    var day :- ParseInt(dayText).ToResult(TypeMismatch(StringType, [Day]));
    var month :- ParseInt(monthText).ToResult(TypeMismatch(StringType, [Month]));
    var year :- ParseInt(yearText).ToResult(TypeMismatch(StringType, [Year]));
    if !IsValidDate(year, month, day) then
      Failure(DataCorrupted([Day, Month, Year]))
    else if !urlParses(imageText) then
      Failure(DataCorrupted([Image]))
    else
      Success(Comic(number, title, Date(year, month, day), Url(imageText), description))
  }

  /** The text of a string-valued field; only meaningful when the field is a string. */
  function Text(values: JsonObject, key: CodingKey): string {
    if KeyName(key) in values && values[KeyName(key)].JString? then values[KeyName(key)].s else ""
  }

  /** All seven keys are present, `num` is an integer that fits in `Int`, the rest are strings. */
  predicate WellTyped(values: JsonObject) {
    && DecodeInt(values, Number).Success?
    && (forall key :: key != Number ==> DecodeString(values, key).Success?)
  }

  /** The object the XKCD API serves for a comic: the date as three decimal strings. */
  function ToJson(c: Comic): JsonObject {
    map[
      KeyName(Number) := JNumber(c.number as real),
      KeyName(Title) := JString(c.title),
      KeyName(Day) := JString(ToDecimal(c.date.day)),
      KeyName(Month) := JString(ToDecimal(c.date.month)),
      KeyName(Year) := JString(ToDecimal(c.date.year)),
      KeyName(Image) := JString(c.image.text),
      KeyName(Description) := JString(c.description)
    ]
  }

  /** Decoding the served object of a comic with a real date and a parseable URL gives the comic back. */
  lemma DecodeToJson(c: Comic, urlParses: string -> bool)
    requires IsValidDate(c.date.year, c.date.month, c.date.day)
    requires urlParses(c.image.text)
    ensures Decode(ToJson(c), urlParses) == Success(c)
  {
    var values := ToJson(c);
    assert (c.number as real).Floor == c.number;
    assert DecodeInt(values, Number) == Success(c.number);
    assert DecodeString(values, Title) == Success(c.title);
    assert DecodeString(values, Day) == Success(ToDecimal(c.date.day));
    assert DecodeString(values, Month) == Success(ToDecimal(c.date.month));
    assert DecodeString(values, Year) == Success(ToDecimal(c.date.year));
    assert DecodeString(values, Image) == Success(c.image.text);
    assert DecodeString(values, Description) == Success(c.description);
    ParseRendered(c.date.day);
    ParseRendered(c.date.month);
    ParseRendered(c.date.year);
  }

  /** Decoding succeeds exactly when every field is well typed, every date string parses, the date is real and the URL parses. */
  lemma DecodeSucceedsIff(values: JsonObject, urlParses: string -> bool)
    ensures Decode(values, urlParses).Success? <==>
      && WellTyped(values)
      && ParseInt(Text(values, Day)).Some?
      && ParseInt(Text(values, Month)).Some?
      && ParseInt(Text(values, Year)).Some?
      && IsValidDate(ParseInt(Text(values, Year)).value, ParseInt(Text(values, Month)).value,
                     ParseInt(Text(values, Day)).value)
      && urlParses(Text(values, Image))
  {
    if Decode(values, urlParses).Success? {
      forall key | key != Number ensures DecodeString(values, key).Success? {
        match key
        case Title =>
        case Day =>
        case Month =>
        case Year =>
        case Image =>
        case Description =>
      }
    }
  }

  /** A missing key makes decoding fail. */
  lemma MissingKeyFails(values: JsonObject, key: CodingKey, urlParses: string -> bool)
    requires KeyName(key) !in values
    ensures Decode(values, urlParses).Failure?
  {
  }

  /** The date strings are checked in the order day, month, year, and the first one that is not an integer is reported. */
  lemma FirstBadDateFieldReported(values: JsonObject, urlParses: string -> bool)
    requires WellTyped(values)
    ensures ParseInt(Text(values, Day)).None? ==>
      Decode(values, urlParses) == Failure(TypeMismatch(StringType, [Day]))
    ensures ParseInt(Text(values, Day)).Some? && ParseInt(Text(values, Month)).None? ==>
      Decode(values, urlParses) == Failure(TypeMismatch(StringType, [Month]))
    ensures ParseInt(Text(values, Day)).Some? && ParseInt(Text(values, Month)).Some?
            && ParseInt(Text(values, Year)).None? ==>
      Decode(values, urlParses) == Failure(TypeMismatch(StringType, [Year]))
  {
    assert DecodeString(values, Title).Success?;
    assert DecodeString(values, Day).Success?;
    assert DecodeString(values, Month).Success?;
    assert DecodeString(values, Year).Success?;
    assert DecodeString(values, Image).Success?;
    assert DecodeString(values, Description).Success?;
  }

  /** A bad URL is reported only once the date has been accepted. */
  lemma BadUrlReportedAfterDate(values: JsonObject, urlParses: string -> bool)
    requires Decode(values, urlParses) == Failure(DataCorrupted([Image]))
    ensures WellTyped(values)
    ensures var day, month, year := ParseInt(Text(values, Day)), ParseInt(Text(values, Month)), ParseInt(Text(values, Year));
      day.Some? && month.Some? && year.Some? && IsValidDate(year.value, month.value, day.value)
    ensures !urlParses(Text(values, Image))
  {
    DecodeSucceedsIff(values, urlParses);
    forall key | key != Number ensures DecodeString(values, key).Success? {
      match key
      case Title =>
      case Day =>
      case Month =>
      case Year =>
      case Image =>
      case Description =>
    }
  }

  /**
   * Date strings that all parse but do not form a calendar date are reported
   * as corrupted data at the path day, month, year, before the URL is looked at.
   */
  lemma InvalidDateReported(values: JsonObject, urlParses: string -> bool)
    requires WellTyped(values)
    requires ParseInt(Text(values, Day)).Some? && ParseInt(Text(values, Month)).Some?
             && ParseInt(Text(values, Year)).Some?
    requires !IsValidDate(ParseInt(Text(values, Year)).value, ParseInt(Text(values, Month)).value,
                          ParseInt(Text(values, Day)).value)
    ensures Decode(values, urlParses) == Failure(DataCorrupted([Day, Month, Year]))
  {
    FirstBadDateFieldReported(values, urlParses);
  }

  /** Once the date is accepted, an image URL that does not parse is reported as corrupted data at `img`. */
  lemma BadUrlReported(values: JsonObject, urlParses: string -> bool)
    requires WellTyped(values)
    requires ParseInt(Text(values, Day)).Some? && ParseInt(Text(values, Month)).Some?
             && ParseInt(Text(values, Year)).Some?
    requires IsValidDate(ParseInt(Text(values, Year)).value, ParseInt(Text(values, Month)).value,
                         ParseInt(Text(values, Day)).value)
    requires !urlParses(Text(values, Image))
    ensures Decode(values, urlParses) == Failure(DataCorrupted([Image]))
  {
    FirstBadDateFieldReported(values, urlParses);
  }
}
