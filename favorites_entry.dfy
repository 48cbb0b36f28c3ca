/**
 * `FavoritesEntry`: the reduced record of a comic that the favorites store
 * keeps and persists. Equality (and hashing) is synthesized over all three
 * fields, which a Dafny datatype's structural equality matches.
 */
module FavoritesEntries {
  import opened SwiftInt
  import opened Comics

  datatype FavoritesEntry = FavoritesEntry(number: Int, title: string, date: Date)

  /** `FavoritesEntry.entry(for:)`. */
  function EntryFor(comic: Comic): (e: FavoritesEntry)
    ensures e.number == comic.number && e.title == comic.title && e.date == comic.date
  {
    FavoritesEntry(comic.number, comic.title, comic.date)
  }

  /** Two comics give the same entry exactly when they agree on number, title and date. */
  lemma EntryForEqualIff(a: Comic, b: Comic)
    ensures EntryFor(a) == EntryFor(b) <==> a.number == b.number && a.title == b.title && a.date == b.date
  {
  }

  /** The image URL and the description do not take part in an entry. */
  lemma EntryIgnoresImageAndDescription(c: Comic, image: Url, description: string)
    ensures EntryFor(c.(image := image, description := description)) == EntryFor(c)
  {
  }

  /** Entries that share a number but differ in title or date are distinct members of a set. */
  lemma SameNumberDistinctEntries(a: FavoritesEntry, b: FavoritesEntry)
    requires a.number == b.number && (a.title != b.title || a.date != b.date)
    ensures |{a, b}| == 2
  {
  }
}
