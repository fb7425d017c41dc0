/**
 The catalogue API's JSON documents, decoded into the typed fields the embed
 reads. The primary manga document gives `data.attributes.title`,
 `data.attributes.description` and `data.relationships`; an author or cover
 document gives one string attribute, which a `Lookup` delivers.
 */
module Upstream {
  import opened Wrappers

  /** A member value of a localised-string object. Reading it as a string fails
      for any other JSON type, and the code then keeps the empty string. */
  datatype LocalizedValue = Str(s: string) | NonString

  /** The string read from a localised value: its text, or "" when it is not a string. */
  function TextOf(v: LocalizedValue): string
  {
    match v
    case Str(s) => s
    case NonString => ""
  }

  /** One member of the title or description object: a language code and its
      value, in the order the parser's visit delivers the members. */
  datatype Entry = Entry(lang: string, value: LocalizedValue)

  /** One element of `data.relationships`: its `type` and its `id` (each "" when missing). */
  datatype Relationship = Relationship(kind: string, id: string)

  /** The parts of a manga document that the embed reads. */
  datatype MangaRecord = MangaRecord(
    titles: seq<Entry>,
    descriptions: seq<Entry>,
    relationships: seq<Relationship>)

  /** What the nil-safe getters see when the primary fetch failed: no members, no relationships. */
  const EmptyRecord := MangaRecord([], [], [])

  /** A dependent fetch: None when the request failed, otherwise the `name`
      (author) or `fileName` (cover) attribute, "" when that attribute is missing. */
  type Lookup = string -> Option<string>

  /** The primary fetch: None when the request failed, otherwise the decoded record. */
  type MangaFetch = string -> Option<MangaRecord>
}
