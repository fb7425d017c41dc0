/**
 createEmbed: the primary fetch, the preview built from its record, and the
 HTTP status of the page.
 */
module Handler {
  import opened Wrappers
  import opened Upstream
  import opened Format
  import opened Resolver

  const StatusOK := 200
  const StatusBadRequest := 400

  /** The record the preview is built from: a failed fetch yields a nil value,
      on which every getter returns an empty object or array. */
  function RecordOrEmpty(primary: Option<MangaRecord>): MangaRecord
  {
    match primary
    case Some(record) => record
    case None => EmptyRecord
  }

  /** createEmbed: fetch the manga, build its preview whatever the outcome, and
      choose the status. `requests` lists every RequestJSON call, primary first. */
  method CreateEmbed(mangaId: string, fetchManga: MangaFetch, authorName: Lookup, coverFile: Lookup)
    returns (status: int, fields: PreviewFields, requests: seq<Request>)
    ensures status == 400 <==> fetchManga(mangaId).None?
    ensures status == 200 <==> fetchManga(mangaId).Some?
    ensures fetchManga(mangaId).Some? ==>
      fields == PreviewOf(fetchManga(mangaId).value, mangaId, authorName, coverFile) &&
      requests == [Request(MangaEndpoint, mangaId)] + Lookups(fetchManga(mangaId).value.relationships)
    ensures fetchManga(mangaId).None? ==>
      fields == PreviewFields("", "", SitePrefix + mangaId, "", SitePrefix + mangaId) &&
      requests == [Request(MangaEndpoint, mangaId)]
  {
    var primary := fetchManga(mangaId);
    var dependent;
    fields, dependent := ParseMangaResponse(RecordOrEmpty(primary), mangaId, authorName, coverFile);
    requests := [Request(MangaEndpoint, mangaId)] + dependent;
    if primary.None? {
      status := StatusBadRequest;
    } else {
      status := StatusOK;
    }
  }
}
