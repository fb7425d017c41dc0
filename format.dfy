/**
 The fixed URL templates and the string joining used to build the preview.
 Each template takes its identifiers verbatim, without escaping.
 */
module Format {
  import opened Wrappers

  /** The three API endpoint templates; the request URL is the template followed by the id. */
  const MangaEndpoint := "https://api.mangadex.org/manga/"
  const AuthorEndpoint := "https://api.mangadex.org/author/"
  const CoverEndpoint := "https://api.mangadex.org/cover/"

  /** The site's canonical page of a title, and the cover image base. */
  const SitePrefix := "https://mangadex.org/title/"
  const CoverPrefix := "https://uploads.mangadex.org/covers/"

  /** What strings.Join puts between a title and one author name, with the
      separator " " wrapped around the element " - ". */
  const AuthorSeparator := "  -  "

  /** The canonical page of a manga. */
  function SiteUrl(mangaId: string): string
  {
    SitePrefix + mangaId
  }

  /** The image URL of a cover file of a manga. */
  function CoverUrl(mangaId: string, fileName: string): string
  {
    CoverPrefix + mangaId + "/" + fileName
  }

  /** strings.Join: the elements with `sep` between each neighbouring pair. */
  function Join(elems: seq<string>, sep: string): string
  {
    if |elems| == 0 then ""
    else if |elems| == 1 then elems[0]
    else elems[0] + sep + Join(elems[1..], sep)
  }

  /** Joining a title, " - " and an author with " " puts two spaces on each side of the hyphen. */
  lemma JoinAuthor(title: string, author: string)
    ensures Join([title, " - ", author], " ") == title + (AuthorSeparator + author)
  {
    var elems := [title, " - ", author];
    assert elems[1..] == [" - ", author];
    assert elems[1..][1..] == [author];
    assert Join(elems[1..], " ") == " - " + " " + author;
  }

  /** The manga id back from a canonical page URL. */
  function ParseSiteUrl(url: string): Option<string>
  {
    if |url| >= |SitePrefix| && url[..|SitePrefix|] == SitePrefix
    then Some(url[|SitePrefix|..])
    else None
  }

  lemma SiteUrlRoundTrip(mangaId: string)
    ensures ParseSiteUrl(SiteUrl(mangaId)) == Some(mangaId)
  {
  }

  /** The longest prefix of `s` without a '/'. */
  function UpToSlash(s: string): (r: string)
    ensures |r| <= |s| && r == s[..|r|]
    ensures '/' !in r
    ensures |r| < |s| ==> s[|r|] == '/'
  {
    if |s| == 0 || s[0] == '/' then "" else [s[0]] + UpToSlash(s[1..])
  }

  lemma {:induction false} UpToSlashStopsAtSeparator(head: string, tail: string)
    requires '/' !in head
    ensures UpToSlash(head + "/" + tail) == head
  {
    var s := head + "/" + tail;
    if |head| > 0 {
      assert s[0] == head[0];
      assert s[1..] == head[1..] + "/" + tail;
      UpToSlashStopsAtSeparator(head[1..], tail);
      assert [head[0]] + head[1..] == head;
    }
  }

  /** The manga id and the file name back from a cover image URL. */
  function ParseCoverUrl(url: string): Option<(string, string)>
  {
    if |url| < |CoverPrefix| || url[..|CoverPrefix|] != CoverPrefix then None
    else
      var rest := url[|CoverPrefix|..];
      var mangaId := UpToSlash(rest);
      if |mangaId| == |rest| then None else Some((mangaId, rest[|mangaId| + 1..]))
  }

  /** A cover URL determines its manga id and file name, as long as the id has
      no '/'. Every caller meets this: the id is the `:md-id` route parameter,
      a single path segment (main.go:106-107). */
  lemma CoverUrlRoundTrip(mangaId: string, fileName: string)
    requires '/' !in mangaId
    ensures ParseCoverUrl(CoverUrl(mangaId, fileName)) == Some((mangaId, fileName))
  {
    var url := CoverUrl(mangaId, fileName);
    var rest := mangaId + "/" + fileName;
    assert url == CoverPrefix + rest;
    assert url[..|CoverPrefix|] == CoverPrefix;
    assert url[|CoverPrefix|..] == rest;
    UpToSlashStopsAtSeparator(mangaId, fileName);
    assert rest[|mangaId| + 1..] == fileName;
  }
}
