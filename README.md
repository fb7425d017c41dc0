# mangadex-embed: the preview resolver

This project models the core of a link-preview service for MangaDex titles.
Given a manga id, `createEmbed` fetches the manga document from the catalogue
API. `parseMangaResponse` then turns that document, together with the results
of the author and cover lookups its relationships ask for, into five template
variables. `og_title` is the title plus one suffix per author whose lookup
succeeded. `og_content` is the first description in the title's language, else
the last description, else "". `og_image` is the cover URL. `og_name` and
`redirect` are both the title's page on the site. The page's status is 400 when
the manga fetch failed and 200 otherwise, except for ids that do not form a
valid URL (see "## Left out").

Modules:

- `Wrappers` (wrappers.dfy): `Option`.
- `Upstream` (upstream.dfy): the JSON the code reads, as typed data. Title and
  description objects are sequences of `(language, value)` members in the
  order the parser visits them. A value that is not a JSON string reads as "".
  The relationship list is a sequence of `(type, id)` pairs. A dependent fetch
  is a function `id -> Option<string>`: `None` when `RequestJSON` returned an
  error, otherwise the `name` or `fileName` attribute ("" when missing). The
  primary fetch is a function `id -> Option<MangaRecord>`.
- `Format` (format.dfy): the URL templates, `strings.Join`, and inverses of the
  two page URLs.
- `Folds` (folds.dfy): two generic folds over sequences, with their lemmas. The
  relationship loop is specified with them.
- `Resolver` (resolver.dfy): `parseMangaResponse`. The title visit, the
  description visit and the relationship loop are methods with loops. Each is
  proved against a specification function (`TitleChoice`, `ChosenDescription`,
  `AuthorSuffixes`, `CoverImage`, `Lookups`), and `PreviewOf` puts those
  functions together. The method `ParseMangaResponse` is proved equal to it.
- `Handler` (handler.dfy): `createEmbed`, that is, the primary fetch, the
  fallback to an empty record and the status.
- `Scenarios` (scenarios.dfy): worked examples.

Three details of the code are easy to misread, and the model follows the code
in each:

- The title is the LAST member of the title object, not the first. The visit
  callback overwrites `title` and `language` on every member
  (main.go:123-127). With titles visited as `en`, `ja`, the Japanese title wins,
  and the Japanese description is the one chosen
  (`Scenarios.LastTitleLanguagePicksDescription`).
- The author suffix is `strings.Join([title, " - ", author], " ")`. That gives
  `title + "  -  " + author`, with two spaces on each side of the hyphen
  (main.go:159, `Format.JoinAuthor`).
- The description's fallback, when no member has the title's language, is the
  last member (main.go:131-144).

Every dependent request is recorded as a `Request(endpoint, id)` value in an
out-parameter, whether it succeeds or not. So the model also states which
calls of `RequestJSON` a preview costs.

## Model

| member | source | states |
|---|---|---|
| `Resolver.VisitTitles` | main.go:120-127 | the title is the text of the last title member and the language is that member's key; with no members both are "" |
| `Resolver.FirstMatch` | main.go:141-143 | the index returned holds the language and no earlier member does; None only when no member holds it |
| `Resolver.VisitDescriptions` | main.go:129-144 | the description is the text of the first member in the title's language; with no such member it is the last member's text; with no members it is "" |
| `Resolver.LaterDescriptionsIgnored` | main.go:131-134 | once a member in the title's language has been seen, appending any further members leaves the description unchanged |
| `Resolver.FoldStep` | main.go:148-173 | each relationship appends its author suffix (nothing unless it is an author whose lookup succeeded), replaces the image only when it is a cover_art whose lookup succeeded, and appends its own request |
| `Resolver.FoldRelationships` | main.go:146-174 | the loop's title is the base title followed by the author suffixes, its cover is the last successful cover's URL or "", and its requests are one per author or cover_art relationship, in order |
| `Resolver.AuthorSuffixesAppend` | main.go:150-160 | the title suffixes of two consecutive runs of relationships are the first run's followed by the second's, so suffixes appear in relationship order |
| `Resolver.CoverImageIsLastFound` | main.go:162-172 | the image is "" exactly when no cover_art lookup succeeded; otherwise it is the URL of a successful cover_art after which none succeeds |
| `Resolver.NonContributingRelationshipsIgnored` | main.go:148-173 | relationships of other types, and author or cover_art ones whose lookup failed, can be inserted anywhere without changing any preview field |
| `Resolver.OtherRelationshipTypesIgnored` | main.go:148-173 | relationships whose type is neither author nor cover_art change no field and cause no request |
| `Resolver.ParseMangaResponse` | main.go:117-184 | the five fields are those `PreviewOf` composes from the title, description and relationship specification functions, and og_name and redirect are both the site URL of the id whatever the lookups return |
| `Handler.CreateEmbed` | main.go:186-200 | the status is 400 exactly when the manga fetch failed and 200 exactly when it succeeded; on failure the fields are empty except the two site URLs and only the manga request is made |
| `Format.JoinAuthor` | main.go:159 | joining title, " - " and the author with " " yields the title, two spaces, a hyphen, two spaces and the author |
| `Format.SiteUrlRoundTrip` | main.go:176 | the manga id can be read back from the site URL |
| `Format.CoverUrlRoundTrip` | main.go:171 | for an id without '/', the manga id and the file name can be read back from the cover URL |
| `Scenarios.SampleManga` | main.go:117-184 | the record with an English title and description and one cover lookup "x.png" gives the expected five fields |
| `Scenarios.LastTitleLanguagePicksDescription` | main.go:120-144 | titles visited as en, ja keep the Japanese title and choose the first Japanese description |
| `Scenarios.CoverThenAuthor` | main.go:148-173 | with a cover before an author, the title "Foo" becomes "Foo  -  Ann" and the image is the cover's URL |
| `Scenarios.FailedAuthorSkipped` | main.go:150-160 | of three authors with the second lookup failing, the suffixes are the first's and the third's, in that order |

## Left out

- The rate limiter (main.go:33-44, 113): waiting for a permit is about time and about concurrent requests, and the limiter is a library the model does not see. A request in the model is taken as granted.
- HTTP transport, reading the body and JSON parsing in `RequestJSON` (main.go:46-71): these are I/O and a foreign parser. Each fetch is an oracle function. Its `None` stands for every error that `RequestJSON` returns, and its `Some` for the attribute the caller then reads.
- Handler.CreateEmbed: does not model the panic path. main.go:47 discards the error of `http.NewRequest`, so an id that does not form a valid URL (such as `%zz`, which gin decodes from the path `/title/%25zz`, or any id holding a control character) yields a nil request, and `c.client.Do(nil)` at main.go:39 panics. gin's Recovery (main.go:96) then answers 500 and renders nothing. The model's fetch always returns, so its status is only ever 400 or 200.
- Resolver.FoldRelationships: does not model the same panic inside the relationship loop. An author or cover_art id that does not form a valid URL (such as `a%zz`, or an id holding a control character) reaches `RequestJSON` (main.go:152, 164), whose discarded `http.NewRequest` error (main.go:47) leaves a nil request for `c.client.Do` (main.go:39). The panic aborts the whole page, and gin's Recovery (main.go:96) answers 500. A `Lookup` always returns `None` or `Some`, so graceful degradation (`Resolver.NonContributingRelationshipsIgnored`) is modelled only for lookups that return.
- The shared parser and the global client (main.go:25-26). fastjson documents the value a `Parse*` call returns as valid only until the next `Parse*` on the same parser. `parseMangaResponse` walks the relationships of the manga document (main.go:147-149), yet each author or cover lookup inside that loop parses again on the global `parser` (main.go:152, 164, reaching main.go:66). After the first lookup has parsed, the `type` and `id` of later relationships (main.go:149, 151, 163) may therefore be read from reused memory, even within one request and without any concurrency. The model takes the intended reading: `Resolver.FoldRelationships` reads every relationship exactly as the manga document delivered it.
- Lookups as functions: a `Lookup` depends only on the id. Two relationships with the same id (the loop does not deduplicate) therefore always get the same outcome in the model, while the source makes two separate HTTP calls whose outcomes can differ.
- Routing, templates, rendering, the log file and `main` (main.go:81-110, 200): plumbing and UI. The five fields are a datatype, not the `gin.H` map.
- Resolving the same record twice with the same lookups gives the same fields. Every member here is a deterministic function of its inputs, so no lemma states this.
- The JSON tree itself: a relationship's `type` and `id` arrive as strings, "" when missing or not a string, which is what `GetStringBytes` returns. A `title` or `description` that is not an object arrives as an empty sequence, since the nil-safe visit then sees no members.
