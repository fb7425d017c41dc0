/**
 parseMangaResponse: the fold from a primary manga record and the results of
 its dependent lookups to the five preview fields. The code's three loops are
 methods, each proved against a specification function; the properties the
 embed relies on are lemmas about those functions.
 */
module Resolver {
  import opened Wrappers
  import opened Upstream
  import opened Format
  import opened Folds

  /** The template variables og_title, og_content, og_name, og_image and redirect. */
  datatype PreviewFields = PreviewFields(
    ogTitle: string,
    ogContent: string,
    ogName: string,
    ogImage: string,
    redirect: string)

  const AuthorType := "author"
  const CoverArtType := "cover_art"

  // ---------------------------------------------------------------- title

  /** The title text and its language: those of the last member visited, or "" and "". */
  function TitleChoice(titles: seq<Entry>): (string, string)
  {
    if |titles| == 0 then ("", "")
    else (TextOf(titles[|titles| - 1].value), titles[|titles| - 1].lang)
  }

  /** The visit of the title object: every member overwrites both locals, so
      the last one is what remains. */
  method VisitTitles(titles: seq<Entry>) returns (title: string, language: string)
    ensures |titles| == 0 ==> title == "" && language == ""
    ensures |titles| > 0 ==>
      title == TextOf(titles[|titles| - 1].value) && language == titles[|titles| - 1].lang
    ensures (title, language) == TitleChoice(titles)
  {
    title, language := "", "";
    for i := 0 to |titles|
      invariant i == 0 ==> title == "" && language == ""
      invariant i > 0 ==> title == TextOf(titles[i - 1].value) && language == titles[i - 1].lang
    {
      language := titles[i].lang;
      title := TextOf(titles[i].value);
    }
  }

  // ---------------------------------------------------------- description

  /** The index of the first member whose language is `language`, if any. */
  function FirstMatch(descs: seq<Entry>, language: string): (r: Option<nat>)
    ensures r.Some? ==>
      r.value < |descs| && descs[r.value].lang == language &&
      forall j :: 0 <= j < r.value ==> descs[j].lang != language
    ensures r.None? ==> forall j :: 0 <= j < |descs| ==> descs[j].lang != language
  {
    if |descs| == 0 then None
    else if descs[0].lang == language then Some(0)
    else match FirstMatch(descs[1..], language)
      case Some(j) => Some(j + 1)
      case None => None
  }

  /** The description kept: the first member in the title's language, else the
      last member, else "". */
  function ChosenDescription(descs: seq<Entry>, language: string): string
  {
    match FirstMatch(descs, language)
    case Some(i) => TextOf(descs[i].value)
    case None => if |descs| == 0 then "" else TextOf(descs[|descs| - 1].value)
  }

  /** Where the first match lies in a concatenation. */
  lemma {:induction false} FirstMatchAppend(a: seq<Entry>, b: seq<Entry>, language: string)
    ensures FirstMatch(a + b, language) ==
      match FirstMatch(a, language)
      case Some(i) => Some(i)
      case None => match FirstMatch(b, language)
        case Some(j) => Some(|a| + j)
        case None => None
  {
    if |a| == 0 {
      assert a + b == b;
    } else {
      assert (a + b)[0] == a[0];
      assert (a + b)[1..] == a[1..] + b;
      if a[0].lang != language {
        FirstMatchAppend(a[1..], b, language);
      }
    }
  }

  /** The visit of the description object: each member overwrites `desc`
      until one in the title's language has been seen; after that the callback
      returns at once. */
  method VisitDescriptions(descs: seq<Entry>, language: string) returns (desc: string)
    ensures desc == ChosenDescription(descs, language)
    ensures forall i ::
      (0 <= i < |descs| && descs[i].lang == language &&
       forall j :: 0 <= j < i ==> descs[j].lang != language) ==> desc == TextOf(descs[i].value)
    ensures (forall i :: 0 <= i < |descs| ==> descs[i].lang != language) && |descs| > 0 ==>
      desc == TextOf(descs[|descs| - 1].value)
    ensures |descs| == 0 ==> desc == ""
  {
    desc := "";
    var found := false;
    for i := 0 to |descs|
      invariant found <==> FirstMatch(descs[..i], language).Some?
      invariant desc == ChosenDescription(descs[..i], language)
    {
      FirstMatchAppend(descs[..i], [descs[i]], language);
      assert descs[..i + 1] == descs[..i] + [descs[i]];
      if found {
        continue;
      }
      desc := TextOf(descs[i].value);
      if descs[i].lang == language {
        found := true;
      }
    }
    assert descs[..|descs|] == descs;
  }

  /** Once a member in the title's language has been seen, later members never change the description. */
  lemma LaterDescriptionsIgnored(descs: seq<Entry>, later: seq<Entry>, language: string)
    requires exists i :: 0 <= i < |descs| && descs[i].lang == language
    ensures ChosenDescription(descs + later, language) == ChosenDescription(descs, language)
  {
    FirstMatchAppend(descs, later, language);
    var i := FirstMatch(descs, language).value;
    assert (descs + later)[i] == descs[i];
  }

  // -------------------------------------------------------- relationships

  /** What one relationship appends to the title: the separator and the name,
      for an author whose lookup succeeded; nothing otherwise. */
  function AuthorSuffix(r: Relationship, authorName: Lookup): string
  {
    if r.kind == AuthorType && authorName(r.id).Some? then AuthorSeparator + authorName(r.id).value
    else ""
  }

  /** The suffixes of all relationships, in relationship order. */
  function AuthorSuffixes(rels: seq<Relationship>, authorName: Lookup): string
  {
    Collect(rels, r => AuthorSuffix(r, authorName))
  }

  /** The file name a relationship offers as the cover: that of a cover_art
      relationship whose lookup succeeded. */
  function CoverFileOf(r: Relationship, coverFile: Lookup): Option<string>
  {
    if r.kind == CoverArtType then coverFile(r.id) else None
  }

  /** The og_image value: the URL of the last cover found, or "". */
  function CoverImage(rels: seq<Relationship>, mangaId: string, coverFile: Lookup): string
  {
    match LastSome(rels, r => CoverFileOf(r, coverFile))
    case Some(f) => CoverUrl(mangaId, f)
    case None => ""
  }

  /** A call of RequestJSON: the endpoint template and the id substituted into it. */
  datatype Request = Request(endpoint: string, id: string)

  /** The request one relationship causes: author and cover_art relationships
      are looked up whatever the outcome, any other type is not. */
  function LookupOf(r: Relationship): seq<Request>
  {
    if r.kind == AuthorType then [Request(AuthorEndpoint, r.id)]
    else if r.kind == CoverArtType then [Request(CoverEndpoint, r.id)]
    else []
  }

  /** The dependent requests, in relationship order. */
  function Lookups(rels: seq<Relationship>): seq<Request>
  {
    Collect(rels, LookupOf)
  }

  /** How the title, the cover and the requests after the first `i + 1`
      relationships follow from those after the first `i`. */
  lemma FoldStep(
    rels: seq<Relationship>, i: nat, mangaId: string, baseTitle: string,
    authorName: Lookup, coverFile: Lookup)
    requires i < |rels|
    ensures baseTitle + AuthorSuffixes(rels[..i + 1], authorName) ==
      if AuthorSuffix(rels[i], authorName) == "" then baseTitle + AuthorSuffixes(rels[..i], authorName)
      else (baseTitle + AuthorSuffixes(rels[..i], authorName)) + AuthorSuffix(rels[i], authorName)
    ensures CoverImage(rels[..i + 1], mangaId, coverFile) ==
      if CoverFileOf(rels[i], coverFile).Some? then CoverUrl(mangaId, CoverFileOf(rels[i], coverFile).value)
      else CoverImage(rels[..i], mangaId, coverFile)
    ensures Lookups(rels[..i + 1]) ==
      if LookupOf(rels[i]) == [] then Lookups(rels[..i]) else Lookups(rels[..i]) + LookupOf(rels[i])
  {
    assert rels[..i + 1][..i] == rels[..i];
    var prefix := AuthorSuffixes(rels[..i], authorName);
    var suffix := AuthorSuffix(rels[i], authorName);
    assert baseTitle + (prefix + suffix) == (baseTitle + prefix) + suffix;
    if suffix == "" {
      assert prefix + suffix == prefix;
    }
    if LookupOf(rels[i]) == [] {
      assert Lookups(rels[..i]) + [] == Lookups(rels[..i]);
    }
  }

  /** The loop over the relationships: author lookups extend the title,
      cover lookups overwrite the cover, failed lookups are skipped. */
  method FoldRelationships(
    rels: seq<Relationship>, mangaId: string, baseTitle: string,
    authorName: Lookup, coverFile: Lookup)
    returns (title: string, cover: string, requests: seq<Request>)
    ensures title == baseTitle + AuthorSuffixes(rels, authorName)
    ensures cover == CoverImage(rels, mangaId, coverFile)
    ensures requests == Lookups(rels)
  {
    title, cover, requests := baseTitle, "", [];
    for i := 0 to |rels|
      invariant title == baseTitle + AuthorSuffixes(rels[..i], authorName)
      invariant cover == CoverImage(rels[..i], mangaId, coverFile)
      invariant requests == Lookups(rels[..i])
    {
      FoldStep(rels, i, mangaId, baseTitle, authorName, coverFile);
      var r := rels[i];
      if r.kind == AuthorType {
        requests := requests + [Request(AuthorEndpoint, r.id)];
        var author := authorName(r.id);
        if author.None? {
          continue;
        }
        JoinAuthor(title, author.value);
        title := Join([title, " - ", author.value], " ");
      }
      if r.kind == CoverArtType {
        requests := requests + [Request(CoverEndpoint, r.id)];
        var file := coverFile(r.id);
        if file.None? {
          continue;
        }
        cover := CoverUrl(mangaId, file.value);
      }
    }
    assert rels[..|rels|] == rels;
  }

  /** The title suffix is the base title followed by one suffix per
      successful author lookup, in relationship order: the suffixes of a
      concatenation are those of its parts, one after the other. */
  lemma AuthorSuffixesAppend(a: seq<Relationship>, b: seq<Relationship>, authorName: Lookup)
    ensures AuthorSuffixes(a + b, authorName) == AuthorSuffixes(a, authorName) + AuthorSuffixes(b, authorName)
  {
    CollectAppend(a, b, r => AuthorSuffix(r, authorName));
  }

  /** The cover is the last one found: a successful cover_art lookup at index
      `i` decides the image unless a later one succeeds, and with none the image is "". */
  lemma CoverImageIsLastFound(rels: seq<Relationship>, mangaId: string, coverFile: Lookup)
    ensures CoverImage(rels, mangaId, coverFile) == "" <==>
      forall i :: 0 <= i < |rels| ==> CoverFileOf(rels[i], coverFile).None?
    ensures CoverImage(rels, mangaId, coverFile) != "" ==>
      exists i :: 0 <= i < |rels| && rels[i].kind == CoverArtType && coverFile(rels[i].id).Some? &&
        CoverImage(rels, mangaId, coverFile) == CoverUrl(mangaId, coverFile(rels[i].id).value) &&
        forall j :: i < j < |rels| ==> CoverFileOf(rels[j], coverFile).None?
  {
    var f := r => CoverFileOf(r, coverFile);
    LastSomeIsLast(rels, f);
    assert forall i :: 0 <= i < |rels| ==> f(rels[i]) == CoverFileOf(rels[i], coverFile);
  }

  /** A relationship that changes a preview field: an author or a cover_art
      relationship whose lookup succeeded. */
  predicate Contributes(r: Relationship, authorName: Lookup, coverFile: Lookup)
  {
    (r.kind == AuthorType && authorName(r.id).Some?) || CoverFileOf(r, coverFile).Some?
  }

  // ------------------------------------------------------------ the fold

  /** The preview fields parseMangaResponse returns for a record, an id and the lookups' outcomes. */
  function PreviewOf(record: MangaRecord, mangaId: string, authorName: Lookup, coverFile: Lookup): PreviewFields
  {
    var (title, language) := TitleChoice(record.titles);
    PreviewFields(
      title + AuthorSuffixes(record.relationships, authorName),
      ChosenDescription(record.descriptions, language),
      SiteUrl(mangaId),
      CoverImage(record.relationships, mangaId, coverFile),
      SiteUrl(mangaId))
  }

  /** parseMangaResponse, returning also the dependent requests it issued. */
  method ParseMangaResponse(record: MangaRecord, mangaId: string, authorName: Lookup, coverFile: Lookup)
    returns (fields: PreviewFields, requests: seq<Request>)
    ensures fields == PreviewOf(record, mangaId, authorName, coverFile)
    ensures fields.ogName == fields.redirect == SitePrefix + mangaId
    ensures requests == Lookups(record.relationships)
  {
    var title, language := VisitTitles(record.titles);
    var desc := VisitDescriptions(record.descriptions, language);
    var cover;
    title, cover, requests := FoldRelationships(record.relationships, mangaId, title, authorName, coverFile);
    var site := SiteUrl(mangaId);
    fields := PreviewFields(title, desc, site, cover, site);
  }

  /** Graceful degradation: inserting relationships that contribute nothing
      (other types, failed lookups) anywhere leaves every field as it was. */
  lemma NonContributingRelationshipsIgnored(
    record: MangaRecord, before: seq<Relationship>, extra: seq<Relationship>, after: seq<Relationship>,
    mangaId: string, authorName: Lookup, coverFile: Lookup)
    requires record.relationships == before + after
    requires forall k :: 0 <= k < |extra| ==> !Contributes(extra[k], authorName, coverFile)
    ensures PreviewOf(record.(relationships := before + extra + after), mangaId, authorName, coverFile)
         == PreviewOf(record, mangaId, authorName, coverFile)
  {
    var suffix := r => AuthorSuffix(r, authorName);
    var file := r => CoverFileOf(r, coverFile);
    assert forall k :: 0 <= k < |extra| ==> suffix(extra[k]) == [] && file(extra[k]).None?;
    CollectSkipsNothing(before, extra, after, suffix);
    LastSomeSkipsNone(before, extra, after, file);
  }

  /** Relationships of any other type change no field and issue no request. */
  lemma OtherRelationshipTypesIgnored(
    record: MangaRecord, before: seq<Relationship>, extra: seq<Relationship>, after: seq<Relationship>,
    mangaId: string, authorName: Lookup, coverFile: Lookup)
    requires record.relationships == before + after
    requires forall k :: 0 <= k < |extra| ==> extra[k].kind != AuthorType && extra[k].kind != CoverArtType
    ensures PreviewOf(record.(relationships := before + extra + after), mangaId, authorName, coverFile)
         == PreviewOf(record, mangaId, authorName, coverFile)
    ensures Lookups(before + extra + after) == Lookups(before + after)
  {
    NonContributingRelationshipsIgnored(record, before, extra, after, mangaId, authorName, coverFile);
    assert forall k :: 0 <= k < |extra| ==> LookupOf(extra[k]) == [];
    CollectSkipsNothing(before, extra, after, LookupOf);
  }
}
