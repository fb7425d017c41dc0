/** Concrete previews for a few records, worked out from the model. Each
    lookup is any function with the stated results on the ids involved. */
module Scenarios {
  import opened Wrappers
  import opened Upstream
  import opened Resolver
  import opened Folds

  /** A title with one English name, an English description and one cover
      whose lookup returns "x.png". */
  lemma SampleManga(authorName: Lookup, coverFile: Lookup)
    requires coverFile("cov1") == Some("x.png")
    ensures PreviewOf(
      MangaRecord([Entry("en", Str("Sample Manga"))], [Entry("en", Str("A story."))],
                  [Relationship("cover_art", "cov1")]),
      "abc123", authorName, coverFile)
      == PreviewFields("Sample Manga", "A story.", "https://mangadex.org/title/abc123",
                       "https://uploads.mangadex.org/covers/abc123/x.png", "https://mangadex.org/title/abc123")
  {
  }

  /** With titles visited as en, ja the Japanese title is the one kept, and so
      the Japanese description is chosen even though it is not the first. */
  lemma LastTitleLanguagePicksDescription(authorName: Lookup, coverFile: Lookup)
    ensures var p := PreviewOf(
      MangaRecord([Entry("en", Str("Foo")), Entry("ja", Str("Fuu"))],
                  [Entry("en", Str("desc-en")), Entry("ja", Str("desc-ja")), Entry("ja", Str("later"))], []),
      "m", authorName, coverFile);
      p.ogTitle == "Fuu" && p.ogContent == "desc-ja"
  {
  }

  /** A cover before an author: the title gets the author's suffix with two
      spaces around the hyphen, and the image comes from the cover. */
  lemma CoverThenAuthor(authorName: Lookup, coverFile: Lookup)
    requires authorName("A") == Some("Ann") && coverFile("C") == Some("c.jpg")
    ensures var rels := [Relationship("cover_art", "C"), Relationship("author", "A")];
      "Foo" + AuthorSuffixes(rels, authorName) == "Foo  -  Ann" &&
      CoverImage(rels, "m", coverFile) == "https://uploads.mangadex.org/covers/m/c.jpg"
  {
    var c, a := Relationship("cover_art", "C"), Relationship("author", "A");
    assert [c][..0] == [] && [a][..0] == [];
    assert Collect([c], r => AuthorSuffix(r, authorName)) == "";
    assert Collect([a], r => AuthorSuffix(r, authorName)) == "  -  Ann";
    AuthorSuffixesAppend([c], [a], authorName);
    assert [c] + [a] == [c, a];
    CoverImageIsLastFound([c, a], "m", coverFile);
  }

  /** Three authors, the second lookup failing: one suffix per successful
      lookup, in relationship order. */
  lemma FailedAuthorSkipped(authorName: Lookup)
    requires authorName("a1") == Some("a1") && authorName("a2") == None && authorName("a3") == Some("a3")
    ensures AuthorSuffixes([Relationship("author", "a1"), Relationship("author", "a2"), Relationship("author", "a3")],
                           authorName) == "  -  a1  -  a3"
  {
    var r1, r2, r3 := Relationship("author", "a1"), Relationship("author", "a2"), Relationship("author", "a3");
    assert [r1][..0] == [] && [r2][..0] == [] && [r3][..0] == [];
    assert Collect([r1], r => AuthorSuffix(r, authorName)) == "  -  a1";
    assert Collect([r2], r => AuthorSuffix(r, authorName)) == "";
    assert Collect([r3], r => AuthorSuffix(r, authorName)) == "  -  a3";
    AuthorSuffixesAppend([r1], [r2], authorName);
    AuthorSuffixesAppend([r1] + [r2], [r3], authorName);
    assert [r1] + [r2] + [r3] == [r1, r2, r3];
  }
}
