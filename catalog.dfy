/**
 * The content catalog's files as the generator reads them, and the two
 * filters it applies: the articles of the blog and the articles of one tag.
 */
module Catalog {
  import opened Wrappers
  import opened Sequences
  import opened Strings

  /** Where a file came from; only `basename` is consulted by the generator. */
  datatype Source = Source(component: string, version: string, moduleName: string, basename: string)

  /** The AsciiDoc block of a file: its attribute bag, which may be missing. */
  datatype AsciiDoc = AsciiDoc(attributes: Option<map<string, string>>)

  /** A file of the content catalog; `asciidoc` is present for AsciiDoc documents. */
  datatype File = File(src: Source, asciidoc: Option<AsciiDoc>)

  /** The basename of a component's landing document, which is not an article. */
  const LandingBasename: string := "index.adoc"

  /** The attribute that holds a comma-separated list of tags. */
  const TagsAttribute: string := "page-tags"

  /** An article is an AsciiDoc document other than the landing document. */
  predicate IsArticle(f: File) {
    f.asciidoc.Some? && f.src.basename != LandingBasename
  }

  /** The blog's articles: the catalog files that are articles, in catalog order. */
  function Articles(files: seq<File>): seq<File> {
    Filter(IsArticle, files)
  }

  /**
   * The articles are exactly the catalog's files that are articles, each
   * occurrence kept, in catalog order.
   */
  lemma {:induction false} ArticlesSpec(files: seq<File>, f: File)
    ensures f in Articles(files) <==> f in files && IsArticle(f)
    ensures multiset(Articles(files))[f] == if IsArticle(f) then multiset(files)[f] else 0
    ensures IsSubsequence(Articles(files), files)
    ensures |Articles(files)| <= |files|
  {
    FilterMembership(IsArticle, files, f);
    FilterCount(IsArticle, files, f);
    FilterIsSubsequence(IsArticle, files);
  }

  /**
   * The value of the `page-tags` attribute when it is truthy: the file has an
   * AsciiDoc block with an attribute bag that holds a non-empty value for it.
   */
  function PageTags(f: File): (v: Option<string>)
    ensures v.Some? <==>
      f.asciidoc.Some? && f.asciidoc.value.attributes.Some? &&
      TagsAttribute in f.asciidoc.value.attributes.value &&
      f.asciidoc.value.attributes.value[TagsAttribute] != ""
    ensures v.Some? ==> v.value == f.asciidoc.value.attributes.value[TagsAttribute]
  {
    match f.asciidoc
    case None => None
    case Some(doc) =>
      match doc.attributes
      case None => None
      case Some(attrs) =>
        if TagsAttribute in attrs && attrs[TagsAttribute] != "" then Some(attrs[TagsAttribute]) else None
  }

  /** `value` lists `tag`: some comma-separated piece of it equals `tag` once trimmed. */
  ghost predicate ListsTag(value: string, tag: string) {
    var pieces := Split(value, ',');
    exists i :: 0 <= i < |pieces| && Trim(pieces[i]) == tag
  }

  /** The tags of a `page-tags` value: its comma-separated entries, each trimmed. */
  function TagEntries(value: string): seq<string> {
    var pieces := Split(value, ',');
    seq(|pieces|, i requires 0 <= i < |pieces| => Trim(pieces[i]))
  }

  /** There is one entry per comma-separated piece, every entry is trimmed, and the entries are the trimmed pieces. */
  lemma {:induction false} TagEntriesSpec(value: string)
    ensures |TagEntries(value)| == |Split(value, ',')|
    ensures forall i :: 0 <= i < |TagEntries(value)| ==> IsTrimmed(TagEntries(value)[i])
    ensures forall tag :: tag in TagEntries(value) <==> ListsTag(value, tag)
  {
    var pieces := Split(value, ',');
    var entries := TagEntries(value);
    assert forall i :: 0 <= i < |pieces| ==> entries[i] == Trim(pieces[i]);
  }

  /** Whether a file carries `tag`: its truthy `page-tags` value lists the tag exactly. */
  predicate HasTag(f: File, tag: string) {
    match PageTags(f)
    case None => false
    case Some(value) => tag in TagEntries(value)
  }

  /** The articles that carry `tag`, in the order of `articles`. */
  function ArticlesWithTag(articles: seq<File>, tag: string): seq<File> {
    Filter((f: File) => HasTag(f, tag), articles)
  }

  /** The tag list is exactly the articles that carry the tag, each occurrence kept, in order. */
  lemma {:induction false} ArticlesWithTagSpec(articles: seq<File>, tag: string, f: File)
    ensures f in ArticlesWithTag(articles, tag) <==> f in articles && HasTag(f, tag)
    ensures multiset(ArticlesWithTag(articles, tag))[f] == if HasTag(f, tag) then multiset(articles)[f] else 0
    ensures IsSubsequence(ArticlesWithTag(articles, tag), articles)
    ensures |ArticlesWithTag(articles, tag)| <= |articles|
  {
    var keep := (f: File) => HasTag(f, tag);
    FilterMembership(keep, articles, f);
    FilterCount(keep, articles, f);
    FilterIsSubsequence(keep, articles);
  }

  /**
   * A file is listed for a tag exactly when it is an article of the catalog
   * with a truthy `page-tags` value, one of whose comma-separated entries
   * equals the tag after trimming. The comparison is exact: no case folding.
   */
  lemma {:induction false} TaggedArticleMembership(files: seq<File>, tag: string, f: File)
    ensures f in ArticlesWithTag(Articles(files), tag) <==>
      && f in files
      && f.asciidoc.Some?
      && f.src.basename != LandingBasename
      && f.asciidoc.value.attributes.Some?
      && TagsAttribute in f.asciidoc.value.attributes.value
      && f.asciidoc.value.attributes.value[TagsAttribute] != ""
      && ListsTag(f.asciidoc.value.attributes.value[TagsAttribute], tag)
  {
    ArticlesWithTagSpec(Articles(files), tag, f);
    ArticlesSpec(files, f);
    if PageTags(f).Some? {
      TagEntriesSpec(PageTags(f).value);
    }
  }

  /**
   * A catalog file occurs in a tag's list as often as it occurs in the catalog
   * when it is an article carrying the tag, and never otherwise.
   */
  lemma {:induction false} TaggedArticleCount(files: seq<File>, tag: string, f: File)
    ensures multiset(ArticlesWithTag(Articles(files), tag))[f] ==
      if IsArticle(f) && HasTag(f, tag) then multiset(files)[f] else 0
  {
    ArticlesWithTagSpec(Articles(files), tag, f);
    ArticlesSpec(files, f);
  }

  /** A file whose attribute bag is missing, or lacks `page-tags`, is listed for no tag. */
  lemma {:induction false} UntaggedFileInNoTagList(articles: seq<File>, tag: string, f: File)
    requires f.asciidoc.None? || f.asciidoc.value.attributes.None? ||
      TagsAttribute !in f.asciidoc.value.attributes.value
    ensures f !in ArticlesWithTag(articles, tag)
  {
    ArticlesWithTagSpec(articles, tag, f);
  }

  /** The tag lists are nested in the catalog: each is a subsequence of the catalog's files. */
  lemma {:induction false} TagListIsSubsequenceOfCatalog(files: seq<File>, tag: string)
    ensures IsSubsequence(ArticlesWithTag(Articles(files), tag), files)
    ensures |ArticlesWithTag(Articles(files), tag)| <= |Articles(files)| <= |files|
  {
    var articles := Articles(files);
    FilterIsSubsequence((f: File) => HasTag(f, tag), articles);
    FilterIsSubsequence(IsArticle, files);
    SubsequenceTransitive(ArticlesWithTag(articles, tag), articles, files);
  }
}

/** Worked example: two tagged articles and a landing page. */
module CatalogExample {
  import opened Wrappers
  import opened Strings
  import opened Sequences
  import opened Catalog

  function Post(basename: string, tags: string): File {
    File(Source("blog", "1.0", "ROOT", basename), Some(AsciiDoc(Some(map[TagsAttribute := tags]))))
  }

  lemma {:induction false} SplitInfraGo()
    ensures Split("infra, go", ',') == ["infra", " go"]
  {
    assert "infra" + [','] + " go" == "infra, go";
    SplitAfterPiece("infra", " go", ',');
    SplitWithoutSeparator(" go", ',');
  }

  lemma {:induction false} TrimInfra()
    ensures Trim("infra") == "infra"
  {
    TrimPadded([], "infra", []);
    assert [] + "infra" + [] == "infra";
  }

  lemma {:induction false} TrimSpaceGo()
    ensures Trim(" go") == "go"
  {
    assert " " + "go" == " go";
    TrimStartPadded(" ", "go");
    assert "go" + [] == "go";
    TrimEndPadded("go", []);
  }

  /** "infra, go" lists the tags "infra" and "go": the space after the comma is trimmed. */
  lemma {:induction false} InfraGoEntries()
    ensures TagEntries("infra, go") == ["infra", "go"]
  {
    SplitInfraGo();
    TrimInfra();
    TrimSpaceGo();
  }

  /** "go" lists the single tag "go". */
  lemma {:induction false} GoEntries()
    ensures TagEntries("go") == ["go"]
  {
    SplitWithoutSeparator("go", ',');
    TrimPadded([], "go", []);
    assert [] + "go" + [] == "go";
  }

  /** Article `a`, tagged "infra, go". */
  function ArticleA(): File {
    Post("a.adoc", "infra, go")
  }

  /** Article `b`, tagged "go". */
  function ArticleB(): File {
    Post("b.adoc", "go")
  }

  /** The landing page of the blog component: it has AsciiDoc but is not an article. */
  function Landing(): File {
    File(Source("blog", "1.0", "ROOT", LandingBasename), Some(AsciiDoc(None)))
  }

  lemma {:induction false} TagsOfArticleA()
    ensures HasTag(ArticleA(), "go") && HasTag(ArticleA(), "infra") && !HasTag(ArticleA(), "Go")
  {
    assert PageTags(ArticleA()) == Some("infra, go");
    InfraGoEntries();
  }

  lemma {:induction false} TagsOfArticleB()
    ensures HasTag(ArticleB(), "go") && !HasTag(ArticleB(), "infra") && !HasTag(ArticleB(), "Go")
  {
    assert PageTags(ArticleB()) == Some("go");
    GoEntries();
  }

  /** The landing page is left out of the articles. */
  lemma {:induction false} ExampleArticles()
    ensures Articles([ArticleA(), Landing(), ArticleB()]) == [ArticleA(), ArticleB()]
  {
    var files := [ArticleA(), Landing(), ArticleB()];
    assert files[1..][1..][1..] == [];
    assert !IsArticle(Landing());
  }

  /** The tag "go" lists both articles, in order. */
  lemma {:induction false} ExampleGoList()
    ensures ArticlesWithTag([ArticleA(), ArticleB()], "go") == [ArticleA(), ArticleB()]
  {
    TagsOfArticleA();
    TagsOfArticleB();
    FilterPair((f: File) => HasTag(f, "go"), ArticleA(), ArticleB());
  }

  /** The tag "infra" lists article `a` only. */
  lemma {:induction false} ExampleInfraList()
    ensures ArticlesWithTag([ArticleA(), ArticleB()], "infra") == [ArticleA()]
  {
    TagsOfArticleA();
    TagsOfArticleB();
    FilterPair((f: File) => HasTag(f, "infra"), ArticleA(), ArticleB());
  }

  /** Tags are compared case-sensitively: "Go" lists neither article. */
  lemma {:induction false} ExampleCaseSensitive()
    ensures ArticlesWithTag([ArticleA(), ArticleB()], "Go") == []
  {
    TagsOfArticleA();
    TagsOfArticleB();
    FilterPair((f: File) => HasTag(f, "Go"), ArticleA(), ArticleB());
  }
}
