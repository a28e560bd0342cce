/**
 * The site-file assembly of `generateSite`: the files mapped by the site
 * mapper and the redirects come first, then the optional 404 page, then one
 * listing page per tag and, last, the blog's index page. Page composition is
 * modelled as returning the page it is given.
 */
module Generator {
  import opened Wrappers
  import opened Catalog
  import opened Pages

  /** An output file: one produced by the site mapper or the redirect producer, or a composed synthetic page. */
  datatype SiteFile = Published(file: File) | Composed(page: Page)

  /** The playbook's site URL is set: present and not the empty string. */
  predicate SiteUrlSet(siteUrl: Option<string>) {
    siteUrl.Some? && siteUrl.value != ""
  }

  /** How many 404 pages the site gets: one when the site URL is set. */
  function NotFoundCount(siteUrl: Option<string>): (n: nat)
    ensures n <= 1 && (n == 1 <==> SiteUrlSet(siteUrl))
  {
    if SiteUrlSet(siteUrl) then 1 else 0
  }

  /** The file is the composed blog index page. */
  predicate IsIndexPage(f: SiteFile) {
    f.Composed? && HasLayout(f.page, IndexLayout)
  }

  /** The file is a composed tag listing page. */
  predicate IsTagPage(f: SiteFile) {
    f.Composed? && HasLayout(f.page, TagLayout)
  }

  /** The listing page of `tag`, over the articles of the catalog that carry it. */
  function TagSiteFile(tag: string, articles: seq<File>, tagUrl: string -> string): SiteFile {
    Composed(TagPage(tag, ArticlesWithTag(articles, tag), tagUrl))
  }

  /** The outputs of the site mapper or the redirect producer, as site files. */
  function PublishedAll(files: seq<File>): (r: seq<SiteFile>)
    ensures |r| == |files|
    ensures forall i :: 0 <= i < |files| ==> r[i] == Published(files[i])
  {
    seq(|files|, i requires 0 <= i < |files| => Published(files[i]))
  }

  /** The listing pages of `tags`, one per tag, in tag order. */
  function TagPages(tags: seq<string>, articles: seq<File>, tagUrl: string -> string): (pages: seq<SiteFile>)
    ensures |pages| == |tags|
    ensures forall k :: 0 <= k < |tags| ==> pages[k] == TagSiteFile(tags[k], articles, tagUrl)
    decreases |tags|
  {
    if tags == [] then []
    else
      var init := tags[..|tags| - 1];
      assert forall k :: 0 <= k < |init| ==> init[k] == tags[k];
      TagPages(init, articles, tagUrl) + [TagSiteFile(tags[|tags| - 1], articles, tagUrl)]
  }

  /**
   * The site files `generateSite` hands to the publisher: the mapped files,
   * the redirects, the 404 page when the site URL is set, one listing page
   * per tag in tag order and the index page, and nothing else.
   */
  function SiteFiles(
    mapped: seq<File>, redirects: seq<File>, siteUrl: Option<string>,
    tags: seq<string>, catalog: seq<File>, tagUrl: string -> string): seq<SiteFile>
  {
    PublishedAll(mapped) + PublishedAll(redirects)
    + (if SiteUrlSet(siteUrl) then [Composed(NotFoundPage())] else [])
    + TagPages(tags, Articles(catalog), tagUrl)
    + [Composed(IndexPage(tags, Articles(catalog)))]
  }

  /**
   * The assembly of `generateSite`. `mapped` and `redirects` are what the
   * site mapper and the redirect producer returned, `tags` what the tag
   * extractor returned, `catalog` the content catalog's files and `tagUrl`
   * the tag URL mapper. The list is built by appending, as the source does.
   */
  method AssembleSiteFiles(
    mapped: seq<File>, redirects: seq<File>, siteUrl: Option<string>,
    tags: seq<string>, catalog: seq<File>, tagUrl: string -> string)
    returns (siteFiles: seq<SiteFile>)
    ensures siteFiles == SiteFiles(mapped, redirects, siteUrl, tags, catalog, tagUrl)
  {
    siteFiles := PublishedAll(mapped) + PublishedAll(redirects);
    if SiteUrlSet(siteUrl) {
      siteFiles := siteFiles + [Composed(NotFoundPage())];
    }
    var articles := Articles(catalog);
    ghost var head := siteFiles;
    for n := 0 to |tags|
      invariant siteFiles == head + TagPages(tags[..n], articles, tagUrl)
    {
      var tagged := ArticlesWithTag(articles, tags[n]);
      var page := Composed(TagPage(tags[n], tagged, tagUrl));
      assert tags[..n + 1][..n] == tags[..n];
      assert page == TagSiteFile(tags[n], articles, tagUrl);
      siteFiles := siteFiles + [page];
    }
    assert tags[..|tags|] == tags;
    siteFiles := siteFiles + [Composed(IndexPage(tags, articles))];
  }

  /** What the assembled list holds at position `i`, part by part. */
  lemma {:induction false} SiteFileAt(
    mapped: seq<File>, redirects: seq<File>, siteUrl: Option<string>,
    tags: seq<string>, catalog: seq<File>, tagUrl: string -> string, i: nat)
    requires i < |mapped| + |redirects| + NotFoundCount(siteUrl) + |tags| + 1
    ensures var files := SiteFiles(mapped, redirects, siteUrl, tags, catalog, tagUrl);
      var base := |mapped| + |redirects|;
      var tagStart := base + NotFoundCount(siteUrl);
      && |files| == tagStart + |tags| + 1
      && (i < |mapped| ==> files[i] == Published(mapped[i]))
      && (|mapped| <= i < base ==> files[i] == Published(redirects[i - |mapped|]))
      && (base <= i < tagStart ==> files[i] == Composed(NotFoundPage()))
      && (tagStart <= i < tagStart + |tags| ==> files[i] == TagSiteFile(tags[i - tagStart], Articles(catalog), tagUrl))
      && (i == tagStart + |tags| ==> files[i] == Composed(IndexPage(tags, Articles(catalog))))
  {
    var front := PublishedAll(mapped) + PublishedAll(redirects);
    var notFound: seq<SiteFile> := if SiteUrlSet(siteUrl) then [Composed(NotFoundPage())] else [];
    var pages := TagPages(tags, Articles(catalog), tagUrl);
    var head := front + notFound;
    var upto := head + pages;
    var files := upto + [Composed(IndexPage(tags, Articles(catalog)))];
    assert files == SiteFiles(mapped, redirects, siteUrl, tags, catalog, tagUrl);
    if i < |upto| {
      assert files[i] == upto[i];
      if i < |head| {
        assert upto[i] == head[i];
        if i < |front| {
          assert head[i] == front[i];
        } else {
          assert head[i] == notFound[i - |front|];
        }
      } else {
        assert upto[i] == pages[i - |head|];
      }
    }
  }

  /** The listing page of the `k`-th tag follows the mapped files, the redirects and the optional 404 page. */
  lemma {:induction false} TagSiteFileAt(
    mapped: seq<File>, redirects: seq<File>, siteUrl: Option<string>,
    tags: seq<string>, catalog: seq<File>, tagUrl: string -> string, k: nat)
    requires k < |tags|
    ensures var files := SiteFiles(mapped, redirects, siteUrl, tags, catalog, tagUrl);
      && |mapped| + |redirects| + NotFoundCount(siteUrl) + k < |files|
      && files[|mapped| + |redirects| + NotFoundCount(siteUrl) + k] == TagSiteFile(tags[k], Articles(catalog), tagUrl)
  {
    var front := PublishedAll(mapped) + PublishedAll(redirects);
    var notFound: seq<SiteFile> := if SiteUrlSet(siteUrl) then [Composed(NotFoundPage())] else [];
    var pages := TagPages(tags, Articles(catalog), tagUrl);
    var head := front + notFound;
    var upto := head + pages;
    var files := upto + [Composed(IndexPage(tags, Articles(catalog)))];
    assert files == SiteFiles(mapped, redirects, siteUrl, tags, catalog, tagUrl);
    assert |head| == |mapped| + |redirects| + NotFoundCount(siteUrl);
    assert files[|head| + k] == upto[|head| + k] == pages[k];
  }

  /** The first `|mapped| + |redirects|` positions of the assembled list hold what the site mapper and the redirect producer returned. */
  lemma {:induction false} PublishedFileAt(
    mapped: seq<File>, redirects: seq<File>, siteUrl: Option<string>,
    tags: seq<string>, catalog: seq<File>, tagUrl: string -> string, i: nat)
    requires i < |mapped| + |redirects|
    ensures var files := SiteFiles(mapped, redirects, siteUrl, tags, catalog, tagUrl);
      i < |files| && files[i] == (PublishedAll(mapped) + PublishedAll(redirects))[i]
  {
    var front := PublishedAll(mapped) + PublishedAll(redirects);
    var notFound: seq<SiteFile> := if SiteUrlSet(siteUrl) then [Composed(NotFoundPage())] else [];
    var head := front + notFound;
    var upto := head + TagPages(tags, Articles(catalog), tagUrl);
    var files := upto + [Composed(IndexPage(tags, Articles(catalog)))];
    assert files == SiteFiles(mapped, redirects, siteUrl, tags, catalog, tagUrl);
    assert files[i] == upto[i] == head[i] == front[i];
  }

  /** The assembled list starts with the mapped files, then the redirects. */
  lemma {:induction false} SiteFilesHead(
    mapped: seq<File>, redirects: seq<File>, siteUrl: Option<string>,
    tags: seq<string>, catalog: seq<File>, tagUrl: string -> string)
    ensures var files := SiteFiles(mapped, redirects, siteUrl, tags, catalog, tagUrl);
      && (forall i :: 0 <= i < |mapped| ==> i < |files| && files[i] == Published(mapped[i]))
      && (forall j :: 0 <= j < |redirects| ==> |mapped| + j < |files| && files[|mapped| + j] == Published(redirects[j]))
  {
    var files := SiteFiles(mapped, redirects, siteUrl, tags, catalog, tagUrl);
    var front := PublishedAll(mapped) + PublishedAll(redirects);
    forall i | 0 <= i < |mapped| ensures files[i] == Published(mapped[i]) {
      PublishedFileAt(mapped, redirects, siteUrl, tags, catalog, tagUrl, i);
      assert front[i] == PublishedAll(mapped)[i];
    }
    forall j | 0 <= j < |redirects| ensures files[|mapped| + j] == Published(redirects[j]) {
      PublishedFileAt(mapped, redirects, siteUrl, tags, catalog, tagUrl, |mapped| + j);
      assert front[|mapped| + j] == PublishedAll(redirects)[j];
    }
  }

  /** The assembled list ends with one listing page per tag, in tag order, and then the index page. */
  lemma {:induction false} SiteFilesTail(
    mapped: seq<File>, redirects: seq<File>, siteUrl: Option<string>,
    tags: seq<string>, catalog: seq<File>, tagUrl: string -> string)
    ensures var files := SiteFiles(mapped, redirects, siteUrl, tags, catalog, tagUrl);
      && |files| == |mapped| + |redirects| + NotFoundCount(siteUrl) + |tags| + 1
      && (forall k :: 0 <= k < |tags| ==>
           files[|mapped| + |redirects| + NotFoundCount(siteUrl) + k] == TagSiteFile(tags[k], Articles(catalog), tagUrl))
      && files[|files| - 1] == Composed(IndexPage(tags, Articles(catalog)))
  {
    var files := SiteFiles(mapped, redirects, siteUrl, tags, catalog, tagUrl);
    SiteFileAt(mapped, redirects, siteUrl, tags, catalog, tagUrl, |mapped| + |redirects| + NotFoundCount(siteUrl) + |tags|);
    forall k | 0 <= k < |tags|
      ensures files[|mapped| + |redirects| + NotFoundCount(siteUrl) + k] == TagSiteFile(tags[k], Articles(catalog), tagUrl)
    {
      TagSiteFileAt(mapped, redirects, siteUrl, tags, catalog, tagUrl, k);
    }
  }

  /**
   * The assembled list has this shape and nothing else: the mapped files,
   * then the redirects, then the 404 page when the site URL is set, then one
   * listing page per tag in tag order, then the index page, last.
   */
  lemma {:induction false} SiteFilesLayout(
    mapped: seq<File>, redirects: seq<File>, siteUrl: Option<string>,
    tags: seq<string>, catalog: seq<File>, tagUrl: string -> string)
    ensures var files := SiteFiles(mapped, redirects, siteUrl, tags, catalog, tagUrl);
      && |files| == |mapped| + |redirects| + NotFoundCount(siteUrl) + |tags| + 1
      && (forall i :: 0 <= i < |mapped| ==> files[i] == Published(mapped[i]))
      && (forall j :: 0 <= j < |redirects| ==> files[|mapped| + j] == Published(redirects[j]))
      && (SiteUrlSet(siteUrl) ==> files[|mapped| + |redirects|] == Composed(NotFoundPage()))
      && (forall k :: 0 <= k < |tags| ==>
           files[|mapped| + |redirects| + NotFoundCount(siteUrl) + k] == TagSiteFile(tags[k], Articles(catalog), tagUrl))
      && files[|files| - 1] == Composed(IndexPage(tags, Articles(catalog)))
  {
    SiteFilesHead(mapped, redirects, siteUrl, tags, catalog, tagUrl);
    SiteFilesTail(mapped, redirects, siteUrl, tags, catalog, tagUrl);
    SiteFileAt(mapped, redirects, siteUrl, tags, catalog, tagUrl, |mapped| + |redirects|);
  }

  /** The assembled list holds the 404 page exactly when the site URL is set. */
  lemma {:induction false} NotFoundPresentIffSiteUrl(
    mapped: seq<File>, redirects: seq<File>, siteUrl: Option<string>,
    tags: seq<string>, catalog: seq<File>, tagUrl: string -> string)
    ensures Composed(NotFoundPage()) in SiteFiles(mapped, redirects, siteUrl, tags, catalog, tagUrl) <==> SiteUrlSet(siteUrl)
  {
    var files := SiteFiles(mapped, redirects, siteUrl, tags, catalog, tagUrl);
    var base := |mapped| + |redirects|;
    SiteFileAt(mapped, redirects, siteUrl, tags, catalog, tagUrl, base);
    if SiteUrlSet(siteUrl) {
      assert files[base] == Composed(NotFoundPage());
    } else {
      forall i | 0 <= i < |files|
        ensures files[i] != Composed(NotFoundPage())
      {
        SiteFileAt(mapped, redirects, siteUrl, tags, catalog, tagUrl, i);
        if i >= base {
          assert files[i].page.version != NotFoundPage().version;
        }
      }
    }
  }

  /** The 404 page is none of the mapped files or redirects. */
  lemma {:induction false} NotFoundNotPublished(files: seq<File>)
    ensures Composed(NotFoundPage()) !in PublishedAll(files)
  {
    var published := PublishedAll(files);
    forall i | 0 <= i < |published| ensures published[i].Published? {
      assert published[i] == Published(files[i]);
    }
  }

  /** The 404 page is none of the tag pages: tag pages carry the blog version, the 404 page none. */
  lemma {:induction false} NotFoundNotTagPage(tags: seq<string>, articles: seq<File>, tagUrl: string -> string)
    ensures Composed(NotFoundPage()) !in TagPages(tags, articles, tagUrl)
  {
    var pages := TagPages(tags, articles, tagUrl);
    forall k | 0 <= k < |pages| ensures pages[k].page.version.Some? {
      assert pages[k] == TagSiteFile(tags[k], articles, tagUrl);
    }
  }

  /** The assembled list holds one 404 page when the site URL is set, and none otherwise. */
  lemma {:induction false} NotFoundPageCount(
    mapped: seq<File>, redirects: seq<File>, siteUrl: Option<string>,
    tags: seq<string>, catalog: seq<File>, tagUrl: string -> string)
    ensures multiset(SiteFiles(mapped, redirects, siteUrl, tags, catalog, tagUrl))[Composed(NotFoundPage())]
      == NotFoundCount(siteUrl)
  {
    var notFound := Composed(NotFoundPage());
    var optional: seq<SiteFile> := if SiteUrlSet(siteUrl) then [notFound] else [];
    var index := [Composed(IndexPage(tags, Articles(catalog)))];
    NotFoundNotPublished(mapped);
    NotFoundNotPublished(redirects);
    NotFoundNotTagPage(tags, Articles(catalog), tagUrl);
    assert index[0].page.version.Some?;
    assert multiset(optional)[notFound] == NotFoundCount(siteUrl);
  }

  /** The assembled list holds the index page once, in last position. */
  lemma {:induction false} IndexPageLast(
    mapped: seq<File>, redirects: seq<File>, siteUrl: Option<string>,
    tags: seq<string>, catalog: seq<File>, tagUrl: string -> string)
    ensures var files := SiteFiles(mapped, redirects, siteUrl, tags, catalog, tagUrl);
      forall i :: 0 <= i < |files| ==> (IsIndexPage(files[i]) <==> i == |files| - 1)
  {
    var files := SiteFiles(mapped, redirects, siteUrl, tags, catalog, tagUrl);
    SiteFileAt(mapped, redirects, siteUrl, tags, catalog, tagUrl, 0);
    forall i | 0 <= i < |files|
      ensures IsIndexPage(files[i]) <==> i == |files| - 1
    {
      SiteFileAt(mapped, redirects, siteUrl, tags, catalog, tagUrl, i);
    }
  }

  /** The tag pages of the assembled list are exactly the `|tags|` files before the last. */
  lemma {:induction false} TagPagesBeforeIndex(
    mapped: seq<File>, redirects: seq<File>, siteUrl: Option<string>,
    tags: seq<string>, catalog: seq<File>, tagUrl: string -> string)
    ensures var files := SiteFiles(mapped, redirects, siteUrl, tags, catalog, tagUrl);
      forall i :: 0 <= i < |files| ==>
        (IsTagPage(files[i]) <==> |files| - 1 - |tags| <= i < |files| - 1)
  {
    var files := SiteFiles(mapped, redirects, siteUrl, tags, catalog, tagUrl);
    SiteFileAt(mapped, redirects, siteUrl, tags, catalog, tagUrl, 0);
    forall i | 0 <= i < |files|
      ensures IsTagPage(files[i]) <==> |files| - 1 - |tags| <= i < |files| - 1
    {
      SiteFileAt(mapped, redirects, siteUrl, tags, catalog, tagUrl, i);
    }
  }

  /**
   * An article without `page-tags` (or without any attribute bag) is on no tag
   * page, yet the index page lists it.
   */
  lemma {:induction false} UntaggedArticleOnlyOnIndex(
    catalog: seq<File>, tags: seq<string>, tag: string, tagUrl: string -> string, f: File)
    requires f in catalog && IsArticle(f)
    requires f.asciidoc.value.attributes.None? || TagsAttribute !in f.asciidoc.value.attributes.value
    ensures f !in TagPage(tag, ArticlesWithTag(Articles(catalog), tag), tagUrl).contents.value
    ensures f in IndexPage(tags, Articles(catalog)).contents.value
  {
    UntaggedFileInNoTagList(Articles(catalog), tag, f);
    ArticlesSpec(catalog, f);
  }

  /**
   * The index page lists every article of the catalog and nothing else, each
   * as often as it occurs in the catalog.
   */
  lemma {:induction false} IndexListsEveryArticle(catalog: seq<File>, tags: seq<string>, f: File)
    ensures |IndexPage(tags, Articles(catalog)).contents.value| == |Articles(catalog)|
    ensures f in IndexPage(tags, Articles(catalog)).contents.value <==> f in catalog && IsArticle(f)
    ensures multiset(IndexPage(tags, Articles(catalog)).contents.value)[f] ==
      if IsArticle(f) then multiset(catalog)[f] else 0
  {
    ArticlesSpec(catalog, f);
  }
}
