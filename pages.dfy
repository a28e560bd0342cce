/**
 * The synthetic pages the generator adds to the site: the 404 page, one
 * listing page per tag and the blog's index page. Each is a plain record in
 * the shape the page composer and the publisher expect.
 */
module Pages {
  import opened Wrappers
  import opened Catalog

  /** The AsciiDoc attributes of a synthetic page: its layout and the tag data that layout renders. */
  datatype PageAttributes = PageAttributes(layout: string, tag: Option<string>, tags: Option<seq<string>>)

  /** The source identity of a synthetic page. */
  datatype PageSource = PageSource(
    stem: Option<string>, moduleName: Option<string>, component: Option<string>, version: Option<string>)

  /** A page descriptor: what the composer renders and where the publisher writes it. */
  datatype Page = Page(
    title: string,
    version: Option<string>,
    mediaType: string,
    contents: Option<seq<File>>,
    asciidoc: Option<PageAttributes>,
    src: PageSource,
    outPath: string,
    pubUrl: string,
    moduleRootPath: Option<string>,
    rootPath: string)

  const HtmlMediaType: string := "text/html"
  const BlogVersion: string := "1.0"
  /** The output directory of the blog component's pages. */
  const BlogRoot: string := "blog/1.0/"
  const SiteName: string := "Yuzu tech"
  const TagLayout: string := "tag"
  const IndexLayout: string := "index"

  /** The page is written to `path` and served from the site-absolute URL `/path`. */
  predicate PublishedAt(p: Page, path: string) {
    p.outPath == path && p.pubUrl == "/" + path
  }

  /** The page renders with `layout`. */
  predicate HasLayout(p: Page, layout: string) {
    p.asciidoc.Some? && p.asciidoc.value.layout == layout
  }

  /** The page of the blog component, version 1.0, module ROOT. */
  function BlogSource(): PageSource {
    PageSource(None, Some("ROOT"), Some("blog"), Some(BlogVersion))
  }

  /** The "Page Not Found" page, written at the site root and listing nothing. */
  function NotFoundPage(): (p: Page)
    ensures PublishedAt(p, "404.html")
    ensures p.contents.None? && p.asciidoc.None? && p.version.None?
    ensures p.rootPath == "" && p.moduleRootPath.None?
    ensures p.title == "Page Not Found" && p.mediaType == HtmlMediaType
    ensures p.src.stem == Some("404")
  {
    Page(
      title := "Page Not Found",
      version := None,
      mediaType := HtmlMediaType,
      contents := None,
      asciidoc := None,
      src := PageSource(Some("404"), None, None, None),
      outPath := "404.html",
      pubUrl := "/404.html",
      moduleRootPath := None,
      rootPath := "")
  }

  /**
   * The listing page of `tag`: it lists `files` as given, renders with the tag
   * layout and is written under the blog root at the tag's URL segment.
   */
  function TagPage(tag: string, files: seq<File>, tagUrl: string -> string): (p: Page)
    ensures p.contents == Some(files)
    ensures HasLayout(p, TagLayout) && p.asciidoc.value.tag == Some(tag) && p.asciidoc.value.tags.None?
    ensures PublishedAt(p, BlogRoot + tagUrl(tag))
    ensures p.title == "Blog / " + tag + " - " + SiteName
    ensures p.version == Some(BlogVersion) && p.src == BlogSource() && p.mediaType == HtmlMediaType
    ensures p.moduleRootPath == Some(".") && p.rootPath == "../../../.."
  {
    Page(
      title := "Blog / " + tag + " - Yuzu tech",
      version := Some("1.0"),
      mediaType := HtmlMediaType,
      contents := Some(files),
      asciidoc := Some(PageAttributes("tag", Some(tag), None)),
      src := BlogSource(),
      outPath := "blog/1.0/" + tagUrl(tag),
      pubUrl := "/blog/1.0/" + tagUrl(tag),
      moduleRootPath := Some("."),
      rootPath := "../../../..")
  }

  /**
   * The blog's index page: it lists `files` (all articles) and carries every
   * tag for the index layout, at `blog/1.0/index.html`.
   */
  function IndexPage(tags: seq<string>, files: seq<File>): (p: Page)
    ensures p.contents == Some(files) && |p.contents.value| == |files|
    ensures HasLayout(p, IndexLayout) && p.asciidoc.value.tags == Some(tags) && p.asciidoc.value.tag.None?
    ensures PublishedAt(p, BlogRoot + "index.html")
    ensures p.title == "Blog - " + SiteName
    ensures p.version == Some(BlogVersion) && p.src == BlogSource() && p.mediaType == HtmlMediaType
    ensures p.moduleRootPath == Some(".") && p.rootPath == "../.."
  {
    Page(
      title := "Blog - Yuzu tech",
      version := Some("1.0"),
      mediaType := HtmlMediaType,
      contents := Some(files),
      asciidoc := Some(PageAttributes("index", None, Some(tags))),
      src := BlogSource(),
      outPath := "blog/1.0/index.html",
      pubUrl := "/blog/1.0/index.html",
      moduleRootPath := Some("."),
      rootPath := "../..")
  }

  /** Two tag pages have the same title exactly when they are for the same tag. */
  lemma {:induction false} TagPageTitleInjective(t1: string, f1: seq<File>, t2: string, f2: seq<File>, tagUrl: string -> string)
    ensures TagPage(t1, f1, tagUrl).title == TagPage(t2, f2, tagUrl).title <==> t1 == t2
  {
    var head, tail := "Blog / ", " - " + SiteName;
    var s1, s2 := head + t1 + tail, head + t2 + tail;
    assert TagPage(t1, f1, tagUrl).title == s1 && TagPage(t2, f2, tagUrl).title == s2;
    if s1 == s2 {
      assert |t1| == |t2|;
      assert s1[|head|..|head| + |t1|] == t1;
      assert s2[|head|..|head| + |t2|] == t2;
    }
  }

  /** Two tag pages are written to the same path exactly when their tags map to the same URL segment. */
  lemma {:induction false} TagPagePathsCollide(t1: string, f1: seq<File>, t2: string, f2: seq<File>, tagUrl: string -> string)
    ensures TagPage(t1, f1, tagUrl).outPath == TagPage(t2, f2, tagUrl).outPath <==> tagUrl(t1) == tagUrl(t2)
  {
    var u1, u2 := tagUrl(t1), tagUrl(t2);
    if BlogRoot + u1 == BlogRoot + u2 {
      assert (BlogRoot + u1)[|BlogRoot|..] == u1;
      assert (BlogRoot + u2)[|BlogRoot|..] == u2;
    }
  }

  /** A tag page overwrites the index page exactly when its tag maps to `index.html`. */
  lemma {:induction false} TagPageHidesIndex(tag: string, files: seq<File>, tags: seq<string>, all: seq<File>, tagUrl: string -> string)
    ensures TagPage(tag, files, tagUrl).outPath == IndexPage(tags, all).outPath <==> tagUrl(tag) == "index.html"
  {
    var u := tagUrl(tag);
    if BlogRoot + u == BlogRoot + "index.html" {
      assert (BlogRoot + u)[|BlogRoot|..] == u;
      assert (BlogRoot + "index.html")[|BlogRoot|..] == "index.html";
    }
  }

  /** The 404 page never shares its path with a tag page or the index page. */
  lemma {:induction false} NotFoundPageApart(tag: string, files: seq<File>, tags: seq<string>, all: seq<File>, tagUrl: string -> string)
    ensures NotFoundPage().outPath != TagPage(tag, files, tagUrl).outPath
    ensures NotFoundPage().outPath != IndexPage(tags, all).outPath
  {
    assert TagPage(tag, files, tagUrl).outPath[0] == 'b';
    assert NotFoundPage().outPath[0] == '4';
  }
}
