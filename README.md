# Blog generator: site-file assembly, article selection and tag pages

This project models the part of the yuzutech blog generator (`lib/generator.js`) that
runs after Antora has classified, converted and composed the documentation. In that
part, `generateSite` builds the list of site files it hands to the publisher, and it
creates three synthetic pages: the 404 page, one listing page per tag, and the blog's
index page.

- **Sequences** (`sequences.dfy`): an order-preserving `Filter`, with the subsequence
  relation used to state that filtering keeps catalog order.
- **Strings** (`strings.dfy`): JavaScript's `String.prototype.split` on a
  one-character separator, `Join` as its inverse, and `String.prototype.trim`. `trim`
  uses the exact set of WhiteSpace and LineTerminator code points that the ECMAScript
  specification defines.
- **Catalog** (`catalog.dfy`): content-catalog files with their source and optional
  AsciiDoc attributes. It covers:
  - the article selection: has AsciiDoc and is not `index.adoc`;
  - the truthiness of `page-tags`;
  - the tag entries of a `page-tags` value: split on `,`, then each piece trimmed;
  - the per-tag article filter.

  `CatalogExample` works one small catalog through these definitions.
- **Pages** (`pages.dfy`): the page records that `create404Page`, `createTagPage` and
  `createIndexPage` return: title, version, media type, contents, layout attributes,
  source, output path, publication URL and root paths.
- **Generator** (`generator.dfy`): the assembly of the site-file list, as a method
  that appends step by step like the source. It is proved equal to a specification
  function `SiteFiles`. Lemmas about that function give the list's layout:
  1. the mapped files;
  2. the redirects;
  3. the 404 page, exactly when the site URL is set;
  4. one tag page per tag, in tag order;
  5. the index page, last.

The tag URL mapper (`getTagUrl`) is an arbitrary function parameter `tagUrl`. The tag
extractor's result (`getTags`) is an input sequence. Page composition returns the page
it is given.

## Model

| member | source | states |
|---|---|---|
| Catalog.IsArticle | lib/generator.js:36 | The article test: the file has AsciiDoc and its basename is not `index.adoc` (a definition; its properties are in `Catalog.ArticlesSpec`). |
| Catalog.Articles | lib/generator.js:36 | The catalog's files filtered by `IsArticle`, in catalog order (a definition; its properties are in `Catalog.ArticlesSpec`). |
| Catalog.ArticlesSpec | lib/generator.js:36 | A file is an article exactly when it is in the catalog, has AsciiDoc and its basename is not `index.adoc`. Each article occurs in the result as often as in the catalog, and other files never occur. The articles keep catalog order (a subsequence) and are never more than the catalog's files. |
| Catalog.PageTags | lib/generator.js:39 | `page-tags` counts only when there is an AsciiDoc block with an attribute bag holding a non-empty value for it. When it counts, the result is that value. |
| Catalog.TagEntries | lib/generator.js:40 | `value.split(',').map(tag => tag.trim())` (a definition; its properties are in `Catalog.TagEntriesSpec`). |
| Catalog.HasTag | lib/generator.js:39-42 | The filter callback: false unless `page-tags` counts, otherwise whether its entries include the tag (a definition; its properties are in `Catalog.TaggedArticleMembership`). |
| Catalog.ArticlesWithTag | lib/generator.js:38-43 | The articles filtered by `HasTag`, in article order (a definition; its properties are in `Catalog.ArticlesWithTagSpec`). |
| Catalog.TagEntriesSpec | lib/generator.js:40 | A `page-tags` value has one entry per comma-separated piece. Every entry is trimmed. A tag is among the entries exactly when some piece equals it after trimming. |
| Catalog.ArticlesWithTagSpec | lib/generator.js:38-43 | An article is on a tag's list exactly when it is among the articles and carries the tag. Each such article occurs as often as among the articles, and others never occur. The list keeps the articles' order and is no longer than they are. |
| Catalog.TaggedArticleMembership | lib/generator.js:36-43 | A catalog file is listed for a tag iff all of these hold: it is an article; it has an attribute bag with a non-empty `page-tags`; and some comma-separated piece of that value, trimmed, equals the tag exactly. |
| Catalog.TaggedArticleCount | lib/generator.js:36-43 | A catalog file occurs on a tag's list as often as it occurs in the catalog when it is an article carrying the tag, and never otherwise. |
| Catalog.UntaggedFileInNoTagList | lib/generator.js:39-42 | A file without AsciiDoc, without an attribute bag or without `page-tags` is on no tag's list (the filter returns false). |
| Catalog.TagListIsSubsequenceOfCatalog | lib/generator.js:36-38 | Each tag's list is a subsequence of the catalog's files. It is no longer than the articles, which are no longer than the catalog. |
| CatalogExample.SplitInfraGo | lib/generator.js:40 | `"infra, go".split(',')` yields `"infra"` and `" go"`. |
| CatalogExample.TrimInfra | lib/generator.js:40 | Trimming `"infra"` leaves it unchanged. |
| CatalogExample.TrimSpaceGo | lib/generator.js:40 | Trimming `" go"` drops the leading space. |
| CatalogExample.InfraGoEntries | lib/generator.js:40 | The entries of `"infra, go"` are `"infra"` and `"go"`. |
| CatalogExample.GoEntries | lib/generator.js:40 | The entries of `"go"` are just `"go"`. |
| CatalogExample.TagsOfArticleA | lib/generator.js:38-43 | An article tagged `"infra, go"` carries `go` and `infra` but not `Go`. |
| CatalogExample.TagsOfArticleB | lib/generator.js:38-43 | An article tagged `"go"` carries `go` and neither `infra` nor `Go`. |
| CatalogExample.ExampleArticles | lib/generator.js:36 | From two articles and the landing page `index.adoc`, the articles are the two, in catalog order. |
| CatalogExample.ExampleGoList | lib/generator.js:38-43 | The `go` list holds both example articles, in order. |
| CatalogExample.ExampleInfraList | lib/generator.js:38-43 | The `infra` list holds only the article tagged `"infra, go"`. |
| CatalogExample.ExampleCaseSensitive | lib/generator.js:38-43 | The `Go` list is empty: tags are compared case-sensitively. |
| Sequences.Filter | lib/generator.js:36 | The filter result is never longer than its input. |
| Sequences.FilterMembership | lib/generator.js:36 | An element is in the filter result exactly when it is in the input and satisfies the predicate. |
| Sequences.FilterCount | lib/generator.js:36 | Every occurrence of a kept element survives the filter, and no occurrence of another does: the multiplicity of `x` in the result is its multiplicity in the input when kept, else zero. |
| Sequences.FilterIsSubsequence | lib/generator.js:36 | Filtering keeps input order: the result is a subsequence of the input. |
| Sequences.FilterAppend | lib/generator.js:36 | Filtering a concatenation is the concatenation of the filtered parts. |
| Sequences.FilterPair | lib/generator.js:38 | Filtering two elements keeps each one exactly when it satisfies the predicate, in order. |
| Sequences.SubsequenceTransitive | lib/generator.js:36-38 | A subsequence of a subsequence is a subsequence: tag lists nest in the catalog. |
| Strings.Split | lib/generator.js:40 | `split` on one separator yields at least one piece, even for the empty string, and no piece contains the separator. |
| Strings.JoinSplit | lib/generator.js:40 | Joining the pieces of a split with the separator gives back the original value: nothing is lost. |
| Strings.SplitJoin | lib/generator.js:40 | Splitting the join of separator-free pieces (at least one) gives those pieces back. |
| Strings.SplitWithoutSeparator | lib/generator.js:40 | A value with no comma splits into itself alone. |
| Strings.SplitAfterPiece | lib/generator.js:40 | Splitting `a + "," + b`, where `a` has no comma, gives `a` followed by the pieces of `b`. |
| Strings.TrimStart | lib/generator.js:40 | The result is no longer than the input and starts with non-whitespace, or is empty. |
| Strings.TrimStartSpec | lib/generator.js:40 | Removing leading whitespace keeps a suffix of the input, and everything it drops is whitespace. |
| Strings.TrimEnd | lib/generator.js:40 | The result is no longer than the input and ends with non-whitespace, or is empty. |
| Strings.TrimEndSpec | lib/generator.js:40 | Removing trailing whitespace keeps a prefix of the input, and everything it drops is whitespace. |
| Strings.Trim | lib/generator.js:40 | The result has no leading or trailing whitespace and is no longer than the input. |
| Strings.TrimSpec | lib/generator.js:40 | The input is whitespace, then the trimmed value, then whitespace: trimming drops whitespace at the two ends only. |
| Strings.TrimStartPadded | lib/generator.js:40 | Removing leading whitespace from whitespace followed by text that starts with non-whitespace gives that text. |
| Strings.TrimEndPadded | lib/generator.js:40 | Removing trailing whitespace from text that ends with non-whitespace followed by whitespace gives that text. |
| Strings.TrimPadded | lib/generator.js:40 | Trimming whitespace-padded trimmed text gives back exactly that text. |
| Strings.TrimIdempotent | lib/generator.js:40 | Trimming twice is the same as trimming once. |
| Pages.NotFoundPage | lib/generator.js:51-59 | The 404 page is titled "Page Not Found", is `text/html` with source stem `404`, is written to `404.html` and served at `/404.html`, and has an empty root path. It has no version, contents or AsciiDoc attributes. |
| Pages.TagPage | lib/generator.js:61-85 | A tag page lists exactly the files it is given and uses the `tag` layout with the tag as `page-tag`. It is titled "Blog / tag - Yuzu tech" with version 1.0, module ROOT and component blog. It is written to `blog/1.0/` plus the tag's URL segment and served at `/` plus that path, with module root `.` and root path `../../../..`. |
| Pages.IndexPage | lib/generator.js:87-111 | The index page lists exactly the files it is given and uses the `index` layout with every tag as `page-tags`. It is titled "Blog - Yuzu tech" with version 1.0, module ROOT and component blog. It is written to `blog/1.0/index.html` and served at `/blog/1.0/index.html`, with module root `.` and root path `../..`. |
| Pages.TagPageTitleInjective | lib/generator.js:63 | Two tag pages share a title exactly when they are for the same tag. |
| Pages.TagPagePathsCollide | lib/generator.js:78-80 | Two tag pages are written to the same path exactly when the tag URL mapper maps their tags to the same segment. |
| Pages.TagPageHidesIndex | lib/generator.js:78-104 | A tag page is written to the index page's path exactly when its tag maps to `index.html`. |
| Pages.NotFoundPageApart | lib/generator.js:56-104 | The 404 page's path is never a tag page's or the index page's path. |
| Generator.NotFoundPageCount | lib/generator.js:34 | The assembled list holds the 404 page exactly once when the site URL is present and non-empty, and not at all otherwise. |
| Generator.NotFoundNotPublished | lib/generator.js:33-34 | The 404 page is none of the mapped files or redirects. |
| Generator.NotFoundNotTagPage | lib/generator.js:34-45 | The 404 page is none of the tag pages. |
| Generator.TagSiteFile | lib/generator.js:38-44 | The composed page of one tag, listing the articles that carry it (a definition; its properties are in `Generator.TagPages` and `Pages.TagPage`). |
| Generator.TagPages | lib/generator.js:37-45 | There is one tag page per tag. The k-th is the page of the k-th tag, listing the articles that carry it. |
| Generator.SiteFiles | lib/generator.js:33-46 | The list the publisher receives, as one expression (a definition; its shape is stated by `Generator.SiteFilesLayout`). |
| Generator.AssembleSiteFiles | lib/generator.js:33-46 | Appending step by step (mapped files and redirects, the 404 page if the site URL is set, each tag's page in tag order, the index page) yields exactly the list `SiteFiles` describes. |
| Generator.SiteFileAt | lib/generator.js:33-46 | Gives the list's length, and what each position holds, section by section. |
| Generator.TagSiteFileAt | lib/generator.js:37-45 | The k-th tag's page sits right after the mapped files, the redirects and the optional 404 page, at offset k. |
| Generator.PublishedFileAt | lib/generator.js:33 | The first positions hold the mapped files followed by the redirects. |
| Generator.SiteFilesHead | lib/generator.js:33 | The list starts with the mapped files in order, then the redirects in order. |
| Generator.SiteFilesTail | lib/generator.js:37-46 | The list ends with the tag pages in tag order, then the index page. |
| Generator.SiteFilesLayout | lib/generator.js:33-46 | Gives the whole list's shape and length: mapped files, redirects, the 404 page exactly when the site URL is set, tag pages in tag order, and the index page last. |
| Generator.NotFoundPresentIffSiteUrl | lib/generator.js:34 | The 404 page is in the list exactly when the site URL is present and non-empty. |
| Generator.IndexPageLast | lib/generator.js:46 | The index page appears exactly once, in last position. |
| Generator.TagPagesBeforeIndex | lib/generator.js:37-46 | The tag-layout pages are exactly the `|tags|` files before the last one. |
| Generator.UntaggedArticleOnlyOnIndex | lib/generator.js:36-46 | An article without `page-tags` (or without any attributes) is on no tag page, but the index page lists it. |
| Generator.IndexListsEveryArticle | lib/generator.js:36-46 | The index page lists one entry per selected article. A file is on it exactly when it is a catalog file that is an article, and it occurs there as often as in the catalog. |

## Left out

- Playbook building, content aggregation and classification, UI loading, AsciiDoc
  configuration, document conversion, navigation building, site mapping, redirect
  production and publishing (lines 22-32, 47-48). These are Antora stages. Their
  results enter the model as inputs: `mapped`, `redirects`, `catalog`, `siteUrl`.
- The concurrent loading in `Promise.all` (line 23) and the asynchronous return of
  `generateSite`. Only the order of the resulting list is modelled.
- `createConverter` (line 28): `lib/create-converter.js` is not part of this model.
- `getTags` and `getTagUrl` (line 19): `lib/tags.js` is not part of this model. The
  tags are an input sequence and the URL mapper is an arbitrary function `tagUrl`. So
  nothing is claimed about how tags are gathered or deduplicated, or how a tag becomes
  a URL segment. `Pages.TagPagePathsCollide` and `Pages.TagPageHidesIndex` state when
  the mapper's choices make output paths collide.
- Tag validation: the code rejects no empty or duplicate tag, detects no path
  collision and sanitises nothing. It creates a page for every tag it is given, and so
  does the model, which has no error path for tags.
- Page composition (`composePage`, lines 31-32, 34, 44, 46) fills in the rendered
  contents. The model treats it as returning the page it is given.
- Root paths: the `rootPath` values are modelled as the constants the code writes.
  Nothing is claimed about whether they match each page's directory depth.
- Attribute values are modelled as strings. A non-string `page-tags` value (JavaScript
  would fail when calling `split` on it) is not modelled, and its truthiness is taken
  as "present and non-empty".
- Strings are sequences of `char`. Characters outside the Basic Multilingual Plane and
  surrogate pairs are not treated specially. `trim`'s whitespace set is the ECMAScript
  one: tab, vertical tab, form feed, space, no-break space, the byte order mark, the
  other Unicode space separators, and the four line terminators.
