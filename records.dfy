/**
 * The records the pages build from the loaded markdown files. The same mapping
 * is written out in each list component and each detail page; here it is
 * defined once per collection, with the detail variant tied to the list
 * variant field by field.
 */
module Records {
  import opened Wrappers
  import opened Strings
  import opened Fields
  import opened Loader

  const UntitledProject: string := "Untitled Project"
  const UntitledArticle: string := "Untitled Article"

  /** The `Project` shown in the project lists. */
  datatype Project = Project(
    slug: string, title: string, description: string, tech: seq<string>,
    image: Option<string>, url: Option<string>, github: Option<string>)

  /** The `Project` of the project page: the list fields and the markdown body. */
  datatype ProjectPage = ProjectPage(
    slug: string, title: string, description: string, tech: seq<string>,
    image: Option<string>, url: Option<string>, github: Option<string>, content: string)

  /** The `Article` shown in the article lists. */
  datatype Article = Article(
    slug: string, title: string, abstractText: string, journal: string, date: string,
    tags: seq<string>, image: Option<string>, url: Option<string>)

  /** The `Article` of the article page: no image, but the markdown body. */
  datatype ArticlePage = ArticlePage(
    slug: string, title: string, abstractText: string, journal: string, date: string,
    tags: seq<string>, url: Option<string>, content: string)

  /** The list mapping of `DynamicProjects` and `AllProjects`. */
  function ToProject(f: MarkdownFile): (p: Project)
    ensures p.slug == f.slug
    ensures p.title != ""
    ensures Truthy(f.frontmatter, "title") ==> p.title == f.frontmatter["title"]
    ensures !Truthy(f.frontmatter, "title") ==> p.title == UntitledProject
    ensures p.description == "" <==> !Truthy(f.frontmatter, "description")
    ensures p.image.Some? <==> "image" in f.frontmatter
  {
    var fm := f.frontmatter;
    Project(f.slug, TextOr(fm, "title", UntitledProject), TextOr(fm, "description", ""),
      ListField(fm, "tech"), Optional(fm, "image"), Optional(fm, "url"), Optional(fm, "github"))
  }

  /** The record mapping of `ProjectDetail`. */
  function ToProjectPage(f: MarkdownFile): (p: ProjectPage)
    ensures p.content == f.content
  {
    var fm := f.frontmatter;
    ProjectPage(f.slug, TextOr(fm, "title", UntitledProject), TextOr(fm, "description", ""),
      ListField(fm, "tech"), Optional(fm, "image"), Optional(fm, "url"), Optional(fm, "github"), f.content)
  }

  /** The list mapping of `DynamicResearchArticles` and `AllArticles`. */
  function ToArticle(f: MarkdownFile): (a: Article)
    ensures a.slug == f.slug
    ensures a.title != ""
    ensures Truthy(f.frontmatter, "title") ==> a.title == f.frontmatter["title"]
    ensures !Truthy(f.frontmatter, "title") ==> a.title == UntitledArticle
    ensures a.abstractText == "" <==> !Truthy(f.frontmatter, "abstract")
    ensures a.image.Some? <==> "image" in f.frontmatter
  {
    var fm := f.frontmatter;
    Article(f.slug, TextOr(fm, "title", UntitledArticle), TextOr(fm, "abstract", ""),
      TextOr(fm, "journal", ""), TextOr(fm, "date", ""), ListField(fm, "tags"),
      Optional(fm, "image"), Optional(fm, "url"))
  }

  /** The record mapping of `ArticleDetail`. */
  function ToArticlePage(f: MarkdownFile): (a: ArticlePage)
    ensures a.content == f.content
  {
    var fm := f.frontmatter;
    ArticlePage(f.slug, TextOr(fm, "title", UntitledArticle), TextOr(fm, "abstract", ""),
      TextOr(fm, "journal", ""), TextOr(fm, "date", ""), ListField(fm, "tags"),
      Optional(fm, "url"), f.content)
  }

  /**
   * Every field of a project, in terms of the frontmatter: the title and
   * description fall back when missing or empty, `tech` is the list field
   * (empty when missing or empty, otherwise one trimmed item per
   * comma-separated piece; `ListFieldPieces` gives the items), and
   * `image`, `url` and `github` are copied, `None` exactly when missing.
   */
  lemma ProjectFields(f: MarkdownFile)
    ensures var p := ToProject(f); var fm := f.frontmatter;
      p.slug == f.slug &&
      p.title == (if Truthy(fm, "title") then fm["title"] else UntitledProject) &&
      p.description == (if Truthy(fm, "description") then fm["description"] else "") &&
      (!Truthy(fm, "tech") ==> p.tech == []) &&
      (Truthy(fm, "tech") ==> |p.tech| == Count(fm["tech"], ',') + 1) &&
      (forall i :: 0 <= i < |p.tech| ==> Trimmed(p.tech[i])) &&
      p.tech == ListField(fm, "tech") &&
      p.image == Optional(fm, "image") && p.url == Optional(fm, "url") && p.github == Optional(fm, "github")
  {
  }

  /** The project page shows the same fields as the project lists, plus the body. */
  lemma ProjectPageAgrees(f: MarkdownFile)
    ensures var p := ToProject(f); var q := ToProjectPage(f);
      q == ProjectPage(p.slug, p.title, p.description, p.tech, p.image, p.url, p.github, f.content)
  {
  }

  /**
   * Every field of an article: title, abstract, journal and date fall back
   * when missing or empty, `tags` is read like a project's `tech`, and `image`
   * and `url` are copied.
   */
  lemma ArticleFields(f: MarkdownFile)
    ensures var a := ToArticle(f); var fm := f.frontmatter;
      a.slug == f.slug &&
      a.title == (if Truthy(fm, "title") then fm["title"] else UntitledArticle) &&
      a.abstractText == (if Truthy(fm, "abstract") then fm["abstract"] else "") &&
      a.journal == (if Truthy(fm, "journal") then fm["journal"] else "") &&
      a.date == (if Truthy(fm, "date") then fm["date"] else "") &&
      (!Truthy(fm, "tags") ==> a.tags == []) &&
      (Truthy(fm, "tags") ==> |a.tags| == Count(fm["tags"], ',') + 1) &&
      (forall i :: 0 <= i < |a.tags| ==> Trimmed(a.tags[i])) &&
      a.tags == ListField(fm, "tags") &&
      a.image == Optional(fm, "image") && a.url == Optional(fm, "url")
  {
  }

  /** The article page shows the list fields except the image, plus the body. */
  lemma ArticlePageAgrees(f: MarkdownFile)
    ensures var a := ToArticle(f); var q := ToArticlePage(f);
      q == ArticlePage(a.slug, a.title, a.abstractText, a.journal, a.date, a.tags, a.url, f.content)
  {
  }

  /** `markdownFiles.map(...)` for projects: one project per file, in order. */
  function MapProjects(files: seq<MarkdownFile>): (ps: seq<Project>)
    ensures |ps| == |files|
    ensures forall i :: 0 <= i < |files| ==> ps[i] == ToProject(files[i])
  {
    seq(|files|, i requires 0 <= i < |files| => ToProject(files[i]))
  }

  /** `markdownFiles.map(...)` for articles: one article per file, in order. */
  function MapArticles(files: seq<MarkdownFile>): (arts: seq<Article>)
    ensures |arts| == |files|
    ensures forall i :: 0 <= i < |files| ==> arts[i] == ToArticle(files[i])
  {
    seq(|files|, i requires 0 <= i < |files| => ToArticle(files[i]))
  }

  /** The mapped list keeps the slugs of the files, in order. */
  lemma MapKeepsSlugs(files: seq<MarkdownFile>)
    ensures forall i :: 0 <= i < |files| ==>
      MapProjects(files)[i].slug == files[i].slug && MapArticles(files)[i].slug == files[i].slug
  {
  }

  function Min(a: nat, b: nat): nat {
    if a <= b then a else b
  }

  /** `xs.slice(0, n)`: the first `n` items, or all of them when there are fewer. */
  function Take<T>(xs: seq<T>, n: nat): (r: seq<T>)
    ensures |r| == Min(n, |xs|)
    ensures r <= xs
  {
    xs[..Min(n, |xs|)]
  }

  /** Every item of a prefix is an item of the list, at the same position. */
  lemma TakeKeepsOrder<T>(xs: seq<T>, n: nat)
    ensures forall i :: 0 <= i < |Take(xs, n)| ==> Take(xs, n)[i] == xs[i]
    ensures n >= |xs| ==> Take(xs, n) == xs
  {
  }

  /**
   * `markdownFiles.find(file => file.slug === slug)` followed by the page
   * mapping: the page of the first file with the slug.
   */
  function FindProjectPage(files: seq<MarkdownFile>, slug: string): (r: Option<ProjectPage>)
    ensures r.None? <==> forall i :: 0 <= i < |files| ==> files[i].slug != slug
  {
    match FindBySlug(files, slug)
    case None => None
    case Some(f) => Some(ToProjectPage(f))
  }

  /** The article lookup of `ArticleDetail`. */
  function FindArticlePage(files: seq<MarkdownFile>, slug: string): (r: Option<ArticlePage>)
    ensures r.None? <==> forall i :: 0 <= i < |files| ==> files[i].slug != slug
  {
    match FindBySlug(files, slug)
    case None => None
    case Some(f) => Some(ToArticlePage(f))
  }

  /** The page found is built from the first file whose slug matches. */
  lemma FindProjectPageFirst(files: seq<MarkdownFile>, slug: string, i: nat)
    requires i < |files| && files[i].slug == slug
    requires forall j :: 0 <= j < i ==> files[j].slug != slug
    ensures FindProjectPage(files, slug) == Some(ToProjectPage(files[i]))
    ensures FindArticlePage(files, slug) == Some(ToArticlePage(files[i]))
  {
    FindBySlugFirst(files, slug, i);
  }

  /** `{article.abstract && (...)}`: the Abstract block is shown when the abstract is non-empty. */
  predicate ShowsAbstract(a: ArticlePage) {
    a.abstractText != ""
  }

  /** The Abstract block is shown exactly when the frontmatter holds a non-empty `abstract`. */
  lemma AbstractShownIff(f: MarkdownFile)
    ensures ShowsAbstract(ToArticlePage(f)) <==> Truthy(f.frontmatter, "abstract")
  {
  }
}
