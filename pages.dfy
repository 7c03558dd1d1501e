/**
 * The state of the components that load a collection: the two list
 * components shared by the home page and the "all" pages, and the two detail
 * pages. Each starts loading, runs its effect once with the outcome of
 * `loadMarkdownFiles`, and then renders from its state.
 */
module Pages {
  import opened Wrappers
  import opened Loader
  import opened Records

  /** What a list component renders. */
  datatype ListView<T> = ListLoading | Cards(items: seq<T>)

  /** What a detail page renders. */
  datatype DetailView<T> = DetailLoading | NotFound | Shown(item: T)

  /** The number of cards on the home page's project section. */
  const FeaturedProjectCount: nat := 3

  /** The number of cards on the home page's article section. */
  const FeaturedArticleCount: nat := 2

  /**
   * The state of `DynamicProjects` and of `AllProjects`: the same effect, two
   * ways of rendering the list.
   */
  class ProjectList {
    var projects: seq<Project>
    var loading: bool

    constructor()
      ensures projects == [] && loading
    {
      projects := [];
      loading := true;
    }

    /**
     * The effect: `setProjects` with the mapped files, then `setLoading(false)`
     * in `finally`. The loader itself never throws (it returns `[]`), so the
     * `catch` branch is never taken.
     */
    method Load(index: IndexResponse)
      modifies this
      ensures projects == MapProjects(LoadMarkdownFiles(index))
      ensures !loading
    {
      var markdownFiles := LoadMarkdownFiles(index);
      projects := MapProjects(markdownFiles);
      loading := false;
    }

    /** `DynamicProjects`: the first three projects once loaded. */
    function FeaturedView(): (v: ListView<Project>)
      reads this
      ensures v.ListLoading? <==> loading
      ensures v.Cards? ==> v.items == Take(projects, FeaturedProjectCount)
    {
      if loading then ListLoading else Cards(Take(projects, FeaturedProjectCount))
    }

    /** `AllProjects`: every project once loaded. */
    function AllView(): (v: ListView<Project>)
      reads this
      ensures v.ListLoading? <==> loading
      ensures v.Cards? ==> v.items == projects
    {
      if loading then ListLoading else Cards(projects)
    }
  }

  /** The state of `DynamicResearchArticles` and of `AllArticles`. */
  class ArticleList {
    var articles: seq<Article>
    var loading: bool

    constructor()
      ensures articles == [] && loading
    {
      articles := [];
      loading := true;
    }

    /** The effect: `setArticles` with the mapped files, then `setLoading(false)`. */
    method Load(index: IndexResponse)
      modifies this
      ensures articles == MapArticles(LoadMarkdownFiles(index))
      ensures !loading
    {
      var markdownFiles := LoadMarkdownFiles(index);
      articles := MapArticles(markdownFiles);
      loading := false;
    }

    /** `DynamicResearchArticles`: the first two articles once loaded. */
    function FeaturedView(): (v: ListView<Article>)
      reads this
      ensures v.ListLoading? <==> loading
      ensures v.Cards? ==> v.items == Take(articles, FeaturedArticleCount)
    {
      if loading then ListLoading else Cards(Take(articles, FeaturedArticleCount))
    }

    /** `AllArticles`: every article once loaded. */
    function AllView(): (v: ListView<Article>)
      reads this
      ensures v.ListLoading? <==> loading
      ensures v.Cards? ==> v.items == articles
    {
      if loading then ListLoading else Cards(articles)
    }
  }

  /** The projects the home page shows once loaded. */
  function FeaturedProjects(index: IndexResponse): (ps: seq<Project>)
    ensures |ps| == Min(FeaturedProjectCount, |LoadMarkdownFiles(index)|)
  {
    Take(MapProjects(LoadMarkdownFiles(index)), FeaturedProjectCount)
  }

  /** The articles the home page shows once loaded. */
  function FeaturedArticles(index: IndexResponse): (arts: seq<Article>)
    ensures |arts| == Min(FeaturedArticleCount, |LoadMarkdownFiles(index)|)
  {
    Take(MapArticles(LoadMarkdownFiles(index)), FeaturedArticleCount)
  }

  /**
   * The home page shows the first `min(3, n)` loaded files as projects and the
   * first `min(2, n)` as articles, in the order of the index.
   */
  lemma FeaturedAreFirstFiles(index: IndexResponse)
    ensures var files := LoadMarkdownFiles(index); var ps := FeaturedProjects(index);
      |ps| == Min(FeaturedProjectCount, |files|) &&
      forall i :: 0 <= i < |ps| ==> ps[i] == ToProject(files[i])
    ensures var files := LoadMarkdownFiles(index); var arts := FeaturedArticles(index);
      |arts| == Min(FeaturedArticleCount, |files|) &&
      forall i :: 0 <= i < |arts| ==> arts[i] == ToArticle(files[i])
  {
    var files := LoadMarkdownFiles(index);
    TakeKeepsOrder(MapProjects(files), FeaturedProjectCount);
    TakeKeepsOrder(MapArticles(files), FeaturedArticleCount);
  }

  /** A failed load ends with an empty list shown, not with a loading message. */
  lemma FailedLoadShowsNoCards(entries: seq<Listed>, i: nat)
    requires i < |entries| && entries[i].response.FetchFailed?
    ensures MapProjects(LoadMarkdownFiles(Listing(entries))) == []
    ensures MapArticles(LoadMarkdownFiles(Listing(entries))) == []
  {
    FailedFetchLoadsNothing(entries, i);
  }

  /** `if (slug)`: the route parameter is present and not empty. */
  predicate HasSlug(slug: Option<string>) {
    slug.Some? && slug.value != ""
  }

  /** What the project page shows once its effect has run on a fresh state. */
  function ProjectOutcome(slug: Option<string>, index: IndexResponse): (v: DetailView<ProjectPage>)
    ensures v.DetailLoading? <==> !HasSlug(slug)
    ensures v.Shown? ==> v.item.slug == slug.value
  {
    if !HasSlug(slug) then DetailLoading
    else
      match FindProjectPage(LoadMarkdownFiles(index), slug.value)
      case None => NotFound
      case Some(p) => Shown(p)
  }

  /** What the article page shows once its effect has run on a fresh state. */
  function ArticleOutcome(slug: Option<string>, index: IndexResponse): (v: DetailView<ArticlePage>)
    ensures v.DetailLoading? <==> !HasSlug(slug)
    ensures v.Shown? ==> v.item.slug == slug.value
  {
    if !HasSlug(slug) then DetailLoading
    else
      match FindArticlePage(LoadMarkdownFiles(index), slug.value)
      case None => NotFound
      case Some(a) => Shown(a)
  }

  /** Without a route slug no load runs, and the page shows its loading message for good. */
  lemma MissingSlugKeepsLoading(index: IndexResponse)
    ensures ProjectOutcome(None, index) == DetailLoading && ProjectOutcome(Some(""), index) == DetailLoading
    ensures ArticleOutcome(None, index) == DetailLoading && ArticleOutcome(Some(""), index) == DetailLoading
  {
  }

  /** "Not Found" is shown exactly when no loaded file has the route slug. */
  lemma NotFoundIff(slug: string, index: IndexResponse)
    requires slug != ""
    ensures ProjectOutcome(Some(slug), index).NotFound? <==>
      forall i :: 0 <= i < |LoadMarkdownFiles(index)| ==> LoadMarkdownFiles(index)[i].slug != slug
    ensures ArticleOutcome(Some(slug), index).NotFound? <==>
      forall i :: 0 <= i < |LoadMarkdownFiles(index)| ==> LoadMarkdownFiles(index)[i].slug != slug
  {
  }

  /** The page shown is built from the FIRST loaded file with the route slug. */
  lemma ShownIsFirstMatch(slug: string, index: IndexResponse, i: nat)
    requires slug != ""
    requires var files := LoadMarkdownFiles(index);
      i < |files| && files[i].slug == slug && forall j :: 0 <= j < i ==> files[j].slug != slug
    ensures ProjectOutcome(Some(slug), index) == Shown(ToProjectPage(LoadMarkdownFiles(index)[i]))
    ensures ArticleOutcome(Some(slug), index) == Shown(ToArticlePage(LoadMarkdownFiles(index)[i]))
  {
    FindProjectPageFirst(LoadMarkdownFiles(index), slug, i);
  }

  /** The state of `ProjectDetail` for one route slug. */
  class ProjectDetail {
    const slug: Option<string>
    var project: Option<ProjectPage>
    var loading: bool

    constructor(slug: Option<string>)
      ensures this.slug == slug && project.None? && loading
    {
      this.slug := slug;
      project := None;
      loading := true;
    }

    /**
     * The effect: with a slug, look the project up, `setProject` when found,
     * and `setLoading(false)` in `finally`; without one, nothing happens.
     */
    method Mount(index: IndexResponse)
      modifies this
      ensures HasSlug(slug) ==> !loading
      ensures HasSlug(slug) ==>
        var found := FindProjectPage(LoadMarkdownFiles(index), slug.value);
        project == if found.Some? then found else old(project)
      ensures !HasSlug(slug) ==> loading == old(loading) && project == old(project)
      ensures old(loading) && old(project).None? ==> View() == ProjectOutcome(slug, index)
    {
      if slug.Some? && slug.value != "" {
        var markdownFiles := LoadMarkdownFiles(index);
        var projectFile := FindBySlug(markdownFiles, slug.value);
        if projectFile.Some? {
          project := Some(ToProjectPage(projectFile.value));
        }
        loading := false;
      }
    }

    /** The loading message, then the project or "Project Not Found". */
    function View(): (v: DetailView<ProjectPage>)
      reads this
      ensures v.DetailLoading? <==> loading
      ensures v.NotFound? <==> !loading && project.None?
      ensures v.Shown? ==> Some(v.item) == project
    {
      if loading then DetailLoading
      else if project.None? then NotFound
      else Shown(project.value)
    }
  }

  /** The state of `ArticleDetail` for one route slug. */
  class ArticleDetail {
    const slug: Option<string>
    var article: Option<ArticlePage>
    var loading: bool

    constructor(slug: Option<string>)
      ensures this.slug == slug && article.None? && loading
    {
      this.slug := slug;
      article := None;
      loading := true;
    }

    /** The effect: with a slug, look the article up, `setArticle` when found, then stop loading. */
    method Mount(index: IndexResponse)
      modifies this
      ensures HasSlug(slug) ==> !loading
      ensures HasSlug(slug) ==>
        var found := FindArticlePage(LoadMarkdownFiles(index), slug.value);
        article == if found.Some? then found else old(article)
      ensures !HasSlug(slug) ==> loading == old(loading) && article == old(article)
      ensures old(loading) && old(article).None? ==> View() == ArticleOutcome(slug, index)
    {
      if slug.Some? && slug.value != "" {
        var markdownFiles := LoadMarkdownFiles(index);
        var articleFile := FindBySlug(markdownFiles, slug.value);
        if articleFile.Some? {
          article := Some(ToArticlePage(articleFile.value));
        }
        loading := false;
      }
    }

    /** The loading message, then the article or "Article Not Found". */
    function View(): (v: DetailView<ArticlePage>)
      reads this
      ensures v.DetailLoading? <==> loading
      ensures v.NotFound? <==> !loading && article.None?
      ensures v.Shown? ==> Some(v.item) == article
    {
      if loading then DetailLoading
      else if article.None? then NotFound
      else Shown(article.value)
    }
  }
}
