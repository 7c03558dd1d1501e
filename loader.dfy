/**
 * `loadMarkdownFiles` in `markdownLoader.ts`: fetch the collection's
 * `index.json`, fetch every file it lists, parse each one's frontmatter, and
 * derive its slug from its file name. The network is replaced by its outcomes:
 * the index response and, for each file name, the response to fetching it.
 */
module Loader {
  import opened Wrappers
  import opened Strings
  import opened Frontmatter

  /** One parsed file: the `MarkdownFile` interface of the loader. */
  datatype MarkdownFile = MarkdownFile(slug: string, frontmatter: map<string, string>, content: string)

  /**
   * The outcome of fetching one file and reading its body. The loader does not
   * look at the status, so the body of an error response is `Fetched` like any
   * other; only a rejected fetch or a failing `text()` is `FetchFailed`.
   */
  datatype FileResponse = FetchFailed | Fetched(text: string)

  /** A file name from the index, with the outcome of fetching that file. */
  datatype Listed = Listed(filename: string, response: FileResponse)

  /**
   * The outcome of fetching and decoding `/<type>/index.json`, each listed
   * name paired with what fetching it gave. `IndexUnavailable` stands for every
   * way the index itself fails: the fetch rejects, the response is not `ok`,
   * or its body is not a JSON array of file names.
   */
  datatype IndexResponse = IndexUnavailable | Listing(entries: seq<Listed>)

  /** `filename.replace('.md', '')`: the first `.md` is removed, wherever it is. */
  function Slug(filename: string): (slug: string)
    ensures !Contains(filename, ".md") ==> slug == filename
    ensures Contains(filename, ".md") ==> |slug| == |filename| - 3
  {
    ReplaceFirst(filename, ".md", "")
  }

  /** `.md` starts at position `j` of `s`. */
  predicate ExtensionAt(s: string, j: nat) {
    j + 3 <= |s| && s[j] == '.' && s[j + 1] == 'm' && s[j + 2] == 'd'
  }

  lemma ExtensionAtIff(s: string, j: nat)
    requires j <= |s|
    ensures StartsWith(s[j..], ".md") <==> ExtensionAt(s, j)
  {
    if j + 3 <= |s| {
      assert s[j..][..3] == [s[j], s[j + 1], s[j + 2]];
    }
  }

  /** A file name in which `.md` does not occur is its own slug. */
  lemma SlugWithoutExtension(filename: string)
    requires !Contains(filename, ".md")
    ensures Slug(filename) == filename
  {
  }

  /** The slug drops the first `.md` and keeps everything else, including any later `.md`. */
  lemma SlugDropsFirstExtension(a: string, b: string)
    requires !Contains(a, ".md")
    ensures Slug(a + ".md" + b) == a + b
  {
    var s := a + ".md" + b;
    FirstExtension(a, b);
    assert s[..|a|] == a && s[|a| + 3..] == b;
  }

  /** The first `.md` of `a + ".md" + b` is the one after `a`. */
  lemma FirstExtension(a: string, b: string)
    requires !Contains(a, ".md")
    ensures IndexOf(a + ".md" + b, ".md") == Some(|a|)
  {
    var s := a + ".md" + b;
    assert s[|a|] == '.' && s[|a| + 1] == 'm' && s[|a| + 2] == 'd';
    ExtensionAtIff(s, |a|);
    forall j | 0 <= j < |a| ensures !StartsWith(s[j..], ".md") {
      ExtensionAtIff(s, j);
      ExtensionAtIff(a, j);
      if j + 3 <= |a| {
        assert s[j] == a[j] && s[j + 1] == a[j + 1] && s[j + 2] == a[j + 2];
      }
    }
  }

  function Parts(p: Parsed): (map<string, string>, string) {
    (p.frontmatter, p.content)
  }

  /** The record built for one fetched file. */
  function LoadFile(filename: string, text: string): (f: MarkdownFile)
    ensures f.slug == Slug(filename)
    ensures (f.frontmatter, f.content) == Parts(ParseFrontmatter(text))
  {
    var parsed := ParseFrontmatter(text);
    MarkdownFile(Slug(filename), parsed.frontmatter, parsed.content)
  }

  /** Every listed file was fetched. */
  predicate AllFetched(entries: seq<Listed>) {
    forall i :: 0 <= i < |entries| ==> entries[i].response.Fetched?
  }

  /**
   * `Promise.all` over the per-file loads: the records in the order of the
   * index when every fetch succeeds, and nothing as soon as one fails.
   */
  function LoadAll(entries: seq<Listed>): (r: Option<seq<MarkdownFile>>)
    ensures r.None? <==> !AllFetched(entries)
    ensures r.Some? ==> (|r.value| == |entries| &&
      forall i :: 0 <= i < |entries| ==> r.value[i] == LoadFile(entries[i].filename, entries[i].response.text))
    decreases |entries|
  {
    if |entries| == 0 then Some([])
    else
      match entries[0].response
      case FetchFailed => None
      case Fetched(text) =>
        assert forall i :: 1 <= i < |entries| ==> entries[1..][i - 1] == entries[i];
        match LoadAll(entries[1..])
        case None => None
        case Some(rest) => Some([LoadFile(entries[0].filename, text)] + rest)
  }

  /** `loadMarkdownFiles`: every failure on the way, caught, gives the empty list. */
  function LoadMarkdownFiles(index: IndexResponse): seq<MarkdownFile> {
    match index
    case IndexUnavailable => []
    case Listing(entries) =>
      match LoadAll(entries)
      case None => []
      case Some(files) => files
  }

  /** Without an index there is nothing. */
  lemma IndexUnavailableLoadsNothing()
    ensures LoadMarkdownFiles(IndexUnavailable) == []
  {
  }

  /** One failed file fetch empties the whole result. */
  lemma FailedFetchLoadsNothing(entries: seq<Listed>, i: nat)
    requires i < |entries| && entries[i].response.FetchFailed?
    ensures LoadMarkdownFiles(Listing(entries)) == []
  {
  }

  /**
   * When every fetch succeeds there is one record per listed file name, in the
   * order of the index, with the slug of that name and the parse of that body.
   */
  lemma LoadedInIndexOrder(entries: seq<Listed>)
    requires AllFetched(entries)
    ensures var files := LoadMarkdownFiles(Listing(entries));
      |files| == |entries| &&
      forall i :: 0 <= i < |entries| ==>
        files[i].slug == Slug(entries[i].filename) &&
        (files[i].frontmatter, files[i].content) == Parts(ParseFrontmatter(entries[i].response.text))
  {
  }

  /**
   * `files.find(file => file.slug === slug)`: the FIRST record with that
   * slug, or `None` (the source's `undefined`).
   */
  function FindBySlug(files: seq<MarkdownFile>, slug: string): (r: Option<MarkdownFile>)
    ensures r.None? <==> forall i :: 0 <= i < |files| ==> files[i].slug != slug
    ensures r.Some? ==>
      exists i :: 0 <= i < |files| && files[i] == r.value && r.value.slug == slug &&
        forall j :: 0 <= j < i ==> files[j].slug != slug
    decreases |files|
  {
    if |files| == 0 then None
    else if files[0].slug == slug then Some(files[0])
    else
      var r := FindBySlug(files[1..], slug);
      assert forall i :: 1 <= i < |files| ==> files[1..][i - 1] == files[i];
      r
  }

  /** When two records share a slug, the earlier one is found. */
  lemma FindBySlugFirst(files: seq<MarkdownFile>, slug: string, i: nat)
    requires i < |files| && files[i].slug == slug
    requires forall j :: 0 <= j < i ==> files[j].slug != slug
    ensures FindBySlug(files, slug) == Some(files[i])
  {
    var r := FindBySlug(files, slug);
    var k :| 0 <= k < |files| && files[k] == r.value && r.value.slug == slug &&
      forall j :: 0 <= j < k ==> files[j].slug != slug;
    assert k == i;
  }
}
